/**
 * The collision-retry loop that reserves a fresh `<name>.<ext>` path in a
 * namespace directory, shared by both versions of `create_random_file_name`.
 *
 * The random number generator is the sequence `draws`, one draw per attempt.
 * The loop in the server has no bound; here it stops with `Exhausted` when the
 * draws run out, which stands for "still looping".
 */
module Allocator {
  import opened Wrappers
  import opened Paths
  import opened FileSystem
  import opened NameGenerator

  datatype AllocError = Io(error: IoError) | Exhausted

  /** Where to allocate, which extension, and how the name length grows. */
  datatype RetryPolicy = RetryPolicy(baseDir: string, extension: string, initialLength: nat, maxAttemptsBeforeGrow: nat)

  /** The name length in use after `n` collisions. */
  function LengthAfter(p: RetryPolicy, n: nat): nat {
    p.initialLength + n / (p.maxAttemptsBeforeGrow + 1)
  }

  /** The collision counter after `n` collisions. */
  function AttemptsAfter(p: RetryPolicy, n: nat): nat {
    n % (p.maxAttemptsBeforeGrow + 1)
  }

  /** The file name tried at attempt `n`, after `n` collisions. */
  function CandidateName(p: RetryPolicy, draws: seq<Sampler>, n: nat): string
    requires n < |draws|
  {
    RandomString(LengthAfter(p, n), draws[n]) + "." + p.extension
  }

  function CandidatePath(p: RetryPolicy, draws: seq<Sampler>, n: nat): string
    requires n < |draws|
  {
    Join(p.baseDir, CandidateName(p, draws, n))
  }

  /** The path tried at each attempt, one per draw. */
  function Candidates(p: RetryPolicy, draws: seq<Sampler>): (cands: seq<string>)
    ensures |cands| == |draws|
    ensures forall n :: 0 <= n < |cands| ==> cands[n] == CandidatePath(p, draws, n)
  {
    seq(|draws|, n requires 0 <= n < |draws| => CandidatePath(p, draws, n))
  }

  /**
   * The outcome of the loop from attempt `n` on, over the candidate paths
   * `cands`, in a directory whose occupied paths and faults are as given:
   * collisions change nothing, so the directory stays the same until the loop ends.
   */
  function AllocFrom(cands: seq<string>, occupied: set<string>, faults: map<string, FaultKind>, n: nat)
    : Result<string, AllocError>
    requires n <= |cands|
    decreases |cands| - n
  {
    if n == |cands| then Failure(Exhausted)
    else if cands[n] in occupied then AllocFrom(cands, occupied, faults, n + 1)
    else if cands[n] in faults then Failure(Io(Fault(faults[cands[n]])))
    else Success(cands[n])
  }

  /**
   * One collision: the counter goes up, and when it passes the limit (strictly)
   * the length grows by one and the counter restarts at 0.
   */
  lemma {:induction false} EscalationStep(p: RetryPolicy, n: nat)
    ensures AttemptsAfter(p, n) <= p.maxAttemptsBeforeGrow
    ensures AttemptsAfter(p, n) + 1 > p.maxAttemptsBeforeGrow ==>
              LengthAfter(p, n + 1) == LengthAfter(p, n) + 1 && AttemptsAfter(p, n + 1) == 0
    ensures AttemptsAfter(p, n) + 1 <= p.maxAttemptsBeforeGrow ==>
              LengthAfter(p, n + 1) == LengthAfter(p, n) && AttemptsAfter(p, n + 1) == AttemptsAfter(p, n) + 1
  {
    var m := p.maxAttemptsBeforeGrow + 1;
    var q, a := n / m, n % m;
    assert n == q * m + a;
    if a + 1 == m {
      assert n + 1 == (q + 1) * m;
      DivModUnique(n + 1, m, q + 1, 0);
    } else {
      assert n + 1 == q * m + (a + 1);
      DivModUnique(n + 1, m, q, a + 1);
    }
  }

  lemma {:induction false} DivModUnique(x: nat, m: nat, q: nat, r: nat)
    requires 0 <= r < m
    requires x == q * m + r
    ensures x / m == q && x % m == r
  {
    var q', r' := x / m, x % m;
    assert x == q' * m + r';
    if q' > q {
      MulLe(q + 1, q', m);
      assert false;
    } else if q' < q {
      MulLe(q' + 1, q, m);
      assert false;
    }
  }

  lemma {:induction false} MulLe(a: nat, b: nat, m: nat)
    requires a <= b
    ensures a * m <= b * m && (a + 1) * m == a * m + m
    decreases b - a
  {
    if a < b {
      MulLe(a, b - 1, m);
    }
  }

  /** The length never shrinks and never drops below the configured length. */
  lemma {:induction false} LengthMonotone(p: RetryPolicy, i: nat, j: nat)
    requires i <= j
    ensures p.initialLength <= LengthAfter(p, i) <= LengthAfter(p, j)
    decreases j - i
  {
    if i < j {
      EscalationStep(p, j - 1);
      LengthMonotone(p, i, j - 1);
    }
  }

  /**
   * Escalation is strict: the first `maxAttemptsBeforeGrow + 1` attempts use the
   * configured length and the next one is a character longer.
   */
  lemma {:induction false} GrowthBoundary(p: RetryPolicy, n: nat)
    ensures LengthAfter(p, n) == p.initialLength <==> n <= p.maxAttemptsBeforeGrow
    ensures LengthAfter(p, p.maxAttemptsBeforeGrow + 1) == p.initialLength + 1
  {
    var m := p.maxAttemptsBeforeGrow + 1;
    if n < m {
      DivModUnique(n, m, 0, n);
    } else {
      DivModUnique(n, m, n / m, n % m);
      assert n / m >= 1;
    }
    DivModUnique(m, m, 1, 0);
  }

  /** With a grow limit of 0 every collision makes the name a character longer. */
  lemma {:induction false} EveryCollisionGrows(p: RetryPolicy, n: nat)
    requires p.maxAttemptsBeforeGrow == 0
    ensures LengthAfter(p, n) == p.initialLength + n && AttemptsAfter(p, n) == 0
  {
  }

  /** The first attempt whose candidate is free, or `|cands|` when there is none. */
  function FirstFree(cands: seq<string>, occupied: set<string>, n: nat): (k: nat)
    requires n <= |cands|
    ensures n <= k <= |cands|
    ensures forall j :: n <= j < k ==> cands[j] in occupied
    ensures k == |cands| || cands[k] !in occupied
    decreases |cands| - n
  {
    if n == |cands| || cands[n] !in occupied then n
    else FirstFree(cands, occupied, n + 1)
  }

  /**
   * The loop's outcome is decided by the first candidate that does not collide:
   * it is the result unless creating it fails, and a collision is never an error.
   */
  lemma {:induction false} AllocOutcome(cands: seq<string>, occupied: set<string>, faults: map<string, FaultKind>,
                                        n: nat, k: nat)
    requires n <= k <= |cands|
    requires forall j :: n <= j < k ==> cands[j] in occupied
    requires k == |cands| || cands[k] !in occupied
    ensures AllocFrom(cands, occupied, faults, n) ==
      if k == |cands| then Failure(Exhausted)
      else if cands[k] in faults then Failure(Io(Fault(faults[cands[k]])))
      else Success(cands[k])
    decreases k - n
  {
    if n < k {
      AllocOutcome(cands, occupied, faults, n + 1, k);
    }
  }

  /**
   * A successful allocation is a candidate that was free and creatable, tried
   * after exactly `k` collisions.
   */
  lemma {:induction false} SuccessIsFreshCandidate(cands: seq<string>, occupied: set<string>, faults: map<string, FaultKind>,
                                path: string)
    requires AllocFrom(cands, occupied, faults, 0) == Success(path)
    ensures path !in occupied && path !in faults
    ensures exists k :: 0 <= k < |cands| && path == cands[k] && (forall j :: 0 <= j < k ==> cands[j] in occupied)
  {
    var k := FirstFree(cands, occupied, 0);
    AllocOutcome(cands, occupied, faults, 0, k);
  }

  /** The loop fails only with a fault at a free candidate, never with `AlreadyExists`. */
  lemma {:induction false} FailureIsFault(cands: seq<string>, occupied: set<string>, faults: map<string, FaultKind>, e: IoError)
    requires AllocFrom(cands, occupied, faults, 0) == Failure(Io(e))
    ensures e.Fault?
    ensures exists k :: 0 <= k < |cands| && cands[k] !in occupied && cands[k] in faults
                          && e == Fault(faults[cands[k]])
  {
    var k := FirstFree(cands, occupied, 0);
    AllocOutcome(cands, occupied, faults, 0, k);
  }

  /** A candidate's name is `<stem>.<ext>` with an alphanumeric stem of the current length. */
  lemma {:induction false} CandidateShape(p: RetryPolicy, draws: seq<Sampler>, k: nat)
    requires k < |draws|
    ensures exists stem :: CandidatePath(p, draws, k) == Join(p.baseDir, stem + "." + p.extension)
                           && |stem| == LengthAfter(p, k) >= p.initialLength
                           && forall i :: 0 <= i < |stem| ==> IsAlphanumeric(stem[i])
  {
    LengthMonotone(p, 0, k);
    var stem := RandomString(LengthAfter(p, k), draws[k]);
    assert CandidatePath(p, draws, k) == Join(p.baseDir, stem + "." + p.extension);
  }

  /**
   * With a starting length of at least one, every candidate is a single
   * `<stem>.<ext>` component under the base directory: its file name is the
   * candidate name and its extension the policy's.
   */
  lemma {:induction false} CandidateFileName(p: RetryPolicy, draws: seq<Sampler>, k: nat)
    requires k < |draws| && p.initialLength >= 1
    requires '.' !in p.extension && '/' !in p.extension
    ensures IsPlainName(CandidateName(p, draws, k))
    ensures NameExtension(CandidateName(p, draws, k)) == Some(p.extension)
    ensures FileName(CandidatePath(p, draws, k)) == Some(CandidateName(p, draws, k))
    ensures Extension(CandidatePath(p, draws, k)) == Some(p.extension)
  {
    LengthMonotone(p, 0, k);
    var stem := RandomString(LengthAfter(p, k), draws[k]);
    assert stem[0] != '.' && '/' !in stem;
    PlainStemName(stem, p.extension);
    ExtensionOfStem(stem, p.extension);
    FileNameOfJoin(p.baseDir, CandidateName(p, draws, k));
  }

  /**
   * In a directory that holds nothing yet, with no faults, the first
   * candidate is taken: a name of at least one character never collides with
   * the directory itself.
   */
  lemma {:induction false} EmptyDirectoryFirstAttempt(p: RetryPolicy, draws: seq<Sampler>)
    requires |draws| >= 1 && p.initialLength >= 1 && '.' !in p.extension && '/' !in p.extension
    ensures AllocFrom(Candidates(p, draws), {p.baseDir}, map[], 0) == Success(CandidatePath(p, draws, 0))
  {
    CandidateFileName(p, draws, 0);
    NormalOfJoin(p.baseDir, CandidateName(p, draws, 0));
    assert CandidatePath(p, draws, 0) != p.baseDir;
    assert Candidates(p, draws)[0] == CandidatePath(p, draws, 0);
  }

  /**
   * The loop of `create_random_file_name`: propose a name, create it
   * exclusively, and on a collision count it and grow the length once the count
   * passes the limit.
   */
  method RetryAllocate(disk: Disk, p: RetryPolicy, draws: seq<Sampler>) returns (r: Result<string, AllocError>)
    modifies disk
    ensures r == AllocFrom(Candidates(p, draws), old(disk.Occupied()), old(disk.faults), 0)
    ensures disk.files == (if r.Success? then old(disk.files) + {r.value} else old(disk.files))
    ensures disk.dirs == old(disk.dirs) && disk.faults == old(disk.faults)
    ensures r.Success? ==> r.value !in old(disk.Occupied()) && r.value in disk.files
  {
    ghost var cands := Candidates(p, draws);
    var length := p.initialLength;
    var attempts := 0;
    var n := 0;
    while n < |draws|
      invariant n <= |draws|
      invariant length == LengthAfter(p, n) && attempts == AttemptsAfter(p, n)
      invariant AllocFrom(cands, old(disk.Occupied()), old(disk.faults), 0)
             == AllocFrom(cands, old(disk.Occupied()), old(disk.faults), n)
      invariant disk.files == old(disk.files) && disk.dirs == old(disk.dirs) && disk.faults == old(disk.faults)
      decreases |draws| - n
    {
      var candidate := Join(p.baseDir, RandomString(length, draws[n]) + "." + p.extension);
      assert candidate == cands[n];
      var created := disk.CreateNew(candidate);
      match created {
        case Success(_) =>
          return Success(candidate);
        case Failure(AlreadyExists) =>
          EscalationStep(p, n);
          attempts := attempts + 1;
          if attempts > p.maxAttemptsBeforeGrow {
            length := length + 1;
            attempts := 0;
          }
        case Failure(Fault(kind)) =>
          return Failure(Io(Fault(kind)));
      }
      n := n + 1;
    }
    return Failure(Exhausted);
  }
}
