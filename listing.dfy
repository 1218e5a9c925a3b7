/**
 * What both directory renderers share: reading a directory, the stable sort
 * that puts directories first and newer entries before older ones, the
 * parent-directory link, and which entries survive into the rows.
 */
module Listing {
  import opened Wrappers
  import opened Text
  import opened Paths
  import opened FileSystem

  /** What `DirEntry::metadata` reports: the kind, the modification time if readable, the size. */
  datatype Metadata = Metadata(isDir: bool, modified: Option<int>, len: nat)

  /** A directory entry; `metadata` is `None` when reading it fails. */
  datatype DirEntry = DirEntry(path: string, fileName: string, metadata: Option<Metadata>)

  /**
   * A directory as actix-files hands it over: its path, and what `read_dir`
   * yields for it, either a failure or one item per entry, each itself an entry
   * or a failure.
   */
  datatype Directory = Directory(path: string, contents: Result<seq<Result<DirEntry, IoError>>, IoError>)

  /**
   * The formatting libraries the renderers call, as parameters: chrono's
   * `%Y-%m-%d %H:%M` in UTC, bytesize's IEC sizes, num_format's thousands
   * separators, HTML escaping and percent-encoding of control characters.
   */
  datatype Formatting = Formatting(
    formatTime: int -> string,
    byteSize: nat -> string,
    formatCount: nat -> string,
    escapeHtml: string -> string,
    percentEncode: string -> string)

  /** `Directory::is_visible`, the hidden-entry filter of actix-files, as a parameter. */
  type Visibility = Result<DirEntry, IoError> -> bool

  /** The entries that are visible and were read without error, in enumeration order. */
  function Visible(items: seq<Result<DirEntry, IoError>>, isVisible: Visibility): (entries: seq<DirEntry>)
    ensures |entries| <= |items|
    ensures forall e :: e in entries <==> Success(e) in items && isVisible(Success(e))
  {
    if items == [] then []
    else
      var n := |items| - 1;
      var rest := Visible(items[..n], isVisible);
      assert items == items[..n] + [items[n]];
      assert forall it :: it in items <==> it == items[n] || it in items[..n];
      if items[n].Success? && isVisible(items[n]) then rest + [items[n].value] else rest
  }

  /** Whether each item of `read_dir` is kept by the two filters, in enumeration order. */
  function VisibleSteps(items: seq<Result<DirEntry, IoError>>, isVisible: Visibility): (steps: seq<Option<DirEntry>>)
    ensures |steps| == |items|
    ensures forall k :: 0 <= k < |items| ==>
      steps[k] == if items[k].Success? && isVisible(items[k]) then Some(items[k].value) else None
  {
    seq(|items|, k requires 0 <= k < |items| => if items[k].Success? && isVisible(items[k]) then Some(items[k].value) else None)
  }

  /**
   * The two filters keep enumeration order: the entries are exactly the
   * visible, readable items, in the order `read_dir` yields them, each once.
   */
  lemma {:induction false} VisibleInOrder(items: seq<Result<DirEntry, IoError>>, isVisible: Visibility)
    ensures exists idx :: Selects(idx, VisibleSteps(items, isVisible), Visible(items, isVisible))
  {
    var steps := VisibleSteps(items, isVisible);
    if items == [] {
      var idx: seq<nat> := [];
      assert Visible(items, isVisible) == [] && steps == [];
      assert Selects(idx, steps, []);
    } else {
      var n := |items| - 1;
      VisibleInOrder(items[..n], isVisible);
      VisibleLast(items, isVisible);
      var rows0 := Visible(items[..n], isVisible);
      var idx0 :| Selects(idx0, steps[..n], rows0);
      SelectsStep(idx0, steps, rows0);
    }
  }

  /** The last item decides, on its own, whether one more entry is kept. */
  lemma {:induction false} VisibleLast(items: seq<Result<DirEntry, IoError>>, isVisible: Visibility)
    requires items != []
    ensures var n, steps := |items| - 1, VisibleSteps(items, isVisible);
      && VisibleSteps(items[..n], isVisible) == steps[..n]
      && Visible(items, isVisible) == Visible(items[..n], isVisible) + (if steps[n].Some? then [steps[n].value] else [])
  {
  }

  /** Filtering two runs of items one after the other filters each run on its own. */
  lemma {:induction false} VisibleAppend(a: seq<Result<DirEntry, IoError>>, b: seq<Result<DirEntry, IoError>>, isVisible: Visibility)
    ensures Visible(a + b, isVisible) == Visible(a, isVisible) + Visible(b, isVisible)
    decreases |b|
  {
    if b == [] {
      assert a + b == a;
    } else {
      var n := |b| - 1;
      assert (a + b)[..|a + b| - 1] == a + b[..n];
      assert (a + b)[|a + b| - 1] == b[n];
      var last := if b[n].Success? && isVisible(b[n]) then [b[n].value] else [];
      assert Visible(a + b, isVisible) == Visible(a + b[..n], isVisible) + last;
      assert Visible(b, isVisible) == Visible(b[..n], isVisible) + last;
      VisibleAppend(a, b[..n], isVisible);
    }
  }

  // ---------------------------------------------------------------------------
  // The sort key
  // ---------------------------------------------------------------------------

  /** `(is_file, Reverse(modified))`: `modified` counts time since the Unix epoch. */
  datatype SortKey = SortKey(isFile: bool, modified: int)

  /**
   * The key of an entry. Unreadable metadata makes the entry a file, and an
   * unreadable modification time counts as the epoch.
   */
  function KeyOf(e: DirEntry): (k: SortKey)
    ensures e.metadata.None? ==> k == SortKey(true, 0)
    ensures e.metadata.Some? ==> k == SortKey(!e.metadata.value.isDir, e.metadata.value.modified.GetOr(0))
  {
    match e.metadata
    case None => SortKey(true, 0)
    case Some(m) => SortKey(!m.isDir, m.modified.GetOr(0))
  }

  /** The order on keys: `false < true` first, then the later time first. */
  predicate KeyLe(a: SortKey, b: SortKey) {
    (!a.isFile && b.isFile) || (a.isFile == b.isFile && a.modified >= b.modified)
  }

  predicate Le(x: DirEntry, y: DirEntry) {
    KeyLe(KeyOf(x), KeyOf(y))
  }

  predicate Sorted(s: seq<DirEntry>) {
    forall i, j :: 0 <= i < j < |s| ==> Le(s[i], s[j])
  }

  /** The entries with key `k`, in order. */
  function Keep(s: seq<DirEntry>, k: SortKey): (r: seq<DirEntry>)
    ensures |r| <= |s|
  {
    if s == [] then []
    else Keep(s[..|s| - 1], k) + (if KeyOf(s[|s| - 1]) == k then [s[|s| - 1]] else [])
  }

  // ---------------------------------------------------------------------------
  // The stable sort, as insertion from the right end
  // ---------------------------------------------------------------------------

  /** Inserts `x` into the sorted `t` after every entry whose key is not greater. */
  function Insert(t: seq<DirEntry>, x: DirEntry): (r: seq<DirEntry>)
    ensures |r| == |t| + 1
  {
    if t == [] then [x]
    else if Le(t[|t| - 1], x) then t + [x]
    else Insert(t[..|t| - 1], x) + [t[|t| - 1]]
  }

  /** `sort_by_key` with the key above: a stable sort. */
  function SortByKey(s: seq<DirEntry>): (r: seq<DirEntry>)
    ensures |r| == |s|
  {
    if s == [] then [] else Insert(SortByKey(s[..|s| - 1]), s[|s| - 1])
  }

  lemma {:induction false} InsertPermutes(t: seq<DirEntry>, x: DirEntry)
    ensures multiset(Insert(t, x)) == multiset(t) + multiset{x}
  {
    if t != [] && !Le(t[|t| - 1], x) {
      InsertPermutes(t[..|t| - 1], x);
      assert t == t[..|t| - 1] + [t[|t| - 1]];
    }
  }

  /** The sort only reorders: the result is a permutation of the input. */
  lemma {:induction false} SortPermutes(s: seq<DirEntry>)
    ensures multiset(SortByKey(s)) == multiset(s)
  {
    if s != [] {
      SortPermutes(s[..|s| - 1]);
      InsertPermutes(SortByKey(s[..|s| - 1]), s[|s| - 1]);
      assert s == s[..|s| - 1] + [s[|s| - 1]];
    }
  }

  lemma {:induction false} InsertSorted(t: seq<DirEntry>, x: DirEntry)
    requires Sorted(t)
    ensures Sorted(Insert(t, x))
  {
    if t == [] {
    } else if Le(t[|t| - 1], x) {
      var r := t + [x];
      forall i, j | 0 <= i < j < |r| ensures Le(r[i], r[j]) {
        if j == |t| && i < |t| - 1 {
          assert Le(t[i], t[|t| - 1]);
        }
      }
    } else {
      var init, last := t[..|t| - 1], t[|t| - 1];
      InsertSorted(init, x);
      InsertPermutes(init, x);
      var r0 := Insert(init, x);
      var r := r0 + [last];
      forall i, j | 0 <= i < j < |r| ensures Le(r[i], r[j]) {
        if j == |r0| {
          assert r0[i] in multiset(init) + multiset{x} by {
            assert r0[i] in multiset(r0);
          }
          if r0[i] != x {
            assert r0[i] in init;
          }
        }
      }
    }
  }

  /** The result is in key order: directories, newest first, then files, newest first. */
  lemma {:induction false} SortSorts(s: seq<DirEntry>)
    ensures Sorted(SortByKey(s))
  {
    if s != [] {
      SortSorts(s[..|s| - 1]);
      InsertSorted(SortByKey(s[..|s| - 1]), s[|s| - 1]);
    }
  }

  lemma {:induction false} KeepAppend(a: seq<DirEntry>, b: seq<DirEntry>, k: SortKey)
    ensures Keep(a + b, k) == Keep(a, k) + Keep(b, k)
  {
    if b == [] {
      assert a + b == a;
    } else {
      assert (a + b)[..|a + b| - 1] == a + b[..|b| - 1];
      KeepAppend(a, b[..|b| - 1], k);
    }
  }

  lemma {:induction false} InsertKeeps(t: seq<DirEntry>, x: DirEntry, k: SortKey)
    ensures Keep(Insert(t, x), k) == Keep(t, k) + (if KeyOf(x) == k then [x] else [])
  {
    if t == [] {
    } else if Le(t[|t| - 1], x) {
      KeepAppend(t, [x], k);
    } else {
      var init, last := t[..|t| - 1], t[|t| - 1];
      InsertKeeps(init, x, k);
      KeepAppend(Insert(init, x), [last], k);
      assert KeyOf(last) != KeyOf(x);
    }
  }

  /**
   * The sort is stable: the entries of any one key keep their enumeration
   * order.
   */
  lemma {:induction false} SortStable(s: seq<DirEntry>, k: SortKey)
    ensures Keep(SortByKey(s), k) == Keep(s, k)
  {
    if s != [] {
      SortStable(s[..|s| - 1], k);
      InsertKeeps(SortByKey(s[..|s| - 1]), s[|s| - 1], k);
    }
  }

  /**
   * In the sorted entries every directory comes before every file (an entry
   * with unreadable metadata counting as a file), and within each group the
   * modification times do not increase.
   */
  lemma {:induction false} SortOrder(s: seq<DirEntry>, i: nat, j: nat)
    requires i < j < |SortByKey(s)|
    ensures var r := SortByKey(s);
      && (KeyOf(r[j]).isFile == false ==> KeyOf(r[i]).isFile == false)
      && (r[j].metadata.Some? && r[j].metadata.value.isDir ==> r[i].metadata.Some? && r[i].metadata.value.isDir)
      && (KeyOf(r[i]).isFile == KeyOf(r[j]).isFile ==> KeyOf(r[i]).modified >= KeyOf(r[j]).modified)
  {
    SortSorts(s);
  }

  /**
   * An entry whose modification time cannot be read sorts after every entry of
   * its group whose time is after the epoch.
   */
  lemma {:induction false} UnreadableTimeSortsLast(s: seq<DirEntry>, i: nat, j: nat)
    requires i < j < |SortByKey(s)|
    requires var r := SortByKey(s); r[i].metadata.Some? && r[i].metadata.value.modified.None?
    requires var r := SortByKey(s); KeyOf(r[j]).isFile == KeyOf(r[i]).isFile
    ensures KeyOf(SortByKey(s)[j]).modified <= 0
  {
    SortSorts(s);
  }

  /** An entry that may follow every entry before it is inserted at the end. */
  lemma {:induction false} InsertIntoSortedAppends(t: seq<DirEntry>, x: DirEntry)
    requires Sorted(t + [x])
    ensures Insert(t, x) == t + [x]
  {
    if t != [] {
      assert Le((t + [x])[|t| - 1], (t + [x])[|t|]);
    }
  }

  /** Sorting entries already in key order leaves them as they are, so sorting twice sorts nothing more. */
  lemma {:induction false} SortIdempotent(s: seq<DirEntry>)
    requires Sorted(s)
    ensures SortByKey(s) == s
  {
    if s != [] {
      var init := s[..|s| - 1];
      assert Sorted(init) by {
        forall i, j | 0 <= i < j < |init| ensures Le(init[i], init[j]) {
          assert init[i] == s[i] && init[j] == s[j];
        }
      }
      SortIdempotent(init);
      assert s == init + [s[|s| - 1]];
      InsertIntoSortedAppends(init, s[|s| - 1]);
    }
  }

  // ---------------------------------------------------------------------------
  // The sort, in place
  // ---------------------------------------------------------------------------

  /**
   * `Insert` puts `x` right after the last element it may follow: after
   * position `j` when every later element must come after `x`.
   */
  lemma {:induction false} InsertPosition(sorted: seq<DirEntry>, x: DirEntry, j: nat)
    requires j <= |sorted| && (j == 0 || Le(sorted[j - 1], x))
    requires forall k :: j <= k < |sorted| ==> !Le(sorted[k], x)
    ensures Insert(sorted, x) == sorted[..j] + [x] + sorted[j..]
    decreases |sorted|
  {
    if j < |sorted| {
      var init := sorted[..|sorted| - 1];
      InsertPosition(init, x, j);
      assert init[..j] == sorted[..j];
      assert init[j..] + [sorted[|sorted| - 1]] == sorted[j..];
    } else {
      assert sorted[..j] == sorted;
    }
  }

  /**
   * The inner loop of the insertion sort: moves each element before position
   * `i` that must come after `x` one place to the right, stopping at the first
   * that may precede `x`; `j` is the gap left for `x`.
   */
  method ShiftGreater(a: array<DirEntry>, i: nat, x: DirEntry) returns (j: nat)
    requires i < a.Length
    modifies a
    ensures j <= i
    ensures forall k :: 0 <= k < j ==> a[k] == old(a[k])
    ensures forall k :: j < k <= i ==> a[k] == old(a[k - 1])
    ensures forall k :: i < k < a.Length ==> a[k] == old(a[k])
    ensures j == 0 || Le(old(a[j - 1]), x)
    ensures forall k :: j <= k < i ==> !Le(old(a[k]), x)
  {
    j := i;
    while j > 0 && !Le(a[j - 1], x)
      invariant j <= i
      invariant forall k :: 0 <= k < j ==> a[k] == old(a[k])
      invariant forall k :: j < k <= i ==> a[k] == old(a[k - 1])
      invariant forall k :: i < k < a.Length ==> a[k] == old(a[k])
      invariant forall k :: j <= k < i ==> !Le(old(a[k]), x)
    {
      a[j] := a[j - 1];
      j := j - 1;
    }
  }

  /** One pass of the insertion sort: inserts `a[i]` into the sorted prefix before it. */
  /**
   * The array after `ShiftGreater` and the store of `x` at `j`, read as a
   * sequence: its first `i + 1` entries are the old prefix with `x` at `j`.
   */
  lemma {:induction false} PlaceShifted(input: seq<DirEntry>, output: seq<DirEntry>, i: nat, j: nat)
    requires j <= i < |input| == |output|
    requires forall k :: 0 <= k < j ==> output[k] == input[k]
    requires forall k :: j < k <= i ==> output[k] == input[k - 1]
    ensures output[..i + 1] == input[..i][..j] + [output[j]] + input[..i][j..]
  {
    var expected := input[..i][..j] + [output[j]] + input[..i][j..];
    forall k | 0 <= k <= i ensures output[k] == expected[k] {
      if k < j {
        assert expected[k] == input[k];
      } else if j < k {
        assert expected[k] == input[k - 1];
      }
    }
  }

  method InsertAt(a: array<DirEntry>, i: nat)
    requires i < a.Length
    modifies a
    ensures a[..i + 1] == Insert(old(a[..i]), old(a[i]))
    ensures a[i + 1..] == old(a[i + 1..])
  {
    ghost var input := a[..];
    ghost var sorted := input[..i];
    var x := a[i];
    var j := ShiftGreater(a, i, x);
    assert j == 0 || Le(sorted[j - 1], x);
    assert forall k :: j <= k < i ==> !Le(sorted[k], x);
    InsertPosition(sorted, x, j);
    a[j] := x;
    ghost var output := a[..];
    PlaceShifted(input, output, i, j);
    assert forall k :: i < k < a.Length ==> output[k] == input[k];
    assert output[i + 1..] == input[i + 1..];
  }

  /** `entries.sort_by_key(...)`: insertion sort, which is stable like the library's sort. */
  method SortInPlace(a: array<DirEntry>)
    modifies a
    ensures a[..] == SortByKey(old(a[..]))
  {
    ghost var input := a[..];
    var i := 0;
    while i < a.Length
      invariant 0 <= i <= a.Length
      invariant a[..i] == SortByKey(input[..i])
      invariant a[i..] == input[i..]
    {
      InsertAt(a, i);
      assert input[..i + 1][..i] == input[..i];
      i := i + 1;
    }
    assert input[..a.Length] == input;
  }

  /**
   * `sorted_entries`: the visible, readable entries of the directory in key
   * order, or the error that reading the directory reports.
   */
  method SortedEntries(dir: Directory, isVisible: Visibility) returns (r: Result<seq<DirEntry>, IoError>)
    ensures dir.contents.Failure? ==> r == Failure(dir.contents.error)
    ensures dir.contents.Success? ==> r == Success(SortByKey(Visible(dir.contents.value, isVisible)))
  {
    if dir.contents.Failure? {
      return Failure(dir.contents.error);
    }
    var entries := Visible(dir.contents.value, isVisible);
    var a := new DirEntry[|entries|](k requires 0 <= k < |entries| => entries[k]);
    assert a[..] == entries;
    SortInPlace(a);
    return Success(a[..]);
  }

  /**
   * The example order: `dirA` (time 10), `fileB` (30), `dirC` (20) and
   * `fileD` (5), read in that order, list as `dirC, dirA, fileB, fileD`.
   */
  lemma {:induction false} ExampleOrder()
    ensures var dirA := DirEntry("d/dirA", "dirA", Some(Metadata(true, Some(10), 0)));
      var fileB := DirEntry("d/fileB", "fileB", Some(Metadata(false, Some(30), 0)));
      var dirC := DirEntry("d/dirC", "dirC", Some(Metadata(true, Some(20), 0)));
      var fileD := DirEntry("d/fileD", "fileD", Some(Metadata(false, Some(5), 0)));
      SortByKey([dirA, fileB, dirC, fileD]) == [dirC, dirA, fileB, fileD]
  {
    var dirA := DirEntry("d/dirA", "dirA", Some(Metadata(true, Some(10), 0)));
    var fileB := DirEntry("d/fileB", "fileB", Some(Metadata(false, Some(30), 0)));
    var dirC := DirEntry("d/dirC", "dirC", Some(Metadata(true, Some(20), 0)));
    var fileD := DirEntry("d/fileD", "fileD", Some(Metadata(false, Some(5), 0)));
    assert [dirA, fileB, dirC, fileD][..3] == [dirA, fileB, dirC];
    assert [dirA, fileB, dirC][..2] == [dirA, fileB];
    assert [dirA, fileB][..1] == [dirA];
    assert [dirC, dirA, fileB][..2] == [dirC, dirA];
    assert SortByKey([dirA]) == [dirA];
    assert SortByKey([dirA, fileB]) == [dirA, fileB];
    assert Insert([dirA], dirC) == [dirC, dirA];
    assert Insert([dirA, fileB], dirC) == [dirC, dirA, fileB];
    assert SortByKey([dirA, fileB, dirC]) == [dirC, dirA, fileB];
    assert Insert([dirC, dirA, fileB], fileD) == [dirC, dirA, fileB, fileD];
  }

  // ---------------------------------------------------------------------------
  // The parent-directory link
  // ---------------------------------------------------------------------------

  /**
   * The link to the parent of the requested directory: none at depth one or
   * less; otherwise every non-empty segment but the last, between slashes.
   */
  function BackLink(requestPath: string): (r: Option<string>)
    ensures r.None? <==> |Segments(TrimEndSlashes(requestPath))| <= 1
    ensures r.Some? ==> |r.value| >= 2 && r.value[0] == '/' && r.value[|r.value| - 1] == '/'
  {
    var segments := Segments(TrimEndSlashes(requestPath));
    if |segments| <= 1 then None
    else Some("/" + JoinWith(segments[..|segments| - 1], "/") + "/")
  }

  /** A directory path written `/seg/.../seg/` has exactly those segments. */
  lemma {:induction false} SegmentsOfDirectoryPath(parts: seq<string>)
    requires forall k :: 0 <= k < |parts| ==> IsSegment(parts[k])
    ensures Segments("/" + JoinWith(parts, "/") + "/") == parts
  {
    var joined := JoinWith(parts, "/");
    SegmentsOfJoin(parts);
    SplitOfDirectoryPath(joined);
    var inner := Split(joined);
    NonEmptyAppend([""], inner + [""]);
    NonEmptyAppend(inner, [""]);
    assert NonEmpty([""]) == [];
    assert NonEmpty(inner) + [] == NonEmpty(inner);
  }

  /** Splitting `/s/` gives an empty piece on each side of the pieces of `s`. */
  lemma {:induction false} SplitOfDirectoryPath(s: string)
    ensures Split("/" + s + "/") == [""] + (Split(s) + [""])
  {
    assert "/" + s + "/" == "" + "/" + (s + "/" + "");
    SplitAppend("", s + "/" + "");
    SplitAppend(s, "");
    assert s + "/" + "" == s + "/";
  }

  /** The back link names exactly the segments of the request path but its last. */
  lemma {:induction false} BackLinkIsParent(requestPath: string)
    requires BackLink(requestPath).Some?
    ensures var segments := Segments(requestPath);
      |segments| >= 2 && Segments(BackLink(requestPath).value) == segments[..|segments| - 1]
  {
    SegmentsIgnoreTrailingSlashes(requestPath);
    var segments := Segments(requestPath);
    var parent := segments[..|segments| - 1];
    forall k | 0 <= k < |parent| ensures IsSegment(parent[k]) {
      assert parent[k] == segments[k];
      assert segments[k] in Split(requestPath);
      var m :| 0 <= m < |Split(requestPath)| && Split(requestPath)[m] == segments[k];
    }
    SegmentsOfDirectoryPath(parent);
  }

  /**
   * The parent of `/a/.../y/z/` is `/a/.../y/`, and a directory directly
   * under the root, `/a/`, has no back link.
   */
  lemma {:induction false} BackLinkOfDirectoryPath(parts: seq<string>)
    requires |parts| >= 1 && forall k :: 0 <= k < |parts| ==> IsSegment(parts[k])
    ensures BackLink("/" + JoinWith(parts, "/") + "/")
         == if |parts| == 1 then None else Some("/" + JoinWith(parts[..|parts| - 1], "/") + "/")
  {
    SegmentsOfDirectoryPath(parts);
    BackLinkOfSegments("/" + JoinWith(parts, "/") + "/");
  }

  /** The back link depends only on the segments of the request path. */
  lemma {:induction false} BackLinkOfSegments(requestPath: string)
    ensures var segments := Segments(requestPath);
      BackLink(requestPath)
      == if |segments| <= 1 then None else Some("/" + JoinWith(segments[..|segments| - 1], "/") + "/")
  {
    SegmentsIgnoreTrailingSlashes(requestPath);
  }

  /** The example: the parent of `/pics/sub/` is `/pics/`, and `/pics/` has none. */
  lemma {:induction false} BackLinkExamples()
    ensures BackLink("/pics/sub/") == Some("/pics/")
    ensures BackLink("/pics/") == None
  {
    var parts := ["pics", "sub"];
    BackLinkOfDirectoryPath(parts);
    assert JoinWith(parts, "/") == "pics/sub";
    assert "/" + JoinWith(parts, "/") + "/" == "/pics/sub/";
    assert parts[..1] == ["pics"];
    assert "/" + JoinWith(parts[..1], "/") + "/" == "/pics/";
    BackLinkOfDirectoryPath(["pics"]);
    assert "/" + JoinWith(["pics"], "/") + "/" == "/pics/";
  }

  // ---------------------------------------------------------------------------
  // Which entries become rows
  // ---------------------------------------------------------------------------

  /** An entry that becomes a row: its link, under the request path, and its metadata. */
  datatype Survivor = Survivor(entry: DirEntry, href: string, meta: Metadata)

  /**
   * One step of the row loop: an entry whose path does not lie under the
   * directory, or whose metadata cannot be read, is skipped.
   */
  function Survive(e: DirEntry, dirPath: string, requestPath: string): (r: Option<Survivor>)
    ensures r.Some? <==> StripPrefix(e.path, dirPath).Some? && e.metadata.Some?
    ensures r.Some? ==> r.value.entry == e && r.value.meta == e.metadata.value
                        && r.value.href == Join(requestPath, StripPrefix(e.path, dirPath).value)
  {
    match StripPrefix(e.path, dirPath)
    case None => None
    case Some(rel) =>
      match e.metadata
      case None => None
      case Some(m) => Some(Survivor(e, Join(requestPath, rel), m))
  }

  /** The entries that survive, in order. */
  function Survivors(entries: seq<DirEntry>, dirPath: string, requestPath: string): (r: seq<Survivor>)
    ensures |r| <= |entries|
  {
    if entries == [] then []
    else
      var step := Survive(entries[|entries| - 1], dirPath, requestPath);
      Survivors(entries[..|entries| - 1], dirPath, requestPath) + (if step.Some? then [step.value] else [])
  }

  /** Survival is decided entry by entry, so the rows of a concatenation are concatenated rows. */
  lemma {:induction false} SurvivorsAppend(a: seq<DirEntry>, b: seq<DirEntry>, dirPath: string, requestPath: string)
    ensures Survivors(a + b, dirPath, requestPath) == Survivors(a, dirPath, requestPath) + Survivors(b, dirPath, requestPath)
  {
    if b == [] {
      assert a + b == a;
    } else {
      assert (a + b)[..|a + b| - 1] == a + b[..|b| - 1];
      SurvivorsAppend(a, b[..|b| - 1], dirPath, requestPath);
    }
  }

  /** When no entry fails, no entry is lost: row `i` is entry `i`. */
  lemma {:induction false} AllSurvive(entries: seq<DirEntry>, dirPath: string, requestPath: string)
    requires forall k :: 0 <= k < |entries| ==> Survive(entries[k], dirPath, requestPath).Some?
    ensures |Survivors(entries, dirPath, requestPath)| == |entries|
    ensures forall k :: 0 <= k < |entries| ==> Survivors(entries, dirPath, requestPath)[k].entry == entries[k]
  {
    if entries != [] {
      var init := entries[..|entries| - 1];
      AllSurvive(init, dirPath, requestPath);
      var step := Survive(entries[|entries| - 1], dirPath, requestPath);
      var r0 := Survivors(init, dirPath, requestPath);
      assert Survivors(entries, dirPath, requestPath) == r0 + [step.value];
      forall k | 0 <= k < |entries| ensures Survivors(entries, dirPath, requestPath)[k].entry == entries[k] {
        if k < |init| {
          assert entries[k] == init[k];
        }
      }
    }
  }

  /** The outcome of the row loop's step for each entry, in order. */
  function Steps(entries: seq<DirEntry>, dirPath: string, requestPath: string): (steps: seq<Option<Survivor>>)
    ensures |steps| == |entries|
    ensures forall k :: 0 <= k < |entries| ==> steps[k] == Survive(entries[k], dirPath, requestPath)
  {
    seq(|entries|, k requires 0 <= k < |entries| => Survive(entries[k], dirPath, requestPath))
  }

  /**
   * `idx` lists, in increasing order, every position at which `steps` holds a
   * value, and `rows` holds those values in the same order.
   */
  predicate Selects<T(==)>(idx: seq<nat>, steps: seq<Option<T>>, rows: seq<T>) {
    && |idx| == |rows|
    && (forall i :: 0 <= i < |idx| ==> idx[i] < |steps| && steps[idx[i]] == Some(rows[i]))
    && (forall i, j :: 0 <= i < j < |idx| ==> idx[i] < idx[j])
    && (forall k :: 0 <= k < |steps| && steps[k].Some? ==> k in idx)
  }

  /** One more step extends the selection by its position when it holds a value. */
  lemma {:induction false} SelectsStep<T>(idx0: seq<nat>, steps: seq<Option<T>>, rows0: seq<T>)
    requires steps != [] && Selects(idx0, steps[..|steps| - 1], rows0)
    ensures var n := |steps| - 1;
      Selects(if steps[n].Some? then idx0 + [n] else idx0, steps,
              rows0 + (if steps[n].Some? then [steps[n].value] else []))
  {
    var n := |steps| - 1;
    var init := steps[..n];
    forall i | 0 <= i < |idx0| ensures idx0[i] < n && steps[idx0[i]] == init[idx0[i]] {
    }
    if steps[n].Some? {
      var idx, rows := idx0 + [n], rows0 + [steps[n].value];
      forall i | 0 <= i < |idx| ensures idx[i] < |steps| && steps[idx[i]] == Some(rows[i]) {
        if i < |idx0| {
          assert idx[i] == idx0[i] && rows[i] == rows0[i];
        }
      }
      forall i, j | 0 <= i < j < |idx| ensures idx[i] < idx[j] {
        assert idx[i] == idx0[i];
      }
      forall k | 0 <= k < |steps| && steps[k].Some? ensures k in idx {
        if k < n {
          assert init[k] == steps[k];
        } else {
          assert idx[|idx0|] == k;
        }
      }
    } else {
      assert rows0 + [] == rows0;
      forall k | 0 <= k < |steps| && steps[k].Some? ensures k in idx0 {
        assert k < n && init[k] == steps[k];
      }
    }
  }

  /**
   * The rows are exactly the rows of the surviving entries, in the order of
   * those entries: every row comes from an entry, no surviving entry is
   * missing, and no entry is used twice.
   */
  lemma {:induction false} SurvivorsInOrder(entries: seq<DirEntry>, dirPath: string, requestPath: string)
    ensures exists idx :: Selects(idx, Steps(entries, dirPath, requestPath), Survivors(entries, dirPath, requestPath))
  {
    var steps := Steps(entries, dirPath, requestPath);
    if entries == [] {
      var idx: seq<nat> := [];
      assert Survivors(entries, dirPath, requestPath) == [];
      assert Selects(idx, steps, []);
    } else {
      var n := |entries| - 1;
      SurvivorsInOrder(entries[..n], dirPath, requestPath);
      assert Steps(entries[..n], dirPath, requestPath) == steps[..n];
      var rows0 := Survivors(entries[..n], dirPath, requestPath);
      var idx0 :| Selects(idx0, steps[..n], rows0);
      SelectsStep(idx0, steps, rows0);
      assert Survivors(entries, dirPath, requestPath) == rows0 + (if steps[n].Some? then [steps[n].value] else []);
    }
  }

  /**
   * Among the rows of sorted entries, directories come before files, and
   * within each group newer entries come first.
   */
  lemma {:induction false} SurvivorsFollowSortOrder(s: seq<DirEntry>, dirPath: string, requestPath: string, i: nat, j: nat)
    requires i < j < |Survivors(SortByKey(s), dirPath, requestPath)|
    ensures var rows := Survivors(SortByKey(s), dirPath, requestPath);
      && (rows[j].meta.isDir ==> rows[i].meta.isDir)
      && (rows[i].meta.isDir == rows[j].meta.isDir ==> rows[i].meta.modified.GetOr(0) >= rows[j].meta.modified.GetOr(0))
  {
    var sorted := SortByKey(s);
    var rows := Survivors(sorted, dirPath, requestPath);
    var steps := Steps(sorted, dirPath, requestPath);
    SurvivorsInOrder(sorted, dirPath, requestPath);
    var idx :| Selects(idx, steps, rows);
    var a, b := idx[i], idx[j];
    assert a < b < |sorted|;
    assert steps[a] == Some(rows[i]) && steps[b] == Some(rows[j]);
    assert rows[i].meta == sorted[a].metadata.value && rows[j].meta == sorted[b].metadata.value;
    SortOrder(s, a, b);
  }

  /** An entry directly inside the directory links to its name under the request path. */
  lemma {:induction false} ChildHref(dirPath: string, requestPath: string, name: string, m: Metadata)
    requires IsPlainName(name)
    ensures Survive(DirEntry(Join(dirPath, name), name, Some(m)), dirPath, requestPath)
         == Some(Survivor(DirEntry(Join(dirPath, name), name, Some(m)), Join(requestPath, name), m))
  {
    StripPrefixOfJoin(dirPath, name);
  }
}
