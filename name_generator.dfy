/**
 * File-name generators: random alphanumeric strings of a given length, or
 * version-4 UUIDs. The random number generator is an input: a `Sampler` is one
 * draw from it, an endless stream of samples.
 */
module NameGenerator {

  type Sampler = nat -> nat

  /** The number of characters `rand::distr::Alphanumeric` samples from. */
  const AlphabetSize := 62

  /** The serde default of `max_attempts_before_grow`. */
  const DefaultMaxAttemptsBeforeGrow := 32

  datatype StringGenerator =
    | Random(length: nat, maxAttemptsBeforeGrow: nat)
    | Uuid

  predicate IsAlphanumeric(c: char) {
    'A' <= c <= 'Z' || 'a' <= c <= 'z' || '0' <= c <= '9'
  }

  /** The `i`-th character of `A..Z a..z 0..9`, the order `Alphanumeric` uses. */
  function AlphabetAt(i: nat): (c: char)
    requires i < AlphabetSize
    ensures IsAlphanumeric(c)
  {
    if i < 26 then ('A' as int + i) as char
    else if i < 52 then ('a' as int + (i - 26)) as char
    else ('0' as int + (i - 52)) as char
  }

  /** The position of an alphanumeric character in that order. */
  function AlphabetIndex(c: char): (i: nat)
    requires IsAlphanumeric(c)
    ensures i < AlphabetSize && AlphabetAt(i) == c
  {
    if 'A' <= c <= 'Z' then c as int - 'A' as int
    else if 'a' <= c <= 'z' then c as int - 'a' as int + 26
    else c as int - '0' as int + 52
  }

  /** Every character is the one its own position selects. */
  lemma {:induction false} AlphabetRoundTrip(c: char)
    requires IsAlphanumeric(c)
    ensures AlphabetAt(AlphabetIndex(c) % AlphabetSize) == c
  {
    var i := AlphabetIndex(c);
    assert i % AlphabetSize == i;
  }

  /** `length` characters sampled from `Alphanumeric` (also the older `create_random_string`). */
  function RandomString(length: nat, draw: Sampler): (s: string)
    ensures |s| == length
    ensures forall k :: 0 <= k < |s| ==> IsAlphanumeric(s[k])
  {
    var s := seq(length, k requires 0 <= k < length => AlphabetAt(draw(k) % AlphabetSize));
    assert forall k :: 0 <= k < |s| ==> s[k] == AlphabetAt(draw(k) % AlphabetSize);
    s
  }

  /** Every alphanumeric string of a length is a possible random string of that length. */
  lemma {:induction false} RandomStringCovers(s: string)
    requires forall k :: 0 <= k < |s| ==> IsAlphanumeric(s[k])
    ensures exists draw: Sampler :: RandomString(|s|, draw) == s
  {
    var draw: Sampler := (k: nat) => if k < |s| then AlphabetIndex(s[k]) else 0;
    var r := RandomString(|s|, draw);
    forall k | 0 <= k < |s| ensures r[k] == s[k] {
      AlphabetRoundTrip(s[k]);
      assert draw(k) == AlphabetIndex(s[k]);
    }
  }

  const HexDigits := "0123456789abcdef"

  /**
   * The `j`-th of the 32 hex digits of a random UUID: digit 12 holds the version
   * (4) and digit 16 the variant bits `10`, as section 5.4 of RFC 9562 requires.
   */
  function UuidDigit(draw: Sampler, j: nat): (c: char)
    ensures c in HexDigits
  {
    if j == 12 then '4'
    else if j == 16 then HexDigits[8 + draw(j) % 4]
    else HexDigits[draw(j) % 16]
  }

  function UuidDigits(draw: Sampler, from: nat, to: nat): (s: string)
    requires from <= to
    ensures |s| == to - from
    ensures forall k :: 0 <= k < |s| ==> s[k] == UuidDigit(draw, from + k)
  {
    seq(to - from, k requires 0 <= k < to - from => UuidDigit(draw, from + k))
  }

  /** The canonical form of a version-4 UUID: 8-4-4-4-12 lower-case hex digits. */
  predicate IsUuidV4(u: string) {
    && |u| == 36
    && u[8] == '-' && u[13] == '-' && u[18] == '-' && u[23] == '-'
    && u[14] == '4'
    && u[19] in "89ab"
    && forall k :: 0 <= k < 36 && k != 8 && k != 13 && k != 18 && k != 23 ==> u[k] in HexDigits
  }

  /** `Uuid::new_v4().to_string()`. */
  function UuidString(draw: Sampler): (u: string)
    ensures IsUuidV4(u)
  {
    var u := UuidDigits(draw, 0, 8) + "-" + UuidDigits(draw, 8, 12) + "-" + UuidDigits(draw, 12, 16)
      + "-" + UuidDigits(draw, 16, 20) + "-" + UuidDigits(draw, 20, 32);
    assert u[14] == UuidDigit(draw, 12);
    assert u[19] == UuidDigit(draw, 16);
    u
  }

  /** `StringGenerator::generate`; a random name does not depend on the grow limit. */
  function Generate(g: StringGenerator, draw: Sampler): (s: string)
    ensures g.Random? ==> s == RandomString(g.length, draw)
    ensures g.Random? ==> |s| == g.length && forall k :: 0 <= k < |s| ==> IsAlphanumeric(s[k])
    ensures g.Uuid? ==> IsUuidV4(s)
  {
    match g
    case Random(length, _) => RandomString(length, draw)
    case Uuid => UuidString(draw)
  }

  /** The characters generated names are made of. */
  predicate IsNameChar(c: char) {
    IsAlphanumeric(c) || c == '-'
  }

  /** Both generators produce letters, digits and hyphens only. */
  lemma {:induction false} GeneratedNameChars(g: StringGenerator, draw: Sampler)
    ensures forall k :: 0 <= k < |Generate(g, draw)| ==> IsNameChar(Generate(g, draw)[k])
  {
    var s := Generate(g, draw);
    if g.Uuid? {
      assert forall c :: c in HexDigits ==> IsAlphanumeric(c);
      forall k | 0 <= k < |s| ensures IsNameChar(s[k]) {
        if k != 8 && k != 13 && k != 18 && k != 23 {
          assert s[k] in HexDigits;
        }
      }
    }
  }

  /** `max_attempts_before_grow()`: the field of a random generator, 0 for UUIDs. */
  function MaxAttemptsBeforeGrow(g: StringGenerator): (m: nat)
    ensures g.Uuid? ==> m == 0
    ensures g.Random? ==> m == g.maxAttemptsBeforeGrow
  {
    match g
    case Random(_, m) => m
    case Uuid => 0
  }

  /** `StringGenerator::default()`. */
  function Default(): (g: StringGenerator)
    ensures g == Random(12, DefaultMaxAttemptsBeforeGrow)
  {
    Random(12, DefaultMaxAttemptsBeforeGrow)
  }
}
