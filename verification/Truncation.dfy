/** internal/graph/audit_entry.go, truncate: audit details cut on a rune boundary. A Go string is a sequence of bytes. */
module Truncation {
  type Byte = n: int | 0 <= n < 256 witness 0
  type Bytes = seq<Byte>

  const MAX_DETAIL := 4000
  const ELLIPSIS: Bytes := [0x2E, 0x2E, 0x2E]

  // ---------------------------------------------------------------- UTF-8, section 4 of RFC 3629

  predicate Tail(b: Byte) {
    0x80 <= b <= 0xBF
  }

  /** utf8.RuneStart: every byte but a tail. */
  predicate RuneStart(b: Byte) {
    !Tail(b)
  }

  predicate Tails(s: Bytes, lo: nat, hi: nat)
    requires lo <= hi <= |s|
  {
    forall k | lo <= k < hi :: Tail(s[k])
  }

  /** The length of the character the text begins with, 0 when it begins with none. */
  function CharLength(s: Bytes): (n: nat)
    ensures n <= 4 && n <= |s|
    ensures n > 0 ==> RuneStart(s[0]) && Tails(s, 1, n)
  {
    if s == [] then 0
    else if s[0] <= 0x7F then 1
    else if 0xC2 <= s[0] <= 0xDF then if |s| >= 2 && Tails(s, 1, 2) then 2 else 0
    else if 0xE0 <= s[0] <= 0xEF then
      if && |s| >= 3 && Tails(s, 1, 3)
         && (s[0] == 0xE0 ==> s[1] >= 0xA0)
         && (s[0] == 0xED ==> s[1] <= 0x9F) then 3 else 0
    else if 0xF0 <= s[0] <= 0xF4 then
      if && |s| >= 4 && Tails(s, 1, 4)
         && (s[0] == 0xF0 ==> s[1] >= 0x90)
         && (s[0] == 0xF4 ==> s[1] <= 0x8F) then 4 else 0
    else 0
  }

  /** A Unicode scalar value: a code point that is no surrogate. */
  predicate Scalar(point: nat) {
    point <= 0x10_FFFF && !(0xD800 <= point <= 0xDFFF)
  }

  /** The encoding of a scalar value. */
  function Utf8(point: nat): Bytes
    requires Scalar(point)
  {
    if point < 0x80 then [point]
    else if point < 0x800 then [0xC0 + point / 64, 0x80 + point % 64]
    else if point < 0x1_0000 then [0xE0 + point / 64 / 64, 0x80 + point / 64 % 64, 0x80 + point % 64]
    else [0xF0 + point / 64 / 64 / 64, 0x80 + point / 64 / 64 % 64, 0x80 + point / 64 % 64, 0x80 + point % 64]
  }

  /** The scalar value a character encodes: the bits of its first byte, then six of every tail. */
  function Decoded(s: Bytes): (point: int)
    requires CharLength(s) > 0
  {
    var first: int := s[0];
    match CharLength(s)
    case 1 => first
    case 2 => More(first - 0xC0, s[1])
    case 3 => More(More(first - 0xE0, s[1]), s[2])
    case _ => More(More(More(first - 0xF0, s[1]), s[2]), s[3])
  }

  function More(bits: int, tail: int): int {
    64 * bits + (tail - 0x80)
  }

  lemma MoreSplits(bits: int, tail: Byte)
    requires Tail(tail)
    ensures More(bits, tail) / 64 == bits && 0x80 + More(bits, tail) % 64 == tail
  {
  }

  /** Text begins with a character exactly when it begins with the encoding of some scalar value. */
  lemma CharactersAreScalars(s: Bytes)
    ensures CharLength(s) > 0 <==> exists point: nat | Scalar(point) :: Utf8(point) <= s
    ensures CharLength(s) > 0 ==> Scalar(Decoded(s)) && Utf8(Decoded(s)) == s[..CharLength(s)]
  {
    if CharLength(s) > 0 {
      CharactersDecode(s);
    }
    forall point: nat | Scalar(point) && Utf8(point) <= s ensures CharLength(s) == |Utf8(point)| {
      ScalarsAreCharacters(point, s);
    }
  }

  lemma CharactersDecode(s: Bytes)
    requires CharLength(s) > 0
    ensures Scalar(Decoded(s)) && Utf8(Decoded(s)) == s[..CharLength(s)]
  {
    var first: int := s[0];
    match CharLength(s) {
      case 1 =>
      case 2 =>
        MoreSplits(first - 0xC0, s[1]);
      case 3 =>
        MoreSplits(first - 0xE0, s[1]);
        MoreSplits(More(first - 0xE0, s[1]), s[2]);
      case _ =>
        MoreSplits(first - 0xF0, s[1]);
        MoreSplits(More(first - 0xF0, s[1]), s[2]);
        MoreSplits(More(More(first - 0xF0, s[1]), s[2]), s[3]);
    }
  }

  lemma ScalarsAreCharacters(point: nat, s: Bytes)
    requires Scalar(point) && Utf8(point) <= s
    ensures CharLength(s) == |Utf8(point)|
  {
    var c := Utf8(point);
    assert forall i | 0 <= i < |c| :: s[i] == c[i];
  }

  ghost predicate Valid(s: Bytes)
    decreases |s|
  {
    s == [] || (CharLength(s) > 0 && Valid(s[CharLength(s)..]))
  }

  /** A character is read the same whatever follows it, and not at all when it is cut short. */
  lemma CharLengthOfPrefix(s: Bytes, k: nat)
    requires k <= |s| && CharLength(s) > 0
    ensures CharLength(s[..k]) == if CharLength(s) <= k then CharLength(s) else 0
  {
  }

  /** In valid text, the valid prefixes are those that end where a character starts. */
  lemma {:induction false} PrefixesEndAtRuneStarts(s: Bytes, k: nat)
    requires Valid(s) && k <= |s|
    ensures Valid(s[..k]) <==> k == |s| || RuneStart(s[k])
    decreases |s|
  {
    if s != [] && k > 0 {
      var n := CharLength(s);
      CharLengthOfPrefix(s, k);
      if k >= n {
        assert s[..k][n..] == s[n..][..k - n];
        PrefixesEndAtRuneStarts(s[n..], k - n);
      } else {
        assert Tail(s[k]);
      }
    }
  }

  /** In valid text, a character starts at most three bytes before any byte. */
  lemma {:induction false} StartsAreNear(s: Bytes, k: nat) returns (start: nat)
    requires Valid(s) && k < |s|
    ensures start <= k <= start + 3 && RuneStart(s[start])
    decreases |s|
  {
    var n := CharLength(s);
    if k < n {
      start := 0;
    } else {
      start := StartsAreNear(s[n..], k - n);
      start := start + n;
    }
  }

  lemma {:induction false} ValidConcat(a: Bytes, b: Bytes)
    requires Valid(a) && Valid(b)
    ensures Valid(a + b)
    decreases |a|
  {
    if a == [] {
      assert a + b == b;
    } else {
      var n := CharLength(a);
      CharLengthOfPrefix(a + b, |a|) by {
        assert CharLength(a + b) == n by {
          assert (a + b)[..|a|] == a;
        }
      }
      assert (a + b)[n..] == a[n..] + b;
      ValidConcat(a[n..], b);
    }
  }

  // ---------------------------------------------------------------- truncate

  /** The longest valid prefix of at most MAX_DETAIL bytes ends at `cut`. */
  ghost predicate LongestValidPrefix(s: Bytes, cut: nat) {
    && cut <= MAX_DETAIL && cut <= |s| && Valid(s[..cut])
    && forall n: nat | n <= MAX_DETAIL && n <= |s| && Valid(s[..n]) :: n <= cut
  }

  /** The last byte at or before the limit that starts a character, or 0. */
  ghost predicate LastStart(s: Bytes, cut: nat)
    requires |s| > MAX_DETAIL
  {
    && cut <= MAX_DETAIL && (cut == 0 || RuneStart(s[cut]))
    && forall k | cut < k <= MAX_DETAIL :: !RuneStart(s[k])
  }

  /** In valid text that is the end of the longest valid prefix, at most three bytes before the limit. */
  lemma LastStartEndsTheLongest(s: Bytes, cut: nat)
    requires Valid(s) && |s| > MAX_DETAIL && LastStart(s, cut)
    ensures LongestValidPrefix(s, cut) && MAX_DETAIL - cut <= 3
  {
    PrefixesEndAtRuneStarts(s, cut);
    var start := StartsAreNear(s, MAX_DETAIL);
    forall n: nat | n <= MAX_DETAIL && n <= |s| && Valid(s[..n]) ensures n <= cut {
      PrefixesEndAtRuneStarts(s, n);
    }
  }

  /** The ellipsis neither breaks valid text nor mends invalid text. */
  lemma EllipsisKeepsValidity(a: Bytes)
    ensures Valid(a + ELLIPSIS) <==> Valid(a)
  {
    if Valid(a + ELLIPSIS) {
      PrefixesEndAtRuneStarts(a + ELLIPSIS, |a|);
      assert (a + ELLIPSIS)[..|a|] == a;
    }
    if Valid(a) {
      assert Valid(ELLIPSIS);
      ValidConcat(a, ELLIPSIS);
    }
  }

  method Truncate(s: Bytes) returns (r: Bytes)
    ensures |s| <= 4000 ==> r == s
    ensures |s| > 4000 ==> |r| <= 4003 && exists cut: nat ::
              && LastStart(s, cut) && r == s[..cut] + [0x2E, 0x2E, 0x2E]
              && (Valid(r) <==> Valid(s[..cut]))
              && (Valid(s) ==> LongestValidPrefix(s, cut) && 3997 <= cut <= 4000)
    ensures Valid(s) ==> Valid(r)
  {
    if |s| <= MAX_DETAIL {
      return s;
    }
    var cut := MAX_DETAIL;
    while cut > 0 && !RuneStart(s[cut])
      invariant 0 <= cut <= MAX_DETAIL
      invariant forall k | cut < k <= MAX_DETAIL :: !RuneStart(s[k])
    {
      cut := cut - 1;
    }
    assert LastStart(s, cut);
    EllipsisKeepsValidity(s[..cut]);
    if Valid(s) {
      LastStartEndsTheLongest(s, cut);
    }
    return s[..cut] + ELLIPSIS;
  }
}
