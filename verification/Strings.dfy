/** The parts of Go's strings package the models need. */
module Strings {

  /** strings.Split(s, c) for a one-character separator. */
  function Split(s: string, c: char): (parts: seq<string>)
    ensures parts != []
  {
    if s == "" then [""]
    else if s[0] == c then [""] + Split(s[1..], c)
    else Grow(s[0], Split(s[1..], c))
  }

  /** One more character in front of the first part. */
  function Grow(u: char, parts: seq<string>): (grown: seq<string>)
    requires parts != []
    ensures grown != []
  {
    [[u] + parts[0]] + parts[1..]
  }

  lemma GrowConcat(u: char, a: seq<string>, b: seq<string>)
    requires a != []
    ensures Grow(u, a + b) == Grow(u, a) + b
  {
  }

  /** strings.Join(parts, c). */
  function Join(parts: seq<string>, c: char): string {
    if parts == [] then ""
    else if |parts| == 1 then parts[0]
    else parts[0] + [c] + Join(parts[1..], c)
  }

  lemma {:induction false} SplitWithoutSeparator(s: string, c: char)
    requires c !in s
    ensures Split(s, c) == [s]
  {
    if s != "" {
      SplitWithoutSeparator(s[1..], c);
      assert [s[0]] + s[1..] == s;
    }
  }

  /** Splitting a concatenation at a separator splits each side. */
  lemma {:induction false} SplitAtSeparator(a: string, b: string, c: char)
    ensures Split(a + [c] + b, c) == Split(a, c) + Split(b, c)
    decreases |a|
  {
    var s := a + [c] + b;
    if a == "" {
      assert s[1..] == b;
    } else {
      assert s[1..] == a[1..] + [c] + b;
      SplitAtSeparator(a[1..], b, c);
      GrowConcat(a[0], Split(a[1..], c), Split(b, c));
    }
  }

  /** Joined parts come back, when none of them holds the separator. */
  lemma {:induction false} SplitUndoesJoin(parts: seq<string>, c: char)
    requires parts != [] && forall p | p in parts :: c !in p
    ensures Split(Join(parts, c), c) == parts
    decreases |parts|
  {
    SplitWithoutSeparator(parts[0], c);
    if |parts| > 1 {
      SplitUndoesJoin(parts[1..], c);
      SplitAtSeparator(parts[0], Join(parts[1..], c), c);
      assert [parts[0]] + parts[1..] == parts;
    }
  }

  // ---------------------------------------------------------------- order

  /** Go's < on strings: byte by byte, a proper prefix first. */
  predicate Below(a: string, b: string)
    decreases |a|
  {
    b != "" && (a == "" || a[0] < b[0] || (a[0] == b[0] && Below(a[1..], b[1..])))
  }

  /** a and b agree before position n, and there a has the smaller character. */
  predicate SmallerAt(a: string, b: string, n: nat) {
    n < |a| && n < |b| && a[..n] == b[..n] && a[n] < b[n]
  }

  /** What the order is: a proper prefix comes first, otherwise the first differing character decides. */
  lemma {:induction false} BelowMeans(a: string, b: string)
    ensures Below(a, b) <==> (|a| < |b| && a == b[..|a|]) || exists n: nat :: SmallerAt(a, b, n)
    decreases |a|
  {
    if a == "" || b == "" {
    } else if a[0] != b[0] {
      FirstCharacterDecides(a, b);
    } else {
      BelowMeans(a[1..], b[1..]);
      LaterCharactersDecide(a, b);
      assert |a| < |b| && a == b[..|a|] <==> |a[1..]| < |b[1..]| && a[1..] == b[1..][..|a[1..]|] by {
        assert |a| <= |b| ==> b[..|a|] == [b[0]] + b[1..][..|a| - 1];
        assert a == [a[0]] + a[1..];
      }
    }
  }

  lemma FirstCharacterDecides(a: string, b: string)
    requires a != "" && b != "" && a[0] != b[0]
    ensures (exists n: nat :: SmallerAt(a, b, n)) <==> a[0] < b[0]
    ensures !(|a| < |b| && a == b[..|a|])
  {
    if a[0] < b[0] {
      assert SmallerAt(a, b, 0);
    }
    forall n: nat ensures n > 0 ==> !SmallerAt(a, b, n) {
      if 0 < n <= |a| && n <= |b| {
        assert a[..n][0] != b[..n][0];
      }
    }
    if |a| <= |b| {
      assert b[..|a|][0] != a[0];
    }
  }

  lemma LaterCharactersDecide(a: string, b: string)
    requires a != "" && b != "" && a[0] == b[0]
    ensures (exists n: nat :: SmallerAt(a, b, n)) <==> exists n: nat :: SmallerAt(a[1..], b[1..], n)
  {
    forall n: nat | SmallerAt(a, b, n) ensures n > 0 && SmallerAt(a[1..], b[1..], n - 1) {
      assert a[1..][..n - 1] == a[..n][1..] && b[1..][..n - 1] == b[..n][1..];
    }
    forall n: nat | SmallerAt(a[1..], b[1..], n) ensures SmallerAt(a, b, n + 1) {
      assert a[..n + 1] == [a[0]] + a[1..][..n] && b[..n + 1] == [b[0]] + b[1..][..n];
    }
  }

  lemma {:induction false} BelowIsAnOrder(a: string, b: string, c: string)
    ensures !Below(a, a)
    ensures Below(a, b) || a == b || Below(b, a)
    ensures Below(a, b) && Below(b, c) ==> Below(a, c)
    decreases |a|
  {
    if a != "" {
      BelowIsAnOrder(a[1..], if b == "" then "" else b[1..], if c == "" then "" else c[1..]);
      if b != "" && a[0] == b[0] && a[1..] == b[1..] {
        assert a == [a[0]] + a[1..] == [b[0]] + b[1..] == b;
      }
    }
  }

  predicate Increasing(names: seq<string>) {
    forall i, j | 0 <= i < j < |names| :: Below(names[i], names[j])
  }
}
