/**
 assets/codegen/ui/molplugin.js, escapeTemplate: a GraphQL document embedded in a JavaScript template literal.
 Strings are sequences of UTF-16 code units, as JavaScript has them.
 */
module Template {
  import opened Wrappers

  type Unit = n: int | 0 <= n < 0x1_0000 witness 0
  type Text = seq<Unit>

  const LF: Unit := 0x0A
  const CR: Unit := 0x0D
  const DOLLAR: Unit := 0x24
  const BACKSLASH: Unit := 0x5C
  const BACKTICK: Unit := 0x60
  const OPEN_BRACE: Unit := 0x7B
  const CLOSE_BRACE: Unit := 0x7D
  const LETTER_U: Unit := 0x75
  const LETTER_X: Unit := 0x78
  const LINE_SEPARATOR: Unit := 0x2028
  const PARAGRAPH_SEPARATOR: Unit := 0x2029

  // ---------------------------------------------------------------- the rewrites

  /** `s.replace(/c/g, with)` for a single character c, when `with` holds no replacement pattern. */
  function ReplaceAll(s: Text, c: Unit, with: Text): Text {
    if s == [] then [] else (if s[0] == c then with else [s[0]]) + ReplaceAll(s[1..], c, with)
  }

  const ESCAPED_DOLLAR: Text := [BACKSLASH, LETTER_U, 0x30, 0x30, 0x32, 0x34]

  function EscapeTemplate(s: Text): Text {
    var slashes := ReplaceAll(s, BACKSLASH, [BACKSLASH, BACKSLASH]);
    var ticks := ReplaceAll(slashes, BACKTICK, [BACKSLASH, BACKTICK]);
    ReplaceAll(ticks, DOLLAR, ESCAPED_DOLLAR)
  }

  function EscapeDollars(code: Text): Text {
    ReplaceAll(code, DOLLAR, ESCAPED_DOLLAR)
  }

  /** What one character becomes, and the text it makes character by character. */
  function Escaped(c: Unit): Text {
    if c == BACKSLASH then [BACKSLASH, BACKSLASH]
    else if c == BACKTICK then [BACKSLASH, BACKTICK]
    else if c == DOLLAR then ESCAPED_DOLLAR
    else [c]
  }

  function Substituted(s: Text): Text {
    if s == [] then [] else Escaped(s[0]) + Substituted(s[1..])
  }

  lemma {:induction false} ReplaceAllConcat(a: Text, b: Text, c: Unit, with: Text)
    ensures ReplaceAll(a + b, c, with) == ReplaceAll(a, c, with) + ReplaceAll(b, c, with)
    decreases |a|
  {
    if a == [] {
      assert a + b == b;
    } else {
      assert (a + b)[1..] == a[1..] + b;
      ReplaceAllConcat(a[1..], b, c, with);
    }
  }

  lemma ReplaceAllOfOne(u: Unit, c: Unit, with: Text)
    ensures ReplaceAll([u], c, with) == if u == c then with else [u]
  {
  }

  lemma EscapeOfOne(u: Unit)
    ensures EscapeTemplate([u]) == Escaped(u)
  {
    var slashes := ReplaceAll([u], BACKSLASH, [BACKSLASH, BACKSLASH]);
    ReplaceAllOfOne(u, BACKSLASH, [BACKSLASH, BACKSLASH]);
    ReplaceAllOfOne(u, BACKTICK, [BACKSLASH, BACKTICK]);
    ReplaceAllOfOne(u, DOLLAR, ESCAPED_DOLLAR);
    if u == BACKSLASH {
      NothingToReplace(slashes, BACKTICK, [BACKSLASH, BACKTICK]);
      NothingToReplace(slashes, DOLLAR, ESCAPED_DOLLAR);
    } else if u == BACKTICK {
      NothingToReplace([BACKSLASH, BACKTICK], DOLLAR, ESCAPED_DOLLAR);
    }
  }

  lemma {:induction false} NothingToReplace(s: Text, c: Unit, with: Text)
    requires c !in s
    ensures ReplaceAll(s, c, with) == s
  {
    if s != [] {
      NothingToReplace(s[1..], c, with);
    }
  }

  lemma EscapeTemplateConcat(a: Text, b: Text)
    ensures EscapeTemplate(a + b) == EscapeTemplate(a) + EscapeTemplate(b)
  {
    ReplaceAllConcat(a, b, BACKSLASH, [BACKSLASH, BACKSLASH]);
    var a', b' := ReplaceAll(a, BACKSLASH, [BACKSLASH, BACKSLASH]), ReplaceAll(b, BACKSLASH, [BACKSLASH, BACKSLASH]);
    ReplaceAllConcat(a', b', BACKTICK, [BACKSLASH, BACKTICK]);
    ReplaceAllConcat(ReplaceAll(a', BACKTICK, [BACKSLASH, BACKTICK]), ReplaceAll(b', BACKTICK, [BACKSLASH, BACKTICK]),
                     DOLLAR, ESCAPED_DOLLAR);
  }

  /** Three passes over the whole text, each over the output of the one before, are one substitution. */
  lemma {:induction false} ThreeRewritesAreOne(s: Text)
    ensures EscapeTemplate(s) == Substituted(s)
  {
    if s != [] {
      assert s == [s[0]] + s[1..];
      EscapeTemplateConcat([s[0]], s[1..]);
      EscapeOfOne(s[0]);
      ThreeRewritesAreOne(s[1..]);
    }
  }

  /** The dependency scanner finds no dollar sign in either kind of output. */
  lemma {:induction false} NoDollarIsLeft(s: Text)
    ensures DOLLAR !in EscapeDollars(s) && DOLLAR !in EscapeTemplate(s)
  {
    NoneIsLeft(s, DOLLAR, ESCAPED_DOLLAR);
    NoneIsLeft(ReplaceAll(ReplaceAll(s, BACKSLASH, [BACKSLASH, BACKSLASH]), BACKTICK, [BACKSLASH, BACKTICK]),
               DOLLAR, ESCAPED_DOLLAR);
  }

  lemma {:induction false} NoneIsLeft(s: Text, c: Unit, with: Text)
    requires c !in with
    ensures c !in ReplaceAll(s, c, with)
  {
    if s != [] {
      NoneIsLeft(s[1..], c, with);
    }
  }

  /** The text with every `\u0024` in it read as a dollar sign, from the left. */
  function ReadDollars(t: Text): Text
    decreases |t|
  {
    if t == [] then []
    else if |t| >= 6 && t[..6] == [0x5C, 0x75, 0x30, 0x30, 0x32, 0x34] then [0x24] + ReadDollars(t[6..])
    else [t[0]] + ReadDollars(t[1..])
  }

  /** The escape `\u0024` occurs in the text. */
  predicate HoldsEscape(s: Text) {
    |s| >= 6 && (s[..6] == [0x5C, 0x75, 0x30, 0x30, 0x32, 0x34] || HoldsEscape(s[1..]))
  }

  lemma FirstIsKept(s: Text)
    requires s != []
    ensures s[0] == DOLLAR ==> EscapeDollars(s) == ESCAPED_DOLLAR + EscapeDollars(s[1..])
    ensures s[0] != DOLLAR ==> EscapeDollars(s) == [s[0]] + EscapeDollars(s[1..]) && EscapeDollars(s)[1..] == EscapeDollars(s[1..])
  {
  }

  /** Up to the first dollar sign the text stays as it is. */
  lemma {:induction false} KeptBeforeDollars(s: Text, n: nat)
    requires n <= |s| && DOLLAR !in s[..n]
    ensures n <= |EscapeDollars(s)| && EscapeDollars(s)[..n] == s[..n] && EscapeDollars(s)[n..] == EscapeDollars(s[n..])
  {
    assert s == s[..n] + s[n..];
    ReplaceAllConcat(s[..n], s[n..], DOLLAR, ESCAPED_DOLLAR);
    NothingToReplace(s[..n], DOLLAR, ESCAPED_DOLLAR);
  }

  /** Text of the output without a backslash was there before. */
  lemma {:induction false} PlainOutputIsInput(s: Text, n: nat)
    requires n <= |EscapeDollars(s)| && BACKSLASH !in EscapeDollars(s)[..n]
    ensures n <= |s| && s[..n] == EscapeDollars(s)[..n]
  {
    if n > 0 {
      FirstIsKept(s);
      var t := EscapeDollars(s);
      assert t[..n][0] == t[0];
      assert t[..n] == [s[0]] + t[1..][..n - 1];
      PlainOutputIsInput(s[1..], n - 1);
    }
  }

  /**
   The dollar signs come back, exactly when the text did not hold the escape before: then that is read as one too.
   Text without a dollar sign stays as it is.
   */
  lemma {:induction false} DollarsComeBack(s: Text)
    ensures ReadDollars(EscapeDollars(s)) == s <==> !HoldsEscape(s)
    ensures DOLLAR !in s ==> EscapeDollars(s) == s
  {
    if s != [] {
      var t := EscapeDollars(s);
      FirstIsKept(s);
      DollarsComeBack(s[1..]);
      assert s == [s[0]] + s[1..];
      if s[0] == DOLLAR {
        assert t[..6] == ESCAPED_DOLLAR && t[6..] == EscapeDollars(s[1..]);
        assert HoldsEscape(s) <==> HoldsEscape(s[1..]);
      } else if |s| >= 6 && s[..6] == ESCAPED_DOLLAR {
        KeptBeforeDollars(s, 6);
        assert s[0] == s[..6][0];
      } else {
        if |t| >= 6 && t[..6] == ESCAPED_DOLLAR {
          assert EscapeDollars(s[1..])[..5] == ESCAPED_DOLLAR[1..];
          PlainOutputIsInput(s[1..], 5);
        }
        assert HoldsEscape(s) <==> HoldsEscape(s[1..]);
      }
    }
    if DOLLAR !in s {
      NothingToReplace(s, DOLLAR, ESCAPED_DOLLAR);
    }
  }

  // ---------------------------------------------------------------- template literals

  predicate IsHex(u: Unit) {
    0x30 <= u <= 0x39 || 0x41 <= u <= 0x46 || 0x61 <= u <= 0x66
  }

  predicate IsDigit(u: Unit) {
    0x30 <= u <= 0x39
  }

  function Digit(u: Unit): (d: nat)
    requires IsHex(u)
    ensures d < 16
  {
    if u <= 0x39 then u - 0x30 else if u <= 0x46 then u - 0x41 + 10 else u - 0x61 + 10
  }

  function HexValue(t: Text): nat
    requires forall u | u in t :: IsHex(u)
  {
    if t == [] then 0 else 16 * HexValue(t[..|t| - 1]) + Digit(t[|t| - 1])
  }

  /** The length of the run of hexadecimal digits the text begins with. */
  function HexRun(t: Text): (n: nat)
    ensures n <= |t| && (forall k | 0 <= k < n :: IsHex(t[k])) && (n < |t| ==> !IsHex(t[n]))
  {
    if t == [] || !IsHex(t[0]) then 0 else 1 + HexRun(t[1..])
  }

  /** A code point as UTF-16. */
  function Encoded(point: nat): Text
    requires point <= 0x10_FFFF
  {
    if point < 0x1_0000 then [point]
    else [0xD800 + (point - 0x1_0000) / 0x400, 0xDC00 + (point - 0x1_0000) % 0x400]
  }

  /** An escape sequence: the text it stands for and the number of characters after the backslash it takes up. */
  datatype Escape = Escape(text: Text, length: nat)

  /** What follows a backslash; None where section 12.9.6 leaves no cooked value. */
  function ReadEscape(t: Text): (e: Option<Escape>)
    ensures e.Some? ==> 0 < e.value.length <= |t|
  {
    if t == [] then None
    else if t[0] == CR then Some(Escape([], if |t| > 1 && t[1] == LF then 2 else 1))
    else if t[0] == LF || t[0] == LINE_SEPARATOR || t[0] == PARAGRAPH_SEPARATOR then Some(Escape([], 1))
    else if t[0] == LETTER_X then
      if HexRun(t[1..]) >= 2 then Some(Escape([HexPair(t[1..3])], 3)) else None
    else if t[0] == LETTER_U then ReadUnicodeEscape(t)
    else if IsDigit(t[0]) then
      if t[0] == 0x30 && !(|t| > 1 && IsDigit(t[1])) then Some(Escape([0], 1)) else None
    else Some(Escape([SingleEscape(t[0])], 1))
  }

  function HexPair(t: Text): (u: Unit)
    requires |t| == 2 && forall u | u in t :: IsHex(u)
  {
    16 * Digit(t[0]) + Digit(t[1])
  }

  function ReadUnicodeEscape(t: Text): (e: Option<Escape>)
    requires t != []
    ensures e.Some? ==> 0 < e.value.length <= |t|
  {
    if |t| > 1 && t[1] == OPEN_BRACE then
      var n := HexRun(t[2..]);
      if 0 < n < |t| - 2 && t[2 + n] == CLOSE_BRACE && HexValue(t[2..][..n]) <= 0x10_FFFF then
        Some(Escape(Encoded(HexValue(t[2..][..n])), n + 3))
      else None
    else if HexRun(t[1..]) >= 4 then
      Some(Escape([0x100 * HexPair(t[1..3]) + HexPair(t[3..5])], 5))
    else None
  }

  function SingleEscape(u: Unit): Unit {
    if u == 0x62 then 0x08
    else if u == 0x66 then 0x0C
    else if u == 0x6E then LF
    else if u == 0x72 then CR
    else if u == 0x74 then 0x09
    else if u == 0x76 then 0x0B
    else u
  }

  /**
   The value of the template literal whose body is t (section 12.9.6 of ECMA-262, 2023): None when t is not
   the body of one literal without substitutions, because it closes the literal or opens a `${`, or when an
   escape in it has no value.
   */
  function Cooked(t: Text): Option<Text>
    decreases |t|
  {
    if t == [] then Some([])
    else if t[0] == BACKTICK || (t[0] == DOLLAR && |t| > 1 && t[1] == OPEN_BRACE) then None
    else if t[0] == BACKSLASH then
      var e := ReadEscape(t[1..]);
      if e.None? then None else After(e.value.text, Cooked(t[1 + e.value.length..]))
    else if t[0] == CR then After([LF], Cooked(if |t| > 1 && t[1] == LF then t[2..] else t[1..]))
    else After([t[0]], Cooked(t[1..]))
  }

  function After(first: Text, rest: Option<Text>): Option<Text> {
    if rest.None? then None else Some(first + rest.value)
  }

  /** Line terminators the way a template literal reads them. */
  function LinesNormalized(s: Text): Text
    decreases |s|
  {
    if s == [] then []
    else if s[0] == CR then [LF] + LinesNormalized(if |s| > 1 && s[1] == LF then s[2..] else s[1..])
    else [s[0]] + LinesNormalized(s[1..])
  }

  // ---------------------------------------------------------------- evaluation undoes the escaping

  lemma DollarEscapeIsRead(rest: Text)
    ensures ReadEscape((ESCAPED_DOLLAR + rest)[1..]) == Some(Escape([DOLLAR], 5))
  {
    var u := (ESCAPED_DOLLAR + rest)[1..];
    assert u == [LETTER_U, 0x30, 0x30, 0x32, 0x34] + rest;
    assert u[1..] == [0x30, 0x30, 0x32, 0x34] + rest;
    assert IsHex(u[1..][0]) && IsHex(u[1..][1]) && IsHex(u[1..][2]) && IsHex(u[1..][3]);
    assert u[1..3] == [0x30, 0x30] && u[3..5] == [0x32, 0x34];
  }

  lemma DollarIsReadBack(rest: Text)
    ensures Cooked(ESCAPED_DOLLAR + rest) == After([DOLLAR], Cooked(rest))
  {
    DollarEscapeIsRead(rest);
    assert (ESCAPED_DOLLAR + rest)[6..] == rest;
  }

  lemma CharacterIsReadBack(c: Unit, rest: Text)
    requires c != CR
    ensures Cooked(Escaped(c) + rest) == After([c], Cooked(rest))
  {
    var t := Escaped(c) + rest;
    if c == DOLLAR {
      DollarIsReadBack(rest);
    } else if c == BACKSLASH || c == BACKTICK {
      assert t[1..] == [c] + rest;
      assert ReadEscape(t[1..]) == Some(Escape([c], 1));
      assert t[2..] == rest;
    } else {
      assert t[1..] == rest;
    }
  }

  lemma FirstOfSubstituted(s: Text)
    requires s != []
    ensures Substituted(s) != [] && (Substituted(s)[0] == LF <==> s[0] == LF)
    ensures s[0] == LF ==> Substituted(s)[1..] == Substituted(s[1..])
  {
  }

  lemma {:induction false} SubstitutedIsReadBack(s: Text)
    ensures Cooked(Substituted(s)) == Some(LinesNormalized(s))
    decreases |s|
  {
    if s == [] {
    } else if s[0] == CR {
      var t := Substituted(s);
      assert t == [CR] + Substituted(s[1..]);
      assert t[1..] == Substituted(s[1..]);
      if s[1..] != [] {
        FirstOfSubstituted(s[1..]);
      }
      if |s| > 1 && s[1] == LF {
        assert s[1..][1..] == s[2..];
        assert t[2..] == t[1..][1..] == Substituted(s[2..]);
        SubstitutedIsReadBack(s[2..]);
      } else {
        SubstitutedIsReadBack(s[1..]);
      }
    } else {
      CharacterIsReadBack(s[0], Substituted(s[1..]));
      SubstitutedIsReadBack(s[1..]);
    }
  }

  /**
   The literal is one literal, whatever the document holds: nothing in it closes the literal or starts a
   substitution. Its value is the document, up to line terminators.
   */
  lemma EvaluationUndoesEscaping(s: Text)
    ensures Cooked(EscapeTemplate(s)) == Some(LinesNormalized(s))
  {
    ThreeRewritesAreOne(s);
    SubstitutedIsReadBack(s);
  }

  lemma {:induction false} NormalizedHasNoReturn(s: Text)
    ensures CR !in LinesNormalized(s)
    ensures CR !in s ==> LinesNormalized(s) == s
    decreases |s|
  {
    if s != [] {
      if s[0] == CR {
        NormalizedHasNoReturn(if |s| > 1 && s[1] == LF then s[2..] else s[1..]);
      } else {
        NormalizedHasNoReturn(s[1..]);
      }
    }
  }

  /** The document comes back unchanged exactly when it holds no carriage return, which escapeTemplate lets through. */
  lemma RoundTripIffNoReturn(s: Text)
    ensures Cooked(EscapeTemplate(s)) == Some(s) <==> CR !in s
  {
    EvaluationUndoesEscaping(s);
    NormalizedHasNoReturn(s);
  }

  // ---------------------------------------------------------------- string literals

  /**
   The value of the string literal between two such quotes whose body is t (section 12.9.4 of ECMA-262, 2023):
   None when t ends the literal or holds an escape without a value.
   */
  function StringValue(t: Text, quote: Unit): Option<Text>
    decreases |t|
  {
    if t == [] then Some([])
    else if t[0] == quote || t[0] == LF || t[0] == CR then None
    else if t[0] == BACKSLASH then
      var e := ReadEscape(t[1..]);
      if e.None? then None else After(e.value.text, StringValue(t[1 + e.value.length..], quote))
    else After([t[0]], StringValue(t[1..], quote))
  }

  /** Some dollar sign follows a backslash that escapes it, as in `\$`. */
  predicate EscapesADollar(t: Text) {
    t != [] && if t[0] != BACKSLASH then EscapesADollar(t[1..]) else |t| > 1 && (t[1] == DOLLAR || EscapesADollar(t[2..]))
  }

  lemma {:induction false} SamePositions(t: Text, n: nat)
    requires n <= |t| && BACKSLASH !in t[..n]
    ensures EscapesADollar(t) <==> EscapesADollar(t[n..])
  {
    if n > 0 {
      assert t[..n][0] == t[0] && t[..n][1..] == t[1..][..n - 1];
      SamePositions(t[1..], n - 1);
    }
  }

  lemma {:induction false} SameHexRun(t: Text)
    ensures HexRun(EscapeDollars(t)) == HexRun(t) && DOLLAR !in t[..HexRun(t)] && BACKSLASH !in t[..HexRun(t)]
  {
    if t != [] {
      FirstIsKept(t);
      SameHexRun(t[1..]);
      assert HexRun(t) > 0 ==> t[..HexRun(t)] == [t[0]] + t[1..][..HexRun(t) - 1];
    }
  }

  lemma EscapeDollarsIsEmpty(t: Text)
    ensures EscapeDollars(t) == [] <==> t == []
  {
  }

  /** The characters an escape takes up hold no dollar sign and, past the first, no backslash. */
  lemma EscapesArePlain(t: Text)
    requires t != [] && t[0] != DOLLAR && ReadEscape(t).Some?
    ensures var n := ReadEscape(t).value.length;
            DOLLAR !in t[..n] && BACKSLASH !in t[1..n]
  {
    forall k | 0 <= k < ReadEscape(t).value.length ensures t[k] != DOLLAR && (k > 0 ==> t[k] != BACKSLASH) {
      if t[0] == LETTER_U && t[1] == OPEN_BRACE {
        assert 2 <= k < 2 + HexRun(t[2..]) ==> t[k] == t[2..][k - 2];
      } else if t[0] == LETTER_U || t[0] == LETTER_X {
        assert k > 0 ==> t[k] == t[1..][k - 1];
      }
    }
  }

  /** The character after the first one is there as before, unless it is a dollar sign. */
  lemma SecondIsKept(t: Text)
    requires t != [] && t[0] != DOLLAR
    ensures EscapeDollars(t)[0] == t[0] && EscapeDollars(t)[1..] == EscapeDollars(t[1..])
    ensures |EscapeDollars(t)| > 1 <==> |t| > 1
    ensures |t| > 1 ==> EscapeDollars(t)[1] == if t[1] == DOLLAR then BACKSLASH else t[1]
  {
    FirstIsKept(t);
    if |t| > 1 {
      FirstIsKept(t[1..]);
    }
  }

  lemma SameDigits(t: Text)
    ensures HexRun(EscapeDollars(t)) == HexRun(t) && EscapeDollars(t)[..HexRun(t)] == t[..HexRun(t)]
    ensures var n := HexRun(t);
            n < |t| <==> n < |EscapeDollars(t)|
    ensures var n := HexRun(t);
            n < |t| ==> (EscapeDollars(t)[n] == CLOSE_BRACE <==> t[n] == CLOSE_BRACE)
  {
    SameHexRun(t);
    var n := HexRun(t);
    KeptBeforeDollars(t, n);
    EscapeDollarsIsEmpty(t[n..]);
    if n < |t| {
      FirstIsKept(t[n..]);
    }
  }

  lemma SameBracedEscape(t: Text)
    requires |t| > 1 && t[0] == LETTER_U && t[1] == OPEN_BRACE
    ensures ReadUnicodeEscape(EscapeDollars(t)) == ReadUnicodeEscape(t)
  {
    var d, n := EscapeDollars(t), HexRun(t[2..]);
    SecondIsKept(t);
    SecondIsKept(t[1..]);
    assert d[2..] == d[1..][1..] == EscapeDollars(t[2..]) by {
      assert t[1..][1..] == t[2..];
    }
    SameDigits(t[2..]);
    assert d[2..][..n] == t[2..][..n];
    assert n < |t| - 2 <==> n < |d| - 2;
    assert n < |t| - 2 ==> (d[2 + n] == d[2..][n] && t[2 + n] == t[2..][n]);
  }

  lemma SamePairsEscape(t: Text)
    requires t != [] && t[0] == LETTER_U && !(|t| > 1 && t[1] == OPEN_BRACE)
    ensures ReadUnicodeEscape(EscapeDollars(t)) == ReadUnicodeEscape(t)
  {
    var d := EscapeDollars(t);
    SecondIsKept(t);
    SameDigits(t[1..]);
    if HexRun(t[1..]) >= 4 {
      FirstFour(d, t, HexRun(t[1..]));
    }
  }

  lemma FirstFour(d: Text, t: Text, n: nat)
    requires n >= 4 && |d| > n && |t| > n && d[1..][..n] == t[1..][..n]
    ensures d[1..3] == t[1..3] && d[3..5] == t[3..5]
  {
    assert d[1..][..n][..2] == d[1..3] && t[1..][..n][..2] == t[1..3];
    assert d[1..][..n][2..4] == d[3..5] && t[1..][..n][2..4] == t[3..5];
  }

  /** An escape of anything but a dollar sign is read as before, whatever dollar signs follow it. */
  lemma SameEscape(t: Text)
    requires t == [] || t[0] != DOLLAR
    ensures ReadEscape(EscapeDollars(t)) == ReadEscape(t)
  {
    if t != [] {
      var d := EscapeDollars(t);
      SecondIsKept(t);
      if t[0] == LETTER_U {
        if |t| > 1 && t[1] == OPEN_BRACE {
          SameBracedEscape(t);
        } else {
          SamePairsEscape(t);
        }
      } else if t[0] == LETTER_X {
        SameDigits(t[1..]);
        if HexRun(t[1..]) >= 2 {
          assert d[1..3] == d[1..][..HexRun(t[1..])][..2] == t[1..3];
        }
      }
    }
  }

  lemma DollarInLiteral(rest: Text, quote: Unit)
    requires quote == 0x22 || quote == 0x27
    ensures StringValue(ESCAPED_DOLLAR + rest, quote) == After([DOLLAR], StringValue(rest, quote))
  {
    DollarEscapeIsRead(rest);
    assert (ESCAPED_DOLLAR + rest)[6..] == rest;
  }

  lemma EscapedDollarInLiteral(rest: Text, quote: Unit)
    requires quote == 0x22 || quote == 0x27
    ensures StringValue([BACKSLASH] + ESCAPED_DOLLAR + rest, quote) == After(ESCAPED_DOLLAR, StringValue(rest, quote))
  {
    var plain: Text := [LETTER_U, 0x30, 0x30, 0x32, 0x34];
    var t := [BACKSLASH] + ESCAPED_DOLLAR + rest;
    assert t[1..] == [BACKSLASH] + (plain + rest) && ReadEscape(t[1..]) == Some(Escape([BACKSLASH], 1));
    assert t[2..] == plain + rest && StringValue(t, quote) == After([BACKSLASH], StringValue(t[2..], quote));
    assert ESCAPED_DOLLAR == [BACKSLASH] + plain;
    PlainInLiteral(plain, rest, quote);
    AfterAfter([BACKSLASH], plain, StringValue(rest, quote));
  }

  lemma AfterAfter(a: Text, b: Text, rest: Option<Text>)
    ensures After(a, After(b, rest)) == After(a + b, rest)
  {
    if rest.Some? {
      Associates(a, b, rest.value);
    }
  }

  lemma {:induction false} PlainInLiteral(plain: Text, rest: Text, quote: Unit)
    requires quote !in plain && LF !in plain && CR !in plain && BACKSLASH !in plain
    ensures StringValue(plain + rest, quote) == After(plain, StringValue(rest, quote))
  {
    if plain == [] {
      assert plain + rest == rest;
      assert StringValue(rest, quote).Some? ==> plain + StringValue(rest, quote).value == StringValue(rest, quote).value;
    } else {
      assert (plain + rest)[1..] == plain[1..] + rest;
      PlainInLiteral(plain[1..], rest, quote);
      AfterAfter([plain[0]], plain[1..], StringValue(rest, quote));
      assert [plain[0]] + plain[1..] == plain;
    }
  }

  /** The literal stays one or none, and its value the same exactly when no dollar sign in it is escaped already. */
  ghost predicate KeepsItsValue(t: Text, quote: Unit) {
    && (StringValue(EscapeDollars(t), quote).Some? <==> StringValue(t, quote).Some?)
    && (StringValue(t, quote).Some? ==> (StringValue(EscapeDollars(t), quote) == StringValue(t, quote) <==> !EscapesADollar(t)))
  }

  lemma SameFirst(first: Text, a: Option<Text>, b: Option<Text>)
    ensures After(first, a) == After(first, b) <==> a == b
  {
    if a.Some? && b.Some? && first + a.value == first + b.value {
      assert a.value == (first + a.value)[|first|..] == b.value;
    }
  }

  lemma PlainKeepsItsValue(t: Text, quote: Unit)
    requires quote == 0x22 || quote == 0x27
    requires t != [] && t[0] != BACKSLASH && KeepsItsValue(t[1..], quote)
    ensures KeepsItsValue(t, quote)
  {
    FirstIsKept(t);
    if t[0] == DOLLAR {
      DollarInLiteral(EscapeDollars(t[1..]), quote);
    }
    SameFirst([t[0]], StringValue(EscapeDollars(t[1..]), quote), StringValue(t[1..], quote));
  }

  lemma EscapedDollarChangesIt(t: Text, quote: Unit)
    requires quote == 0x22 || quote == 0x27
    requires |t| > 1 && t[0] == BACKSLASH && t[1] == DOLLAR && KeepsItsValue(t[2..], quote)
    ensures KeepsItsValue(t, quote)
  {
    var rest := EscapeDollars(t[2..]);
    FirstIsKept(t);
    FirstIsKept(t[1..]);
    assert t[1..][1..] == t[2..];
    assert EscapeDollars(t) == [BACKSLASH] + ESCAPED_DOLLAR + rest;
    EscapedDollarInLiteral(rest, quote);
    assert ReadEscape(t[1..]) == Some(Escape([DOLLAR], 1));
    assert StringValue(t, quote) == After([DOLLAR], StringValue(t[2..], quote));
    if StringValue(t[2..], quote).Some? {
      StartsDifferently(StringValue(rest, quote), StringValue(t[2..], quote));
    }
  }

  lemma StartsDifferently(a: Option<Text>, b: Option<Text>)
    requires b.Some?
    ensures After(ESCAPED_DOLLAR, a) != After([DOLLAR], b)
  {
    if a.Some? {
      assert (ESCAPED_DOLLAR + a.value)[0] != ([DOLLAR] + b.value)[0];
    }
  }

  /** After the escape both texts go on alike. */
  lemma RestAfterEscape(t: Text, e: Escape)
    requires |t| > 1 && t[0] == BACKSLASH && t[1] != DOLLAR && ReadEscape(t[1..]) == Some(e)
    ensures var d := EscapeDollars(t);
            && d != [] && d[0] == BACKSLASH && ReadEscape(d[1..]) == Some(e)
            && 1 + e.length <= |d| && d[1 + e.length..] == EscapeDollars(t[1 + e.length..])
  {
    var u, d, n := t[1..], EscapeDollars(t), e.length;
    FirstIsKept(t);
    SameEscape(u);
    EscapesArePlain(u);
    KeptBeforeDollars(u, n);
    assert u[n..] == t[1 + n..];
    assert d[1..] == EscapeDollars(u);
    assert d[1 + n..] == d[1..][n..];
  }

  lemma SamePositionsAfterEscape(t: Text, e: Escape)
    requires |t| > 1 && t[0] == BACKSLASH && t[1] != DOLLAR && ReadEscape(t[1..]) == Some(e)
    ensures EscapesADollar(t) <==> EscapesADollar(t[1 + e.length..])
  {
    var u, n := t[1..], e.length;
    EscapesArePlain(u);
    assert t[2..][..n - 1] == u[1..n] && t[2..][n - 1..] == t[1 + n..];
    SamePositions(t[2..], n - 1);
  }

  lemma OtherEscapesKeepIt(t: Text, quote: Unit, e: Escape)
    requires quote == 0x22 || quote == 0x27
    requires |t| > 1 && t[0] == BACKSLASH && t[1] != DOLLAR
    requires ReadEscape(t[1..]) == Some(e) && KeepsItsValue(t[1 + e.length..], quote)
    ensures KeepsItsValue(t, quote)
  {
    var d, n := EscapeDollars(t), e.length;
    RestAfterEscape(t, e);
    assert StringValue(d, quote) == After(e.text, StringValue(d[1 + n..], quote));
    assert StringValue(t, quote) == After(e.text, StringValue(t[1 + n..], quote));
    SameFirst(e.text, StringValue(d[1 + n..], quote), StringValue(t[1 + n..], quote));
    SamePositionsAfterEscape(t, e);
  }

  /**
   A string literal of the generated types stays one literal, or none, and its value stays the same exactly when no
   dollar sign in it is escaped already: of `\$` the backslash becomes one of the value, with `u0024` after it.
   */
  lemma {:induction false} LiteralsKeepTheirValue(t: Text, quote: Unit)
    requires quote == 0x22 || quote == 0x27
    ensures StringValue(EscapeDollars(t), quote).Some? <==> StringValue(t, quote).Some?
    ensures StringValue(t, quote).Some? ==> (StringValue(EscapeDollars(t), quote) == StringValue(t, quote) <==> !EscapesADollar(t))
    decreases |t|
  {
    if t == [] {
    } else if t[0] != BACKSLASH {
      LiteralsKeepTheirValue(t[1..], quote);
      PlainKeepsItsValue(t, quote);
    } else if |t| > 1 && t[1] == DOLLAR {
      LiteralsKeepTheirValue(t[2..], quote);
      EscapedDollarChangesIt(t, quote);
    } else {
      SameEscape(t[1..]);
      FirstIsKept(t);
      var e := ReadEscape(t[1..]);
      if e.Some? {
        LiteralsKeepTheirValue(t[1 + e.value.length..], quote);
        OtherEscapesKeepIt(t, quote, e.value);
      }
    }
  }
}
