/** The two pieces of JSON.stringify (section 7 of RFC 8259) that the signed contents are made of,
    quoted strings and non-negative integers, and why their text can be read only one way. */
module JsonText {
  import opened Js
  import opened Unicode
  import Hex

  const QUOTE: CodeUnit := '\"' as int
  const BACKSLASH: CodeUnit := '\\' as int

  // ── Strings ──────────────────────────────────────────────────────────────

  function UnicodeEscape(u: CodeUnit): JsString {
    [BACKSLASH, 'u' as int,
     Hex.HexUnit(u / 0x1000), Hex.HexUnit(u / 0x100 % 16), Hex.HexUnit(u / 16 % 16), Hex.HexUnit(u % 16)]
  }

  function EscapePoint(p: CodePoint): JsString {
    if p == QUOTE || p == BACKSLASH then [BACKSLASH, p]
    else if p == 8 then [BACKSLASH, 'b' as int]
    else if p == 9 then [BACKSLASH, 't' as int]
    else if p == 10 then [BACKSLASH, 'n' as int]
    else if p == 12 then [BACKSLASH, 'f' as int]
    else if p == 13 then [BACKSLASH, 'r' as int]
    else if p < 0x20 || IsHigh(p) || IsLow(p) then UnicodeEscape(p)
    else Units(p)
  }

  lemma ShortEscapes()
    ensures EscapePoint(0x22) == Text("\\\"") && EscapePoint(0x5C) == Text("\\\\")
    ensures EscapePoint(8) == Text("\\b") && EscapePoint(9) == Text("\\t") && EscapePoint(10) == Text("\\n")
    ensures EscapePoint(12) == Text("\\f") && EscapePoint(13) == Text("\\r")
  {
    hide UnicodeEscape, Units;
  }

  function HexDigit(v: nat): CodeUnit
    requires v < 16
  {
    Text("0123456789abcdef")[v]
  }

  lemma HexDigitIs(v: nat)
    requires v < 16
    ensures Hex.HexUnit(v) == HexDigit(v)
  {
  }

  /** The escapes of section 7 of RFC 8259 that JSON.stringify uses (section 25.5.2.3 of ECMA-262): two characters
      where there is such an escape, `\u` and four digits for other control characters and unpaired surrogates,
      and every other code point as it is. */
  lemma EscapeTable(p: CodePoint)
    ensures EscapePoint(0x22) == Text("\\\"") && EscapePoint(0x5C) == Text("\\\\")
    ensures EscapePoint(8) == Text("\\b") && EscapePoint(9) == Text("\\t") && EscapePoint(10) == Text("\\n")
    ensures EscapePoint(12) == Text("\\f") && EscapePoint(13) == Text("\\r")
    ensures p !in {0x22, 0x5C, 8, 9, 10, 12, 13} ==>
              EscapePoint(p) ==
              if p < 0x20 || 0xD800 <= p <= 0xDFFF
              then Text("\\u") + [HexDigit(p / 0x1000), HexDigit(p / 0x100 % 16), HexDigit(p / 0x10 % 16), HexDigit(p % 16)]
              else Units(p)
  {
    ShortEscapes();
    if p < 0x20 || 0xD800 <= p <= 0xDFFF {
      HexDigitIs(p / 0x1000);
      HexDigitIs(p / 0x100 % 16);
      HexDigitIs(p / 0x10 % 16);
      HexDigitIs(p % 16);
      hide HexDigit, Hex.HexUnit;
      assert Text("\\u") == [BACKSLASH, 'u' as int];
    }
    hide Text, HexDigit, Hex.HexUnit;
  }

  function Body(ps: seq<CodePoint>): JsString {
    if ps == [] then [] else EscapePoint(ps[0]) + Body(ps[1..])
  }

  function Quoted(s: JsString): JsString {
    [QUOTE] + Body(Points(s)) + [QUOTE]
  }

  /** A reader for one, possibly escaped, code point, with the length read. */
  function ReadPoint(t: JsString): Option<(CodePoint, nat)> {
    if t == [] || t[0] == QUOTE then None
    else if t[0] == BACKSLASH then
      if |t| >= 6 && t[1] == 'u' as int && Hex.IsHex(t[2..6]) then
        Some((Hex.Nibble(t[2..6][0]) * 0x1000 + Hex.Nibble(t[2..6][1]) * 0x100
              + Hex.Nibble(t[2..6][2]) * 16 + Hex.Nibble(t[2..6][3]), 6))
      else if |t| < 2 then None
      else if t[1] == QUOTE || t[1] == BACKSLASH then Some((t[1], 2))
      else if t[1] == 'b' as int then Some((8, 2))
      else if t[1] == 't' as int then Some((9, 2))
      else if t[1] == 'n' as int then Some((10, 2))
      else if t[1] == 'f' as int then Some((12, 2))
      else if t[1] == 'r' as int then Some((13, 2))
      else None
    else if StartsWithPair(t) then Some((PairPoint(t[0], t[1]), 2))
    else Some((t[0], 1))
  }

  lemma HexDigitsOfUnit(u: CodeUnit)
    ensures u / 0x1000 * 0x1000 + u / 0x100 % 16 * 0x100 + u / 16 % 16 * 16 + u % 16 == u
  {
    assert u / 0x1000 == u / 0x100 / 16 && u / 0x100 == u / 16 / 16;
  }

  lemma ReadEscapedPoint(p: CodePoint, rest: JsString)
    ensures ReadPoint(EscapePoint(p) + rest) == Some((p, |EscapePoint(p)|))
    ensures EscapePoint(p) != [] && EscapePoint(p)[0] != QUOTE
  {
    if p < 0x1_0000 && EscapePoint(p) == UnicodeEscape(p) {
      ReadUnicodeEscape(p, rest);
    }
  }

  lemma ReadUnicodeEscape(u: CodeUnit, rest: JsString)
    ensures ReadPoint(UnicodeEscape(u) + rest) == Some((u, 6))
  {
    assert (UnicodeEscape(u) + rest)[2..6] == UnicodeEscape(u)[2..6];
    HexDigitsOfUnit(u);
  }

  /** Reads code points up to the closing quote; the rest of the text comes back with them. */
  function ReadBody(t: JsString): Option<(seq<CodePoint>, JsString)>
    decreases |t|
  {
    if t != [] && t[0] == QUOTE then Some(([], t[1..]))
    else
      match ReadPoint(t)
      case None => None
      case Some((p, n)) =>
        if n > |t| then None
        else
          match ReadBody(t[n..])
          case None => None
          case Some((ps, rest)) => Some(([p] + ps, rest))
  }

  lemma {:induction false} ReadBodyOfPoints(ps: seq<CodePoint>, rest: JsString)
    ensures ReadBody(Body(ps) + [QUOTE] + rest) == Some((ps, rest))
  {
    hide EscapePoint, ReadPoint;
    var t := Body(ps) + [QUOTE] + rest;
    if ps == [] {
      assert t == [QUOTE] + rest;
    } else {
      var e, t' := EscapePoint(ps[0]), Body(ps[1..]) + [QUOTE] + rest;
      assert t == e + t';
      ReadEscapedPoint(ps[0], t');
      assert t[|e|..] == t';
      ReadBodyOfPoints(ps[1..], rest);
      assert ps == [ps[0]] + ps[1..];
    }
  }

  /** Text that begins with a quoted string begins with only one. */
  lemma QuotedPrefixFree(s: JsString, r: JsString, s': JsString, r': JsString)
    requires Quoted(s) + r == Quoted(s') + r'
    ensures s == s' && r == r'
  {
    hide Body, Points, ReadBody;
    ReadBodyOfPoints(Points(s), r);
    ReadBodyOfPoints(Points(s'), r');
    assert (Quoted(s) + r)[1..] == Body(Points(s)) + [QUOTE] + r;
    assert (Quoted(s') + r')[1..] == Body(Points(s')) + [QUOTE] + r';
    JoinPoints(s);
    JoinPoints(s');
  }

  // ── Integers ─────────────────────────────────────────────────────────────

  predicate IsDigit(u: CodeUnit) {
    '0' as int <= u <= '9' as int
  }

  function Decimal(n: nat): (t: JsString)
    ensures |t| >= 1 && (|t| >= 2 <==> n >= 10)
    ensures forall i :: 0 <= i < |t| ==> IsDigit(t[i])
  {
    if n < 10 then ['0' as int + n] else Decimal(n / 10) + ['0' as int + n % 10]
  }

  /** What a decimal text reads as. */
  function DecimalValue(t: JsString): int {
    if t == [] then 0 else DecimalValue(t[..|t| - 1]) * 10 + (t[|t| - 1] - '0' as int)
  }

  /** The decimal of a number reads as that number and has no leading zero (section 6 of RFC 8259). */
  lemma {:induction false} DecimalReads(n: nat)
    ensures DecimalValue(Decimal(n)) == n
    ensures n > 0 ==> Decimal(n)[0] != '0' as int
  {
    if n >= 10 {
      DecimalReads(n / 10);
      var t := Decimal(n);
      assert t[..|t| - 1] == Decimal(n / 10);
    } else {
      assert Decimal(n)[..0] == [];
    }
  }

  lemma {:induction false} DecimalInjective(n: nat, n': nat)
    requires Decimal(n) == Decimal(n')
    ensures n == n'
  {
    if n >= 10 && n' >= 10 {
      var t, t' := Decimal(n), Decimal(n');
      assert t[..|t| - 1] == Decimal(n / 10) && t'[..|t'| - 1] == Decimal(n' / 10);
      assert t[|t| - 1] == '0' as int + n % 10 && t'[|t'| - 1] == '0' as int + n' % 10;
      DecimalInjective(n / 10, n' / 10);
    }
  }

  predicate NoDigitFirst(r: JsString) {
    r != [] && !IsDigit(r[0])
  }

  lemma DecimalPrefixFree(n: nat, r: JsString, n': nat, r': JsString)
    requires Decimal(n) + r == Decimal(n') + r'
    requires NoDigitFirst(r) && NoDigitFirst(r')
    ensures n == n' && r == r'
  {
    RunOfDigits(Decimal(n), r);
    RunOfDigits(Decimal(n'), r');
    var t, d := Decimal(n) + r, |Decimal(n)|;
    assert t[..d] == Decimal(n) && t[..d] == Decimal(n');
    assert t[d..] == r && t[d..] == r';
    DecimalInjective(n, n');
  }

  function DigitsAhead(t: JsString): nat {
    if t == [] || !IsDigit(t[0]) then 0 else 1 + DigitsAhead(t[1..])
  }

  lemma {:induction false} RunOfDigits(ds: JsString, r: JsString)
    requires forall i :: 0 <= i < |ds| ==> IsDigit(ds[i])
    requires NoDigitFirst(r)
    ensures DigitsAhead(ds + r) == |ds|
  {
    if ds == [] {
      assert ds + r == r;
    } else {
      RunOfDigits(ds[1..], r);
      assert (ds + r)[1..] == ds[1..] + r;
    }
  }

  // ── Fixed text ───────────────────────────────────────────────────────────

  lemma SamePrefix(a: JsString, r: JsString, r': JsString)
    requires a + r == a + r'
    ensures r == r'
  {
    assert (a + r)[|a|..] == r && (a + r')[|a|..] == r';
  }
}
