/** Hexadecimal spelling of byte strings (app/src/lib/nostrKeys.ts), on which the card packers rest. */
module Hex {
  import opened Js

  predicate IsHexUnit(u: CodeUnit) {
    || '0' as int <= u <= '9' as int
    || 'a' as int <= u <= 'f' as int
    || 'A' as int <= u <= 'F' as int
  }

  /** `/^[0-9a-f]*$/i` */
  predicate IsHex(s: JsString) {
    forall i :: 0 <= i < |s| ==> IsHexUnit(s[i])
  }

  predicate IsLowerHex(s: JsString) {
    IsHex(s) && Lower(s) == s
  }

  function Nibble(u: CodeUnit): (v: nat)
    requires IsHexUnit(u)
    ensures v < 16
  {
    if u <= '9' as int then u - '0' as int
    else if u <= 'F' as int then u - 'A' as int + 10
    else u - 'a' as int + 10
  }

  function HexUnit(v: nat): (u: CodeUnit)
    requires v < 16
    ensures IsHexUnit(u) && Nibble(u) == v
    ensures LowerUnit(u) == u
  {
    if v < 10 then v + '0' as int else v - 10 + 'a' as int
  }

  lemma HexUnitOfNibble(u: CodeUnit)
    requires IsHexUnit(u)
    ensures HexUnit(Nibble(u)) == LowerUnit(u)
  {
  }

  function HexOf(bs: Bytes): (s: JsString)
    ensures |s| == 2 * |bs|
  {
    seq(2 * |bs|, i requires 0 <= i < 2 * |bs| =>
      if i % 2 == 0 then HexUnit(bs[i / 2] / 16) else HexUnit(bs[i / 2] % 16))
  }

  function BytesOfHex(s: JsString): (bs: Bytes)
    requires IsHex(s)
    ensures |bs| == |s| / 2
  {
    seq(|s| / 2, i requires 0 <= i < |s| / 2 => 16 * Nibble(s[2 * i]) + Nibble(s[2 * i + 1]))
  }

  lemma HexOfIsLower(bs: Bytes)
    ensures IsLowerHex(HexOf(bs))
  {
  }

  /** The two digits of each byte, high one first, read off the table of sixteen. */
  lemma HexDigits(bs: Bytes, k: nat)
    requires k < |bs|
    ensures HexOf(bs)[2 * k] == Text("0123456789abcdef")[bs[k] / 16]
    ensures HexOf(bs)[2 * k + 1] == Text("0123456789abcdef")[bs[k] % 16]
  {
    SpelledByte(bs, k);
  }

  lemma HexOfBytesOfHex(s: JsString)
    requires IsHex(s) && |s| % 2 == 0
    ensures HexOf(BytesOfHex(s)) == Lower(s)
  {
    var bs := BytesOfHex(s);
    forall i | 0 <= i < |s|
      ensures HexOf(bs)[i] == LowerUnit(s[i])
    {
      var k := i / 2;
      SpelledPair(s, k);
      SpelledByte(bs, k);
      assert i == 2 * k || i == 2 * k + 1;
    }
  }

  lemma SpelledPair(s: JsString, k: nat)
    requires IsHex(s) && 2 * k + 1 < |s|
    ensures var b := BytesOfHex(s)[k];
            HexUnit(b / 16) == LowerUnit(s[2 * k]) && HexUnit(b % 16) == LowerUnit(s[2 * k + 1])
  {
    Quotient(Nibble(s[2 * k]), Nibble(s[2 * k + 1]), 16);
    HexUnitOfNibble(s[2 * k]);
    HexUnitOfNibble(s[2 * k + 1]);
  }

  lemma BytesOfHexOfBytes(bs: Bytes)
    ensures IsHex(HexOf(bs)) && BytesOfHex(HexOf(bs)) == bs
  {
    forall k | 0 <= k < |bs|
      ensures BytesOfHex(HexOf(bs))[k] == bs[k]
    {
      SpelledByte(bs, k);
    }
  }

  lemma SpelledByte(bs: Bytes, k: nat)
    requires k < |bs|
    ensures HexOf(bs)[2 * k] == HexUnit(bs[k] / 16) && HexOf(bs)[2 * k + 1] == HexUnit(bs[k] % 16)
  {
    assert (2 * k + 1) / 2 == k;
  }

  /** Case is the only freedom of spelling: hex strings decode alike exactly when they agree up to case. */
  lemma SameBytesIffSameUpToCase(s: JsString, t: JsString)
    requires IsHex(s) && IsHex(t) && |s| % 2 == 0 && |t| % 2 == 0
    ensures BytesOfHex(s) == BytesOfHex(t) <==> Lower(s) == Lower(t)
  {
    HexOfBytesOfHex(s);
    HexOfBytesOfHex(t);
    if Lower(s) == Lower(t) {
      LowerKeepsBytes(s);
      LowerKeepsBytes(t);
    }
  }

  lemma LowerKeepsBytes(s: JsString)
    requires IsHex(s)
    ensures IsLowerHex(Lower(s)) && BytesOfHex(Lower(s)) == BytesOfHex(s)
  {
    forall i | 0 <= i < |s|
      ensures IsHexUnit(Lower(s)[i]) && Nibble(Lower(s)[i]) == Nibble(s[i])
    {
    }
  }

  /** `parseInt(pair, 16)` stored into a byte: leading white space is skipped, a sign is taken, parsing stops
      at the first unit that is no digit, and what is no number becomes 0. */
  function PairByte(u: CodeUnit, v: CodeUnit): byte {
    if IsHexUnit(u) then
      if IsHexUnit(v) then 16 * Nibble(u) + Nibble(v) else Nibble(u)
    else if !IsHexUnit(v) then 0
    else if IsSpace(u) || u == '+' as int then Nibble(v)
    else if u == '-' as int then (256 - Nibble(v)) % 256
    else 0
  }

  /** What any string is read as; an odd last unit is dropped. */
  function ParsedBytes(s: JsString): (bs: Bytes)
    ensures |bs| == |s| / 2
  {
    seq(|s| / 2, i requires 0 <= i < |s| / 2 => PairByte(s[2 * i], s[2 * i + 1]))
  }

  /** `parseInt(s, 16)` (section 19.2.5 of ECMA-262): white space, a sign, `0x`, and the digits in front; None is
      NaN. */
  function ParseInt16(s: JsString): Option<int> {
    var t := TrimStart(s);
    if t != [] && t[0] == '-' as int then
      match ParseDigits(t[1..]) case None => None case Some(n) => Some(-n)
    else ParseDigits(if t != [] && t[0] == '+' as int then t[1..] else t)
  }

  function ParseDigits(s: JsString): Option<int> {
    var t := if StartsWith(Lower(s), Text("0x")) then s[2..] else s;
    if t == [] || !IsHexUnit(t[0]) then None else Some(HexNumber(LeadingHex(t)))
  }

  function LeadingHex(s: JsString): (ds: JsString)
    ensures IsHex(ds)
  {
    if s == [] || !IsHexUnit(s[0]) then [] else [s[0]] + LeadingHex(s[1..])
  }

  function HexNumber(ds: JsString): nat
    requires IsHex(ds)
  {
    if ds == [] then 0 else HexNumber(ds[..|ds| - 1]) * 16 + Nibble(ds[|ds| - 1])
  }

  lemma TrimPair(u: CodeUnit, v: CodeUnit)
    ensures TrimStart([u, v]) == if !IsSpace(u) then [u, v] else if !IsSpace(v) then [v] else []
  {
    assert [u, v][1..] == [v] && [v][1..] == [];
    assert TrimStart([]) == [];
    assert TrimStart([v]) == if IsSpace(v) then [] else [v];
  }

  lemma LeadingPair(u: CodeUnit, v: CodeUnit)
    ensures LeadingHex([v]) == if IsHexUnit(v) then [v] else []
    ensures LeadingHex([u, v]) == if !IsHexUnit(u) then [] else if IsHexUnit(v) then [u, v] else [u]
  {
    assert [u, v][1..] == [v] && [v][1..] == [];
  }

  lemma NumberOfPair(u: CodeUnit, v: CodeUnit)
    requires IsHexUnit(u)
    ensures HexNumber([u]) == Nibble(u)
    ensures IsHexUnit(v) ==> HexNumber([u, v]) == Nibble(u) * 16 + Nibble(v)
  {
    assert [u][..0] == [] && [u, v][..1] == [u];
  }

  lemma NoPrefix(u: CodeUnit, v: CodeUnit)
    ensures !StartsWith(Lower([v]), Text("0x"))
    ensures StartsWith(Lower([u, v]), Text("0x")) ==> u == '0' as int && !IsHexUnit(v)
  {
    assert Text("0x")[0] == '0' as int && Text("0x")[1] == 'x' as int;
    assert Lower([u, v])[0] == LowerUnit(u) && Lower([u, v])[1] == LowerUnit(v);
  }

  lemma DigitsOfOne(v: CodeUnit)
    ensures ParseDigits([v]) == if IsHexUnit(v) then Some(Nibble(v)) else None
  {
    NoPrefix(v, v);
    LeadingPair(v, v);
    if IsHexUnit(v) { NumberOfPair(v, v); }
    hide LeadingHex, HexNumber, StartsWith, Text, Lower;
  }

  lemma DigitsOfTwo(u: CodeUnit, v: CodeUnit)
    ensures ParseDigits([u, v]) ==
            if !IsHexUnit(u) || StartsWith(Lower([u, v]), Text("0x")) then None
            else if IsHexUnit(v) then Some(Nibble(u) * 16 + Nibble(v)) else Some(Nibble(u))
  {
    NoPrefix(u, v);
    LeadingPair(u, v);
    if IsHexUnit(u) { NumberOfPair(u, v); }
    assert [u, v][2..] == [];
    hide LeadingHex, HexNumber, StartsWith, Text, Lower;
  }

  /** A stored pair is what `parseInt` makes of it, NaN as 0, modulo 256. */
  lemma PairByteIsParseInt(u: CodeUnit, v: CodeUnit)
    ensures PairByte(u, v) == match ParseInt16([u, v]) case None => 0 case Some(n) => n % 256
  {
    hide TrimStart, ParseDigits, StartsWith, Text, Lower;
    TrimPair(u, v);
    DigitsOfNone();
    DigitsOfOne(v);
    DigitsOfTwo(u, v);
    NoPrefix(u, v);
    assert [u, v][1..] == [v] && [v][1..] == [];
  }

  lemma DigitsOfNone()
    ensures ParseDigits([]) == None
  {
    assert Text("0x") != [];
  }

  lemma ParsedHex(s: JsString)
    requires IsHex(s)
    ensures ParsedBytes(s) == BytesOfHex(s)
  {
  }

  method HexToBytes(hex: JsString) returns (bytes: Bytes)
    ensures bytes == ParsedBytes(hex)
    ensures IsHex(hex) ==> bytes == BytesOfHex(hex)
  {
    var arr := new byte[|hex| / 2](_ => 0);
    var i := 0;
    while i < |hex|
      invariant 0 <= i <= |hex| + 1 && i % 2 == 0
      invariant forall k :: 0 <= k < i / 2 && k < arr.Length ==> arr[k] == ParsedBytes(hex)[k]
    {
      // a store past the end of a typed array does nothing
      if i / 2 < arr.Length {
        arr[i / 2] := PairByte(hex[i], hex[i + 1]);
      }
      i := i + 2;
    }
    if IsHex(hex) { ParsedHex(hex); }
    return arr[..];
  }
}
