/** base64url without padding (sections 3.5 and 5 of RFC 4648), as the contact card codec
    writes it by hand. */
module Base64Url {
  import opened Js

  type Digit = d: int | 0 <= d < 64

  // ── The alphabet ─────────────────────────────────────────────────────────

  function Symbol(d: Digit): CodeUnit {
    if d < 26 then 'A' as int + d
    else if d < 52 then 'a' as int + d - 26
    else if d < 62 then '0' as int + d - 52
    else if d == 62 then '-' as int
    else '_' as int
  }

  predicate IsSymbol(u: CodeUnit) {
    || 'A' as int <= u <= 'Z' as int
    || 'a' as int <= u <= 'z' as int
    || '0' as int <= u <= '9' as int
    || u == '-' as int
    || u == '_' as int
  }

  function Lookup(u: CodeUnit): (d: Digit)
    requires IsSymbol(u)
    ensures Symbol(d) == u
  {
    if u == '-' as int then 62
    else if u == '_' as int then 63
    else if u <= '9' as int then u - '0' as int + 52
    else if u <= 'Z' as int then u - 'A' as int
    else u - 'a' as int + 26
  }

  lemma SymbolLookup(d: Digit)
    ensures IsSymbol(Symbol(d)) && Lookup(Symbol(d)) == d
  {
  }

  predicate AllSymbols(s: JsString) {
    forall i :: 0 <= i < |s| ==> IsSymbol(s[i])
  }

  function Digits(s: JsString): (ds: seq<Digit>)
    requires AllSymbols(s)
    ensures |ds| == |s|
  {
    seq(|s|, i requires 0 <= i < |s| => Lookup(s[i]))
  }

  function Symbols(ds: seq<Digit>): (s: JsString)
    ensures |s| == |ds|
    ensures AllSymbols(s)
  {
    seq(|ds|, i requires 0 <= i < |ds| => Symbol(ds[i]))
  }

  // ── What an encoding is, digit by digit and byte by byte ────────────────

  /** Bytes past the end count as zero. */
  function ByteOr0(bs: Bytes, i: nat): byte {
    if i < |bs| then bs[i] else 0
  }

  function DigitOr0(ds: seq<Digit>, i: nat): Digit {
    if i < |ds| then ds[i] else 0
  }

  function DigitCount(n: nat): nat {
    (8 * n + 5) / 6
  }

  function ByteCount(m: nat): nat {
    (6 * m) / 8
  }

  function DigitAt(bs: Bytes, j: nat): Digit {
    var k := 3 * (j / 4);
    match j % 4
    case 0 => ByteOr0(bs, k) / 4
    case 1 => ByteOr0(bs, k) % 4 * 16 + ByteOr0(bs, k + 1) / 16
    case 2 => ByteOr0(bs, k + 1) % 16 * 4 + ByteOr0(bs, k + 2) / 64
    case _ => ByteOr0(bs, k + 2) % 64
  }

  function ByteAt(ds: seq<Digit>, k: nat): byte {
    var j := 4 * (k / 3);
    match k % 3
    case 0 => DigitOr0(ds, j) * 4 + DigitOr0(ds, j + 1) / 16
    case 1 => DigitOr0(ds, j + 1) % 16 * 16 + DigitOr0(ds, j + 2) / 4
    case _ => DigitOr0(ds, j + 2) % 4 * 64 + DigitOr0(ds, j + 3)
  }

  function EncodeDigits(bs: Bytes): (ds: seq<Digit>)
    ensures |ds| == DigitCount(|bs|)
  {
    seq(DigitCount(|bs|), j requires 0 <= j => DigitAt(bs, j))
  }

  function DecodeDigits(ds: seq<Digit>): (bs: Bytes)
    ensures |bs| == ByteCount(|ds|)
  {
    seq(ByteCount(|ds|), k requires 0 <= k => ByteAt(ds, k))
  }

  /** No length of the form 4q+1, and no stray bits below the last full byte. */
  predicate Canonical(ds: seq<Digit>) {
    match |ds| % 4
    case 0 => true
    case 1 => false
    case 2 => ds[|ds| - 1] % 16 == 0
    case _ => ds[|ds| - 1] % 4 == 0
  }

  function Encode(bs: Bytes): JsString {
    Symbols(EncodeDigits(bs))
  }

  function Decode(s: JsString): Option<Bytes> {
    if AllSymbols(s) && Canonical(Digits(s)) then Some(DecodeDigits(Digits(s))) else None
  }

  // ── Laws ─────────────────────────────────────────────────────────────────

  lemma EncodedDigit(bs: Bytes, j: nat)
    ensures DigitOr0(EncodeDigits(bs), j) == DigitAt(bs, j)
  {
  }

  lemma EncodedGroup(bs: Bytes, q: nat)
    ensures var ds, b0, b1, b2 := EncodeDigits(bs), ByteOr0(bs, 3 * q), ByteOr0(bs, 3 * q + 1), ByteOr0(bs, 3 * q + 2);
            && DigitOr0(ds, 4 * q) == b0 / 4
            && DigitOr0(ds, 4 * q + 1) == b0 % 4 * 16 + b1 / 16
            && DigitOr0(ds, 4 * q + 2) == b1 % 16 * 4 + b2 / 64
            && DigitOr0(ds, 4 * q + 3) == b2 % 64
  {
    hide DigitAt, EncodeDigits, DigitOr0, ByteOr0;
    DigitsOfGroup(bs, q);
    EncodedDigit(bs, 4 * q);
    EncodedDigit(bs, 4 * q + 1);
    EncodedDigit(bs, 4 * q + 2);
    EncodedDigit(bs, 4 * q + 3);
  }

  /** Each group of four digits spells the same 24-bit number as its group of three bytes. */
  lemma GroupsSpellTheSameNumber(bs: Bytes, q: nat)
    ensures var ds := EncodeDigits(bs);
            DigitOr0(ds, 4 * q) * 0x40000 + DigitOr0(ds, 4 * q + 1) * 0x1000
            + DigitOr0(ds, 4 * q + 2) * 0x40 + DigitOr0(ds, 4 * q + 3)
            == ByteOr0(bs, 3 * q) * 0x10000 + ByteOr0(bs, 3 * q + 1) * 0x100 + ByteOr0(bs, 3 * q + 2)
  {
    EncodedGroup(bs, q);
  }

  lemma EncodedIsCanonical(bs: Bytes)
    ensures Canonical(EncodeDigits(bs))
  {
    var ds, q, r := EncodeDigits(bs), |bs| / 3, |bs| % 3;
    EncodedGroup(bs, q);
    LastDigitIndex(|bs|);
    hide EncodeDigits, DigitAt;
    assert r == 1 ==> ByteOr0(bs, 3 * q + 1) == 0 && ds[4 * q + 1] == DigitOr0(ds, 4 * q + 1);
    assert r == 2 ==> ByteOr0(bs, 3 * q + 2) == 0 && ds[4 * q + 2] == DigitOr0(ds, 4 * q + 2);
    Quotient(ByteOr0(bs, 3 * q) % 4, 0, 16);
    Quotient(ByteOr0(bs, 3 * q + 1) % 16, 0, 4);
    Quotient(q, if r == 0 then 0 else r + 1, 4);
    hide ByteOr0, DigitOr0, DigitCount;
  }

  lemma LastDigitIndex(n: nat)
    ensures DigitCount(n) == 4 * (n / 3) + (if n % 3 == 0 then 0 else n % 3 + 1)
  {
    var q, r := n / 3, n % 3;
    assert 8 * n + 5 == 6 * (4 * q) + (8 * r + 5);
    Remainder(8 * r + 5, 4 * q, 6);
  }

  /** Decoding an encoding gives back the bytes. */
  lemma DecodeEncode(bs: Bytes)
    ensures Decode(Encode(bs)) == Some(bs)
  {
    var ds := EncodeDigits(bs);
    assert Digits(Symbols(ds)) == ds by {
      forall i | 0 <= i < |ds| { SymbolLookup(ds[i]); }
    }
    EncodedIsCanonical(bs);
    assert ByteCount(DigitCount(|bs|)) == |bs|;
    forall k | 0 <= k < |bs|
      ensures ByteAt(ds, k) == bs[k]
    {
      ByteOfEncoding(bs, k);
    }
    assert DecodeDigits(ds) == bs;
  }

  lemma ByteOfEncoding(bs: Bytes, k: nat)
    requires k < |bs|
    ensures ByteAt(EncodeDigits(bs), k) == bs[k]
  {
    hide ByteAt, EncodeDigits, DigitOr0;
    var ds, q := EncodeDigits(bs), k / 3;
    EncodedGroup(bs, q);
    ThreeBytes(ds, q, ByteOr0(bs, 3 * q), ByteOr0(bs, 3 * q + 1), ByteOr0(bs, 3 * q + 2));
    assert k == 3 * q || k == 3 * q + 1 || k == 3 * q + 2;
  }

  lemma ThreeBytes(ds: seq<Digit>, q: nat, b0: byte, b1: byte, b2: byte)
    requires DigitOr0(ds, 4 * q) == b0 / 4
    requires DigitOr0(ds, 4 * q + 1) == b0 % 4 * 16 + b1 / 16
    requires DigitOr0(ds, 4 * q + 2) == b1 % 16 * 4 + b2 / 64
    requires DigitOr0(ds, 4 * q + 3) == b2 % 64
    ensures ByteAt(ds, 3 * q) == b0 && ByteAt(ds, 3 * q + 1) == b1 && ByteAt(ds, 3 * q + 2) == b2
  {
    CompletedBytes(ds, q);
    hide ByteAt, DigitOr0;
    Quotient(b0 % 4, b1 / 16, 16);
    Quotient(b1 % 16, b2 / 64, 4);
  }

  /** Whatever the decoder accepts is the encoding of what it returns, so no two spellings of
      one payload are both accepted. */
  lemma EncodeDecode(s: JsString)
    requires Decode(s).Some?
    ensures Encode(Decode(s).value) == s
  {
    var ds := Digits(s);
    var bs := DecodeDigits(ds);
    assert Canonical(ds) && AllSymbols(s) && Decode(s) == Some(bs);
    CanonicalCounts(ds);
    hide Canonical, DigitAt, ByteAt, DigitOr0, ByteOr0, Decode, IsSymbol, Symbol, DecodeDigits;
    forall j | 0 <= j < |ds|
      ensures DigitAt(bs, j) == ds[j]
    {
      DigitOfDecoding(ds, j);
    }
    assert EncodeDigits(bs) == ds;
    assert Symbols(ds) == s;
  }

  lemma CanonicalCounts(ds: seq<Digit>)
    requires Canonical(ds)
    ensures DigitCount(ByteCount(|ds|)) == |ds|
  {
    var q, r := |ds| / 4, |ds| % 4;
    assert 6 * |ds| == 8 * (3 * q) + 6 * r;
    Remainder(6 * r, 3 * q, 8);
    LastDigitIndex(ByteCount(|ds|));
  }

  lemma DigitOfDecoding(ds: seq<Digit>, j: nat)
    requires j < |ds| && Canonical(ds)
    ensures DigitAt(DecodeDigits(ds), j) == ds[j]
  {
    hide DigitAt, DecodeDigits, ByteOr0, Canonical;
    var bs, q := DecodeDigits(ds), j / 4;
    DecodedGroup(ds, q);
    FourDigits(bs, q, DigitOr0(ds, 4 * q), DigitOr0(ds, 4 * q + 1), DigitOr0(ds, 4 * q + 2), DigitOr0(ds, 4 * q + 3));
    assert j == 4 * q || j == 4 * q + 1 || j == 4 * q + 2 || j == 4 * q + 3;
  }

  lemma FourDigits(bs: Bytes, q: nat, d0: Digit, d1: Digit, d2: Digit, d3: Digit)
    requires ByteOr0(bs, 3 * q) == d0 * 4 + d1 / 16
    requires ByteOr0(bs, 3 * q + 1) == d1 % 16 * 16 + d2 / 4
    requires ByteOr0(bs, 3 * q + 2) == d2 % 4 * 64 + d3
    ensures DigitAt(bs, 4 * q) == d0 && DigitAt(bs, 4 * q + 1) == d1
    ensures DigitAt(bs, 4 * q + 2) == d2 && DigitAt(bs, 4 * q + 3) == d3
  {
  }

  lemma DecodedGroup(ds: seq<Digit>, q: nat)
    requires Canonical(ds)
    ensures var bs, d0, d1, d2, d3 :=
              DecodeDigits(ds), DigitOr0(ds, 4 * q), DigitOr0(ds, 4 * q + 1), DigitOr0(ds, 4 * q + 2), DigitOr0(ds, 4 * q + 3);
            && ByteOr0(bs, 3 * q) == d0 * 4 + d1 / 16
            && ByteOr0(bs, 3 * q + 1) == d1 % 16 * 16 + d2 / 4
            && ByteOr0(bs, 3 * q + 2) == d2 % 4 * 64 + d3
  {
    DecodedByte(ds, 3 * q);
    DecodedByte(ds, 3 * q + 1);
    DecodedByte(ds, 3 * q + 2);
  }

  /** Past the end of the decoded bytes only padding bits are left, and those are zero. */
  lemma DecodedByte(ds: seq<Digit>, k: nat)
    requires Canonical(ds)
    ensures ByteOr0(DecodeDigits(ds), k) == ByteAt(ds, k)
  {
    if k >= ByteCount(|ds|) {
      var q, r := k / 3, k % 3;
      assert |ds| <= 4 * q + r + 1;
      CompletedBytes(ds, q);
      hide ByteAt;
      assert k == 3 * q + r && (r == 0 || r == 1 || r == 2);
      PaddingIsZero(ds, q);
    }
  }

  /** The bits of the last digits that belong to no byte. */
  lemma PaddingIsZero(ds: seq<Digit>, q: nat)
    requires Canonical(ds)
    ensures |ds| <= 4 * q + 1 ==> DigitOr0(ds, 4 * q) == 0 && DigitOr0(ds, 4 * q + 1) == 0
    ensures |ds| <= 4 * q + 2 ==> DigitOr0(ds, 4 * q + 1) % 16 == 0 && DigitOr0(ds, 4 * q + 2) == 0
    ensures |ds| <= 4 * q + 3 ==> DigitOr0(ds, 4 * q + 2) % 4 == 0 && DigitOr0(ds, 4 * q + 3) == 0
  {
    Remainder(1, q, 4);
    Remainder(2, q, 4);
    Remainder(3, q, 4);
    assert 1 + q * 4 == 4 * q + 1 && 2 + q * 4 == 4 * q + 2 && 3 + q * 4 == 4 * q + 3;
  }

  // ── The text itself ──────────────────────────────────────────────────────

  /** The table of section 5 of RFC 4648. */
  function Table(): (t: JsString)
    ensures |t| == 64
  {
    Text("ABCDEFGHIJKLMNOPQRSTUVWXYZ") + Text("abcdefghijklmnopqrstuvwxyz") + Text("0123456789-_")
  }

  lemma SymbolFromTable(d: Digit)
    ensures Symbol(d) == Table()[d]
  {
    if d < 26 { UpperText(d); } else if d < 52 { LowerText(d - 26); } else { OtherText(d - 52); }
    hide Text;
  }

  lemma UpperText(i: nat)
    requires i < 26
    ensures Text("ABCDEFGHIJKLMNOPQRSTUVWXYZ")[i] == 'A' as int + i
  {
  }

  lemma LowerText(i: nat)
    requires i < 26
    ensures Text("abcdefghijklmnopqrstuvwxyz")[i] == 'a' as int + i
  {
  }

  lemma OtherText(i: nat)
    requires i < 12
    ensures Text("0123456789-_")[i] == if i < 10 then '0' as int + i else if i == 10 then '-' as int else '_' as int
  {
  }

  /** The alphabet is the table, and looking a symbol up finds its place in it. */
  lemma AlphabetIsTheTable(u: CodeUnit)
    ensures IsSymbol(u) <==> u in Table()
    ensures IsSymbol(u) ==> Table()[Lookup(u)] == u
    ensures forall i :: 0 <= i < 64 && Table()[i] == u ==> IsSymbol(u) && Lookup(u) == i
  {
    hide Table;
    forall d: Digit ensures Symbol(d) == Table()[d] && IsSymbol(Symbol(d)) && Lookup(Symbol(d)) == d {
      SymbolFromTable(d);
      SymbolLookup(d);
    }
    if IsSymbol(u) {
      assert Table()[Lookup(u)] == Symbol(Lookup(u));
    }
    hide Symbol, IsSymbol, Lookup;
    forall i | 0 <= i < 64 && Table()[i] == u ensures IsSymbol(u) && Lookup(u) == i {
      assert u == Symbol(i);
    }
  }

  /** The number the bytes spell, most significant byte first. */
  function Number(bs: Bytes): nat {
    if bs == [] then 0 else Number(bs[..|bs| - 1]) * 0x100 + bs[|bs| - 1]
  }

  function DigitNumber(ds: seq<Digit>): nat {
    if ds == [] then 0 else DigitNumber(ds[..|ds| - 1]) * 64 + ds[|ds| - 1]
  }

  /** The zero bits that fill up the last digit. */
  function Fill(n: nat): nat {
    Pow2(6 * DigitCount(n) - 8 * n)
  }

  function Pow64(k: nat): (p: nat)
    ensures p > 0
  {
    if k == 0 then 1 else 64 * Pow64(k - 1)
  }

  lemma FillOf(n: nat)
    ensures Fill(n) == if n % 3 == 0 then 1 else if n % 3 == 1 then 16 else 4
  {
    LastDigitIndex(n);
    PowersOfTwo();
    assert 6 * DigitCount(n) - 8 * n == if n % 3 == 0 then 0 else if n % 3 == 1 then 4 else 2;
  }

  lemma NumberSnoc(bs: Bytes, b: byte)
    ensures Number(bs + [b]) == Number(bs) * 0x100 + b
  {
    assert (bs + [b])[..|bs|] == bs;
  }

  lemma DigitNumberSnoc(ds: seq<Digit>, d: Digit)
    ensures DigitNumber(ds + [d]) == DigitNumber(ds) * 64 + d
  {
    assert (ds + [d])[..|ds|] == ds;
  }

  lemma NumberOfTail(init: Bytes, tail: Bytes)
    requires 1 <= |tail| <= 3
    ensures Number(init + tail) ==
            if |tail| == 1 then Number(init) * 0x100 + tail[0]
            else if |tail| == 2 then Number(init) * 0x1_0000 + tail[0] as int * 0x100 + tail[1]
            else Number(init) * 0x100_0000 + tail[0] as int * 0x1_0000 + tail[1] as int * 0x100 + tail[2]
  {
    hide Number;
    NumberSnoc(init, tail[0]);
    if |tail| == 1 {
      assert tail == [tail[0]];
    } else {
      NumberSnoc(init + [tail[0]], tail[1]);
      if |tail| == 2 {
        assert init + tail == init + [tail[0]] + [tail[1]];
      } else {
        NumberSnoc(init + [tail[0]] + [tail[1]], tail[2]);
        assert init + tail == init + [tail[0]] + [tail[1]] + [tail[2]];
      }
    }
  }

  lemma DigitNumberOfTail(init: seq<Digit>, tail: seq<Digit>)
    requires 2 <= |tail| <= 4
    ensures DigitNumber(init + tail) ==
            if |tail| == 2 then DigitNumber(init) * 0x1000 + tail[0] as int * 64 + tail[1]
            else if |tail| == 3 then DigitNumber(init) * 0x4_0000 + tail[0] as int * 0x1000 + tail[1] as int * 64 + tail[2]
            else DigitNumber(init) * 0x100_0000 + tail[0] as int * 0x4_0000 + tail[1] as int * 0x1000 + tail[2] as int * 64 + tail[3]
  {
    hide DigitNumber;
    DigitNumberSnoc(init, tail[0]);
    DigitNumberSnoc(init + [tail[0]], tail[1]);
    if |tail| == 2 {
      assert init + tail == init + [tail[0]] + [tail[1]];
    } else {
      DigitNumberSnoc(init + [tail[0]] + [tail[1]], tail[2]);
      if |tail| == 3 {
        assert init + tail == init + [tail[0]] + [tail[1]] + [tail[2]];
      } else {
        DigitNumberSnoc(init + [tail[0]] + [tail[1]] + [tail[2]], tail[3]);
        assert init + tail == init + [tail[0]] + [tail[1]] + [tail[2]] + [tail[3]];
      }
    }
  }

  /** Whole groups are encoded on their own. */
  lemma EncodedInGroups(init: Bytes, tail: Bytes)
    requires |init| % 3 == 0
    ensures EncodeDigits(init + tail) == EncodeDigits(init) + EncodeDigits(tail)
  {
    var bs, q := init + tail, |init| / 3;
    Remainder(8 * |tail| + 5, 4 * q, 6);
    LastDigitIndex(|init|);
    assert DigitCount(|init|) == 4 * q && DigitCount(|bs|) == 4 * q + DigitCount(|tail|);
    forall j: nat | j < DigitCount(|bs|)
      ensures DigitAt(bs, j) == if j < 4 * q then DigitAt(init, j) else DigitAt(tail, j - 4 * q)
    {
      if j < 4 * q {
        DigitOfPrefix(init, tail, j);
      } else {
        DigitOfTail(init, tail, j - 4 * q);
      }
    }
  }

  lemma DigitOfPrefix(init: Bytes, tail: Bytes, j: nat)
    requires |init| % 3 == 0 && j < 4 * (|init| / 3)
    ensures DigitAt(init + tail, j) == DigitAt(init, j)
  {
    var k := 3 * (j / 4);
    assert k + 2 < |init|;
  }

  lemma DigitOfTail(init: Bytes, tail: Bytes, j: nat)
    requires |init| % 3 == 0
    ensures DigitAt(init + tail, 4 * (|init| / 3) + j) == DigitAt(tail, j)
  {
    var q := |init| / 3;
    Remainder(j, q, 4);
    assert 3 * ((4 * q + j) / 4) == |init| + 3 * (j / 4);
    assert forall i: nat :: ByteOr0(init + tail, |init| + i) == ByteOr0(tail, i);
  }

  lemma NoBytes()
    ensures DigitNumber(EncodeDigits([])) == 0 && Number([]) == 0
  {
    assert EncodeDigits([]) == [];
  }

  /** The digits spell, in base 64, the number of the bytes with zero bits added to fill the last digit. */
  lemma {:induction false} DigitsSpellTheNumber(bs: Bytes)
    ensures DigitNumber(EncodeDigits(bs)) == Number(bs) * Fill(|bs|)
    decreases |bs|
  {
    hide *;
    if bs == [] {
      NoBytes();
    } else {
      var init, tail := LastGroup(bs);
      DigitsSpellTheNumber(init);
      FillOf(|init|);
      FillOf(|bs|);
      NumberWithTail(init, tail);
    }
  }

  lemma LastGroup(bs: Bytes) returns (init: Bytes, tail: Bytes)
    requires bs != []
    ensures bs == init + tail && |init| % 3 == 0 && 1 <= |tail| <= 3 && |tail| % 3 == |bs| % 3
  {
    var r := if |bs| % 3 == 0 then 3 else |bs| % 3;
    init, tail := bs[..|bs| - r], bs[|bs| - r..];
  }

  lemma NumberWithTail(init: Bytes, tail: Bytes)
    requires 1 <= |tail| <= 3 && |init| % 3 == 0 && DigitNumber(EncodeDigits(init)) == Number(init)
    ensures DigitNumber(EncodeDigits(init + tail)) == Number(init + tail) * (if |tail| == 3 then 1 else if |tail| == 1 then 16 else 4)
  {
    hide *;
    EncodedInGroups(init, tail);
    NumberOfTail(init, tail);
    TailDigits(tail);
    DigitNumberOfTail(EncodeDigits(init), EncodeDigits(tail));
    FilledTail(tail);
  }

  lemma TailDigits(tail: Bytes)
    requires 1 <= |tail| <= 3
    ensures |EncodeDigits(tail)| == |tail| + 1
    ensures forall j :: 0 <= j <= |tail| ==> EncodeDigits(tail)[j] == DigitAt(tail, j)
  {
  }

  lemma FilledTail(tail: Bytes)
    requires 1 <= |tail| <= 3
    ensures |tail| == 1 ==> DigitAt(tail, 0) as int * 64 + DigitAt(tail, 1) == tail[0] as int * 16
    ensures |tail| == 2 ==> DigitAt(tail, 0) as int * 0x1000 + DigitAt(tail, 1) as int * 64 + DigitAt(tail, 2) == (tail[0] as int * 0x100 + tail[1]) * 4
    ensures |tail| == 3 ==> DigitAt(tail, 0) as int * 0x4_0000 + DigitAt(tail, 1) as int * 0x1000 + DigitAt(tail, 2) as int * 64 + DigitAt(tail, 3)
                            == tail[0] as int * 0x1_0000 + tail[1] as int * 0x100 + tail[2]
  {
  }

  lemma {:induction false} DigitOfNumber(ds: seq<Digit>, j: nat)
    requires j < |ds|
    ensures ds[j] == DigitNumber(ds) / Pow64(|ds| - 1 - j) % 64
    decreases |ds|
  {
    var rest, last := ds[..|ds| - 1], ds[|ds| - 1];
    var n, k := DigitNumber(rest), |ds| - 1 - j;
    if k == 0 {
      Quotient(n, last, 64);
    } else {
      DigitOfNumber(rest, j);
      var p := Pow64(k - 1);
      assert Pow64(k) == 64 * p;
      hide Pow64, DigitNumber;
      NestedQuotient(n, last, p);
    }
  }

  lemma NestedQuotient(n: nat, d: Digit, p: nat)
    requires p > 0
    ensures (n * 64 + d) / (64 * p) == n / p
  {
    assert n == n / p * p + n % p;
    assert n * 64 + d == n / p * (64 * p) + (n % p * 64 + d);
    Quotient(n / p, n % p * 64 + d, 64 * p);
  }

  /** What the encoder writes, read off the table of section 5 of RFC 4648: symbol `j` stands for the `j`-th six
      bits of the number that the bytes spell, zero bits filling up the last. */
  lemma SymbolOfNumber(bs: Bytes, j: nat)
    requires j < |Encode(bs)|
    ensures Encode(bs)[j] ==
            Table()
              [Number(bs) * Pow2(6 * |Encode(bs)| - 8 * |bs|) / Pow64(|Encode(bs)| - 1 - j) % 64]
  {
    hide Pow64, Pow2, Number, DigitNumber, EncodeDigits, Table, Symbol, DigitCount;
    DigitsSpellTheNumber(bs);
    DigitOfNumber(EncodeDigits(bs), j);
    SymbolFromTable(EncodeDigits(bs)[j]);
  }

  // ── The encoder's loop ───────────────────────────────────────────────────

  /** The three shifted bytes do not overlap, so or-ing them concatenates them. */
  lemma ChunkOfThree(b0: byte, b1: byte, b2: byte)
    ensures Shl(b0, 16) == b0 * 0x10000
    ensures Or(Shl(b0, 16), Shl(b1, 8)) == b0 * 0x10000 + b1 * 0x100
    ensures Or(Or(Shl(b0, 16), Shl(b1, 8)), b2) == b0 * 0x10000 + b1 * 0x100 + b2
  {
    hide Or, Shl, BitOr;
    PowersOfTwo();
    ShlSmall(b0, 16);
    ShlSmall(b1, 8);
    OrSmall(b0, 16, b1 * 0x100);
    OrSmall(b0 * 0x100 + b1, 8, b2);
  }

  lemma SextetsOfChunk(chunk: nat)
    requires chunk < 0x100_0000
    ensures Low(Sar(chunk, 18), 6) == chunk / 0x4_0000
    ensures Low(Sar(chunk, 12), 6) == chunk / 0x1000 % 64
    ensures Low(Sar(chunk, 6), 6) == chunk / 0x40 % 64
    ensures Low(chunk, 6) == chunk % 64
  {
    hide ToInt32;
    PowersOfTwo();
    SmallIsSigned(chunk);
    SmallIsSigned(chunk / 0x4_0000);
    SmallIsSigned(chunk / 0x1000);
    SmallIsSigned(chunk / 0x40);
  }

  lemma DigitsOfChunk(b0: byte, b1: byte, b2: byte)
    ensures var chunk := b0 * 0x10000 + b1 * 0x100 + b2;
            && Low(Sar(chunk, 18), 6) == b0 / 4
            && Low(Sar(chunk, 12), 6) == b0 % 4 * 16 + b1 / 16
            && Low(Sar(chunk, 6), 6) == b1 % 16 * 4 + b2 / 64
            && Low(chunk, 6) == b2 % 64
  {
    hide Low, Sar;
    var chunk := b0 * 0x10000 + b1 * 0x100 + b2;
    SextetsOfChunk(chunk);
    TopSextet(b0, b1, b2);
    SecondSextet(b0, b1, b2);
    ThirdSextet(b0, b1, b2);
    LastSextet(b0, b1, b2);
  }

  lemma LastSextet(b0: byte, b1: byte, b2: byte)
    ensures (b0 * 0x10000 + b1 * 0x100 + b2) % 64 == b2 % 64
  {
    Quotient(b0 * 0x400 + b1 * 4 + b2 / 64, b2 % 64, 64);
  }

  lemma TopSextet(b0: byte, b1: byte, b2: byte)
    ensures (b0 * 0x10000 + b1 * 0x100 + b2) / 0x4_0000 == b0 / 4
  {
    Quotient(b0 / 4, b0 % 4 * 0x10000 + b1 * 0x100 + b2, 0x4_0000);
  }

  lemma SecondSextet(b0: byte, b1: byte, b2: byte)
    ensures (b0 * 0x10000 + b1 * 0x100 + b2) / 0x1000 % 64 == b0 % 4 * 16 + b1 / 16
  {
    Quotient(b0 * 16 + b1 / 16, b1 % 16 * 0x100 + b2, 0x1000);
    Quotient(b0 / 4, b0 % 4 * 16 + b1 / 16, 64);
  }

  lemma ThirdSextet(b0: byte, b1: byte, b2: byte)
    ensures (b0 * 0x10000 + b1 * 0x100 + b2) / 0x40 % 64 == b1 % 16 * 4 + b2 / 64
  {
    Quotient(b0 * 0x400 + b1 * 4 + b2 / 64, b2 % 64, 0x40);
    Quotient(b0 * 16 + b1 / 16, b1 % 16 * 4 + b2 / 64, 64);
  }

  lemma DigitsOfGroup(bs: Bytes, q: nat)
    ensures var b0, b1, b2 := ByteOr0(bs, 3 * q), ByteOr0(bs, 3 * q + 1), ByteOr0(bs, 3 * q + 2);
            && DigitAt(bs, 4 * q) == b0 / 4
            && DigitAt(bs, 4 * q + 1) == b0 % 4 * 16 + b1 / 16
            && DigitAt(bs, 4 * q + 2) == b1 % 16 * 4 + b2 / 64
            && DigitAt(bs, 4 * q + 3) == b2 % 64
  {
  }

  /** The four sextets of the chunk of group q, or as many as there are bytes for. */
  lemma GroupOfChunk(bs: Bytes, q: nat)
    requires 3 * q < |bs|
    ensures var chunk := Shl(bs[3 * q], 16);
            3 * q + 1 == |bs| ==> Low(Sar(chunk, 18), 6) == DigitAt(bs, 4 * q) && Low(Sar(chunk, 12), 6) == DigitAt(bs, 4 * q + 1)
    ensures 3 * q + 2 == |bs| ==>
              var chunk := Or(Shl(bs[3 * q], 16), Shl(bs[3 * q + 1], 8));
              Low(Sar(chunk, 18), 6) == DigitAt(bs, 4 * q) && Low(Sar(chunk, 12), 6) == DigitAt(bs, 4 * q + 1)
              && Low(Sar(chunk, 6), 6) == DigitAt(bs, 4 * q + 2)
    ensures 3 * q + 2 < |bs| ==>
              var chunk := Or(Or(Shl(bs[3 * q], 16), Shl(bs[3 * q + 1], 8)), bs[3 * q + 2]);
              Low(Sar(chunk, 18), 6) == DigitAt(bs, 4 * q) && Low(Sar(chunk, 12), 6) == DigitAt(bs, 4 * q + 1)
              && Low(Sar(chunk, 6), 6) == DigitAt(bs, 4 * q + 2) && Low(chunk, 6) == DigitAt(bs, 4 * q + 3)
  {
    hide Or, Shl, Sar, Low, Pow2, DigitAt;
    var b0, b1, b2 := ByteOr0(bs, 3 * q), ByteOr0(bs, 3 * q + 1), ByteOr0(bs, 3 * q + 2);
    ChunkOfThree(b0, b1, b2);
    DigitsOfChunk(b0, b1, b2);
    DigitsOfGroup(bs, q);
  }

  method BytesToBase64Url(bytes: Bytes) returns (result: JsString)
    ensures result == Encode(bytes)
  {
    hide Or, Shl, Sar, Low, Pow2, DigitAt, Symbol, IsSymbol;
    result := [];
    var i := 0;
    ghost var q := 0;
    while i + 2 < |bytes|
      invariant 0 <= i <= |bytes| && i == 3 * q && |result| == 4 * q
      invariant forall j :: 0 <= j < |result| ==> result[j] == Symbol(DigitAt(bytes, j))
    {
      var chunk := Or(Or(Shl(bytes[i], 16), Shl(bytes[i + 1], 8)), bytes[i + 2]);
      GroupOfChunk(bytes, q);
      result := result + [Symbol(Low(Sar(chunk, 18), 6))];
      result := result + [Symbol(Low(Sar(chunk, 12), 6))];
      result := result + [Symbol(Low(Sar(chunk, 6), 6))];
      result := result + [Symbol(Low(chunk, 6))];
      i := i + 3;
      q := q + 1;
    }
    var remaining := |bytes| - i;
    if remaining > 0 { GroupOfChunk(bytes, q); }
    if remaining == 1 {
      var chunk := Shl(bytes[i], 16);
      result := result + [Symbol(Low(Sar(chunk, 18), 6))];
      result := result + [Symbol(Low(Sar(chunk, 12), 6))];
    } else if remaining == 2 {
      var chunk := Or(Shl(bytes[i], 16), Shl(bytes[i + 1], 8));
      result := result + [Symbol(Low(Sar(chunk, 18), 6))];
      result := result + [Symbol(Low(Sar(chunk, 12), 6))];
      result := result + [Symbol(Low(Sar(chunk, 6), 6))];
    }
    Quotient(q, remaining, 3);
    LastDigitIndex(|bytes|);
    assert |result| == DigitCount(|bytes|);
    assert result == Encode(bytes);
  }

  // ── The decoder's loop ───────────────────────────────────────────────────

  /** Shifting a digit into the accumulator wraps at 32 bits, but the low twelve bits, the only
      ones ever read back, are always the last two digits. */
  lemma WindowAfterShift(buffer: int, v: Digit)
    ensures Or(Shl(buffer, 6), v) % 0x1000 == buffer % 64 * 64 + v
  {
    hide Or, Shl, ToInt32;
    var kept: nat := buffer % 0x400_0000;
    ShiftedAndOred(buffer, v);
    WrapKeepsRemainders(kept * 64 + v);
    TwoDigits(kept, v);
    Remainder(kept, buffer / 0x400_0000 * 0x10_0000, 64);
  }

  lemma ShiftedAndOred(buffer: int, v: Digit)
    ensures Or(Shl(buffer, 6), v) == ToInt32(buffer % 0x400_0000 * 64 + v)
  {
    hide Shl, ToInt32, BitOr;
    PowersOfTwo();
    ShiftedSix(buffer);
    OrIntoCleared(buffer % 0x400_0000, 6, v);
    assert ToUint32(v) == v;
  }

  lemma ShiftedSix(buffer: int)
    ensures ToUint32(Shl(buffer, 6)) == buffer % 0x400_0000 * 64
  {
    hide ToInt32;
    PowersOfTwo();
    var k := WrapIsCongruent(buffer);
    var m := WrapIsCongruent(ToInt32(buffer) * 64);
    Remainder(buffer * 64, -k * 64 - m, 0x1_0000_0000);
    Quotient(buffer / 0x400_0000, buffer % 0x400_0000 * 64, 0x1_0000_0000);
  }

  lemma TwoDigits(kept: nat, v: Digit)
    ensures (kept * 64 + v) % 0x1000 == kept % 64 * 64 + v
  {
    Quotient(kept / 64, kept % 64 * 64 + v, 0x1000);
  }

  /** Eight bits of a twelve-bit window, at offset 0, 2 or 4. */
  function Slice(window: nat, at: nat): byte {
    if at == 0 then window % 0x100 else if at == 2 then window / 4 % 0x100 else window / 16 % 0x100
  }

  lemma ByteOfWindow(buffer: int, at: nat)
    requires at == 0 || at == 2 || at == 4
    ensures Low(Sar(buffer, at), 8) == Slice(buffer % 0x1000, at)
  {
    hide ToInt32, Pow2;
    PowersOfTwo();
    WrapKeepsRemainders(buffer);
    var x := ToInt32(buffer);
    SliceIgnoresHighBits(x);
    if at == 0 {
      assert x / 1 == x;
      LowEight(x);
    } else if at == 2 {
      LowEight(x / 4);
    } else {
      LowEight(x / 16);
    }
  }

  lemma LowEight(x: int)
    ensures Low(x, 8) == x % 0x100
  {
    hide ToInt32, Pow2;
    PowersOfTwo();
    WrapKeepsRemainders(x);
  }

  lemma SliceIgnoresHighBits(x: int)
    ensures x % 0x100 == Slice(x % 0x1000, 0)
    ensures x / 4 % 0x100 == Slice(x % 0x1000, 2)
    ensures x / 16 % 0x100 == Slice(x % 0x1000, 4)
  {
    var h, w := x / 0x1000, x % 0x1000;
    assert x == h * 0x1000 + w;
    Remainder(w, h * 0x400, 4);
    Remainder(w, h * 0x100, 16);
    Remainder(w, h * 16, 0x100);
    Remainder(w / 4, h * 4, 0x100);
    Remainder(w / 16, h, 0x100);
  }

  /** The byte completed by digit i lies in that digit and the one before it. */
  lemma ByteBetween(ds: seq<Digit>, i: nat)
    requires i < |ds| && i % 4 != 0
    ensures ByteAt(ds, 6 * i / 8) == Slice(Pair(ds[i - 1], ds[i]), 6 * (i + 1) % 8)
  {
    var q := i / 4;
    SliceOfPair(ds[i - 1], ds[i]);
    CompletedBytes(ds, q);
    if i % 4 == 1 {
      assert i == 4 * q + 1;
    } else if i % 4 == 2 {
      assert i == 4 * q + 2;
    } else {
      assert i == 4 * q + 3;
    }
  }

  lemma BitsAfterDigit(i: nat)
    ensures 6 * i % 8 + 6 >= 8 ==> i % 4 != 0 && 6 * (i + 1) % 8 == 6 * i % 8 - 2 && 6 * (i + 1) / 8 == 6 * i / 8 + 1
    ensures 6 * i % 8 + 6 < 8 ==> 6 * (i + 1) % 8 == 6 * i % 8 + 6 && 6 * (i + 1) / 8 == 6 * i / 8
  {
    var q, r := i / 4, i % 4;
    Remainder(6 * r, 3 * q, 8);
    Remainder(6 * (r + 1), 3 * q, 8);
    assert r == 0 || r == 1 || r == 2 || r == 3;
  }

  lemma CompletedBytes(ds: seq<Digit>, q: nat)
    ensures 6 * (4 * q + 1) / 8 == 3 * q && 6 * (4 * q + 2) / 8 == 3 * q + 1 && 6 * (4 * q + 3) / 8 == 3 * q + 2
    ensures 6 * (4 * q + 2) % 8 == 4 && 6 * (4 * q + 3) % 8 == 2 && 6 * (4 * q + 4) % 8 == 0
    ensures ByteAt(ds, 3 * q) == DigitOr0(ds, 4 * q) * 4 + DigitOr0(ds, 4 * q + 1) / 16
    ensures ByteAt(ds, 3 * q + 1) == DigitOr0(ds, 4 * q + 1) % 16 * 16 + DigitOr0(ds, 4 * q + 2) / 4
    ensures ByteAt(ds, 3 * q + 2) == DigitOr0(ds, 4 * q + 2) % 4 * 64 + DigitOr0(ds, 4 * q + 3)
  {
  }

  function Pair(hi: Digit, lo: Digit): nat {
    hi * 64 + lo
  }

  lemma SliceOfPair(hi: Digit, lo: Digit)
    ensures Slice(Pair(hi, lo), 4) == hi * 4 + lo / 16
    ensures Slice(Pair(hi, lo), 2) == hi % 16 * 16 + lo / 4
    ensures Slice(Pair(hi, lo), 0) == hi % 4 * 64 + lo
  {
    Quotient(hi * 4 + lo / 16, lo % 16, 16);
    Quotient(0, hi * 4 + lo / 16, 0x100);
    Quotient(hi * 16 + lo / 4, lo % 4, 4);
    Quotient(hi / 16, hi % 16 * 16 + lo / 4, 0x100);
    Quotient(hi / 4, hi % 4 * 64 + lo, 0x100);
  }

  /** The check on the leftover bits is the canonicity of the last digit. */
  lemma LeftoverDecides(ds: seq<Digit>, buffer: int, bits: nat)
    requires |ds| > 0 && |ds| % 4 != 1
    requires bits == 6 * |ds| % 8 && buffer % 64 == ds[|ds| - 1]
    ensures Canonical(ds) <==> !(bits > 0 && Low(buffer, bits) != 0)
  {
    LeftoverBits(buffer);
    assert |ds| % 4 == 0 ==> bits == 0;
    assert |ds| % 4 == 2 ==> bits == 4;
    assert |ds| % 4 == 3 ==> bits == 2;
  }

  lemma LeftoverBits(buffer: int)
    ensures Low(buffer, 2) == buffer % 64 % 4 && Low(buffer, 4) == buffer % 64 % 16
  {
    hide ToInt32;
    PowersOfTwo();
    var x := ToInt32(buffer);
    assert x % 64 == buffer % 64 by { WrapKeepsRemainders(buffer); }
    NestedModuli(x);
  }

  lemma NestedModuli(x: int)
    ensures x % 64 % 4 == x % 4 && x % 64 % 16 == x % 16
  {
    Remainder(x % 64, x / 64 * 16, 4);
    Remainder(x % 64, x / 64 * 4, 16);
  }

  lemma CanonicalLength(ds: seq<Digit>)
    ensures |ds| == 0 ==> Canonical(ds)
    ensures |ds| % 4 == 1 ==> !Canonical(ds)
  {
  }

  /** Digit i shifted into the accumulator: it is the low six bits, and if it completes a byte, that byte is
      read out right above the bits that are left over. */
  lemma NextDigit(ds: seq<Digit>, buffer: int, i: nat)
    requires i < |ds| && (i > 0 ==> buffer % 64 == ds[i - 1])
    ensures var next := Or(Shl(buffer, 6), ds[i]);
            && next % 64 == ds[i]
            && (6 * i % 8 + 6 >= 8 ==> Low(Sar(next, 6 * i % 8 - 2), 8) == ByteAt(ds, 6 * i / 8))
  {
    hide Or, Shl, Sar, Low, ByteAt, Slice;
    WindowAfterShift(buffer, ds[i]);
    var next := Or(Shl(buffer, 6), ds[i]);
    NestedWindow(next, buffer % 64, ds[i]);
    BitsAfterDigit(i);
    if 6 * i % 8 + 6 >= 8 {
      ShiftAmount(i);
      ByteOfWindow(next, 6 * i % 8 - 2);
      ByteBetween(ds, i);
    }
  }

  lemma NestedWindow(x: int, hi: Digit, lo: Digit)
    requires x % 0x1000 == hi * 64 + lo
    ensures x % 64 == lo
  {
    Remainder(x % 0x1000, x / 0x1000 * 64, 64);
    Quotient(hi, lo, 64);
  }

  lemma ShiftAmount(i: nat)
    requires 6 * i % 8 + 6 >= 8
    ensures 6 * i % 8 - 2 in {0, 2, 4}
  {
  }

  method Base64UrlToBytes(input: JsString) returns (r: Option<Bytes>)
    ensures r == Decode(input)
  {
    hide Or, Shl, Sar, Low, ByteAt, Slice, Canonical, IsSymbol, Symbol;
    if |input| == 0 {
      CanonicalLength([]);
      assert DecodeDigits(Digits(input)) == [];
      return Some([]);
    }
    if |input| % 4 == 1 {
      if AllSymbols(input) { CanonicalLength(Digits(input)); }
      return None;
    }
    for i := 0 to |input|
      invariant forall j :: 0 <= j < i ==> IsSymbol(input[j])
    {
      if !IsSymbol(input[i]) {
        return None;
      }
    }
    ghost var ds := Digits(input);
    var byteLength := |input| * 6 / 8;
    var out := new byte[byteLength](_ => 0);
    var buffer, bitsInBuffer, outIdx := 0, 0, 0;
    for i := 0 to |input|
      invariant bitsInBuffer == 6 * i % 8 && outIdx == 6 * i / 8
      invariant i > 0 ==> buffer % 64 == ds[i - 1]
      invariant forall k :: 0 <= k < outIdx ==> out[k] == ByteAt(ds, k)
    {
      BitsAfterDigit(i);
      NextDigit(ds, buffer, i);
      buffer := Or(Shl(buffer, 6), Lookup(input[i]));
      bitsInBuffer := bitsInBuffer + 6;
      if bitsInBuffer >= 8 {
        bitsInBuffer := bitsInBuffer - 8;
        out[outIdx] := Low(Sar(buffer, bitsInBuffer), 8);
        outIdx := outIdx + 1;
      }
    }
    assert out[..] == DecodeDigits(ds);
    LeftoverDecides(ds, buffer, bitsInBuffer);
    if bitsInBuffer > 0 && Low(buffer, bitsInBuffer) != 0 {
      return None;
    }
    return Some(out[..]);
  }
}
