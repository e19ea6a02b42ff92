/** The text codec: iteration of UTF-16 strings by code point, UTF-8 (section 3 of RFC 3629), and
    the TextEncoder / TextDecoder pair built from them. */
module Unicode {
  import opened Js

  /** Any code point, lone surrogates included. */
  type CodePoint = p: int | 0 <= p < 0x11_0000

  predicate IsHigh(p: int) { 0xD800 <= p < 0xDC00 }

  predicate IsLow(p: int) { 0xDC00 <= p < 0xE000 }

  type Scalar = c: int | 0 <= c < 0x11_0000 && !IsHigh(c) && !IsLow(c)

  const REPLACEMENT: Scalar := 0xFFFD
  const BOM: Scalar := 0xFEFF

  // ── UTF-16 ───────────────────────────────────────────────────────────────

  function Units(p: CodePoint): (us: JsString)
    ensures 1 <= |us| <= 2
  {
    if p < 0x1_0000 then [p]
    else [0xD800 + (p - 0x1_0000) / 0x400, 0xDC00 + (p - 0x1_0000) % 0x400]
  }

  predicate StartsWithPair(s: JsString) {
    |s| >= 2 && IsHigh(s[0]) && IsLow(s[1])
  }

  function PairPoint(high: CodeUnit, low: CodeUnit): CodePoint
    requires IsHigh(high) && IsLow(low)
  {
    0x1_0000 + (high - 0xD800) * 0x400 + (low - 0xDC00)
  }

  /** The code points `for (const ch of s)` visits. */
  function Points(s: JsString): (ps: seq<CodePoint>)
    ensures s != [] <==> ps != []
  {
    if s == [] then []
    else if StartsWithPair(s) then
      [PairPoint(s[0], s[1])] + Points(s[2..])
    else [s[0]] + Points(s[1..])
  }

  function Join(ps: seq<CodePoint>): JsString {
    if ps == [] then [] else Units(ps[0]) + Join(ps[1..])
  }

  /** No high surrogate directly before a low one: such a pair would read back as one point. */
  predicate Settled(ps: seq<CodePoint>) {
    forall i :: 0 < i < |ps| ==> !(IsHigh(ps[i - 1]) && IsLow(ps[i]))
  }

  lemma {:induction false} JoinPoints(s: JsString)
    ensures Join(Points(s)) == s
  {
    if s == [] {
    } else if StartsWithPair(s) {
      JoinPoints(s[2..]);
      var p := PairPoint(s[0], s[1]);
      assert Units(p) == [s[0], s[1]];
      assert Points(s)[1..] == Points(s[2..]);
      assert s == [s[0], s[1]] + s[2..];
    } else {
      JoinPoints(s[1..]);
      assert Points(s)[1..] == Points(s[1..]);
      assert s == [s[0]] + s[1..];
    }
  }

  lemma {:induction false} PointsSettled(s: JsString)
    ensures Settled(Points(s))
    ensures s != [] && IsLow(Points(s)[0]) ==> IsLow(s[0])
  {
    if s == [] {
    } else if StartsWithPair(s) {
      PointsSettled(s[2..]);
    } else {
      PointsSettled(s[1..]);
    }
  }

  lemma {:induction false} PointsJoin(ps: seq<CodePoint>)
    requires Settled(ps)
    ensures Points(Join(ps)) == ps
  {
    if ps != [] {
      var p, rest := ps[0], Join(ps[1..]);
      assert Settled(ps[1..]) by {
        forall i | 0 < i < |ps[1..]| ensures !(IsHigh(ps[1..][i - 1]) && IsLow(ps[1..][i])) {
          assert ps[1..][i - 1] == ps[i] && ps[1..][i] == ps[i + 1];
        }
      }
      PointsJoin(ps[1..]);
      assert ps == [p] + ps[1..];
      var s := Units(p) + rest;
      if p < 0x1_0000 {
        if ps[1..] != [] { FirstUnit(ps[1..]); }
        assert s[1..] == rest;
        assert !StartsWithPair(s);
      } else {
        assert s[2..] == rest;
      }
    }
  }

  lemma FirstUnit(ps: seq<CodePoint>)
    requires ps != []
    ensures Join(ps) != [] && (IsLow(Join(ps)[0]) ==> IsLow(ps[0]))
  {
  }

  lemma SettledPrefix(ps: seq<CodePoint>, k: nat)
    requires Settled(ps) && k <= |ps|
    ensures Settled(ps[..k])
  {
  }

  lemma {:induction false} JoinAppend(ps: seq<CodePoint>, p: CodePoint)
    ensures Join(ps + [p]) == Join(ps) + Units(p)
  {
    hide Units;
    if ps == [] {
      assert Join([p]) == Units(p) + Join([]);
    } else {
      JoinAppend(ps[1..], p);
      assert (ps + [p])[1..] == ps[1..] + [p];
    }
  }

  /** Beyond the basic plane: a high and a low surrogate with ten bits each (section 2.1 of RFC 2781). */
  lemma SurrogatePairs(p: CodePoint)
    ensures p < 0x1_0000 ==> Units(p) == [p]
    ensures p >= 0x1_0000 ==>
              && |Units(p)| == 2
              && 0xD800 <= Units(p)[0] <= 0xDBFF && 0xDC00 <= Units(p)[1] <= 0xDFFF
              && p == 0x1_0000 + (Units(p)[0] as int - 0xD800) * 0x400 + (Units(p)[1] as int - 0xDC00)
  {
  }

  // ── UTF-8 ────────────────────────────────────────────────────────────────

  function Utf8Of(c: Scalar): (bs: Bytes)
    ensures 1 <= |bs| <= 4
  {
    if c < 0x80 then [c]
    else if c < 0x800 then [0xC0 + c / 0x40, 0x80 + c % 0x40]
    else if c < 0x1_0000 then [0xE0 + c / 0x1000, 0x80 + c / 0x40 % 0x40, 0x80 + c % 0x40]
    else [0xF0 + c / 0x4_0000, 0x80 + c / 0x1000 % 0x40, 0x80 + c / 0x40 % 0x40, 0x80 + c % 0x40]
  }

  function Utf8(cs: seq<Scalar>): Bytes {
    if cs == [] then [] else Utf8Of(cs[0]) + Utf8(cs[1..])
  }

  /** The table of section 3 of RFC 3629: how many bytes, the marker bits each begins with, and the rest of whose
      bits spell the scalar. */
  lemma Utf8Bits(c: Scalar)
    ensures var bs := Utf8Of(c);
            if c <= 0x7F then bs == [c]
            else if c <= 0x7FF then
              |bs| == 2 && bs[0] / 0x20 == 6 && bs[1] / 0x40 == 2 && c == bs[0] % 0x20 * 0x40 + bs[1] as int % 0x40
            else if c <= 0xFFFF then
              |bs| == 3 && bs[0] / 0x10 == 14 && bs[1] / 0x40 == 2 && bs[2] / 0x40 == 2
              && c == bs[0] as int % 0x10 * 0x1000 + bs[1] as int % 0x40 * 0x40 + bs[2] as int % 0x40
            else
              |bs| == 4 && bs[0] / 8 == 30 && bs[1] / 0x40 == 2 && bs[2] / 0x40 == 2 && bs[3] / 0x40 == 2
              && c == bs[0] as int % 8 * 0x4_0000 + bs[1] as int % 0x40 * 0x1000 + bs[2] as int % 0x40 * 0x40 + bs[3] as int % 0x40
  {
    SplitSixes(c);
    var bs := Utf8Of(c);
    if c <= 0x7F {
    } else if c <= 0x7FF {
      LeadBits(bs[0], 0xC0, 0x20);
      TailBits(c);
    } else if c <= 0xFFFF {
      LeadBits(bs[0], 0xE0, 0x10);
      TailBits(c);
      TailBits(c / 0x40);
    } else {
      LeadBits(bs[0], 0xF0, 8);
      TailBits(c);
      TailBits(c / 0x40);
      TailBits(c / 0x1000);
    }
  }

  lemma LeadBits(b: byte, marker: nat, room: nat)
    requires (marker, room) in {(0xC0, 0x20), (0xE0, 0x10), (0xF0, 8)} && marker <= b < marker + room
    ensures b / room == marker / room && b % room == b - marker
  {
    Quotient(marker / room, b - marker, room);
  }

  lemma TailBits(c: nat)
    ensures (0x80 + c % 0x40) / 0x40 == 2 && (0x80 + c % 0x40) % 0x40 == c % 0x40
  {
    Quotient(2, c % 0x40, 0x40);
  }

  predicate IsContinuation(b: byte) { 0x80 <= b < 0xC0 }

  /** Six more bits from a continuation byte. */
  function Payload(high: int, b: byte): int {
    high * 0x40 + (b - 0x80)
  }

  /** The scalar at the front of a byte string and its length: the shortest form, no surrogates,
      nothing past U+10FFFF. */
  function Utf8Head(bs: Bytes): Option<(Scalar, nat)> {
    if bs == [] then None
    else if bs[0] < 0x80 then Some((bs[0], 1))
    else if 0xC2 <= bs[0] < 0xE0 && |bs| >= 2 && IsContinuation(bs[1]) then
      Some((Payload(bs[0] - 0xC0, bs[1]), 2))
    else if 0xE0 <= bs[0] < 0xF0 && |bs| >= 3 && IsContinuation(bs[1]) && IsContinuation(bs[2]) then
      var c := Payload(Payload(bs[0] - 0xE0, bs[1]), bs[2]);
      if c < 0x800 || IsHigh(c) || IsLow(c) then None else Some((c, 3))
    else if 0xF0 <= bs[0] < 0xF5 && |bs| >= 4 && IsContinuation(bs[1]) && IsContinuation(bs[2]) && IsContinuation(bs[3]) then
      var c := Payload(Payload(Payload(bs[0] - 0xF0, bs[1]), bs[2]), bs[3]);
      if c < 0x1_0000 || c >= 0x11_0000 then None else Some((c, 4))
    else None
  }

  lemma Utf8HeadBounds(bs: Bytes)
    ensures Utf8Head(bs).Some? ==> 0 < Utf8Head(bs).value.1 <= |bs|
  {
  }

  function Utf8Decode(bs: Bytes): Option<seq<Scalar>>
    decreases |bs|
  {
    if bs == [] then Some([])
    else
      Utf8HeadBounds(bs);
      match Utf8Head(bs)
      case None => None
      case Some((c, n)) =>
        match Utf8Decode(bs[n..])
        case None => None
        case Some(cs) => Some([c] + cs)
  }

  lemma HeadOfUtf8(c: Scalar, rest: Bytes)
    ensures Utf8Head(Utf8Of(c) + rest) == Some((c, |Utf8Of(c)|))
  {
    hide Payload;
    JoinSix(c);
    JoinSix(c / 0x40);
    JoinSix(c / 0x1000);
    SplitSixes(c);
    assert (Utf8Of(c) + rest)[..|Utf8Of(c)|] == Utf8Of(c);
  }

  lemma JoinSix(c: nat)
    ensures Payload(c / 0x40, 0x80 + c % 0x40) == c
  {
  }

  lemma SplitSixes(c: nat)
    ensures c / 0x1000 == c / 0x40 / 0x40 && c / 0x4_0000 == c / 0x1000 / 0x40
    ensures c == c / 0x40 * 0x40 + c % 0x40
    ensures c / 0x40 == c / 0x1000 * 0x40 + c / 0x40 % 0x40
    ensures c / 0x1000 == c / 0x4_0000 * 0x40 + c / 0x1000 % 0x40
  {
  }

  lemma HeadIsUtf8(bs: Bytes)
    requires Utf8Head(bs).Some?
    ensures var (c, n) := Utf8Head(bs).value; n <= |bs| && Utf8Of(c) == bs[..n]
  {
    hide Payload;
    var (c, n) := Utf8Head(bs).value;
    if n == 2 {
      LastSix(bs[0] - 0xC0, bs[1]);
    } else if n == 3 {
      LastSix(bs[0] - 0xE0, bs[1]);
      LastSix(Payload(bs[0] - 0xE0, bs[1]), bs[2]);
      SplitSixes(c);
    } else if n == 4 {
      LastSix(bs[0] - 0xF0, bs[1]);
      LastSix(Payload(bs[0] - 0xF0, bs[1]), bs[2]);
      LastSix(Payload(Payload(bs[0] - 0xF0, bs[1]), bs[2]), bs[3]);
      SplitSixes(c);
    }
  }

  lemma LastSix(high: nat, b: byte)
    requires IsContinuation(b)
    ensures Payload(high, b) >= 0x40 * high
    ensures Payload(high, b) / 0x40 == high && Payload(high, b) % 0x40 + 0x80 == b
  {
  }

  /** Strict decoding undoes encoding... */
  lemma {:induction false} Utf8RoundTrip(cs: seq<Scalar>)
    ensures Utf8Decode(Utf8(cs)) == Some(cs)
  {
    if cs != [] {
      HeadOfUtf8(cs[0], Utf8(cs[1..]));
      Utf8RoundTrip(cs[1..]);
      assert Utf8(cs)[|Utf8Of(cs[0])|..] == Utf8(cs[1..]);
      assert cs == [cs[0]] + cs[1..];
    }
  }

  /** ...and accepts nothing but encodings. */
  lemma {:induction false} Utf8Canonical(bs: Bytes)
    requires Utf8Decode(bs).Some?
    ensures Utf8(Utf8Decode(bs).value) == bs
    decreases |bs|
  {
    hide Utf8Head, Utf8Of;
    if bs != [] {
      HeadIsUtf8(bs);
      var n := Utf8Head(bs).value.1;
      Utf8HeadBounds(bs);
      Utf8Canonical(bs[n..]);
      assert bs == bs[..n] + bs[n..];
      assert Utf8Decode(bs).value[1..] == Utf8Decode(bs[n..]).value;
    }
  }

  // ── TextEncoder and TextDecoder ──────────────────────────────────────────

  /** TextEncoder replaces an unpaired surrogate. */
  function Usv(p: CodePoint): Scalar {
    if IsHigh(p) || IsLow(p) then REPLACEMENT else p
  }

  function UsvAll(ps: seq<CodePoint>): (cs: seq<Scalar>)
    ensures |cs| == |ps|
    ensures forall i :: 0 <= i < |ps| ==> cs[i] == Usv(ps[i])
  {
    seq(|ps|, i requires 0 <= i < |ps| => Usv(ps[i]))
  }

  function Scalars(s: JsString): seq<Scalar> {
    UsvAll(Points(s))
  }

  function EncodeText(s: JsString): Bytes {
    Utf8(Scalars(s))
  }

  /** TextDecoder drops one leading byte order mark (section 7.1 of the WHATWG Encoding Standard). */
  function DropBom(cs: seq<Scalar>): seq<Scalar> {
    if cs != [] && cs[0] == BOM then cs[1..] else cs
  }

  /** `new TextDecoder('utf-8', { fatal: true }).decode`: None where it throws. */
  function DecodeText(bs: Bytes): Option<JsString> {
    match Utf8Decode(bs)
    case None => None
    case Some(cs) => Some(Join(DropBom(cs)))
  }

  /** An unpaired surrogate is written as U+FFFD. */
  lemma LoneSurrogate(u: CodeUnit)
    requires 0xD800 <= u <= 0xDFFF
    ensures EncodeText([u]) == [0xEF, 0xBF, 0xBD]
  {
    assert [u][1..] == [] && Points([u]) == [u] && Scalars([u]) == [0xFFFD];
    assert Scalars([u])[1..] == [];
    assert Utf8([]) == [];
  }

  lemma ScalarsSettled(cs: seq<Scalar>)
    ensures Settled(cs) && Points(Join(cs)) == cs && Scalars(Join(cs)) == cs
  {
    PointsJoin(cs);
    assert UsvAll(cs) == cs;
  }

  lemma DecodeEncodeText(s: JsString)
    ensures DecodeText(EncodeText(s)) == Some(Join(DropBom(Scalars(s))))
  {
    Utf8RoundTrip(Scalars(s));
  }

  /** The UTF-8 round trip applied to a nickname before it is signed. */
  function Normalize(s: JsString): JsString {
    DecodeEncodeText(s);
    DecodeText(EncodeText(s)).value
  }

  lemma ScalarsOfNormalized(s: JsString)
    ensures Scalars(Normalize(s)) == Points(Normalize(s)) == DropBom(Scalars(s))
  {
    DecodeEncodeText(s);
    ScalarsSettled(DropBom(Scalars(s)));
  }

  predicate StartsWithBom(s: JsString) {
    s != [] && s[0] == BOM
  }

  lemma BomIsFirstScalar(s: JsString)
    ensures StartsWithBom(s) <==> Scalars(s) != [] && Scalars(s)[0] == BOM
  {
  }

  /** Text without unpaired surrogates has its code points for scalars, and normalising leaves it as it
      is but for a leading byte order mark. */
  lemma PlainText(s: JsString)
    requires forall p :: p in Points(s) ==> !(0xD800 <= p <= 0xDFFF)
    ensures Scalars(s) == Points(s)
    ensures Normalize(s) == if s != [] && s[0] == 0xFEFF then s[1..] else s
  {
    assert forall i :: 0 <= i < |Points(s)| ==> Points(s)[i] in Points(s);
    assert Scalars(s) == Points(s);
    DecodeEncodeText(s);
    BomIsFirstScalar(s);
    JoinPoints(s);
    if StartsWithBom(s) {
      assert Points(s)[1..] == Points(s[1..]);
      JoinPoints(s[1..]);
    }
  }

  predicate TwoBomsFirst(s: JsString) {
    |s| >= 2 && s[0] == BOM && s[1] == BOM
  }

  /** Normalising takes one byte order mark away, so one leads the result exactly when two led the input. */
  lemma NormalizedStartsWithBom(s: JsString)
    ensures StartsWithBom(Normalize(s)) <==> TwoBomsFirst(s)
  {
    ScalarsOfNormalized(s);
    BomIsFirstScalar(Normalize(s));
    BomIsFirstScalar(s);
    if StartsWithBom(s) {
      assert Points(s) == [BOM] + Points(s[1..]);
      assert Scalars(s)[1..] == Scalars(s[1..]);
      BomIsFirstScalar(s[1..]);
    }
  }

  /** Normalising twice drops a second byte order mark; otherwise it changes nothing more. */
  lemma NormalizeTwice(s: JsString)
    ensures Normalize(Normalize(s)) == Normalize(s) <==> !StartsWithBom(Normalize(s))
  {
    var t := Normalize(s);
    ScalarsOfNormalized(s);
    DecodeEncodeText(s);
    DecodeEncodeText(t);
    BomIsFirstScalar(t);
    if StartsWithBom(t) {
      ScalarsOfNormalized(t);
    }
  }

  // ── Byte lengths and truncation ──────────────────────────────────────────

  function ByteLength(s: JsString): nat {
    |EncodeText(s)|
  }

  function Width(p: CodePoint): (w: nat)
    ensures 1 <= w <= 4
  {
    |Utf8Of(Usv(p))|
  }

  function Widths(ps: seq<CodePoint>): nat {
    if ps == [] then 0 else Width(ps[0]) + Widths(ps[1..])
  }

  lemma {:induction false} LengthIsWidths(ps: seq<CodePoint>)
    ensures |Utf8(UsvAll(ps))| == Widths(ps)
  {
    if ps != [] {
      LengthIsWidths(ps[1..]);
      assert UsvAll(ps)[1..] == UsvAll(ps[1..]);
    }
  }

  lemma ByteLengthIsWidths(s: JsString)
    ensures ByteLength(s) == Widths(Points(s))
  {
    LengthIsWidths(Points(s));
  }

  lemma ByteLengthOfPrefix(s: JsString, k: nat)
    requires k <= |Points(s)|
    ensures Points(Join(Points(s)[..k])) == Points(s)[..k]
    ensures ByteLength(Join(Points(s)[..k])) == Widths(Points(s)[..k])
  {
    PointsSettled(s);
    SettledPrefix(Points(s), k);
    PointsJoin(Points(s)[..k]);
    ByteLengthIsWidths(Join(Points(s)[..k]));
  }

  /** How many leading code points fit in `room` bytes. */
  function Fitting(ps: seq<CodePoint>, room: int): (k: nat)
    ensures k <= |ps|
  {
    if ps == [] || Width(ps[0]) > room then 0 else 1 + Fitting(ps[1..], room - Width(ps[0]))
  }

  function Truncate(s: JsString, maxBytes: int): JsString {
    if ByteLength(s) <= maxBytes then s else Join(Points(s)[..Fitting(Points(s), maxBytes)])
  }

  lemma {:induction false} FittingIsMaximal(ps: seq<CodePoint>, room: int)
    ensures room >= 0 ==> Widths(ps[..Fitting(ps, room)]) <= room
    ensures forall j :: Fitting(ps, room) < j <= |ps| ==> Widths(ps[..j]) > room
  {
    if ps != [] {
      var w := Width(ps[0]);
      forall j | 0 < j <= |ps|
        ensures Widths(ps[..j]) == w + Widths(ps[1..][..j - 1])
      {
        assert ps[..j][1..] == ps[1..][..j - 1];
      }
      if w <= room {
        FittingIsMaximal(ps[1..], room - w);
      }
    }
  }

  /** The result is the longest code point prefix within the limit. */
  lemma TruncateIsLongest(s: JsString, maxBytes: nat) returns (k: nat)
    ensures k <= |Points(s)| && Truncate(s, maxBytes) == Join(Points(s)[..k])
    ensures ByteLength(Truncate(s, maxBytes)) <= maxBytes
    ensures forall j :: k < j <= |Points(s)| ==> ByteLength(Join(Points(s)[..j])) > maxBytes
  {
    var ps := Points(s);
    if ByteLength(s) <= maxBytes {
      k := |ps|;
      assert ps[..k] == ps;
      JoinPoints(s);
    } else {
      k := Fitting(ps, maxBytes);
      FittingIsMaximal(ps, maxBytes);
      ByteLengthOfPrefix(s, k);
      forall j | k < j <= |ps| ensures ByteLength(Join(ps[..j])) > maxBytes {
        ByteLengthOfPrefix(s, j);
      }
    }
  }

  lemma TruncateIdempotent(s: JsString, maxBytes: int)
    ensures Truncate(Truncate(s, maxBytes), maxBytes) == Truncate(s, maxBytes)
  {
    if maxBytes >= 0 {
      var k := TruncateIsLongest(s, maxBytes);
    } else {
      assert Points(s)[..0] == [];
    }
  }

  /** Normalising never lengthens the encoding; it only ever takes away a byte order mark. */
  lemma NormalizedLength(s: JsString)
    ensures ByteLength(Normalize(s)) == ByteLength(s) - (if StartsWithBom(s) then 3 else 0)
  {
    ScalarsOfNormalized(s);
    BomIsFirstScalar(s);
    var cs := Scalars(s);
    if StartsWithBom(s) {
      assert Utf8(cs) == Utf8Of(BOM) + Utf8(cs[1..]);
    }
  }

  /** A nickname capped when it was saved is not cut again when it goes onto a card. */
  lemma CappedIsNeverTruncatedAgain(raw: JsString, maxBytes: nat)
    ensures var saved := Truncate(raw, maxBytes);
            Truncate(Normalize(saved), maxBytes) == Normalize(saved)
  {
    var k := TruncateIsLongest(raw, maxBytes);
    NormalizedLength(Truncate(raw, maxBytes));
  }

  method TruncateUtf8(s: JsString, maxBytes: int) returns (result: JsString)
    ensures result == Truncate(s, maxBytes)
  {
    hide Points, Units, Width;
    if ByteLength(s) <= maxBytes {
      return s;
    }
    var byteCount := 0;
    result := [];
    var points := Points(s);
    assert points[0..] == points;
    var i := 0;
    while i < |points|
      invariant 0 <= i <= |points|
      invariant result == Join(points[..i])
      invariant Fitting(points, maxBytes) == i + Fitting(points[i..], maxBytes - byteCount)
      decreases |points| - i
    {
      var chByteLen := Width(points[i]);
      if byteCount + chByteLen > maxBytes {
        break;
      }
      assert points[i..][1..] == points[i + 1..];
      assert Join(points[..i + 1]) == Join(points[..i]) + Units(points[i]) by {
        assert points[..i + 1] == points[..i] + [points[i]];
        JoinAppend(points[..i], points[i]);
      }
      byteCount := byteCount + chByteLen;
      result := result + Units(points[i]);
      i := i + 1;
    }
  }
}
