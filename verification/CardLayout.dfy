/** The binary layouts of contact cards, v1 and v2, and the strict parser both share. */
module CardLayout {
  import opened Js
  import Hex

  const MAX_NAME_BYTES := 32
  const UNSIGNED_CARD_LEN := 33
  const SIGNED_CARD_FIXED_OVERHEAD_BYTES := 102
  const SIGNED_CARD_FIXED_OVERHEAD_BYTES_V2 := 122
  const HEADER_UNSIGNED: byte := 0x00
  const HEADER_SIGNED: byte := 0x20
  const HEADER_SIGNED_V2: byte := 0x60

  /** What a card carries, before any text or signature is looked at. */
  datatype Card =
    | Unsigned(pubkey: Bytes)
    | SignedV1(pubkey: Bytes, createdAt: uint32, name: Bytes, sig: Bytes)
    | SignedV2(pubkey: Bytes, createdAt: uint32, expiresAt: uint32, nonce: Bytes, name: Bytes, sig: Bytes)
  {
    predicate WellFormed() {
      && |pubkey| == 32
      && (!Unsigned? ==> |name| <= MAX_NAME_BYTES && |sig| == 64)
      && (SignedV2? ==> |nonce| == 16)
    }
  }

  datatype CardError =
    | NotBase64Url
    | TooShort
    | UnsupportedVersion
    | AvatarReserved
    | ReservedBitsSet
    | V2MustBeSigned
    | TrailingBytes
    | TruncatedBeforeNameLen
    | NameTooLong
    | LengthInconsistent
    | NameNotUtf8
    | SignatureInvalid

  // ── Packing ──────────────────────────────────────────────────────────────

  function BigEndian(n: uint32): (bs: Bytes)
    ensures |bs| == 4
  {
    [n / 0x100_0000, n / 0x1_0000 % 0x100, n / 0x100 % 0x100, n % 0x100]
  }

  function FromBigEndian(bs: Bytes): uint32
    requires |bs| == 4
  {
    bs[0] as int * 0x100_0000 + bs[1] as int * 0x1_0000 + bs[2] as int * 0x100 + bs[3] as int
  }

  function Pack(c: Card): Bytes
    requires c.WellFormed()
  {
    match c
    case Unsigned(pubkey) => [HEADER_UNSIGNED] + pubkey
    case SignedV1(pubkey, createdAt, name, sig) =>
      [HEADER_SIGNED] + pubkey + BigEndian(createdAt) + [|name|] + name + sig
    case SignedV2(pubkey, createdAt, expiresAt, nonce, name, sig) =>
      [HEADER_SIGNED_V2] + pubkey + BigEndian(createdAt) + BigEndian(expiresAt) + nonce + [|name|] + name + sig
  }

  // ── Parsing ──────────────────────────────────────────────────────────────

  function Parse(bytes: Bytes): Result<Card, CardError> {
    if |bytes| < UNSIGNED_CARD_LEN then Err(TooShort)
    else
      var header := bytes[0];
      var version := header / 64;
      if version != 0 && version != 1 then Err(UnsupportedVersion)
      else if header / 16 % 2 != 0 then Err(AvatarReserved)
      else if header % 16 != 0 then Err(ReservedBitsSet)
      else if header / 32 % 2 == 0 then
        if version == 1 then Err(V2MustBeSigned)
        else if |bytes| != UNSIGNED_CARD_LEN then Err(TrailingBytes)
        else Ok(Unsigned(bytes[1..33]))
      else ParseSigned(bytes, if version == 1 then 20 else 0)
  }

  /** `extra` is the length of the fields v2 splices in before the name. */
  function ParseSigned(bytes: Bytes, extra: nat): Result<Card, CardError>
    requires |bytes| >= UNSIGNED_CARD_LEN && (extra == 0 || extra == 20)
  {
    var at := 37 + extra;
    if |bytes| < at + 1 then Err(TruncatedBeforeNameLen)
    else if bytes[at] > MAX_NAME_BYTES then Err(NameTooLong)
    else if |bytes| != at + 1 + bytes[at] + 64 then Err(LengthInconsistent)
    else
      var nameEnd := at + 1 + bytes[at];
      var pubkey, createdAt, name, sig :=
        bytes[1..33], FromBigEndian(bytes[33..37]), bytes[at + 1..nameEnd], bytes[nameEnd..];
      if extra == 20 then
        Ok(SignedV2(pubkey, createdAt, FromBigEndian(bytes[37..41]), bytes[41..57], name, sig))
      else Ok(SignedV1(pubkey, createdAt, name, sig))
  }

  lemma BigEndianRoundTrip(n: uint32)
    ensures FromBigEndian(BigEndian(n)) == n
  {
    assert n / 0x1_0000 == n / 0x100_0000 * 0x100 + n / 0x1_0000 % 0x100;
    assert n / 0x100 == n / 0x1_0000 * 0x100 + n / 0x100 % 0x100;
  }

  lemma FromBigEndianRoundTrip(bs: Bytes)
    requires |bs| == 4
    ensures BigEndian(FromBigEndian(bs)) == bs
  {
    var n := FromBigEndian(bs);
    assert n / 0x100 == bs[0] as int * 0x1_0000 + bs[1] as int * 0x100 + bs[2] as int;
    assert n / 0x1_0000 == bs[0] as int * 0x100 + bs[1] as int;
    assert n / 0x100_0000 == bs[0];
  }

  /** The parser reads back exactly what was packed... */
  lemma ParsePack(c: Card)
    requires c.WellFormed()
    ensures Parse(Pack(c)) == Ok(c)
  {
    var bytes := Pack(c);
    match c
    case Unsigned(pubkey) =>
      assert bytes[1..33] == pubkey;
    case SignedV1(pubkey, createdAt, name, sig) =>
      BigEndianRoundTrip(createdAt);
      assert bytes[1..33] == pubkey && bytes[33..37] == BigEndian(createdAt);
      assert bytes[37] == |name| && bytes[38..38 + |name|] == name && bytes[38 + |name|..] == sig;
    case SignedV2(pubkey, createdAt, expiresAt, nonce, name, sig) =>
      BigEndianRoundTrip(createdAt);
      BigEndianRoundTrip(expiresAt);
      assert bytes[1..33] == pubkey && bytes[33..37] == BigEndian(createdAt);
      assert bytes[37..41] == BigEndian(expiresAt) && bytes[41..57] == nonce;
      assert bytes[57] == |name| && bytes[58..58 + |name|] == name && bytes[58 + |name|..] == sig;
  }

  /** ...and accepts nothing else: no trailing bytes, no ignored header bits. */
  lemma PackParse(bytes: Bytes)
    requires Parse(bytes).Ok?
    ensures Parse(bytes).value.WellFormed() && Pack(Parse(bytes).value) == bytes
  {
    AcceptedHeaders(bytes[0]);
    if bytes[0] == HEADER_UNSIGNED {
      assert bytes == [HEADER_UNSIGNED] + bytes[1..33];
    } else if bytes[0] == HEADER_SIGNED {
      PackParseV1(bytes);
    } else {
      PackParseV2(bytes);
    }
  }

  lemma PackParseV1(bytes: Bytes)
    requires |bytes| >= UNSIGNED_CARD_LEN && bytes[0] == HEADER_SIGNED && ParseSigned(bytes, 0).Ok?
    ensures ParseSigned(bytes, 0).value.WellFormed() && Pack(ParseSigned(bytes, 0).value) == bytes
  {
    hide FromBigEndian, BigEndian;
    FromBigEndianRoundTrip(bytes[33..37]);
    var end := 38 + bytes[37];
    assert bytes == [bytes[0]] + bytes[1..33] + bytes[33..37] + [bytes[37]] + bytes[38..end] + bytes[end..];
  }

  lemma PackParseV2(bytes: Bytes)
    requires |bytes| >= UNSIGNED_CARD_LEN && bytes[0] == HEADER_SIGNED_V2 && ParseSigned(bytes, 20).Ok?
    ensures ParseSigned(bytes, 20).value.WellFormed() && Pack(ParseSigned(bytes, 20).value) == bytes
  {
    hide FromBigEndian, BigEndian;
    FromBigEndianRoundTrip(bytes[33..37]);
    FromBigEndianRoundTrip(bytes[37..41]);
    var end := 58 + bytes[57];
    assert bytes == [bytes[0]] + bytes[1..33] + bytes[33..37] + bytes[37..41] + bytes[41..57] + [bytes[57]] + bytes[58..end] + bytes[end..];
  }

  /** Of the 256 headers three are accepted. */
  lemma AcceptedHeaders(header: byte)
    ensures
      (header / 64 <= 1 && header / 16 % 2 == 0 && header % 16 == 0 && !(header / 64 == 1 && header / 32 % 2 == 0))
      <==> header in {HEADER_UNSIGNED, HEADER_SIGNED, HEADER_SIGNED_V2}
  {
    assert header == header / 64 * 64 + header / 32 % 2 * 32 + header / 16 % 2 * 16 + header % 16;
  }

  /** Four bytes at this place spell the number, most significant first. */
  predicate Uint32At(bytes: Bytes, at: nat, n: int) {
    && at + 4 <= |bytes|
    && n == bytes[at] as int * 0x100_0000 + bytes[at + 1] as int * 0x1_0000 + bytes[at + 2] as int * 0x100 + bytes[at + 3] as int
  }

  /** The layouts, byte by byte: header, pubkey, created_at, in v2 expiry and nonce, name length, name, signature. */
  lemma PackedLayout(c: Card)
    requires c.WellFormed()
    ensures var bytes := Pack(c);
            match c
            case Unsigned(pubkey) => |bytes| == 33 && bytes[0] == 0x00 && bytes[1..33] == pubkey
            case SignedV1(pubkey, createdAt, name, sig) =>
              && |bytes| == 38 + |name| + 64
              && bytes[0] == 0x20 && bytes[1..33] == pubkey && Uint32At(bytes, 33, createdAt)
              && bytes[37] == |name| && bytes[38..38 + |name|] == name && bytes[38 + |name|..] == sig
            case SignedV2(pubkey, createdAt, expiresAt, nonce, name, sig) =>
              && |bytes| == 58 + |name| + 64
              && bytes[0] == 0x60 && bytes[1..33] == pubkey && Uint32At(bytes, 33, createdAt)
              && Uint32At(bytes, 37, expiresAt) && bytes[41..57] == nonce
              && bytes[57] == |name| && bytes[58..58 + |name|] == name && bytes[58 + |name|..] == sig
  {
    var bytes := Pack(c);
    match c
    case Unsigned(pubkey) =>
    case SignedV1(pubkey, createdAt, name, sig) =>
      BigEndianRoundTrip(createdAt);
      assert bytes[33..37] == BigEndian(createdAt);
    case SignedV2(pubkey, createdAt, expiresAt, nonce, name, sig) =>
      BigEndianRoundTrip(createdAt);
      BigEndianRoundTrip(expiresAt);
      assert bytes[33..37] == BigEndian(createdAt) && bytes[37..41] == BigEndian(expiresAt);
  }

  /** Every rejection, in the order of the checks: by length, then by the version, avatar and reserved bits of the
      header, then by what the header leaves of the layouts. */
  lemma ParseRejections(bytes: Bytes)
    ensures var r := Parse(bytes);
            if |bytes| < 33 then r == Err(TooShort)
            else if bytes[0] >= 0x80 then r == Err(UnsupportedVersion)
            else if bytes[0] / 0x10 % 2 == 1 then r == Err(AvatarReserved)
            else if bytes[0] % 0x10 > 0 then r == Err(ReservedBitsSet)
            else if bytes[0] == 0x40 then r == Err(V2MustBeSigned)
            else if bytes[0] == 0x00 then if |bytes| > 33 then r == Err(TrailingBytes) else r.Ok?
            else
              var min := if bytes[0] == 0x20 then 38 else 58;
              if |bytes| < min then r == Err(TruncatedBeforeNameLen)
              else if bytes[min - 1] > 32 then r == Err(NameTooLong)
              else if |bytes| != min + bytes[min - 1] + 64 then r == Err(LengthInconsistent)
              else r.Ok?
  {
    if |bytes| > 0 {
      HeaderBitsOf(bytes[0]);
    }
    hide FromBigEndian;
  }

  lemma HeaderBitsOf(header: byte)
    ensures header == header / 64 * 64 + header / 32 % 2 * 32 + header / 16 % 2 * 16 + header % 16
  {
  }

  lemma PackInjective(c: Card, c': Card)
    requires c.WellFormed() && c'.WellFormed() && Pack(c) == Pack(c')
    ensures c == c'
  {
    ParsePack(c);
    ParsePack(c');
  }

  // ── The bit operations the code reads fields with ───────────────────────

  lemma HeaderBits(header: byte)
    ensures Low(Sar(header, 6), 2) == header / 64
    ensures Low(Sar(header, 5), 1) == header / 32 % 2
    ensures Low(Sar(header, 4), 1) == header / 16 % 2
    ensures Low(header, 4) == header % 16
  {
    PowersOfTwo();
    assert ToInt32(header) == header;
    SmallLow(header / 64);
    SmallLow(header / 32);
    SmallLow(header / 16);
    SmallLow(header);
  }

  lemma SmallLow(b: byte)
    ensures Low(b, 1) == b % 2 && Low(b, 2) == b % 4 && Low(b, 4) == b % 16
  {
    PowersOfTwo();
  }

  /** `((b0 << 24) | (b1 << 16) | (b2 << 8) | b3) >>> 0` */
  function ReadUint32(b0: byte, b1: byte, b2: byte, b3: byte): int {
    Shr(Or(Or(Or(Shl(b0, 24), Shl(b1, 16)), Shl(b2, 8)), b3), 0)
  }

  /** The first shift overflows into the sign bit; the final `>>> 0` undoes that. */
  lemma ReadUint32IsBigEndian(b0: byte, b1: byte, b2: byte, b3: byte)
    ensures ReadUint32(b0, b1, b2, b3) == FromBigEndian([b0, b1, b2, b3])
  {
    hide Or, Shl, ToUint32, BitOr;
    PowersOfTwo();
    ShiftIntoSign(b0);
    ShlSmall(b1, 16);
    ShlSmall(b2, 8);
    var x1 := Or(Shl(b0, 24), Shl(b1, 16));
    var x2 := Or(x1, Shl(b2, 8));
    SmallIsUnsigned(b1 * 0x1_0000);
    OrIntoCleared(b0, 24, b1 * 0x1_0000);
    OrUnsigned(Shl(b0, 24), Shl(b1, 16));
    SmallIsUnsigned(b2 * 0x100);
    OrIntoCleared(b0 * 0x100 + b1, 16, b2 * 0x100);
    OrUnsigned(x1, Shl(b2, 8));
    SmallIsUnsigned(b3);
    OrIntoCleared(b0 * 0x1_0000 + b1 * 0x100 + b2, 8, b3);
    OrUnsigned(x2, b3);
  }

  method ReadUint32At(bytes: Bytes, offset: nat) returns (n: uint32)
    requires offset + 4 <= |bytes|
    ensures n == FromBigEndian(bytes[offset..offset + 4])
  {
    ReadUint32IsBigEndian(bytes[offset], bytes[offset + 1], bytes[offset + 2], bytes[offset + 3]);
    assert bytes[offset..offset + 4] == [bytes[offset], bytes[offset + 1], bytes[offset + 2], bytes[offset + 3]];
    n := ReadUint32(bytes[offset], bytes[offset + 1], bytes[offset + 2], bytes[offset + 3]);
  }

  lemma ShiftIntoSign(b: byte)
    ensures ToUint32(Shl(b, 24)) == b * 0x100_0000
  {
    hide ToInt32;
    PowersOfTwo();
    SmallIsSigned(b);
    var k := WrapIsCongruent(b * 0x100_0000);
    Quotient(-k, b * 0x100_0000, 0x1_0000_0000);
  }

  // ── The packers, writing into one buffer at a moving offset ─────────────

  /** Any number is stored as its remainder modulo 2^32. */
  lemma ShiftedBytes(n: int)
    ensures var bs := BigEndian(ToUint32(n));
            LowByte(Shr(n, 24)) == bs[0] && LowByte(Shr(n, 16)) == bs[1] && LowByte(Shr(n, 8)) == bs[2] && LowByte(n) == bs[3]
  {
    hide ToInt32, LowByte;
    PowersOfTwo();
    var u := ToUint32(n);
    assert Shr(n, 24) == u / 0x100_0000 && Shr(n, 16) == u / 0x1_0000 && Shr(n, 8) == u / 0x100;
    LowByteIsMod(u / 0x100_0000);
    LowByteIsMod(u / 0x1_0000);
    LowByteIsMod(u / 0x100);
    LowByteIsMod(n);
    Remainder(n % 0x1_0000_0000, n / 0x1_0000_0000 * 0x100_0000, 0x100);
  }

  lemma LowByteIsMod(n: int)
    ensures LowByte(n) == n % 0x100
  {
    WrapKeepsRemainders(n);
  }

  /** The buffer has not been written from here on. */
  ghost predicate BlankFrom(buf: array<byte>, offset: nat)
    reads buf
  {
    forall i :: offset <= i < buf.Length ==> buf[i] == 0
  }

  /** `buf.set(src, offset)` */
  method SetBytes(buf: array<byte>, src: Bytes, offset: nat)
    requires offset + |src| <= buf.Length
    modifies buf
    ensures buf[..offset + |src|] == old(buf[..offset]) + src
    ensures old(BlankFrom(buf, offset)) ==> BlankFrom(buf, offset + |src|)
  {
    for i := 0 to |src|
      invariant buf[..offset] == old(buf[..offset])
      invariant buf[offset..offset + i] == src[..i]
      invariant old(BlankFrom(buf, offset)) ==> BlankFrom(buf, offset + i)
    {
      buf[offset + i] := src[i];
    }
    assert buf[..offset + |src|] == buf[..offset] + buf[offset..offset + |src|];
  }

  /** The four consecutive byte stores of a 32-bit field. */
  method SetUint32(buf: array<byte>, n: int, offset: nat)
    requires offset + 4 <= buf.Length
    modifies buf
    ensures buf[..offset + 4] == old(buf[..offset]) + BigEndian(ToUint32(n))
    ensures old(BlankFrom(buf, offset)) ==> BlankFrom(buf, offset + 4)
  {
    hide LowByte, Shr, BigEndian, ToUint32;
    ShiftedBytes(n);
    buf[offset] := LowByte(Shr(n, 24));
    buf[offset + 1] := LowByte(Shr(n, 16));
    buf[offset + 2] := LowByte(Shr(n, 8));
    buf[offset + 3] := LowByte(n);
    assert buf[..offset + 4] == buf[..offset] + buf[offset..offset + 4];
  }

  method SetByte(buf: array<byte>, b: byte, offset: nat)
    requires offset < buf.Length
    modifies buf
    ensures buf[..offset + 1] == old(buf[..offset]) + [b]
    ensures old(BlankFrom(buf, offset)) ==> BlankFrom(buf, offset + 1)
  {
    buf[offset] := b;
    assert buf[..offset + 1] == buf[..offset] + [b];
  }

  method PackUnsigned(pubkeyHex: JsString) returns (bytes: Bytes)
    requires Hex.IsHex(pubkeyHex) && |pubkeyHex| == 64
    ensures bytes == Pack(Unsigned(Hex.BytesOfHex(pubkeyHex)))
  {
    hide Hex.BytesOfHex;
    var buf := new byte[UNSIGNED_CARD_LEN](_ => 0);
    buf[0] := HEADER_UNSIGNED;
    assert buf[..1] == [HEADER_UNSIGNED];
    SetBytes(buf, Hex.BytesOfHex(pubkeyHex), 1);
    return buf[..];
  }

  /** A signature shorter than its field leaves the rest of the field zero. */
  function Padded(sig: Bytes): (bs: Bytes)
    requires |sig| <= 64
    ensures |bs| == 64
  {
    sig + seq(64 - |sig|, _ => 0)
  }

  /** The last field: a signature that does not fit throws. */
  method SetSignature(buf: array<byte>, sigBytes: Bytes, offset: nat) returns (fits: bool)
    requires offset + 64 == buf.Length
    modifies buf
    ensures fits <==> |sigBytes| <= 64
    ensures fits && old(BlankFrom(buf, offset)) ==> buf[..] == old(buf[..offset]) + Padded(sigBytes)
  {
    if offset + |sigBytes| > buf.Length {
      return false;
    }
    ghost var done := buf[..offset];
    SetBytes(buf, sigBytes, offset);
    if old(BlankFrom(buf, offset)) {
      assert buf[..] == buf[..offset + |sigBytes|] + buf[offset + |sigBytes|..];
      assert buf[offset + |sigBytes|..] == seq(64 - |sigBytes|, _ => 0);
      assert buf[..] == done + Padded(sigBytes);
    }
    return true;
  }

  /** The fields both signed layouts begin with. */
  method SetFront(buf: array<byte>, header: byte, pubkeyBytes: Bytes, createdAt: int)
    requires buf.Length >= 37 && |pubkeyBytes| == 32 && BlankFrom(buf, 0)
    modifies buf
    ensures buf[..37] == [header] + pubkeyBytes + BigEndian(ToUint32(createdAt)) && BlankFrom(buf, 37)
  {
    hide BlankFrom, BigEndian, ToUint32;
    var offset := 0;
    SetByte(buf, header, offset);
    offset := offset + 1;
    assert buf[..offset] == [header];
    SetBytes(buf, pubkeyBytes, offset);
    offset := offset + 32;
    SetUint32(buf, createdAt, offset);
  }

  /** The fields both end with. */
  method SetBack(buf: array<byte>, nameBytes: Bytes, sigBytes: Bytes, start: nat) returns (fits: bool)
    requires start + 1 + |nameBytes| + 64 == buf.Length && |nameBytes| < 256 && BlankFrom(buf, start)
    modifies buf
    ensures fits <==> |sigBytes| <= 64
    ensures fits ==> buf[..] == old(buf[..start]) + [|nameBytes|] + nameBytes + Padded(sigBytes)
  {
    hide BlankFrom, Padded;
    var offset := start;
    SetByte(buf, |nameBytes|, offset);
    offset := offset + 1;
    SetBytes(buf, nameBytes, offset);
    offset := offset + |nameBytes|;
    fits := SetSignature(buf, sigBytes, offset);
  }

  /** `packSigned`, None where it throws. Its callers have checked the pubkey and cut the name. */
  method PackSigned(pubkeyHex: JsString, createdAt: int, nameBytes: Bytes, sigHex: JsString) returns (bytes: Option<Bytes>)
    requires Hex.IsHex(pubkeyHex) && |pubkeyHex| == 64 && |nameBytes| <= MAX_NAME_BYTES
    ensures bytes.Some? <==> |Hex.ParsedBytes(sigHex)| <= 64
    ensures bytes.Some? ==>
              bytes.value == Pack(SignedV1(Hex.BytesOfHex(pubkeyHex), ToUint32(createdAt), nameBytes, Padded(Hex.ParsedBytes(sigHex))))
  {
    hide BlankFrom, BigEndian, Padded, Hex.BytesOfHex, Hex.ParsedBytes, ToUint32;
    var pubkeyBytes := Hex.HexToBytes(pubkeyHex);
    var sigBytes := Hex.HexToBytes(sigHex);
    var buf := BlankBuffer(SIGNED_CARD_FIXED_OVERHEAD_BYTES + |nameBytes|);
    SetFront(buf, HEADER_SIGNED, pubkeyBytes, createdAt);
    var fits := SetBack(buf, nameBytes, sigBytes, 37);
    if !fits {
      return None;
    }
    return Some(buf[..]);
  }

  /** `packSignedV2`, likewise, with the expiry and the nonce in between. */
  method PackSignedV2(pubkeyHex: JsString, createdAt: int, expiresAt: uint32, nonceHex: JsString,
                      nameBytes: Bytes, sigHex: JsString) returns (bytes: Option<Bytes>)
    requires Hex.IsHex(pubkeyHex) && |pubkeyHex| == 64 && |nameBytes| <= MAX_NAME_BYTES
    requires Hex.IsHex(nonceHex) && |nonceHex| == 32
    ensures bytes.Some? <==> |Hex.ParsedBytes(sigHex)| <= 64
    ensures bytes.Some? ==>
              bytes.value == Pack(SignedV2(Hex.BytesOfHex(pubkeyHex), ToUint32(createdAt), expiresAt, Hex.BytesOfHex(nonceHex),
                                           nameBytes, Padded(Hex.ParsedBytes(sigHex))))
  {
    assert ToUint32(expiresAt) == expiresAt;
    hide BlankFrom, BigEndian, Padded, Hex.BytesOfHex, Hex.ParsedBytes, ToUint32;
    var pubkeyBytes := Hex.HexToBytes(pubkeyHex);
    var sigBytes := Hex.HexToBytes(sigHex);
    var nonceBytes := Hex.HexToBytes(nonceHex);
    var buf := BlankBuffer(SIGNED_CARD_FIXED_OVERHEAD_BYTES_V2 + |nameBytes|);
    SetFront(buf, HEADER_SIGNED_V2, pubkeyBytes, createdAt);
    var offset := 37;
    SetUint32(buf, expiresAt, offset);
    offset := offset + 4;
    SetBytes(buf, nonceBytes, offset);
    offset := offset + 16;
    ghost var front := buf[..57];
    assert front == [HEADER_SIGNED_V2] + pubkeyBytes + BigEndian(ToUint32(createdAt)) + BigEndian(expiresAt) + nonceBytes;
    var fits := SetBack(buf, nameBytes, sigBytes, offset);
    if !fits {
      return None;
    }
    hide Pack;
    PackedV2(front, pubkeyBytes, ToUint32(createdAt), expiresAt, nonceBytes, nameBytes, Padded(sigBytes));
    return Some(buf[..]);
  }

  lemma PackedV2(front: Bytes, pubkey: Bytes, createdAt: uint32, expiresAt: uint32, nonce: Bytes, name: Bytes, sig: Bytes)
    requires SignedV2(pubkey, createdAt, expiresAt, nonce, name, sig).WellFormed()
    requires front == [HEADER_SIGNED_V2] + pubkey + BigEndian(createdAt) + BigEndian(expiresAt) + nonce
    ensures front + [|name|] + name + sig == Pack(SignedV2(pubkey, createdAt, expiresAt, nonce, name, sig))
  {
    hide BigEndian;
  }

  /** `new Uint8Array(length)` */
  method BlankBuffer(length: nat) returns (buf: array<byte>)
    ensures fresh(buf) && buf.Length == length && BlankFrom(buf, 0)
  {
    buf := new byte[length](_ => 0);
  }
}
