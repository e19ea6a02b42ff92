/** Encoding and decoding of contact cards: layout, base64url, text and signature put together.

    Signing and verifying are parameters; all that is known of them is `Lawful`. */
module ContactCard {
  import opened Js
  import opened Unicode
  import opened SigPreimage
  import opened CardLayout
  import Base64Url
  import Hex

  // ── Signatures ───────────────────────────────────────────────────────────

  datatype Draft = Draft(createdAt: uint32, kind: nat, content: JsString)

  /** The fields of a signed event that the encoder packs. */
  datatype Signed = Signed(pubkey: JsString, createdAt: int, sig: JsString)

  predicate IsSigHex(s: JsString) {
    Hex.IsLowerHex(s) && |s| == 128
  }

  type Signer = Draft -> Signed

  type Verifier = (UnsignedEvent, JsString) -> bool

  predicate IsUint32(n: int) {
    0 <= n < 0x1_0000_0000
  }

  /** Signing yields a uint32 time and a signature of 64 bytes, which verification accepts. The signer may
      choose its own pubkey and created_at. */
  ghost predicate Lawful(sign: Signer, verify: Verifier) {
    forall d: Draft ::
      && IsSigHex(sign(d).sig) && IsUint32(sign(d).createdAt)
      && verify(UnsignedEvent(sign(d).pubkey, sign(d).createdAt, d.kind, d.content), sign(d).sig)
  }

  // ── Decoding ─────────────────────────────────────────────────────────────

  datatype Profile = Profile(nickname: JsString, createdAt: uint32)

  datatype Pairing = Pairing(nonce: JsString, expiresAt: uint32)

  datatype DecodedCard = DecodedCard(version: nat, pubkeyHex: JsString, profile: Option<Profile>, pairing: Option<Pairing>)

  function SignedEventOf(c: Card, name: JsString): UnsignedEvent
    requires !c.Unsigned?
  {
    if c.SignedV2? then
      V2Event(Hex.HexOf(c.pubkey), c.createdAt, HEADER_SIGNED_V2, c.expiresAt, Hex.HexOf(c.nonce), name)
    else V1Event(Hex.HexOf(c.pubkey), c.createdAt, name)
  }

  function View(c: Card, name: JsString): DecodedCard {
    match c
    case Unsigned(pubkey) => DecodedCard(0, Hex.HexOf(pubkey), None, None)
    case SignedV1(pubkey, createdAt, _, _) =>
      DecodedCard(0, Hex.HexOf(pubkey), Some(Profile(name, createdAt)), None)
    case SignedV2(pubkey, createdAt, expiresAt, nonce, _, _) =>
      DecodedCard(1, Hex.HexOf(pubkey), Some(Profile(name, createdAt)), Some(Pairing(Hex.HexOf(nonce), expiresAt)))
  }

  /** The checks that remain once the layout has been parsed. */
  function Checked(c: Card, verify: Verifier): Result<DecodedCard, CardError> {
    if c.Unsigned? then Ok(View(c, []))
    else
      match DecodeText(c.name)
      case None => Err(NameNotUtf8)
      case Some(name) =>
        if verify(SignedEventOf(c, name), Hex.HexOf(c.sig)) then Ok(View(c, name)) else Err(SignatureInvalid)
  }

  function Decoded(b64url: JsString, verify: Verifier): Result<DecodedCard, CardError> {
    match Base64Url.Decode(b64url)
    case None => Err(NotBase64Url)
    case Some(bytes) =>
      match Parse(bytes)
      case Err(e) => Err(e)
      case Ok(c) => Checked(c, verify)
  }

  function PayloadOf(c: Card): JsString
    requires c.WellFormed()
  {
    Base64Url.Encode(Pack(c))
  }

  /** What makes a well-formed card acceptable: its name is UTF-8 and its signature covers it. */
  predicate Genuine(c: Card, verify: Verifier) {
    c.Unsigned? || (DecodeText(c.name).Some? && verify(SignedEventOf(c, DecodeText(c.name).value), Hex.HexOf(c.sig)))
  }

  lemma DecodedPayload(c: Card, verify: Verifier)
    requires c.WellFormed()
    ensures Decoded(PayloadOf(c), verify) == Checked(c, verify)
    ensures Decoded(PayloadOf(c), verify).Ok? <==> Genuine(c, verify)
  {
    Base64Url.DecodeEncode(Pack(c));
    ParsePack(c);
  }

  /** What the decoder makes of the payload of a signed card: its name must be UTF-8, and the signature must be
      accepted over an event of its own key, time and name (kind 0 for v1; kind 20602 with header, expiry and
      nonce for v2); then every field comes back, bytes spelled in hex. */
  lemma SignedPayloadDecodes(c: Card, verify: Verifier)
    requires c.WellFormed() && !c.Unsigned?
    ensures var r := Decoded(PayloadOf(c), verify);
            match DecodeText(c.name)
            case None => r == Err(NameNotUtf8)
            case Some(name) =>
              var event := if c.SignedV1? then UnsignedEvent(Hex.HexOf(c.pubkey), c.createdAt, 0, CardContent(name))
                           else UnsignedEvent(Hex.HexOf(c.pubkey), c.createdAt, 20602,
                                              V2Content(0x60, c.expiresAt, Hex.HexOf(c.nonce), name));
              if !verify(event, Hex.HexOf(c.sig)) then r == Err(SignatureInvalid)
              else
                && r.Ok? && r.value.version == (if c.SignedV1? then 0 else 1)
                && r.value.pubkeyHex == Hex.HexOf(c.pubkey)
                && r.value.profile == Some(Profile(name, c.createdAt))
                && r.value.pairing == if c.SignedV1? then None else Some(Pairing(Hex.HexOf(c.nonce), c.expiresAt))
  {
    DecodedPayload(c, verify);
    hide Decoded, PayloadOf, DecodeText, CardContent, V2Content, Hex.HexOf;
  }

  /** What is no base64url is refused as such, and what is no card with the error of its layout; an unsigned card
      yields its key and nothing else. */
  lemma OtherPayloads(s: JsString, verify: Verifier)
    ensures Base64Url.Decode(s).None? <==> Decoded(s, verify) == Err(NotBase64Url)
    ensures Base64Url.Decode(s).Some? && Parse(Base64Url.Decode(s).value).Err? ==>
              Decoded(s, verify) == Err(Parse(Base64Url.Decode(s).value).error)
    ensures forall pubkey: Bytes :: |pubkey| == 32 ==>
              Decoded(PayloadOf(Unsigned(pubkey)), verify) == Ok(DecodedCard(0, Hex.HexOf(pubkey), None, None))
  {
    forall pubkey: Bytes | |pubkey| == 32
      ensures Decoded(PayloadOf(Unsigned(pubkey)), verify) == Ok(DecodedCard(0, Hex.HexOf(pubkey), None, None))
    {
      DecodedPayload(Unsigned(pubkey), verify);
    }
    if Base64Url.Decode(s).Some? { ParseRejections(Base64Url.Decode(s).value); }
    hide PayloadOf, Parse, Base64Url.Decode, DecodeText;
  }

  /** Every accepted string is the payload of exactly one card, a genuine one: no second spelling, no
      trailing bytes, no ignored header bits. */
  lemma AcceptedIsOnePayload(s: JsString, verify: Verifier) returns (c: Card)
    requires Decoded(s, verify).Ok?
    ensures c.WellFormed() && Genuine(c, verify) && s == PayloadOf(c)
    ensures Decoded(s, verify) == Checked(c, verify)
    ensures forall c': Card :: c'.WellFormed() && PayloadOf(c') == s ==> c' == c
  {
    var bytes := Base64Url.Decode(s).value;
    c := Parse(bytes).value;
    Base64Url.EncodeDecode(s);
    PackParse(bytes);
    forall c': Card | c'.WellFormed() && PayloadOf(c') == s
      ensures c' == c
    {
      Base64Url.DecodeEncode(Pack(c'));
      ParsePack(c');
    }
  }

  predicate BomFirst(bs: Bytes) {
    |bs| >= 3 && bs[0] == 0xEF && bs[1] == 0xBB && bs[2] == 0xBF
  }

  /** The raw name bytes can be recovered from the decoded nickname exactly when they do not begin with
      a byte order mark, which the text decoder swallows. */
  lemma NameBytesRecovered(name: Bytes)
    requires DecodeText(name).Some?
    ensures EncodeText(DecodeText(name).value) == name <==> !BomFirst(name)
  {
    var cs := Utf8Decode(name).value;
    Utf8Canonical(name);
    ScalarsSettled(DropBom(cs));
    if cs != [] && cs[0] == BOM {
      assert Utf8(cs) == Utf8Of(BOM) + Utf8(cs[1..]);
    }
  }

  /** The decoded view of a card plus its signature determine the payload, byte order marks aside. */
  lemma ViewDeterminesPayload(c: Card, c': Card, verify: Verifier)
    requires c.WellFormed() && c'.WellFormed() && Genuine(c, verify) && Genuine(c', verify)
    requires Checked(c, verify) == Checked(c', verify)
    requires !c.Unsigned? && !c'.Unsigned? ==> c.sig == c'.sig && !BomFirst(c.name) && !BomFirst(c'.name)
    ensures c == c'
  {
    hide Hex.HexOf, Hex.BytesOfHex, EncodeText, DecodeText, V1Event, V2Event, BomFirst;
    Hex.BytesOfHexOfBytes(c.pubkey);
    Hex.BytesOfHexOfBytes(c'.pubkey);
    if !c.Unsigned? {
      NameBytesRecovered(c.name);
      NameBytesRecovered(c'.name);
      if c.SignedV2? {
        Hex.BytesOfHexOfBytes(c.nonce);
        Hex.BytesOfHexOfBytes(c'.nonce);
      }
    }
  }

  // ── Encoding ─────────────────────────────────────────────────────────────

  datatype EncodeError = BadPubkey | BadNonce | BadExpiry | BadCreatedAt | EmptyNickname | SignerMismatch | SignatureTooLong

  /** What `encodeCardV2` returns. */
  datatype EncodedCardV2 = EncodedCardV2(pubkeyHex: JsString, name: JsString, nonceHex: JsString, expiresAt: uint32, cardB64Url: JsString)

  /** The signature fits its field. */
  predicate FitsSig(signed: Signed) {
    |Hex.ParsedBytes(signed.sig)| <= 64
  }

  predicate IsPubkeyHex(s: JsString) {
    Hex.IsHex(s) && |s| == 64
  }

  predicate IsNonceHex(s: JsString) {
    Hex.IsHex(s) && |s| == 32
  }

  /** The name that goes onto a card. */
  function CardName(nickname: JsString): JsString {
    Truncate(Normalize(nickname), MAX_NAME_BYTES)
  }

  lemma CardNameFits(nickname: JsString)
    ensures |EncodeText(CardName(nickname))| <= MAX_NAME_BYTES
  {
    var k := TruncateIsLongest(Normalize(nickname), MAX_NAME_BYTES);
  }

  function V1Card(pubkeyHex: JsString, nickname: JsString, signed: Signed): (c: Card)
    requires IsPubkeyHex(pubkeyHex) && FitsSig(signed)
    ensures c.WellFormed()
  {
    CardNameFits(nickname);
    SignedV1(Hex.BytesOfHex(pubkeyHex), ToUint32(signed.createdAt), EncodeText(CardName(nickname)), Padded(Hex.ParsedBytes(signed.sig)))
  }

  function V2Card(pubkeyHex: JsString, nickname: JsString, nonceHex: JsString, expiresAt: uint32, signed: Signed): (c: Card)
    requires IsPubkeyHex(pubkeyHex) && IsNonceHex(nonceHex) && FitsSig(signed)
    ensures c.WellFormed()
  {
    CardNameFits(nickname);
    SignedV2(Hex.BytesOfHex(pubkeyHex), ToUint32(signed.createdAt), expiresAt, Hex.BytesOfHex(nonceHex),
             EncodeText(CardName(nickname)), Padded(Hex.ParsedBytes(signed.sig)))
  }

  function V1Draft(nickname: JsString, createdAt: uint32): Draft {
    Draft(createdAt, 0, CardContent(CardName(nickname)))
  }

  function V2Draft(nickname: JsString, createdAt: uint32, nonceHex: JsString, expiresAt: uint32): Draft {
    Draft(createdAt, CARD_SIG_KIND_V2, V2Content(HEADER_SIGNED_V2, expiresAt, nonceHex, CardName(nickname)))
  }

  function Encoded(pubkeyHex: JsString, nickname: JsString, createdAt: int, sign: Signer): Result<JsString, EncodeError> {
    if !IsPubkeyHex(pubkeyHex) then Err(BadPubkey)
    else if !IsUint32(createdAt) then Err(BadCreatedAt)
    else
      var pubkey := LowerPubkey(pubkeyHex);
      if Normalize(nickname) == [] then Ok(PayloadOf(Unsigned(Hex.BytesOfHex(pubkey))))
      else
        var signed := sign(V1Draft(nickname, createdAt));
        if signed.pubkey != pubkey then Err(SignerMismatch)
        else if !FitsSig(signed) then Err(SignatureTooLong)
        else Ok(PayloadOf(V1Card(pubkey, nickname, signed)))
  }

  function EncodedV2(pubkeyHex: JsString, nickname: JsString, createdAt: int, nonceHex: JsString, expiresAt: int,
                     sign: Signer): Result<EncodedCardV2, EncodeError> {
    if !IsPubkeyHex(pubkeyHex) then Err(BadPubkey)
    else if !IsNonceHex(nonceHex) then Err(BadNonce)
    else if !IsUint32(expiresAt) then Err(BadExpiry)
    else if !IsUint32(createdAt) then Err(BadCreatedAt)
    else if CardName(nickname) == [] then Err(EmptyNickname)
    else
      var pubkey, nonce := LowerPubkey(pubkeyHex), LowerNonce(nonceHex);
      var signed := sign(V2Draft(nickname, createdAt, nonce, expiresAt));
      if signed.pubkey != pubkey then Err(SignerMismatch)
      else if !FitsSig(signed) then Err(SignatureTooLong)
      else
        var payload := PayloadOf(V2Card(pubkey, nickname, nonce, expiresAt, signed));
        Ok(EncodedCardV2(pubkey, CardName(nickname), nonce, expiresAt, payload))
  }

  function LowerPubkey(s: JsString): (t: JsString)
    requires IsPubkeyHex(s)
    ensures IsPubkeyHex(t) && Lower(t) == t
  {
    Hex.LowerKeepsBytes(s);
    Lower(s)
  }

  function LowerNonce(s: JsString): (t: JsString)
    requires IsNonceHex(s)
    ensures IsNonceHex(t) && Lower(t) == t
  {
    Hex.LowerKeepsBytes(s);
    Lower(s)
  }

  // ── Every encoded card decodes to what was encoded ──────────────────────

  /** A card name is empty only when the whole normalised nickname is, and begins with a byte order mark
      only when that does. */
  lemma CardNameFirstPoint(nickname: JsString)
    ensures CardName(nickname) == [] <==> Normalize(nickname) == []
    ensures StartsWithBom(CardName(nickname)) <==> StartsWithBom(Normalize(nickname))
    ensures Scalars(CardName(nickname)) == Points(CardName(nickname))
  {
    var t := Normalize(nickname);
    var ps := Points(t);
    ScalarsOfNormalized(nickname);
    var k := TruncateIsLongest(t, MAX_NAME_BYTES);
    ByteLengthOfPrefix(t, k);
    if ps != [] {
      ByteLengthOfPrefix(t, 1);
      assert Widths(ps[..1]) == Width(ps[0]) by { assert ps[..1][1..] == []; }
      assert k >= 1;
      assert ps[..k][0] == ps[0];
    }
    BomIsFirstScalar(CardName(nickname));
    BomIsFirstScalar(t);
  }

  /** The name read back from a card is the name that was signed, unless the nickname began with two byte
      order marks: normalising drops one, reading back the other. */
  lemma CardNameReadsBack(nickname: JsString)
    ensures DecodeText(EncodeText(CardName(nickname))) == Some(CardName(nickname)) <==> !TwoBomsFirst(nickname)
    ensures DecodeText(EncodeText(CardName(nickname))).Some?
  {
    var name := CardName(nickname);
    CardNameFirstPoint(nickname);
    NormalizedStartsWithBom(nickname);
    DecodeEncodeText(name);
    BomIsFirstScalar(name);
    JoinPoints(name);
    ScalarsSettled(DropBom(Scalars(name)));
  }

  /** A signature of the right form fills its field and is spelled as it was. */
  lemma SigReadsBack(sig: JsString)
    requires IsSigHex(sig)
    ensures |Hex.ParsedBytes(sig)| == 64 && Hex.HexOf(Padded(Hex.ParsedBytes(sig))) == sig
  {
    Hex.ParsedHex(sig);
    Hex.HexOfBytesOfHex(sig);
    assert Padded(Hex.ParsedBytes(sig)) == Hex.BytesOfHex(sig);
  }

  lemma TimeReadsBack(n: int)
    requires IsUint32(n)
    ensures ToUint32(n) == n
  {
  }

  /** Unsigned and signed v1 cards. */
  lemma EncodedCardDecodes(pubkeyHex: JsString, nickname: JsString, createdAt: int, sign: Signer, verify: Verifier)
    requires Lawful(sign, verify)
    requires Encoded(pubkeyHex, nickname, createdAt, sign).Ok?
    ensures var decoded := Decoded(Encoded(pubkeyHex, nickname, createdAt, sign).value, verify);
            if Normalize(nickname) == [] then decoded == Ok(DecodedCard(0, Lower(pubkeyHex), None, None))
            else
              var at := sign(V1Draft(nickname, createdAt)).createdAt;
              decoded == Ok(DecodedCard(0, Lower(pubkeyHex), Some(Profile(CardName(nickname), at)), None))
              <==> !TwoBomsFirst(nickname)
  {
    hide Hex.HexOf, Hex.BytesOfHex, CardContent, Truncate, Normalize, EncodeText, DecodeText, Lower, PayloadOf;
    var pubkey := LowerPubkey(pubkeyHex);
    Hex.HexOfBytesOfHex(pubkey);
    if Normalize(nickname) == [] {
      DecodedPayload(Unsigned(Hex.BytesOfHex(pubkey)), verify);
    } else {
      var signed := sign(V1Draft(nickname, createdAt));
      SigReadsBack(signed.sig);
      TimeReadsBack(signed.createdAt);
      hide Padded, Hex.ParsedBytes, ToUint32;
      var c := V1Card(pubkey, nickname, signed);
      DecodedPayload(c, verify);
      CardNameReadsBack(nickname);
    }
  }

  /** v2 cards: the payload decodes to what is returned beside it, nonce and expiry included. */
  lemma EncodedV2CardDecodes(pubkeyHex: JsString, nickname: JsString, createdAt: int, nonceHex: JsString, expiresAt: int,
                             sign: Signer, verify: Verifier)
    requires Lawful(sign, verify)
    requires EncodedV2(pubkeyHex, nickname, createdAt, nonceHex, expiresAt, sign).Ok?
    ensures var card := EncodedV2(pubkeyHex, nickname, createdAt, nonceHex, expiresAt, sign).value;
            var at := sign(V2Draft(nickname, createdAt, Lower(nonceHex), expiresAt)).createdAt;
            && card.pubkeyHex == Lower(pubkeyHex) && card.name == CardName(nickname)
            && card.nonceHex == Lower(nonceHex) && card.expiresAt == expiresAt
            && (Decoded(card.cardB64Url, verify) ==
                Ok(DecodedCard(1, card.pubkeyHex, Some(Profile(card.name, at)), Some(Pairing(card.nonceHex, card.expiresAt))))
                <==> !TwoBomsFirst(nickname))
  {
    hide Hex.HexOf, Hex.BytesOfHex, V2Content, Truncate, Normalize, EncodeText, DecodeText, Lower, PayloadOf;
    var pubkey, nonce := LowerPubkey(pubkeyHex), LowerNonce(nonceHex);
    Hex.HexOfBytesOfHex(pubkey);
    Hex.HexOfBytesOfHex(nonce);
    var signed := sign(V2Draft(nickname, createdAt, nonce, expiresAt));
    SigReadsBack(signed.sig);
    TimeReadsBack(signed.createdAt);
    hide Padded, Hex.ParsedBytes, ToUint32;
    var c := V2Card(pubkey, nickname, nonce, expiresAt, signed);
    DecodedPayload(c, verify);
    CardNameReadsBack(nickname);
  }

  // ── Exactly which inputs are encoded ────────────────────────────────────

  /** Nothing is left of a nickname exactly when it is empty or a lone byte order mark. */
  lemma NothingLeft(nickname: JsString)
    ensures Normalize(nickname) == [] <==> nickname == [] || nickname == [BOM]
    ensures CardName(nickname) == [] <==> nickname == [] || nickname == [BOM]
  {
    CardNameFirstPoint(nickname);
    ScalarsOfNormalized(nickname);
    BomIsFirstScalar(nickname);
    if StartsWithBom(nickname) {
      assert Points(nickname) == [BOM] + Points(nickname[1..]);
      assert |Scalars(nickname)| == 1 + |Points(nickname[1..])|;
      assert nickname == [BOM] + nickname[1..];
    }
  }

  lemma FitsSigIff(signed: Signed)
    ensures FitsSig(signed) <==> |signed.sig| <= 129
  {
  }

  /** Exactly when a v1 or unsigned card comes out, and the error of the first guard that fails otherwise. The signer
      is handed a NIP-01 event of kind 0 with the card's content. */
  lemma EncodedIff(pubkeyHex: JsString, nickname: JsString, createdAt: int, sign: Signer)
    ensures var r := Encoded(pubkeyHex, nickname, createdAt, sign);
            if !(Hex.IsHex(pubkeyHex) && |pubkeyHex| == 64) then r == Err(BadPubkey)
            else if !(0 <= createdAt <= 0xFFFF_FFFF) then r == Err(BadCreatedAt)
            else if nickname == [] || nickname == [BOM] then r.Ok?
            else
              var signed := sign(Draft(createdAt, 0, CardContent(CardName(nickname))));
              if signed.pubkey != Lower(pubkeyHex) then r == Err(SignerMismatch)
              else if |signed.sig| > 129 then r == Err(SignatureTooLong)
              else r.Ok?
  {
    NothingLeft(nickname);
    hide CardContent, Truncate, Normalize, Lower, PayloadOf;
  }

  /** Exactly when a v2 card comes out: 64 and 32 hex digits, two uint32 times, a nickname that is neither empty
      nor a lone byte order mark, and a signer that answers for that very key with a signature that fits its
      field. Otherwise the error of the first guard that fails. */
  lemma EncodedV2Iff(pubkeyHex: JsString, nickname: JsString, createdAt: int, nonceHex: JsString, expiresAt: int, sign: Signer)
    ensures var r := EncodedV2(pubkeyHex, nickname, createdAt, nonceHex, expiresAt, sign);
            if !(Hex.IsHex(pubkeyHex) && |pubkeyHex| == 64) then r == Err(BadPubkey)
            else if !(Hex.IsHex(nonceHex) && |nonceHex| == 32) then r == Err(BadNonce)
            else if !(0 <= expiresAt <= 0xFFFF_FFFF) then r == Err(BadExpiry)
            else if !(0 <= createdAt <= 0xFFFF_FFFF) then r == Err(BadCreatedAt)
            else if nickname == [] || nickname == [BOM] then r == Err(EmptyNickname)
            else
              var signed := sign(Draft(createdAt, 20602, V2Content(0x60, expiresAt, Lower(nonceHex), CardName(nickname))));
              if signed.pubkey != Lower(pubkeyHex) then r == Err(SignerMismatch)
              else if |signed.sig| > 129 then r == Err(SignatureTooLong)
              else r.Ok?
  {
    NothingLeft(nickname);
    hide V2Content, Truncate, Normalize, Lower, PayloadOf;
  }

  /** What an encoded card consists of, whatever the signer answered: the bytes its payload spells. The time is the
      signer's modulo 2^32, and a short signature is followed by zeros. */
  lemma EncodedBytes(pubkeyHex: JsString, nickname: JsString, createdAt: int, sign: Signer)
    requires Encoded(pubkeyHex, nickname, createdAt, sign).Ok?
    ensures var decoded := Base64Url.Decode(Encoded(pubkeyHex, nickname, createdAt, sign).value);
            && decoded.Some?
            && var bytes := decoded.value;
            if nickname == [] || nickname == [BOM] then |bytes| == 33 && bytes[0] == 0x00 && Hex.HexOf(bytes[1..33]) == Lower(pubkeyHex)
            else
              var name := EncodeText(CardName(nickname));
              var signed := sign(Draft(createdAt, 0, CardContent(CardName(nickname))));
              SignedBytes(bytes, 0x20, pubkeyHex, signed, name, 38)
  {
    hide CardName, EncodeText, Pack, Base64Url.Decode, Uint32At, Hex.HexOf, CardContent, PayloadOf, FitsSig;
    var c := EncodedV1Card(pubkeyHex, nickname, createdAt, sign);
    hide Encoded, Padded, Hex.ParsedBytes, Lower;
    PayloadBytes(c);
    if c.SignedV1? { FitsSigMeans(sign(Draft(createdAt, 0, CardContent(CardName(nickname))))); }
  }

  lemma EncodedV1Card(pubkeyHex: JsString, nickname: JsString, createdAt: int, sign: Signer) returns (c: Card)
    requires Encoded(pubkeyHex, nickname, createdAt, sign).Ok?
    ensures IsUint32(createdAt) && c.WellFormed() && Hex.HexOf(c.pubkey) == Lower(pubkeyHex)
    ensures Encoded(pubkeyHex, nickname, createdAt, sign) == Ok(PayloadOf(c))
    ensures if nickname == [] || nickname == [BOM] then c.Unsigned?
            else
              var signed := sign(Draft(createdAt, 0, CardContent(CardName(nickname))));
              && c.SignedV1? && FitsSig(signed)
              && c.createdAt == signed.createdAt % 0x1_0000_0000 && c.name == EncodeText(CardName(nickname))
              && c.sig == Padded(Hex.ParsedBytes(signed.sig))
  {
    NothingLeft(nickname);
    hide CardContent, CardName, Normalize, EncodeText, Lower, PayloadOf, Hex.HexOf, Hex.BytesOfHex, Hex.ParsedBytes, Padded;
    var pubkey := LowerPubkey(pubkeyHex);
    Hex.HexOfBytesOfHex(pubkey);
    c := if nickname == [] || nickname == [BOM] then Unsigned(Hex.BytesOfHex(pubkey))
         else V1Card(pubkey, nickname, sign(V1Draft(nickname, createdAt)));
  }

  lemma EncodedV2Bytes(pubkeyHex: JsString, nickname: JsString, createdAt: int, nonceHex: JsString, expiresAt: int, sign: Signer)
    requires EncodedV2(pubkeyHex, nickname, createdAt, nonceHex, expiresAt, sign).Ok?
    ensures var card := EncodedV2(pubkeyHex, nickname, createdAt, nonceHex, expiresAt, sign).value;
            var decoded := Base64Url.Decode(card.cardB64Url);
            var signed := sign(Draft(createdAt, 20602, V2Content(0x60, expiresAt, Lower(nonceHex), CardName(nickname))));
            && card.pubkeyHex == Lower(pubkeyHex) && card.name == CardName(nickname)
            && card.nonceHex == Lower(nonceHex) && card.expiresAt == expiresAt
            && decoded.Some?
            && SignedBytes(decoded.value, 0x60, pubkeyHex, signed, EncodeText(CardName(nickname)), 58)
            && Uint32At(decoded.value, 37, expiresAt) && Hex.HexOf(decoded.value[41..57]) == Lower(nonceHex)
  {
    hide CardName, EncodeText, Pack, Base64Url.Decode, Uint32At, Hex.HexOf, V2Content, PayloadOf, FitsSig;
    var c := EncodedV2Card(pubkeyHex, nickname, createdAt, nonceHex, expiresAt, sign);
    hide EncodedV2, Padded, Hex.ParsedBytes, Lower;
    PayloadBytes(c);
    FitsSigMeans(sign(Draft(createdAt, 20602, V2Content(0x60, expiresAt, Lower(nonceHex), CardName(nickname)))));
  }

  lemma FitsSigMeans(signed: Signed)
    requires FitsSig(signed)
    ensures var sig := Hex.ParsedBytes(signed.sig);
            |sig| <= 64 && forall i :: 0 <= i < 64 ==> Padded(sig)[i] == if i < |sig| then sig[i] else 0
  {
    PaddedUnits(Hex.ParsedBytes(signed.sig));
  }

  lemma EncodedV2Card(pubkeyHex: JsString, nickname: JsString, createdAt: int, nonceHex: JsString, expiresAt: int, sign: Signer)
    returns (c: Card)
    requires EncodedV2(pubkeyHex, nickname, createdAt, nonceHex, expiresAt, sign).Ok?
    ensures var signed := sign(Draft(createdAt, 20602, V2Content(0x60, expiresAt, Lower(nonceHex), CardName(nickname))));
            && c.WellFormed() && c.SignedV2? && FitsSig(signed)
            && Hex.HexOf(c.pubkey) == Lower(pubkeyHex) && Hex.HexOf(c.nonce) == Lower(nonceHex) && c.expiresAt == expiresAt
            && c.createdAt == signed.createdAt % 0x1_0000_0000 && c.name == EncodeText(CardName(nickname))
            && c.sig == Padded(Hex.ParsedBytes(signed.sig))
            && EncodedV2(pubkeyHex, nickname, createdAt, nonceHex, expiresAt, sign).value
               == EncodedCardV2(Lower(pubkeyHex), CardName(nickname), Lower(nonceHex), expiresAt, PayloadOf(c))
  {
    hide V2Content, CardName, EncodeText, Lower, PayloadOf, Hex.HexOf, Hex.BytesOfHex, Hex.ParsedBytes, Padded;
    var pubkey, nonce := LowerPubkey(pubkeyHex), LowerNonce(nonceHex);
    Hex.HexOfBytesOfHex(pubkey);
    Hex.HexOfBytesOfHex(nonce);
    c := V2Card(pubkey, nickname, nonce, expiresAt, sign(V2Draft(nickname, createdAt, nonce, expiresAt)));
  }

  /** Header, key, time, name and signature of a signed card whose name begins at `at`. */
  ghost predicate SignedBytes(bytes: Bytes, header: byte, pubkeyHex: JsString, signed: Signed, name: Bytes, at: nat) {
    && FitsSig(signed) && at >= 38 && |bytes| == at + |name| + 64
    && bytes[0] == header && Hex.HexOf(bytes[1..33]) == Lower(pubkeyHex) && Uint32At(bytes, 33, signed.createdAt % 0x1_0000_0000)
    && bytes[at - 1] == |name| && bytes[at..at + |name|] == name
    && var sig := Hex.ParsedBytes(signed.sig);
    forall i :: 0 <= i < 64 ==> bytes[at + |name|..][i] == if i < |sig| then sig[i] else 0
  }

  lemma PaddedUnits(sig: Bytes)
    requires |sig| <= 64
    ensures forall i :: 0 <= i < 64 ==> Padded(sig)[i] == if i < |sig| then sig[i] else 0
  {
  }

  lemma PayloadBytes(c: Card)
    requires c.WellFormed()
    ensures Base64Url.Decode(PayloadOf(c)) == Some(Pack(c))
    ensures var bytes := Pack(c);
            match c
            case Unsigned(pubkey) => |bytes| == 33 && bytes[0] == 0x00 && bytes[1..33] == pubkey
            case SignedV1(pubkey, createdAt, name, sig) =>
              && |bytes| == 38 + |name| + 64
              && bytes[0] == 0x20 && bytes[1..33] == pubkey && Uint32At(bytes, 33, createdAt)
              && bytes[37] == |name| && bytes[38..38 + |name|] == name && bytes[38 + |name|..] == sig
            case SignedV2(pubkey, createdAt, expiresAt, nonce, name, sig) =>
              && |bytes| == 58 + |name| + 64
              && bytes[0] == 0x60 && bytes[1..33] == pubkey && Uint32At(bytes, 33, createdAt)
              && Uint32At(bytes, 37, expiresAt) && bytes[41..57] == nonce
              && bytes[57] == |name| && bytes[58..58 + |name|] == name && bytes[58 + |name|..] == sig
  {
    Base64Url.DecodeEncode(Pack(c));
    PackedLayout(c);
    hide Pack, Base64Url.Decode, Base64Url.Encode, Uint32At;
  }

  /** A signer with one key and one signature, and a verifier that takes any. */
  function Stamp(pubkeyHex: JsString, sig: JsString): Signer {
    (d: Draft) => Signed(pubkeyHex, d.createdAt, sig)
  }

  function AcceptAll(): Verifier {
    (_: UnsignedEvent, _: JsString) => true
  }

  lemma StampIsLawful(pubkeyHex: JsString, sig: JsString)
    requires IsSigHex(sig)
    ensures Lawful(Stamp(pubkeyHex, sig), AcceptAll())
  {
  }

  /** The exception is reachable with a lawful signer, whatever its key: the card is accepted, and its name is
      not the one that was signed. */
  lemma TwoBomsBreakTheRoundTrip(pubkeyHex: JsString, sig: JsString, createdAt: uint32)
    requires IsPubkeyHex(pubkeyHex) && Lower(pubkeyHex) == pubkeyHex && IsSigHex(sig)
    ensures var nickname := [BOM, BOM, 'a' as int];
            var sign, verify := Stamp(pubkeyHex, sig), AcceptAll();
            && Lawful(sign, verify) && Encoded(pubkeyHex, nickname, createdAt, sign).Ok?
            && Decoded(Encoded(pubkeyHex, nickname, createdAt, sign).value, verify)
               != Ok(DecodedCard(0, pubkeyHex, Some(Profile(CardName(nickname), createdAt)), None))
  {
    var nickname := [BOM, BOM, 'a' as int];
    var sign, verify := Stamp(pubkeyHex, sig), AcceptAll();
    assert sign(V1Draft(nickname, createdAt)) == Signed(pubkeyHex, createdAt, sig);
    SigReadsBack(sig);
    StampIsLawful(pubkeyHex, sig);
    NormalizedStartsWithBom(nickname);
    assert Normalize(nickname) != [];
    hide Normalize, Decoded, PayloadOf, V1Card, V1Draft, Lower, Stamp, Lawful, CardName, Hex.ParsedBytes;
    EncodedCardDecodes(pubkeyHex, nickname, createdAt, sign, verify);
  }

  /** Every accepted card's key is in lower case. */
  lemma DecodedKeyIsLower(s: JsString, verify: Verifier)
    requires Decoded(s, verify).Ok?
    ensures IsPubkeyHex(Decoded(s, verify).value.pubkeyHex) && Lower(Decoded(s, verify).value.pubkeyHex) == Decoded(s, verify).value.pubkeyHex
  {
    var c := AcceptedIsOnePayload(s, verify);
    Hex.HexOfIsLower(c.pubkey);
    hide Hex.HexOf, Decoded, DecodeText;
  }

  // ── The code, step by step ───────────────────────────────────────────────

  method DecodeCard(b64url: JsString, verify: Verifier) returns (r: Result<DecodedCard, CardError>)
    ensures r == Decoded(b64url, verify)
  {
    hide Low, Sar, FromBigEndian, Hex.HexOf, DecodeText, V1Event, V2Event, Base64Url.Decode;
    var maybe := Base64Url.Base64UrlToBytes(b64url);
    if maybe.None? {
      return Err(NotBase64Url);
    }
    var bytes := maybe.value;
    if |bytes| < UNSIGNED_CARD_LEN {
      return Err(TooShort);
    }
    var header := bytes[0];
    HeaderBits(header);
    var version := Low(Sar(header, 6), 2);
    if version != 0 && version != 1 {
      return Err(UnsupportedVersion);
    }
    if Low(Sar(header, 4), 1) != 0 {
      return Err(AvatarReserved);
    }
    if Low(header, 4) != 0 {
      return Err(ReservedBitsSet);
    }
    var signed := Low(Sar(header, 5), 1) == 1;
    var pubkeyHex := Hex.HexOf(bytes[1..UNSIGNED_CARD_LEN]);
    if !signed {
      if version == 1 {
        return Err(V2MustBeSigned);
      }
      if |bytes| != UNSIGNED_CARD_LEN {
        return Err(TrailingBytes);
      }
      return Ok(DecodedCard(version, pubkeyHex, None, None));
    }
    assert version == 1 ==> header == HEADER_SIGNED_V2 by { AcceptedHeaders(header); }
    var v2ExtraLen := if version == 1 then 20 else 0;
    if |bytes| < 38 + v2ExtraLen {
      return Err(TruncatedBeforeNameLen);
    }
    var offset := 33;
    var createdAt := ReadUint32At(bytes, offset);
    offset := offset + 4;
    var expiresAt, nonceHex := 0, [];
    if version == 1 {
      expiresAt := ReadUint32At(bytes, offset);
      offset := offset + 4;
      nonceHex := Hex.HexOf(bytes[offset..offset + 16]);
      offset := offset + 16;
    }
    var nameLen := bytes[offset];
    offset := offset + 1;
    if nameLen > MAX_NAME_BYTES {
      return Err(NameTooLong);
    }
    if |bytes| != 38 + v2ExtraLen + nameLen + 64 {
      return Err(LengthInconsistent);
    }
    var nameBytes := bytes[offset..offset + nameLen];
    offset := offset + nameLen;
    var sigHex := Hex.HexOf(bytes[offset..offset + 64]);
    assert bytes[offset..offset + 64] == bytes[offset..];
    var decodedName := DecodeText(nameBytes);
    if decodedName.None? {
      return Err(NameNotUtf8);
    }
    var name := decodedName.value;
    var event :=
      if version == 1 then V2Event(pubkeyHex, createdAt, header, expiresAt, nonceHex, name)
      else V1Event(pubkeyHex, createdAt, name);
    if !verify(event, sigHex) {
      return Err(SignatureInvalid);
    }
    if version == 1 {
      return Ok(DecodedCard(1, pubkeyHex, Some(Profile(name, createdAt)), Some(Pairing(nonceHex, expiresAt))));
    }
    return Ok(DecodedCard(0, pubkeyHex, Some(Profile(name, createdAt)), None));
  }

  method EncodeCard(pubkeyHex: JsString, nickname: JsString, createdAt: int, sign: Signer)
    returns (r: Result<JsString, EncodeError>)
    ensures r == Encoded(pubkeyHex, nickname, createdAt, sign)
  {
    if !IsPubkeyHex(pubkeyHex) {
      return Err(BadPubkey);
    }
    var pubkey := LowerPubkey(pubkeyHex);
    if createdAt < 0 || createdAt > 0xFFFF_FFFF {
      return Err(BadCreatedAt);
    }
    var normalized := Normalize(nickname);
    if |normalized| == 0 {
      var bytes := PackUnsigned(pubkey);
      var payload := Base64Url.BytesToBase64Url(bytes);
      return Ok(payload);
    }
    var name := TruncateUtf8(normalized, MAX_NAME_BYTES);
    var signed := sign(Draft(createdAt, 0, CardContent(name)));
    if signed.pubkey != pubkey {
      return Err(SignerMismatch);
    }
    CardNameFits(nickname);
    var bytes := PackSigned(pubkey, signed.createdAt, EncodeText(name), signed.sig);
    if bytes.None? {
      return Err(SignatureTooLong);
    }
    var payload := Base64Url.BytesToBase64Url(bytes.value);
    return Ok(payload);
  }

  method EncodeCardV2(pubkeyHex: JsString, nickname: JsString, createdAt: int, nonceHex: JsString, expiresAt: int, sign: Signer)
    returns (r: Result<EncodedCardV2, EncodeError>)
    ensures r == EncodedV2(pubkeyHex, nickname, createdAt, nonceHex, expiresAt, sign)
  {
    if !IsPubkeyHex(pubkeyHex) {
      return Err(BadPubkey);
    }
    var pubkey := LowerPubkey(pubkeyHex);
    if !IsNonceHex(nonceHex) {
      return Err(BadNonce);
    }
    var nonce := LowerNonce(nonceHex);
    if expiresAt < 0 || expiresAt > 0xFFFF_FFFF {
      return Err(BadExpiry);
    }
    if createdAt < 0 || createdAt > 0xFFFF_FFFF {
      return Err(BadCreatedAt);
    }
    var normalized := Normalize(nickname);
    var name := TruncateUtf8(normalized, MAX_NAME_BYTES);
    if |name| == 0 {
      return Err(EmptyNickname);
    }
    var draft := V2Event(pubkey, createdAt, HEADER_SIGNED_V2, expiresAt, nonce, name);
    var signed := sign(Draft(draft.createdAt, draft.kind, draft.content));
    if signed.pubkey != pubkey {
      return Err(SignerMismatch);
    }
    CardNameFits(nickname);
    var bytes := PackSignedV2(pubkey, signed.createdAt, expiresAt, nonce, EncodeText(name), signed.sig);
    if bytes.None? {
      return Err(SignatureTooLong);
    }
    var payload := Base64Url.BytesToBase64Url(bytes.value);
    return Ok(EncodedCardV2(pubkey, name, nonce, expiresAt, payload));
  }
}
