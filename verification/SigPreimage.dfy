/** What a card signature is computed over: a NIP-01 event whose content is canonical JSON. */
module SigPreimage {
  import opened Js
  import opened JsonText

  /** An unsigned event; the `tags` of a card event are always empty. */
  datatype UnsignedEvent = UnsignedEvent(pubkey: JsString, createdAt: nat, kind: nat, content: JsString)

  const CARD_SIG_KIND_V2: nat := 20602

  /** `JSON.stringify({ name })` */
  function CardContent(name: JsString): JsString {
    Text("{\"name\":") + (Quoted(name) + Text("}"))
  }

  /** `JSON.stringify({ v: 2, h, exp, nonce, name })` */
  function V2Content(header: byte, expiresAt: nat, nonceHex: JsString, name: JsString): JsString {
    Text("{\"v\":2,\"h\":") + (Decimal(header) + AfterHeader(expiresAt, nonceHex, name))
  }

  function AfterHeader(expiresAt: nat, nonceHex: JsString, name: JsString): JsString {
    Text(",\"exp\":") + (Decimal(expiresAt) + AfterExpiry(nonceHex, name))
  }

  function AfterExpiry(nonceHex: JsString, name: JsString): JsString {
    Text(",\"nonce\":") + (Quoted(nonceHex) + AfterNonce(name))
  }

  function AfterNonce(name: JsString): JsString {
    Text(",\"name\":") + (Quoted(name) + Text("}"))
  }

  function V1Event(pubkeyHex: JsString, createdAt: nat, name: JsString): UnsignedEvent {
    UnsignedEvent(pubkeyHex, createdAt, 0, CardContent(name))
  }

  function V2Event(pubkeyHex: JsString, createdAt: nat, header: byte, expiresAt: nat, nonceHex: JsString, name: JsString): UnsignedEvent {
    UnsignedEvent(pubkeyHex, createdAt, CARD_SIG_KIND_V2, V2Content(header, expiresAt, nonceHex, name))
  }

  /** The text an event id is the hash of: `JSON.stringify([0, pubkey, created_at, kind, [], content])`. */
  function Serialize(e: UnsignedEvent): JsString {
    Text("[0,") + (Quoted(e.pubkey) + AfterPubkey(e))
  }

  function AfterPubkey(e: UnsignedEvent): JsString {
    Text(",") + (Decimal(e.createdAt) + AfterCreatedAt(e))
  }

  function AfterCreatedAt(e: UnsignedEvent): JsString {
    Text(",") + (Decimal(e.kind) + AfterKind(e))
  }

  function AfterKind(e: UnsignedEvent): JsString {
    Text(",[],") + (Quoted(e.content) + Text("]"))
  }

  /** The texts in full: the content of a v1 and of a v2 card, and the NIP-01 array that is hashed. */
  lemma SignedTexts(e: UnsignedEvent, header: byte, expiresAt: nat, nonceHex: JsString, name: JsString)
    ensures CardContent(name) == Text("{\"name\":") + Quoted(name) + Text("}")
    ensures V2Content(header, expiresAt, nonceHex, name)
            == Text("{\"v\":2,\"h\":") + Decimal(header) + Text(",\"exp\":") + Decimal(expiresAt)
               + Text(",\"nonce\":") + Quoted(nonceHex) + Text(",\"name\":") + Quoted(name) + Text("}")
    ensures Serialize(e)
            == Text("[0,") + Quoted(e.pubkey) + Text(",") + Decimal(e.createdAt) + Text(",") + Decimal(e.kind)
               + Text(",[],") + Quoted(e.content) + Text("]")
  {
    hide Quoted, Decimal, Text;
  }

  /** The events that are signed: kind 0 for v1, kind 20602, which no relay takes for a profile, for v2. */
  lemma SignedEvents(pubkeyHex: JsString, createdAt: nat, header: byte, expiresAt: nat, nonceHex: JsString, name: JsString)
    ensures V1Event(pubkeyHex, createdAt, name) == UnsignedEvent(pubkeyHex, createdAt, 0, CardContent(name))
    ensures V2Event(pubkeyHex, createdAt, header, expiresAt, nonceHex, name)
            == UnsignedEvent(pubkeyHex, createdAt, 20602, V2Content(header, expiresAt, nonceHex, name))
  {
  }

  lemma SerializeInjective(e: UnsignedEvent, e': UnsignedEvent)
    requires Serialize(e) == Serialize(e')
    ensures e == e'
  {
    hide Quoted, Decimal;
    SamePrefix(Text("[0,"), Quoted(e.pubkey) + AfterPubkey(e), Quoted(e'.pubkey) + AfterPubkey(e'));
    QuotedPrefixFree(e.pubkey, AfterPubkey(e), e'.pubkey, AfterPubkey(e'));
    SamePrefix(Text(","), Decimal(e.createdAt) + AfterCreatedAt(e), Decimal(e'.createdAt) + AfterCreatedAt(e'));
    DecimalPrefixFree(e.createdAt, AfterCreatedAt(e), e'.createdAt, AfterCreatedAt(e'));
    SamePrefix(Text(","), Decimal(e.kind) + AfterKind(e), Decimal(e'.kind) + AfterKind(e'));
    DecimalPrefixFree(e.kind, AfterKind(e), e'.kind, AfterKind(e'));
    SamePrefix(Text(",[],"), Quoted(e.content) + Text("]"), Quoted(e'.content) + Text("]"));
    QuotedPrefixFree(e.content, Text("]"), e'.content, Text("]"));
  }

  lemma CardContentInjective(name: JsString, name': JsString)
    requires CardContent(name) == CardContent(name')
    ensures name == name'
  {
    SamePrefix(Text("{\"name\":"), Quoted(name) + Text("}"), Quoted(name') + Text("}"));
    QuotedPrefixFree(name, Text("}"), name', Text("}"));
  }

  lemma V2ContentInjective(h: byte, exp: nat, nonce: JsString, name: JsString,
                           h': byte, exp': nat, nonce': JsString, name': JsString)
    requires V2Content(h, exp, nonce, name) == V2Content(h', exp', nonce', name')
    ensures h == h' && exp == exp' && nonce == nonce' && name == name'
  {
    hide Quoted, Decimal;
    SamePrefix(Text("{\"v\":2,\"h\":"), Decimal(h) + AfterHeader(exp, nonce, name), Decimal(h') + AfterHeader(exp', nonce', name'));
    DecimalPrefixFree(h, AfterHeader(exp, nonce, name), h', AfterHeader(exp', nonce', name'));
    SamePrefix(Text(",\"exp\":"), Decimal(exp) + AfterExpiry(nonce, name), Decimal(exp') + AfterExpiry(nonce', name'));
    DecimalPrefixFree(exp, AfterExpiry(nonce, name), exp', AfterExpiry(nonce', name'));
    SamePrefix(Text(",\"nonce\":"), Quoted(nonce) + AfterNonce(name), Quoted(nonce') + AfterNonce(name'));
    QuotedPrefixFree(nonce, AfterNonce(name), nonce', AfterNonce(name'));
    SamePrefix(Text(",\"name\":"), Quoted(name) + Text("}"), Quoted(name') + Text("}"));
    QuotedPrefixFree(name, Text("}"), name', Text("}"));
  }

  /** No field of a v2 card can be changed without changing the text that was hashed and signed. */
  lemma V2PreimageInjective(pk: JsString, at: nat, h: byte, exp: nat, nonce: JsString, name: JsString,
                            pk': JsString, at': nat, h': byte, exp': nat, nonce': JsString, name': JsString)
    requires Serialize(V2Event(pk, at, h, exp, nonce, name)) == Serialize(V2Event(pk', at', h', exp', nonce', name'))
    ensures pk == pk' && at == at' && h == h' && exp == exp' && nonce == nonce' && name == name'
  {
    SerializeInjective(V2Event(pk, at, h, exp, nonce, name), V2Event(pk', at', h', exp', nonce', name'));
    V2ContentInjective(h, exp, nonce, name, h', exp', nonce', name');
  }

  lemma V1PreimageInjective(pk: JsString, at: nat, name: JsString, pk': JsString, at': nat, name': JsString)
    requires Serialize(V1Event(pk, at, name)) == Serialize(V1Event(pk', at', name'))
    ensures pk == pk' && at == at' && name == name'
  {
    SerializeInjective(V1Event(pk, at, name), V1Event(pk', at', name'));
    CardContentInjective(name, name');
  }

  /** A v1 signature can never stand in for a v2 one: the kinds differ, and so do the contents. */
  lemma V1NeverV2(pk: JsString, at: nat, name: JsString,
                  pk': JsString, at': nat, h': byte, exp': nat, nonce': JsString, name': JsString)
    ensures Serialize(V1Event(pk, at, name)) != Serialize(V2Event(pk', at', h', exp', nonce', name'))
    ensures CardContent(name) != V2Content(h', exp', nonce', name')
  {
    hide Quoted, Decimal, Serialize;
    var e, e' := V1Event(pk, at, name), V2Event(pk', at', h', exp', nonce', name');
    if Serialize(e) == Serialize(e') {
      SerializeInjective(e, e');
    }
    assert CardContent(name)[2] == Text("{\"name\":")[2] == 'n' as int;
    assert V2Content(h', exp', nonce', name')[2] == Text("{\"v\":2,\"h\":")[2] == 'v' as int;
  }
}
