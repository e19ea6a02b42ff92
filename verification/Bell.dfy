/** The direct-message bell: two subscriptions with their own seen-sets, gates, and last-read times. */
module Bell {
  import opened Js

  const CHAT_MESSAGE_KIND: int := 14

  datatype Rumor = Rumor(kind: int, id: JsString, pubkey: JsString, createdAt: int)

  /** A kind-4 event may lack any field; a gift wrap opens to a rumor or not at all. */
  datatype Delivery =
    | Kind4(id: Option<JsString>, pubkey: Option<JsString>, createdAt: Option<int>)
    | Kind1059(unwrapped: Option<Rumor>)

  /** The answers of the injected gate, the contact store and the view store, for lower-case keys. */
  datatype Gates = Gates(allowed: JsString -> bool, pending: JsString -> bool, active: JsString -> bool)

  /** A slot of one of the two seen-sets. */
  datatype Slot = Slot(giftWrap: bool, id: JsString)

  datatype State = State(seen: set<Slot>, lastRead: map<JsString, int>, rings: map<JsString, nat>, remembered: seq<JsString>)

  function LastRead(lastRead: map<JsString, int>, peer: JsString): int {
    if peer in lastRead then lastRead[peer] else 0
  }

  function Rings(rings: map<JsString, nat>, peer: JsString): nat {
    if peer in rings then rings[peer] else 0
  }

  // ── What a delivery is about ─────────────────────────────────────────────

  /** The lower-cased sender; None when the handler returns before asking the gate. */
  function Sender(d: Delivery, own: JsString): Option<JsString> {
    match d
    case Kind4(_, pubkey, _) =>
      var peer := if pubkey.Some? then Lower(pubkey.value) else [];
      if peer == [] || peer == Lower(own) then None else Some(peer)
    case Kind1059(unwrapped) =>
      if unwrapped.None? || unwrapped.value.kind != CHAT_MESSAGE_KIND || Lower(unwrapped.value.pubkey) == Lower(own) then None
      else Some(Lower(unwrapped.value.pubkey))
  }

  function CreatedMs(d: Delivery): int {
    match d
    case Kind4(_, _, createdAt) => (if createdAt.Some? then createdAt.value else 0) * 1000
    case Kind1059(unwrapped) => (if unwrapped.Some? then unwrapped.value.createdAt else 0) * 1000
  }

  /** The slot a delivery takes; a kind-4 event without an id takes none. */
  function SlotOf(d: Delivery): Option<Slot> {
    match d
    case Kind4(id, _, _) => if id.Some? && id.value != [] then Some(Slot(false, id.value)) else None
    case Kind1059(unwrapped) => if unwrapped.Some? then Some(Slot(true, unwrapped.value.id)) else None
  }

  predicate IsSeen(seen: set<Slot>, d: Delivery) {
    SlotOf(d).Some? && SlotOf(d).value in seen
  }

  function Occupied(seen: set<Slot>, d: Delivery): set<Slot> {
    if SlotOf(d).Some? then seen + {SlotOf(d).value} else seen
  }

  predicate Unread(s: State, d: Delivery, peer: JsString) {
    CreatedMs(d) > LastRead(s.lastRead, peer)
  }

  predicate Loud(g: Gates, peer: JsString) {
    !g.pending(peer) && !g.active(peer)
  }

  // ── One delivery ─────────────────────────────────────────────────────────

  predicate Admitted(d: Delivery, own: JsString, g: Gates) {
    Sender(d, own).Some? && g.allowed(Sender(d, own).value)
  }

  /** Kind 4 takes its slot before the last-read test, kind 1059 after it. */
  function SeenAfter(s: State, d: Delivery, peer: JsString): set<Slot> {
    if d.Kind4? || Unread(s, d, peer) then Occupied(s.seen, d) else s.seen
  }

  function Handled(s: State, d: Delivery, own: JsString, g: Gates): State {
    if !Admitted(d, own, g) then s
    else
      var peer := Sender(d, own).value;
      var s1 := s.(seen := SeenAfter(s, d, peer));
      if IsSeen(s.seen, d) || !Unread(s, d, peer) then s1
      else
        s1.(remembered := s.remembered + [peer],
            rings := if Loud(g, peer) then s.rings[peer := Rings(s.rings, peer) + 1] else s.rings)
  }

  /** What a kind-4 event does, told in its own fields. It counts if it names a peer who is not the user and passes
      the gate. Then its id, if it has one, is taken, read or not; and if the id was free and its time in seconds is
      later than the last-read time in milliseconds, the peer is remembered, and the bell rings unless the peer is
      pending or on screen. */
  lemma Kind4Effect(s: State, id: Option<JsString>, pubkey: Option<JsString>, createdAt: Option<int>, own: JsString, g: Gates, peer: JsString)
    ensures var after := Handled(s, Kind4(id, pubkey, createdAt), own, g);
            var from := if pubkey.Some? then Lower(pubkey.value) else [];
            var counts := from != [] && from != Lower(own) && g.allowed(from);
            var named := id.Some? && id.value != [];
            var unseen := && !(named && Slot(false, id.value) in s.seen)
                         && (if createdAt.Some? then createdAt.value else 0) * 1000 > (if from in s.lastRead then s.lastRead[from] else 0);
            && after.seen == (if counts && named then s.seen + {Slot(false, id.value)} else s.seen)
            && after.remembered == (if counts && unseen then s.remembered + [from] else s.remembered)
            && Rings(after.rings, peer) - Rings(s.rings, peer) ==
               (if counts && unseen && !g.pending(from) && !g.active(from) && peer == from then 1 else 0)
            && after.lastRead == s.lastRead
  {
    hide Lower;
  }

  /** Likewise a gift wrap: it counts if it opens to a chat message (kind 14) of somebody else who passes the gate,
      and takes its id only if it is unread. */
  lemma Kind1059Effect(s: State, unwrapped: Option<Rumor>, own: JsString, g: Gates, peer: JsString)
    ensures var after := Handled(s, Kind1059(unwrapped), own, g);
            if unwrapped.None? then after == s
            else
              var r := unwrapped.value;
              var from := Lower(r.pubkey);
              var counts := && r.kind == 14 && from != Lower(own) && g.allowed(from)
                            && r.createdAt * 1000 > (if from in s.lastRead then s.lastRead[from] else 0);
              var unseen := counts && Slot(true, r.id) !in s.seen;
              && after.seen == (if counts then s.seen + {Slot(true, r.id)} else s.seen)
              && after.remembered == (if unseen then s.remembered + [from] else s.remembered)
              && Rings(after.rings, peer) - Rings(s.rings, peer) ==
                 (if unseen && !g.pending(from) && !g.active(from) && peer == from then 1 else 0)
              && after.lastRead == s.lastRead
  {
    hide Lower;
  }

  // ── Counting ─────────────────────────────────────────────────────────────

  function Run(s: State, ds: seq<Delivery>, own: JsString, g: Gates): State
    decreases |ds|
  {
    if ds == [] then s else Handled(Run(s, ds[..|ds| - 1], own, g), ds[|ds| - 1], own, g)
  }

  /** A delivery that may ring for a peer: admitted, unread, and neither pending nor on screen. */
  predicate Admissible(d: Delivery, peer: JsString, s: State, own: JsString, g: Gates) {
    Sender(d, own) == Some(peer) && g.allowed(peer) && Unread(s, d, peer) && Loud(g, peer)
  }

  /** The distinct ids delivered among the admissible ones. */
  ghost function Slots(ds: seq<Delivery>, peer: JsString, s: State, own: JsString, g: Gates): set<Slot> {
    set d | d in ds && Admissible(d, peer, s, own, g) && SlotOf(d).Some? :: SlotOf(d).value
  }

  /** The admissible deliveries that carry no id and so cannot be told apart. */
  function Anonymous(ds: seq<Delivery>, peer: JsString, s: State, own: JsString, g: Gates): nat {
    if ds == [] then 0
    else
      var d := ds[|ds| - 1];
      Anonymous(ds[..|ds| - 1], peer, s, own, g) + if Admissible(d, peer, s, own, g) && SlotOf(d).None? then 1 else 0
  }

  /** An id stands for one message: same sender, same time. */
  ghost predicate OneMessagePerId(ds: seq<Delivery>, own: JsString) {
    forall a, b | a in ds && b in ds && SlotOf(a).Some? && SlotOf(a) == SlotOf(b) ::
      Sender(a, own) == Sender(b, own) && CreatedMs(a) == CreatedMs(b)
  }

  lemma {:induction false} RunKeepsReadTimes(s: State, ds: seq<Delivery>, own: JsString, g: Gates)
    ensures Run(s, ds, own, g).lastRead == s.lastRead
    decreases |ds|
  {
    if ds != [] {
      RunKeepsReadTimes(s, ds[..|ds| - 1], own, g);
    }
  }

  /** Every occupied slot was delivered, and every admissible delivery has its slot occupied. */
  lemma {:induction false} SeenSlots(s: State, ds: seq<Delivery>, peer: JsString, own: JsString, g: Gates)
    requires s.seen == {}
    ensures forall x :: x in Run(s, ds, own, g).seen ==> exists d :: d in ds && SlotOf(d) == Some(x)
    ensures forall d :: d in ds && Admissible(d, peer, s, own, g) && SlotOf(d).Some? ==> SlotOf(d).value in Run(s, ds, own, g).seen
    decreases |ds|
  {
    if ds != [] {
      var rest, last := ds[..|ds| - 1], ds[|ds| - 1];
      SeenSlots(s, rest, peer, own, g);
      RunKeepsReadTimes(s, rest, own, g);
      assert ds == rest + [last];
      var before, after := Run(s, rest, own, g), Run(s, ds, own, g);
      assert before.seen <= after.seen <= Occupied(before.seen, last);
      forall x | x in after.seen ensures exists d :: d in ds && SlotOf(d) == Some(x) {
        if x in before.seen {
          var d :| d in rest && SlotOf(d) == Some(x);
          assert d in ds;
        } else {
          assert last in ds && SlotOf(last) == Some(x);
        }
      }
    }
  }

  lemma SlotsGrow(ds: seq<Delivery>, d: Delivery, peer: JsString, s: State, own: JsString, g: Gates)
    ensures Slots(ds + [d], peer, s, own, g)
            == Slots(ds, peer, s, own, g)
               + (if Admissible(d, peer, s, own, g) && SlotOf(d).Some? then {SlotOf(d).value} else {})
  {
    assert forall x :: x in ds + [d] <==> x in ds || x == d;
    assert forall x :: x in ds ==> x in ds + [d];
    assert d in ds + [d];
  }

  /** For fixed gates a peer's rings are exactly its distinct admissible ids plus its admissible id-less
      deliveries, over both subscriptions. */
  lemma {:induction false} RingsCountDistinctIds(s: State, ds: seq<Delivery>, peer: JsString, own: JsString, g: Gates)
    requires s.seen == {} && OneMessagePerId(ds, own)
    ensures Rings(Run(s, ds, own, g).rings, peer)
            == Rings(s.rings, peer) + |Slots(ds, peer, s, own, g)| + Anonymous(ds, peer, s, own, g)
    decreases |ds|
  {
    if ds == [] {
      assert Slots([], peer, s, own, g) == {};
    } else {
      var rest, last := ds[..|ds| - 1], ds[|ds| - 1];
      assert ds == rest + [last];
      RingsCountDistinctIds(s, rest, peer, own, g);
      RunKeepsReadTimes(s, rest, own, g);
      SeenSlots(s, rest, peer, own, g);
      SlotsGrow(rest, last, peer, s, own, g);
      RingStep(s, rest, last, peer, own, g);
    }
  }

  /** The last delivery rings for the peer exactly when it is admissible and its slot is new. */
  lemma RingStep(s: State, rest: seq<Delivery>, last: Delivery, peer: JsString, own: JsString, g: Gates)
    requires s.seen == {} && OneMessagePerId(rest + [last], own)
    requires Run(s, rest, own, g).lastRead == s.lastRead
    requires forall x :: x in Run(s, rest, own, g).seen ==> exists d :: d in rest && SlotOf(d) == Some(x)
    requires forall d :: d in rest && Admissible(d, peer, s, own, g) && SlotOf(d).Some? ==> SlotOf(d).value in Run(s, rest, own, g).seen
    ensures var before := Run(s, rest, own, g);
            Rings(Handled(before, last, own, g).rings, peer) == Rings(before.rings, peer) +
              if Admissible(last, peer, s, own, g) && !(SlotOf(last).Some? && SlotOf(last).value in Slots(rest, peer, s, own, g)) then 1 else 0
  {
    hide Sender, CreatedMs, SlotOf, LastRead, Loud, Run;
    var before := Run(s, rest, own, g);
    if Admissible(last, peer, s, own, g) && SlotOf(last).Some? {
      var x := SlotOf(last).value;
      if x in before.seen {
        var d :| d in rest && SlotOf(d) == Some(x);
        assert d in rest + [last] && last in rest + [last];
        assert Admissible(d, peer, s, own, g);
        assert x in Slots(rest, peer, s, own, g);
      } else {
        assert x !in Slots(rest, peer, s, own, g);
      }
    }
  }

  /** Order and repetition do not matter: runs that deliver the same messages ring the same. */
  lemma OrderIsIrrelevant(s: State, a: seq<Delivery>, b: seq<Delivery>, peer: JsString, own: JsString, g: Gates)
    requires s.seen == {} && OneMessagePerId(a, own)
    requires forall d :: d in a <==> d in b
    requires Anonymous(a, peer, s, own, g) == Anonymous(b, peer, s, own, g)
    ensures Rings(Run(s, a, own, g).rings, peer) == Rings(Run(s, b, own, g).rings, peer)
  {
    assert OneMessagePerId(b, own);
    RingsCountDistinctIds(s, a, peer, own, g);
    RingsCountDistinctIds(s, b, peer, own, g);
    assert Slots(a, peer, s, own, g) == Slots(b, peer, s, own, g);
  }

  /** The gates with nothing pending and nothing on screen. */
  function AllLoud(g: Gates): Gates {
    g.(pending := _ => false, active := _ => false)
  }

  /** Holding the bell back for a pending or visible peer holds back nothing else: the peer is remembered as
      a contact exactly as often as it would have rung. */
  lemma {:induction false} HeldBackIsStillRemembered(s: State, ds: seq<Delivery>, peer: JsString, own: JsString, g: Gates)
    requires s.remembered == [] && s.rings == map[]
    ensures multiset(Run(s, ds, own, g).remembered)[peer] == Rings(Run(s, ds, own, AllLoud(g)).rings, peer)
    ensures Run(s, ds, own, g).seen == Run(s, ds, own, AllLoud(g)).seen
    ensures Run(s, ds, own, g).lastRead == Run(s, ds, own, AllLoud(g)).lastRead
    decreases |ds|
  {
    if ds != [] {
      var rest, last := ds[..|ds| - 1], ds[|ds| - 1];
      HeldBackIsStillRemembered(s, rest, peer, own, g);
      var a, b := Run(s, rest, own, g), Run(s, rest, own, AllLoud(g));
      hide Run;
      HeldBackStep(a, b, last, peer, own, g);
    }
  }

  lemma HeldBackStep(a: State, b: State, d: Delivery, peer: JsString, own: JsString, g: Gates)
    requires a.seen == b.seen && a.lastRead == b.lastRead
    requires multiset(a.remembered)[peer] == Rings(b.rings, peer)
    ensures var a', b' := Handled(a, d, own, g), Handled(b, d, own, AllLoud(g));
            a'.seen == b'.seen && a'.lastRead == b'.lastRead && multiset(a'.remembered)[peer] == Rings(b'.rings, peer)
  {
    hide Sender, CreatedMs, SlotOf, IsSeen, Occupied;
    if Sender(d, own).Some? { CountSnoc(a.remembered, Sender(d, own).value, peer); }
  }

  lemma CountSnoc(ps: seq<JsString>, x: JsString, p: JsString)
    ensures multiset(ps + [x])[p] == multiset(ps)[p] + (if x == p then 1 else 0)
  {
  }

  // ── Two orders of the same checks ────────────────────────────────────────

  /** A message of one stream with the gates' answers at its delivery, or a change of a last-read time. */
  datatype Event =
    | Message(id: JsString, peer: JsString, createdMs: int, allowed: bool, loud: bool)
    | SetLastRead(peer: JsString, at: int)

  datatype Order = DedupFirst | ReadFirst

  datatype Side = Side(seen: set<JsString>, lastRead: map<JsString, int>, rung: seq<bool>)

  /** Kind 4 is `DedupFirst`, kind 1059 `ReadFirst`. */
  function SideStep(side: Side, e: Event, order: Order): Side {
    match e
    case SetLastRead(peer, at) => side.(lastRead := side.lastRead[peer := at])
    case Message(id, peer, createdMs, allowed, loud) =>
      var unread := createdMs > LastRead(side.lastRead, peer);
      if !allowed then side.(rung := side.rung + [false])
      else
        Side(if order.DedupFirst? || unread then side.seen + {id} else side.seen, side.lastRead,
             side.rung + [id !in side.seen && unread && loud])
  }

  function SideRun(es: seq<Event>, order: Order): Side
    decreases |es|
  {
    if es == [] then Side({}, map[], []) else SideStep(SideRun(es[..|es| - 1], order), es[|es| - 1], order)
  }

  ghost predicate SameMessage(a: Event, b: Event) {
    a.Message? && b.Message? && a.id == b.id ==> a.peer == b.peer && a.createdMs == b.createdMs
  }

  ghost predicate Coherent(es: seq<Event>) {
    forall a, b :: a in es && b in es ==> SameMessage(a, b)
  }

  /** Last-read times only advance. */
  ghost predicate Advances(es: seq<Event>) {
    forall i :: 0 <= i < |es| && es[i].SetLastRead? ==>
      es[i].at >= LastRead(SideRun(es[..i], ReadFirst).lastRead, es[i].peer)
  }

  /** The kind-4 set holds the kind-1059 set, and what it holds beyond it has been read already. */
  ghost predicate Simulates(dedup: Side, read: Side, es: seq<Event>) {
    && dedup.lastRead == read.lastRead && dedup.rung == read.rung
    && read.seen <= dedup.seen
    && (forall id :: id in dedup.seen && id !in read.seen ==>
         exists e :: e in es && e.Message? && e.id == id && e.createdMs <= LastRead(read.lastRead, e.peer))
  }

  /** With advancing last-read times both orders ring exactly the same deliveries. */
  lemma {:induction false} OrdersRingAlike(es: seq<Event>)
    requires Coherent(es) && Advances(es)
    ensures Simulates(SideRun(es, DedupFirst), SideRun(es, ReadFirst), es)
    ensures SideRun(es, DedupFirst).rung == SideRun(es, ReadFirst).rung
    decreases |es|
  {
    if es != [] {
      var rest, last := es[..|es| - 1], es[|es| - 1];
      assert es == rest + [last];
      assert Coherent(rest);
      assert Advances(rest) by {
        forall i | 0 <= i < |rest| && rest[i].SetLastRead?
          ensures rest[i].at >= LastRead(SideRun(rest[..i], ReadFirst).lastRead, rest[i].peer)
        {
          assert rest[..i] == es[..i];
        }
      }
      OrdersRingAlike(rest);
      SimulationStep(rest, last, SideRun(rest, DedupFirst), SideRun(rest, ReadFirst));
    }
  }

  lemma SimulationStep(rest: seq<Event>, last: Event, dedup: Side, read: Side)
    requires Simulates(dedup, read, rest) && Coherent(rest + [last])
    requires last.SetLastRead? ==> last.at >= LastRead(read.lastRead, last.peer)
    ensures Simulates(SideStep(dedup, last, DedupFirst), SideStep(read, last, ReadFirst), rest + [last])
  {
    var es := rest + [last];
    var dedup', read' := SideStep(dedup, last, DedupFirst), SideStep(read, last, ReadFirst);
    assert last in es && forall e :: e in rest ==> e in es;
    if last.Message? {
      forall e | e in rest && e.Message? && e.id == last.id
        ensures e.peer == last.peer && e.createdMs == last.createdMs
      {
        assert SameMessage(e, last);
      }
    }
    forall id | id in dedup'.seen && id !in read'.seen
      ensures exists e :: e in es && e.Message? && e.id == id && e.createdMs <= LastRead(read'.lastRead, e.peer)
    {
      if id in dedup.seen {
        var e :| e in rest && e.Message? && e.id == id && e.createdMs <= LastRead(read.lastRead, e.peer);
        assert e in es && e.createdMs <= LastRead(read'.lastRead, e.peer);
      } else {
        assert last.Message? && last.id == id && last.createdMs <= LastRead(read'.lastRead, last.peer);
      }
    }
  }

  /** One of the two seen-sets. */
  function Ids(seen: set<Slot>, giftWrap: bool): set<JsString> {
    set x | x in seen && x.giftWrap == giftWrap :: x.id
  }

  /** The handlers are these two orders: an identified delivery from somebody else takes the side's step, kind 4
      with dedup first, kind 1059 with last-read first. */
  lemma HandlersTakeSides(s: State, d: Delivery, own: JsString, g: Gates)
    requires Sender(d, own).Some? && SlotOf(d).Some?
    ensures var peer, slot := Sender(d, own).value, SlotOf(d).value;
            var after := Handled(s, d, own, g);
            var side := SideStep(Side(Ids(s.seen, slot.giftWrap), s.lastRead, []),
                                 Message(slot.id, peer, CreatedMs(d), g.allowed(peer), Loud(g, peer)),
                                 if d.Kind4? then DedupFirst else ReadFirst);
            && Ids(after.seen, slot.giftWrap) == side.seen && after.lastRead == side.lastRead
            && Rings(after.rings, peer) - Rings(s.rings, peer) == if side.rung[0] then 1 else 0
  {
    var slot := SlotOf(d).value;
    assert forall id :: id in Ids(s.seen, slot.giftWrap) <==> Slot(slot.giftWrap, id) in s.seen;
    IdsGrow(s.seen, slot);
    hide Sender, CreatedMs, Ids;
  }

  lemma IdsGrow(seen: set<Slot>, slot: Slot)
    ensures Ids(seen + {slot}, slot.giftWrap) == Ids(seen, slot.giftWrap) + {slot.id}
  {
    assert slot in seen + {slot};
    forall id ensures id in Ids(seen + {slot}, slot.giftWrap) <==> id in Ids(seen, slot.giftWrap) || id == slot.id {
      assert id in Ids(seen, slot.giftWrap) <==> Slot(slot.giftWrap, id) in seen;
      assert id in Ids(seen + {slot}, slot.giftWrap) <==> Slot(slot.giftWrap, id) in seen + {slot};
    }
  }

  // ── Exactly when the two orders differ ───────────────────────────────────

  function ReadTimes(es: seq<Event>): map<JsString, int>
    decreases |es|
  {
    if es == [] then map[]
    else
      var rest, last := ReadTimes(es[..|es| - 1]), es[|es| - 1];
      if last.SetLastRead? then rest[last.peer := last.at] else rest
  }

  predicate Delivered(e: Event, id: JsString) {
    e.Message? && e.allowed && e.id == id
  }

  predicate UnreadAt(es: seq<Event>, i: nat)
    requires i < |es|
  {
    es[i].Message? && es[i].createdMs > LastRead(ReadTimes(es[..i]), es[i].peer)
  }

  /** The message was delivered, and admitted, among the first `n` events. */
  ghost predicate DeliveredBefore(es: seq<Event>, n: nat, id: JsString)
    requires n <= |es|
  {
    exists j :: 0 <= j < n && Delivered(es[j], id)
  }

  /** ... and at one of those deliveries it was unread. */
  ghost predicate OpenBefore(es: seq<Event>, n: nat, id: JsString)
    requires n <= |es|
  {
    exists j :: 0 <= j < n && Delivered(es[j], id) && UnreadAt(es, j)
  }

  /** A delivery that finds its message unread, although every earlier delivery of it found it read. */
  ghost predicate Reopened(es: seq<Event>, i: nat)
    requires i < |es|
  {
    && es[i].Message? && es[i].allowed && es[i].loud && UnreadAt(es, i)
    && DeliveredBefore(es, i, es[i].id) && !OpenBefore(es, i, es[i].id)
  }

  lemma PrefixSame(rest: seq<Event>, last: Event, n: nat, id: JsString)
    requires n <= |rest|
    ensures DeliveredBefore(rest + [last], n, id) <==> DeliveredBefore(rest, n, id)
    ensures OpenBefore(rest + [last], n, id) <==> OpenBefore(rest, n, id)
    ensures n < |rest| ==> (UnreadAt(rest + [last], n) <==> UnreadAt(rest, n))
  {
    var es := rest + [last];
    hide ReadTimes;
    assert forall j :: 0 <= j < |rest| ==> es[..j] == rest[..j] && es[j] == rest[j];
  }

  lemma OneMoreEvent(rest: seq<Event>, last: Event, id: JsString)
    ensures var es := rest + [last];
            && (DeliveredBefore(es, |es|, id) <==> DeliveredBefore(rest, |rest|, id) || Delivered(last, id))
            && (OpenBefore(es, |es|, id) <==> OpenBefore(rest, |rest|, id) || (Delivered(last, id) && UnreadAt(es, |rest|)))
  {
    var es := rest + [last];
    PrefixSame(rest, last, |rest|, id);
    hide UnreadAt;
    assert es[|rest|] == last;
  }

  /** What the two sides have seen: every admitted message, and every one that was unread at a delivery. */
  lemma {:induction false} SidesSeen(es: seq<Event>, id: JsString)
    ensures SideRun(es, DedupFirst).lastRead == SideRun(es, ReadFirst).lastRead == ReadTimes(es)
    ensures id in SideRun(es, DedupFirst).seen <==> DeliveredBefore(es, |es|, id)
    ensures id in SideRun(es, ReadFirst).seen <==> OpenBefore(es, |es|, id)
    decreases |es|
  {
    if es != [] {
      var rest, last := es[..|es| - 1], es[|es| - 1];
      assert es == rest + [last] && es[..|rest|] == rest;
      SidesSeen(rest, id);
      OneMoreEvent(rest, last, id);
      hide DeliveredBefore, OpenBefore;
    }
  }

  lemma {:induction false} RungLength(es: seq<Event>)
    ensures |SideRun(es, DedupFirst).rung| == |SideRun(es, ReadFirst).rung|
    decreases |es|
  {
    if es != [] {
      RungLength(es[..|es| - 1]);
    }
  }

  /** Does the last event ring on one side only? */
  lemma LastDiffers(rest: seq<Event>, last: Event)
    ensures var es := rest + [last];
            var a, b := SideRun(rest, DedupFirst), SideRun(rest, ReadFirst);
            SideStep(a, last, DedupFirst).rung[|a.rung|..] == SideStep(b, last, ReadFirst).rung[|b.rung|..] <==> !Reopened(es, |rest|)
  {
    var es := rest + [last];
    assert es[..|rest|] == rest && es[|rest|] == last;
    if last.Message? {
      SidesSeen(rest, last.id);
      PrefixSame(rest, last, |rest|, last.id);
      OpenIsDelivered(rest, last.id);
    }
    hide SideRun, DeliveredBefore, OpenBefore;
    var a, b := SideRun(rest, DedupFirst), SideRun(rest, ReadFirst);
    var ra, rb := SideStep(a, last, DedupFirst).rung, SideStep(b, last, ReadFirst).rung;
    if last.Message? {
      assert ra[|a.rung|..] == [ra[|a.rung|]] && rb[|b.rung|..] == [rb[|b.rung|]];
    }
  }

  lemma OpenIsDelivered(es: seq<Event>, id: JsString)
    ensures OpenBefore(es, |es|, id) ==> DeliveredBefore(es, |es|, id)
  {
  }

  /** Both orders ring the same deliveries exactly when no delivery finds unread a message that every
      earlier delivery of it found read, which takes a last-read time that moved back. */
  lemma {:induction false} OrdersRingAlikeIff(es: seq<Event>)
    ensures SideRun(es, DedupFirst).rung == SideRun(es, ReadFirst).rung <==> forall i :: 0 <= i < |es| ==> !Reopened(es, i)
    decreases |es|
  {
    if es != [] {
      var rest, last := es[..|es| - 1], es[|es| - 1];
      assert es == rest + [last];
      OrdersRingAlikeIff(rest);
      LastDiffers(rest, last);
      RungLength(rest);
      forall i | 0 <= i < |rest| ensures Reopened(es, i) <==> Reopened(rest, i) {
        if rest[i].Message? { PrefixSame(rest, last, i, rest[i].id); }
      }
      var a, b := SideRun(rest, DedupFirst), SideRun(rest, ReadFirst);
      RungGrows(a, last, DedupFirst);
      RungGrows(b, last, ReadFirst);
      hide Reopened, SideStep;
      assert SideRun(es, DedupFirst) == SideStep(a, last, DedupFirst) && SideRun(es, ReadFirst) == SideStep(b, last, ReadFirst);
      hide SideRun;
      SplitEqual(SideStep(a, last, DedupFirst).rung, SideStep(b, last, ReadFirst).rung, |a.rung|);
    }
  }

  lemma RungGrows(side: Side, e: Event, order: Order)
    ensures |SideStep(side, e, order).rung| >= |side.rung| && SideStep(side, e, order).rung[..|side.rung|] == side.rung
  {
  }

  lemma SplitEqual(x: seq<bool>, y: seq<bool>, n: nat)
    requires n <= |x| && n <= |y|
    ensures x == y <==> x[..n] == y[..n] && x[n..] == y[n..]
  {
    assert x == x[..n] + x[n..] && y == y[..n] + y[n..];
  }

  lemma SideRunSnoc(es: seq<Event>, e: Event, order: Order)
    ensures SideRun(es + [e], order) == SideStep(SideRun(es, order), e, order)
    ensures SideRun([], order) == Side({}, map[], [])
  {
    assert (es + [e])[..|es|] == es;
  }

  lemma SideRunOfFour(e1: Event, e2: Event, e3: Event, e4: Event, order: Order)
    ensures SideRun([e1, e2, e3, e4], order)
            == SideStep(SideStep(SideStep(SideStep(Side({}, map[], []), e1, order), e2, order), e3, order), e4, order)
  {
    hide *;
    SideRunSnoc([], e1, order);
    SideRunSnoc([e1], e2, order);
    SideRunSnoc([e1, e2], e3, order);
    SideRunSnoc([e1, e2, e3], e4, order);
    assert [] + [e1] == [e1] && [e1] + [e2] == [e1, e2] && [e1, e2] + [e3] == [e1, e2, e3];
    assert [e1, e2, e3] + [e4] == [e1, e2, e3, e4];
  }

  /** One such run on one side: a message is delivered when just read, the time is taken back, and it comes again. */
  lemma ResetOnOneSide(id: JsString, peer: JsString, at: nat, order: Order)
    requires at > 0
    ensures var m, start := Message(id, peer, at, true, true), Side({}, map[], []);
            SideStep(SideStep(SideStep(SideStep(start, SetLastRead(peer, at), order), m, order), SetLastRead(peer, 0), order), m, order).rung
            == [false, order.ReadFirst?]
  {
    var m := Message(id, peer, at, true, true);
    var s1 := SideStep(Side({}, map[], []), SetLastRead(peer, at), order);
    var s2 := SideStep(s1, m, order);
    var s3 := SideStep(s2, SetLastRead(peer, 0), order);
    assert LastRead(s1.lastRead, peer) == at;
    assert s2.rung == [false] && (id in s2.seen <==> order.DedupFirst?);
    assert LastRead(s3.lastRead, peer) == 0;
  }

  /** The orders do differ after a last-read time is taken back, as clearing a contact's counters does: the
      kind-4 order has spent the id on a delivery it did not ring for. */
  lemma OrdersDifferAfterReset(id: JsString, peer: JsString, at: nat)
    requires at > 0
    ensures var m := Message(id, peer, at, true, true);
            var es := [SetLastRead(peer, at), m, SetLastRead(peer, 0), m];
            Coherent(es)
            && SideRun(es, DedupFirst).rung == [false, false]
            && SideRun(es, ReadFirst).rung == [false, true]
  {
    var m := Message(id, peer, at, true, true);
    assert Coherent([SetLastRead(peer, at), m, SetLastRead(peer, 0), m]);
    hide *;
    SideRunOfFour(SetLastRead(peer, at), m, SetLastRead(peer, 0), m, DedupFirst);
    SideRunOfFour(SetLastRead(peer, at), m, SetLastRead(peer, 0), m, ReadFirst);
    ResetOnOneSide(id, peer, at, DedupFirst);
    ResetOnOneSide(id, peer, at, ReadFirst);
  }

  // ── Dropped strangers ────────────────────────────────────────────────────

  function AdmittedOnly(ds: seq<Delivery>, own: JsString, g: Gates): seq<Delivery> {
    if ds == [] then []
    else if Admitted(ds[|ds| - 1], own, g) then AdmittedOnly(ds[..|ds| - 1], own, g) + [ds[|ds| - 1]]
    else AdmittedOnly(ds[..|ds| - 1], own, g)
  }

  /** A delivery the gate dropped leaves no trace, so it never blocks the same message admitted later: the
      state is the one reached without it, whatever the gates answer afterwards. */
  lemma {:induction false} DroppedLeaveNoTrace(s: State, dropped: seq<Delivery>, later: seq<Delivery>, own: JsString, g: Gates, laterGates: Gates)
    ensures Run(Run(s, dropped, own, g), later, own, laterGates) == Run(Run(s, AdmittedOnly(dropped, own, g), own, g), later, own, laterGates)
    ensures forall d :: d in AdmittedOnly(dropped, own, g) <==> d in dropped && Sender(d, own).Some? && g.allowed(Sender(d, own).value)
    decreases |dropped|
  {
    AdmittedRows(dropped, own, g);
    RunAdmitted(s, dropped, own, g);
  }

  lemma {:induction false} AdmittedRows(ds: seq<Delivery>, own: JsString, g: Gates)
    ensures forall d :: d in AdmittedOnly(ds, own, g) <==> d in ds && Admitted(d, own, g)
  {
    if ds != [] {
      AdmittedRows(ds[..|ds| - 1], own, g);
      assert ds == ds[..|ds| - 1] + [ds[|ds| - 1]];
    }
  }

  lemma {:induction false} RunAdmitted(s: State, ds: seq<Delivery>, own: JsString, g: Gates)
    ensures Run(s, ds, own, g) == Run(s, AdmittedOnly(ds, own, g), own, g)
    decreases |ds|
  {
    if ds != [] {
      RunAdmitted(s, ds[..|ds| - 1], own, g);
    }
  }

  // ── The subscription ─────────────────────────────────────────────────────

  class Notifications {
    const own: JsString
    var seenMessageIds: set<JsString>
    var seenRumorIds: set<JsString>
    var lastRead: map<JsString, int>
    var rings: map<JsString, nat>
    var remembered: seq<JsString>

    ghost function View(): State
      reads this
    {
      State((set id | id in seenMessageIds :: Slot(false, id)) + (set id | id in seenRumorIds :: Slot(true, id)),
            lastRead, rings, remembered)
    }

    constructor (own: JsString, lastRead: map<JsString, int>)
      ensures View() == State({}, lastRead, map[], []) && this.own == own
    {
      this.own, this.lastRead := own, lastRead;
      seenMessageIds, seenRumorIds, rings, remembered := {}, {}, map[], [];
    }

    method IncrementDirectMessage(peer: JsString)
      modifies `rings
      ensures rings == old(rings)[peer := Rings(old(rings), peer) + 1]
    {
      rings := rings[peer := (if peer in rings then rings[peer] else 0) + 1];
    }

    method Kind4Handler(id: Option<JsString>, pubkey: Option<JsString>, createdAt: Option<int>, g: Gates)
      modifies this
      ensures View() == Handled(old(View()), Kind4(id, pubkey, createdAt), own, g)
    {
      var peer := if pubkey.Some? then Lower(pubkey.value) else [];
      if peer == [] || peer == Lower(own) {
        return;
      }
      if !g.allowed(peer) {
        return;
      }
      if id.Some? && id.value != [] && id.value in seenMessageIds {
        assert Slot(false, id.value) in View().seen;
        return;
      }
      if id.Some? && id.value != [] {
        seenMessageIds := seenMessageIds + {id.value};
      }
      assert View().seen == Occupied(old(View().seen), Kind4(id, pubkey, createdAt));
      var createdMs := (if createdAt.Some? then createdAt.value else 0) * 1000;
      if createdMs <= LastRead(lastRead, peer) {
        return;
      }
      remembered := remembered + [peer];
      if !g.pending(peer) && !g.active(peer) {
        IncrementDirectMessage(peer);
      }
    }

    method Kind1059Handler(unwrapped: Option<Rumor>, g: Gates)
      modifies this
      ensures View() == Handled(old(View()), Kind1059(unwrapped), own, g)
    {
      if unwrapped.None? {
        return;
      }
      var rumor := unwrapped.value;
      if rumor.kind != CHAT_MESSAGE_KIND {
        return;
      }
      var peer := Lower(rumor.pubkey);
      if peer == Lower(own) {
        return;
      }
      if !g.allowed(peer) {
        return;
      }
      var createdMs := rumor.createdAt * 1000;
      if createdMs <= LastRead(lastRead, peer) {
        return;
      }
      if rumor.id in seenRumorIds {
        assert Slot(true, rumor.id) in View().seen;
        return;
      }
      seenRumorIds := seenRumorIds + {rumor.id};
      assert View().seen == Occupied(old(View().seen), Kind1059(unwrapped));
      remembered := remembered + [peer];
      if !g.pending(peer) && !g.active(peer) {
        IncrementDirectMessage(peer);
      }
    }
  }
}
