/** The bounded queue of group invitations that wait for the user's decision. */
module InvitationQueue {
  import opened Js

  const GLOBAL_CAP: nat := 256
  const PER_INVITER_CAP: nat := 8

  datatype Invite = Invite(id: JsString, inviter: JsString, receivedAt: int, welcome: JsString)

  type Queue = seq<Invite>

  // ── The array operations used ────────────────────────────────────────────

  predicate Queued(q: Queue, id: JsString) {
    exists i :: 0 <= i < |q| && q[i].id == id
  }

  function From(q: Queue, inviter: JsString): Queue {
    if q == [] then []
    else if q[|q| - 1].inviter == inviter then From(q[..|q| - 1], inviter) + [q[|q| - 1]]
    else From(q[..|q| - 1], inviter)
  }

  function NotFrom(q: Queue, inviter: JsString): Queue {
    if q == [] then []
    else if q[|q| - 1].inviter != inviter then NotFrom(q[..|q| - 1], inviter) + [q[|q| - 1]]
    else NotFrom(q[..|q| - 1], inviter)
  }

  function Drop(q: Queue, id: JsString): Queue {
    if q == [] then []
    else if q[|q| - 1].id != id then Drop(q[..|q| - 1], id) + [q[|q| - 1]]
    else Drop(q[..|q| - 1], id)
  }

  /** `reduce((a, b) => a.receivedAt < b.receivedAt ? a : b)`: of the oldest ones, the last. */
  function Oldest(q: Queue): Invite
    requires q != []
  {
    if |q| == 1 then q[0]
    else
      var a, b := Oldest(q[..|q| - 1]), q[|q| - 1];
      if a.receivedAt < b.receivedAt then a else b
  }

  function Enqueued(q: Queue, invite: Invite): Queue {
    if Queued(q, invite.id) then q
    else
      var own := From(q, invite.inviter);
      var q1 := if |own| >= PER_INVITER_CAP then Drop(q, Oldest(own).id) else q;
      var q2 := if |q1| >= GLOBAL_CAP then Drop(q1, Oldest(q1).id) else q1;
      q2 + [invite]
  }

  // ── Facts about them ─────────────────────────────────────────────────────

  ghost predicate UniqueIds(q: Queue) {
    forall i, j :: 0 <= i < j < |q| ==> q[i].id != q[j].id
  }

  lemma {:induction false} FromRows(q: Queue, inviter: JsString)
    ensures forall x: Invite :: x in From(q, inviter) <==> x in q && x.inviter == inviter
  {
    if q != [] {
      FromRows(q[..|q| - 1], inviter);
      assert q == q[..|q| - 1] + [q[|q| - 1]];
    }
  }

  lemma {:induction false} NotFromRows(q: Queue, inviter: JsString)
    ensures forall x: Invite :: x in NotFrom(q, inviter) <==> x in q && x.inviter != inviter
  {
    if q != [] {
      NotFromRows(q[..|q| - 1], inviter);
      assert q == q[..|q| - 1] + [q[|q| - 1]];
    }
  }

  lemma {:induction false} FromAndNotFrom(q: Queue, inviter: JsString)
    ensures |q| == |From(q, inviter)| + |NotFrom(q, inviter)|
    ensures From(NotFrom(q, inviter), inviter) == []
  {
    if q != [] {
      FromAndNotFrom(q[..|q| - 1], inviter);
    }
  }

  lemma {:induction false} FromNotFrom(q: Queue, inviter: JsString, other: JsString)
    requires other != inviter
    ensures From(NotFrom(q, inviter), other) == From(q, other)
  {
    if q != [] {
      FromNotFrom(q[..|q| - 1], inviter, other);
    }
  }

  lemma {:induction false} DropRows(q: Queue, id: JsString)
    ensures forall x: Invite :: x in Drop(q, id) <==> x in q && x.id != id
  {
    if q != [] {
      DropRows(q[..|q| - 1], id);
      assert q == q[..|q| - 1] + [q[|q| - 1]];
    }
  }

  lemma {:induction false} DropUnique(q: Queue, id: JsString)
    requires UniqueIds(q)
    ensures UniqueIds(Drop(q, id))
  {
    if q != [] {
      var rest, last := q[..|q| - 1], q[|q| - 1];
      DropUnique(rest, id);
      DropRows(rest, id);
      forall i | 0 <= i < |Drop(rest, id)| ensures Drop(rest, id)[i].id != last.id {
        assert Drop(rest, id)[i] in rest;
      }
    }
  }

  lemma {:induction false} DropAbsent(q: Queue, id: JsString)
    requires !Queued(q, id)
    ensures Drop(q, id) == q
  {
    if q != [] {
      var rest, last := q[..|q| - 1], q[|q| - 1];
      assert forall i :: 0 <= i < |rest| ==> q[i].id != id;
      DropAbsent(rest, id);
      assert q == rest + [last];
    }
  }

  /** Dropping by id takes away one row, and one of its inviter's. */
  lemma {:induction false} DropOne(q: Queue, x: Invite, inviter: JsString)
    requires UniqueIds(q) && x in q
    ensures |Drop(q, x.id)| == |q| - 1
    ensures |From(Drop(q, x.id), inviter)| == |From(q, inviter)| - (if x.inviter == inviter then 1 else 0)
  {
    var rest, last := q[..|q| - 1], q[|q| - 1];
    assert q == rest + [last];
    if last.id == x.id {
      assert forall i :: 0 <= i < |rest| ==> q[i].id != last.id;
      assert x == last;
      DropAbsent(rest, x.id);
    } else {
      DropOne(rest, x, inviter);
    }
  }

  lemma {:induction false} FromAppend(q: Queue, x: Invite, inviter: JsString)
    ensures From(q + [x], inviter) == if x.inviter == inviter then From(q, inviter) + [x] else From(q, inviter)
  {
    assert (q + [x])[..|q|] == q;
  }

  /** The victim is in the queue and no entry is older. */
  lemma {:induction false} OldestIsMinimal(q: Queue)
    requires q != []
    ensures Oldest(q) in q
    ensures forall x: Invite :: x in q ==> Oldest(q).receivedAt <= x.receivedAt
  {
    if |q| > 1 {
      OldestIsMinimal(q[..|q| - 1]);
      assert q == q[..|q| - 1] + [q[|q| - 1]];
    }
  }

  /** Which of several equally old entries goes is fixed too: the one queued last. */
  lemma {:induction false} OldestIsLastOfTies(q: Queue) returns (k: nat)
    requires q != []
    ensures k < |q| && q[k] == Oldest(q)
    ensures forall j :: 0 <= j < k ==> q[j].receivedAt >= q[k].receivedAt
    ensures forall j :: k < j < |q| ==> q[j].receivedAt > q[k].receivedAt
  {
    k := |q| - 1;
    if |q| > 1 {
      var i := OldestIsLastOfTies(q[..|q| - 1]);
      if Oldest(q[..|q| - 1]).receivedAt < q[|q| - 1].receivedAt {
        k := i;
      }
    }
  }

  // ── The caps ─────────────────────────────────────────────────────────────

  ghost predicate Bounded(q: Queue) {
    && UniqueIds(q)
    && |q| <= GLOBAL_CAP
    && forall inviter :: |From(q, inviter)| <= PER_INVITER_CAP
  }

  /** What one enqueue of a new invitation takes away: nothing, or the one `victim`. */
  ghost predicate Evicts(q: Queue, invite: Invite, victim: Invite) {
    && victim in q
    && if |From(q, invite.inviter)| == PER_INVITER_CAP
       then victim == Oldest(From(q, invite.inviter))
       else |q| == GLOBAL_CAP && victim == Oldest(q)
  }

  lemma EnqueuedForm(q: Queue, invite: Invite)
    requires Bounded(q) && !Queued(q, invite.id)
    ensures
      || (|q| < GLOBAL_CAP && |From(q, invite.inviter)| < PER_INVITER_CAP && Enqueued(q, invite) == q + [invite])
      || exists victim :: Evicts(q, invite, victim) && Enqueued(q, invite) == Drop(q, victim.id) + [invite]
  {
    var own := From(q, invite.inviter);
    if |own| == PER_INVITER_CAP {
      OldestIsMinimal(own);
      FromRows(q, invite.inviter);
      DropOne(q, Oldest(own), invite.inviter);
      assert Evicts(q, invite, Oldest(own));
    } else if |q| == GLOBAL_CAP {
      OldestIsMinimal(q);
      assert Evicts(q, invite, Oldest(q));
    }
  }

  lemma AppendBounded(q: Queue, invite: Invite)
    requires Bounded(q) && !Queued(q, invite.id)
    requires |q| < GLOBAL_CAP && |From(q, invite.inviter)| < PER_INVITER_CAP
    ensures Bounded(q + [invite])
  {
    forall inviter ensures |From(q + [invite], inviter)| <= PER_INVITER_CAP {
      FromAppend(q, invite, inviter);
    }
    assert forall i :: 0 <= i < |q| ==> q[i].id != invite.id;
  }

  lemma DropBounded(q: Queue, victim: Invite)
    requires Bounded(q) && victim in q
    ensures Bounded(Drop(q, victim.id))
  {
    DropUnique(q, victim.id);
    DropOne(q, victim, victim.inviter);
    forall inviter ensures |From(Drop(q, victim.id), inviter)| <= PER_INVITER_CAP {
      DropOne(q, victim, inviter);
    }
  }

  lemma DropKeepsAbsent(q: Queue, victim: JsString, id: JsString)
    requires !Queued(q, id)
    ensures !Queued(Drop(q, victim), id)
  {
    DropRows(q, victim);
    forall i | 0 <= i < |Drop(q, victim)| ensures Drop(q, victim)[i].id != id {
      assert Drop(q, victim)[i] in q;
    }
  }

  lemma EnqueueKeepsBounds(q: Queue, invite: Invite)
    requires Bounded(q)
    ensures Bounded(Enqueued(q, invite))
  {
    if !Queued(q, invite.id) {
      EnqueuedForm(q, invite);
      if Enqueued(q, invite) == q + [invite] && |q| < GLOBAL_CAP && |From(q, invite.inviter)| < PER_INVITER_CAP {
        AppendBounded(q, invite);
      } else {
        var victim :| Evicts(q, invite, victim) && Enqueued(q, invite) == Drop(q, victim.id) + [invite];
        EvictionMakesRoom(q, invite, victim);
        AppendBounded(Drop(q, victim.id), invite);
      }
    }
  }

  lemma EvictionMakesRoom(q: Queue, invite: Invite, victim: Invite)
    requires Bounded(q) && !Queued(q, invite.id) && Evicts(q, invite, victim)
    ensures Bounded(Drop(q, victim.id)) && !Queued(Drop(q, victim.id), invite.id)
    ensures |Drop(q, victim.id)| < GLOBAL_CAP
    ensures |From(Drop(q, victim.id), invite.inviter)| < PER_INVITER_CAP
  {
    DropBounded(q, victim);
    DropKeepsAbsent(q, victim.id, invite.id);
    DropOne(q, victim, invite.inviter);
    if |From(q, invite.inviter)| == PER_INVITER_CAP {
      OldestIsMinimal(From(q, invite.inviter));
      FromRows(q, invite.inviter);
    }
  }

  /** Each enqueue loses at most one entry: an oldest one of the inviter's if the inviter is at its cap,
      else an oldest one of all if the queue is full, else none. The invitation itself is always in. */
  lemma EnqueueEvicts(q: Queue, invite: Invite, gone: Invite)
    requires Bounded(q) && !Queued(q, invite.id)
    ensures invite in Enqueued(q, invite)
    ensures |Enqueued(q, invite)| == |q| + 1
            || (|Enqueued(q, invite)| == |q| && (|From(q, invite.inviter)| == PER_INVITER_CAP || |q| == GLOBAL_CAP))
    ensures gone in q && gone !in Enqueued(q, invite) ==>
              if |From(q, invite.inviter)| == PER_INVITER_CAP
              then gone.inviter == invite.inviter
                   && forall x: Invite :: x in q && x.inviter == invite.inviter ==> gone.receivedAt <= x.receivedAt
              else |q| == GLOBAL_CAP && forall x: Invite :: x in q ==> gone.receivedAt <= x.receivedAt
  {
    EnqueuedForm(q, invite);
    if !(|q| < GLOBAL_CAP && |From(q, invite.inviter)| < PER_INVITER_CAP) {
      var victim :| Evicts(q, invite, victim) && Enqueued(q, invite) == Drop(q, victim.id) + [invite];
      DropOne(q, victim, invite.inviter);
      DropRows(q, victim.id);
      FromRows(q, invite.inviter);
      if |From(q, invite.inviter)| == PER_INVITER_CAP {
        OldestIsMinimal(From(q, invite.inviter));
      } else {
        OldestIsMinimal(q);
      }
      if gone in q && gone !in Enqueued(q, invite) {
        SameIdSameRow(q, gone, victim);
      }
    }
  }

  lemma SameIdSameRow(q: Queue, a: Invite, b: Invite)
    requires UniqueIds(q) && a in q && b in q && a.id == b.id
    ensures a == b
  {
    var i :| 0 <= i < |q| && q[i] == a;
    var j :| 0 <= j < |q| && q[j] == b;
    assert i == j;
  }

  // ── Pigeonhole ───────────────────────────────────────────────────────────

  function Inviters(q: Queue): set<JsString> {
    set x | x in q :: x.inviter
  }

  lemma NoInviterNoEntry(q: Queue)
    ensures q == [] <==> Inviters(q) == {}
  {
    if q != [] {
      assert q[0].inviter in Inviters(q);
    }
  }

  lemma {:induction false} Pigeonhole(q: Queue, inviters: set<JsString>)
    requires Inviters(q) <= inviters
    requires forall inviter :: |From(q, inviter)| <= PER_INVITER_CAP
    ensures |q| <= PER_INVITER_CAP * |inviters|
    decreases |inviters|
  {
    NoInviterNoEntry(q);
    if inviters != {} {
      var k :| k in inviters;
      var rest := NotFrom(q, k);
      NotFromRows(q, k);
      FromAndNotFrom(q, k);
      forall inviter ensures |From(rest, inviter)| <= PER_INVITER_CAP {
        if inviter != k { FromNotFrom(q, k, inviter); }
      }
      Pigeonhole(rest, inviters - {k});
    }
  }

  /** An entry of another inviter is evicted only while at least 32 inviters other than the newcomer's are
      queued. */
  lemma CrossEvictionNeedsManyInviters(q: Queue, invite: Invite, gone: Invite)
    requires Bounded(q) && !Queued(q, invite.id)
    requires gone in q && gone !in Enqueued(q, invite) && gone.inviter != invite.inviter
    ensures |Inviters(q) - {invite.inviter}| >= GLOBAL_CAP / PER_INVITER_CAP
  {
    EnqueueEvicts(q, invite, gone);
    var rest := NotFrom(q, invite.inviter);
    NotFromRows(q, invite.inviter);
    FromAndNotFrom(q, invite.inviter);
    forall inviter ensures |From(rest, inviter)| <= PER_INVITER_CAP {
      if inviter != invite.inviter { FromNotFrom(q, invite.inviter, inviter); }
    }
    Pigeonhole(rest, Inviters(q) - {invite.inviter});
  }

  // ── Runs ─────────────────────────────────────────────────────────────────

  /** `saved` is whether the write goes through. `Load` starts the module over what is stored; it sees
      storage in a browser, and not where there is none or reading it fails. */
  datatype Op = Enqueue(invite: Invite, saved: bool) | Remove(id: JsString, saved: bool) | List | Load(seen: bool)

  function Step(q: Queue, op: Op): Queue {
    match op
    case Enqueue(invite, saved) => if saved then Enqueued(q, invite) else q
    case Remove(id, saved) => if saved then Drop(q, id) else q
    case List => q
    case Load(_) => q
  }

  function Run(q: Queue, ops: seq<Op>): Queue
    decreases |ops|
  {
    if ops == [] then q else Step(Run(q, ops[..|ops| - 1]), ops[|ops| - 1])
  }

  lemma {:induction false} RemoveKeepsBounds(q: Queue, id: JsString)
    requires Bounded(q)
    ensures Bounded(Drop(q, id))
  {
    if Queued(q, id) {
      var i :| 0 <= i < |q| && q[i].id == id;
      DropBounded(q, q[i]);
    } else {
      DropAbsent(q, id);
    }
  }

  lemma {:induction false} RunKeepsBounds(q: Queue, ops: seq<Op>)
    requires Bounded(q)
    ensures Bounded(Run(q, ops))
    decreases |ops|
  {
    if ops != [] {
      var before, op := Run(q, ops[..|ops| - 1]), ops[|ops| - 1];
      RunKeepsBounds(q, ops[..|ops| - 1]);
      match op
      case Enqueue(invite, _) => EnqueueKeepsBounds(before, invite);
      case Remove(id, _) => RemoveKeepsBounds(before, id);
      case List =>
      case Load(_) =>
    }
  }

  /** Every run from the empty queue: unique ids, at most 8 entries per inviter, at most 256 in all. */
  lemma EveryRunIsBounded(ops: seq<Op>)
    ensures Bounded(Run([], ops))
  {
    RunKeepsBounds([], ops);
  }

  /** The inviters an operation can bring in are among `inviters`; it does not remove `kept`, and it is no
      invitation by `kept`'s own inviter. */
  ghost predicate Spares(op: Op, kept: Invite, inviters: set<JsString>) {
    match op
    case Enqueue(invite, _) => invite.inviter in inviters && invite.inviter != kept.inviter
    case Remove(id, _) => id != kept.id
    case List => true
    case Load(_) => true
  }

  /** However much other inviters send, an entry is safe as long as no more than 32 inviters are around
      besides the one that is sending: here, at most 32 in all. */
  lemma {:induction false} FloodsAreContained(q: Queue, ops: seq<Op>, kept: Invite, inviters: set<JsString>)
    requires Bounded(q) && kept in q && Inviters(q) <= inviters
    requires |inviters| <= GLOBAL_CAP / PER_INVITER_CAP
    requires forall i :: 0 <= i < |ops| ==> Spares(ops[i], kept, inviters)
    ensures kept in Run(q, ops) && Inviters(Run(q, ops)) <= inviters
    decreases |ops|
  {
    if ops != [] {
      var before, op := Run(q, ops[..|ops| - 1]), ops[|ops| - 1];
      FloodsAreContained(q, ops[..|ops| - 1], kept, inviters);
      RunKeepsBounds(q, ops[..|ops| - 1]);
      match op
      case Enqueue(invite, saved) => if saved { EnqueueSpares(before, invite, kept, inviters); }
      case Remove(id, _) => DropRows(before, id);
      case List =>
      case Load(_) =>
    }
  }

  lemma EnqueueSpares(q: Queue, invite: Invite, kept: Invite, inviters: set<JsString>)
    requires Bounded(q) && kept in q && Inviters(q) <= inviters
    requires |inviters| <= GLOBAL_CAP / PER_INVITER_CAP
    requires invite.inviter in inviters && invite.inviter != kept.inviter
    ensures kept in Enqueued(q, invite) && Inviters(Enqueued(q, invite)) <= inviters
  {
    if !Queued(q, invite.id) {
      EnqueuedRows(q, invite);
      if kept !in Enqueued(q, invite) {
        CrossEvictionNeedsManyInviters(q, invite, kept);
        FewerWithout(Inviters(q), invite.inviter, inviters);
      }
    }
  }

  lemma FewerWithout(some: set<JsString>, k: JsString, all: set<JsString>)
    requires some <= all && k in all
    ensures |some - {k}| < |all|
  {
    assert some - {k} <= all - {k};
    SubsetSize(some - {k}, all - {k});
  }

  lemma {:induction false} SubsetSize(a: set<JsString>, b: set<JsString>)
    requires a <= b
    ensures |a| <= |b|
  {
    if a != {} {
      var x :| x in a;
      SubsetSize(a - {x}, b - {x});
    }
  }

  lemma EnqueuedRows(q: Queue, invite: Invite)
    ensures forall x: Invite :: x in Enqueued(q, invite) ==> x in q || x == invite
  {
    var own := From(q, invite.inviter);
    if |own| >= PER_INVITER_CAP { DropRows(q, Oldest(own).id); }
    var q1 := if |own| >= PER_INVITER_CAP then Drop(q, Oldest(own).id) else q;
    if |q1| >= GLOBAL_CAP { DropRows(q1, Oldest(q1).id); }
  }

  // ── Storage and snapshot ─────────────────────────────────────────────────

  /** Storage, and the in-memory snapshot that the interface renders. */
  datatype Module = Module(stored: Queue, snapshot: Queue)

  /** The operation writes a changed queue, or reads storage into the snapshot. */
  predicate Refreshes(q: Queue, op: Op) {
    match op
    case Enqueue(invite, saved) => saved && !Queued(q, invite.id)
    case Remove(id, saved) => saved && |Drop(q, id)| != |q|
    case List => true
    case Load(_) => false
  }

  /** A write happens exactly when it changes what is stored. */
  lemma RefreshesIff(q: Queue, op: Op)
    ensures op.Enqueue? || op.Remove? ==> (Refreshes(q, op) <==> Step(q, op) != q)
    ensures op.List? ==> Refreshes(q, op)
  {
    if op.Enqueue? && op.saved && !Queued(q, op.invite.id) {
      var after := Enqueued(q, op.invite);
      assert after[|after| - 1] == op.invite;
      assert forall i :: 0 <= i < |q| ==> q[i].id != op.invite.id;
    }
    if op.Remove? && |Drop(q, op.id)| == |q| { SameLengthSameQueue(q, op.id); }
  }

  function Loaded(q: Queue, seen: bool): Module {
    Module(q, if seen then q else [])
  }

  function Apply(m: Module, op: Op): Module {
    var stored := Step(m.stored, op);
    if op.Load? then Loaded(m.stored, op.seen)
    else Module(stored, if Refreshes(m.stored, op) then stored else m.snapshot)
  }

  function ApplyAll(m: Module, ops: seq<Op>): Module
    decreases |ops|
  {
    if ops == [] then m else Apply(ApplyAll(m, ops[..|ops| - 1]), ops[|ops| - 1])
  }

  /** The last load saw storage or found it empty, or something has refreshed the snapshot since. */
  predicate Current(q: Queue, seen: bool, ops: seq<Op>)
    decreases |ops|
  {
    if ops == [] then seen || q == []
    else
      var rest, op := ops[..|ops| - 1], ops[|ops| - 1];
      if op.Load? then op.seen || Run(q, rest) == [] else Refreshes(Run(q, rest), op) || Current(q, seen, rest)
  }

  lemma UnrefreshedStays(q: Queue, op: Op)
    requires !Refreshes(q, op)
    ensures Step(q, op) == q
  {
    if op.Remove? && op.saved { SameLengthSameQueue(q, op.id); }
  }

  /** Over every run from a load, further loads and failing writes included: exactly when the snapshot is what
      is stored. In a browser every load sees storage, so it always is. */
  lemma {:induction false} SnapshotIff(q: Queue, seen: bool, ops: seq<Op>)
    ensures var m := ApplyAll(Loaded(q, seen), ops);
            m.stored == Run(q, ops) && (m.snapshot == m.stored <==> Current(q, seen, ops))
    decreases |ops|
  {
    if ops != [] {
      var rest, op := ops[..|ops| - 1], ops[|ops| - 1];
      SnapshotIff(q, seen, rest);
      hide Step, Refreshes;
      if !op.Load? && !Refreshes(Run(q, rest), op) {
        UnrefreshedStays(Run(q, rest), op);
      }
      if op.Load? { LoadKeepsStorage(Run(q, rest), op); }
    }
  }

  lemma LoadKeepsStorage(q: Queue, op: Op)
    requires op.Load?
    ensures Step(q, op) == q
  {
  }

  lemma {:induction false} SeeingLoadsStayCurrent(q: Queue, ops: seq<Op>)
    requires forall i :: 0 <= i < |ops| && ops[i].Load? ==> ops[i].seen
    ensures Current(q, true, ops)
    decreases |ops|
  {
    if ops != [] {
      SeeingLoadsStayCurrent(q, ops[..|ops| - 1]);
    }
  }

  /** In a browser, where every load sees storage, the snapshot is what is stored at every moment of every run,
      failed writes included. */
  lemma SnapshotIsStorage(q: Queue, ops: seq<Op>)
    requires forall i :: 0 <= i < |ops| && ops[i].Load? ==> ops[i].seen
    ensures ApplyAll(Loaded(q, true), ops).snapshot == Run(q, ops)
  {
    SeeingLoadsStayCurrent(q, ops);
    SnapshotIff(q, true, ops);
  }

  class PendingInvitations {
    var stored: Queue
    var snapshot: Queue

    function State(): Module
      reads this
    {
      Module(stored, snapshot)
    }

    /** Module load. */
    constructor (storage: Queue, seen: bool)
      ensures State() == Loaded(storage, seen)
    {
      stored, snapshot := storage, if seen then storage else [];
    }

    method WriteRaw(invitations: Queue, saved: bool)
      modifies this
      ensures stored == (if saved then invitations else old(stored))
      ensures snapshot == (if saved then invitations else old(snapshot))
    {
      if saved {
        stored := invitations;
        snapshot := invitations;
      }
    }

    method ListPendingInvitations() returns (list: Queue)
      modifies `snapshot
      ensures list == stored && State() == Apply(old(State()), List)
    {
      snapshot := stored;
      list := stored;
    }

    method EnqueuePendingInvitation(invite: Invite, saved: bool)
      modifies this
      ensures State() == Apply(old(State()), Enqueue(invite, saved))
      ensures Bounded(old(stored)) ==> Bounded(stored)
    {
      hide Bounded;
      if Bounded(stored) { EnqueueKeepsBounds(stored, invite); }
      var current := stored;
      if Queued(current, invite.id) {
        return;
      }
      var updated := current;
      var fromInviter := From(updated, invite.inviter);
      if |fromInviter| >= PER_INVITER_CAP {
        var oldestFromInviter := Oldest(fromInviter);
        updated := Drop(updated, oldestFromInviter.id);
      }
      if |updated| >= GLOBAL_CAP {
        var oldest := Oldest(updated);
        updated := Drop(updated, oldest.id);
      }
      updated := updated + [invite];
      WriteRaw(updated, saved);
    }

    method RemovePendingInvitation(id: JsString, saved: bool)
      modifies this
      ensures State() == Apply(old(State()), Remove(id, saved))
      ensures Bounded(old(stored)) ==> Bounded(stored)
    {
      hide Bounded;
      if Bounded(stored) { RemoveKeepsBounds(stored, id); }
      var current := stored;
      var updated := Drop(current, id);
      if |updated| != |current| {
        WriteRaw(updated, saved);
      } else {
        SameLengthSameQueue(current, id);
      }
    }
  }

  lemma {:induction false} DropShorter(q: Queue, id: JsString)
    ensures |Drop(q, id)| <= |q|
  {
    if q != [] {
      DropShorter(q[..|q| - 1], id);
    }
  }

  /** Why comparing lengths is enough to see whether anything was removed. */
  lemma {:induction false} SameLengthSameQueue(q: Queue, id: JsString)
    requires |Drop(q, id)| == |q|
    ensures Drop(q, id) == q
  {
    if q != [] {
      DropShorter(q[..|q| - 1], id);
      SameLengthSameQueue(q[..|q| - 1], id);
      assert q == q[..|q| - 1] + [q[|q| - 1]];
    }
  }
}
