/** Pending-removal auto-commit: a debounced queue per group, a timer body that commits the removal of
    everyone queued, and whatever may interleave with it.

    The queue of a group is an array object that `enqueueLeave` pushes onto in place. A fired timer keeps
    a reference to it, so pushes made before the group has been re-fetched are seen by the commit. The
    model therefore gives arrays identities: `lists` is the heap, `queue` maps a group to its array. */
module AutoCommit {
  import opened Js

  type GroupId = JsString

  type Pubkey = JsString

  const DEBOUNCE_MS: nat := 5000

  datatype Entry = Entry(groupId: GroupId, pubkey: Pubkey, receivedAt: nat)

  /** The MLS state of a group: the ratchet tree's leaves and the admin list, stamped with an epoch. */
  datatype Group = Group(epoch: nat, leaves: map<nat, Pubkey>, admins: seq<Pubkey>)

  /** A queue array, with the group whose queue it was created for. */
  datatype List = List(owner: GroupId, entries: seq<Entry>)

  datatype Timer = Timer(groupId: GroupId, deadline: nat)

  /** A timer that has fired and is waiting for the live group. */
  datatype Fetch = Fetch(groupId: GroupId, list: nat)

  /** A commit in flight: the group it was computed from, and its proposals. */
  datatype Commit = Commit(groupId: GroupId, base: Group, queued: seq<Entry>, departing: seq<Pubkey>,
                           removed: set<nat>, remainingAdmins: seq<Pubkey>)

  datatype Queues = Queues(lists: map<nat, List>, queue: map<GroupId, nat>)

  datatype Clock = Clock(timers: map<nat, Timer>, armed: map<GroupId, nat>, lastEnqueue: map<GroupId, nat>)

  datatype Flights = Flights(fetches: map<nat, Fetch>, commits: map<nat, Commit>)

  /** Identities of arrays, timers, fires and epochs are all drawn from one counter. */
  datatype State = State(now: nat, groups: map<GroupId, Group>, queues: Queues, clock: Clock, flights: Flights, nextId: nat)

  datatype Step =
    | Wait(ms: nat)
    | EnqueueLeave(groupId: GroupId, pubkey: Pubkey)
    | TimerFires(timer: nat)
    | FetchFails(fire: nat)
    | FetchSucceeds(fire: nat)
    | CommitFails(fire: nat)
    | CommitSucceeds(fire: nat)
    | ExternalChange(groupId: GroupId, changed: Option<Group>)
    | Teardown(subscribed: seq<GroupId>)

  // ── Pieces of fireAutoCommit ─────────────────────────────────────────────

  function PubkeysOf(es: seq<Entry>): (ps: seq<Pubkey>)
    ensures |ps| == |es|
    ensures forall i :: 0 <= i < |es| ==> ps[i] == es[i].pubkey
  {
    seq(|es|, i requires 0 <= i < |es| => es[i].pubkey)
  }

  /** First occurrences, in order: `[...new Set(ps)]`. */
  function Unique(ps: seq<Pubkey>): seq<Pubkey>
  {
    if ps == [] then []
    else
      var us, last := Unique(ps[..|ps| - 1]), ps[|ps| - 1];
      if last in us then us else us + [last]
  }

  function LeafIndexes(g: Group, p: Pubkey): set<nat> {
    set i | i in g.leaves && g.leaves[i] == p
  }

  function Stale(g: Group, ps: seq<Pubkey>): seq<Pubkey>
  {
    if ps == [] then []
    else
      var rest, last := Stale(g, ps[..|ps| - 1]), ps[|ps| - 1];
      if LeafIndexes(g, last) == {} then rest + [last] else rest
  }

  function Departing(g: Group, ps: seq<Pubkey>): seq<Pubkey>
  {
    if ps == [] then []
    else
      var rest, last := Departing(g, ps[..|ps| - 1]), ps[|ps| - 1];
      if LeafIndexes(g, last) == {} then rest else rest + [last]
  }

  function LeavesOf(g: Group, ps: seq<Pubkey>): set<nat> {
    set i | i in g.leaves && g.leaves[i] in ps
  }

  function Without(admins: seq<Pubkey>, ps: seq<Pubkey>): seq<Pubkey>
  {
    if admins == [] then []
    else
      var rest, last := Without(admins[..|admins| - 1], ps), admins[|admins| - 1];
      if last in ps then rest else rest + [last]
  }

  function Retained(es: seq<Entry>, ps: seq<Pubkey>): seq<Entry>
  {
    if es == [] then []
    else
      var rest, last := Retained(es[..|es| - 1], ps), es[|es| - 1];
      if last.pubkey in ps then rest else rest + [last]
  }

  lemma {:induction false} UniqueMembers(ps: seq<Pubkey>, p: Pubkey)
    ensures p in Unique(ps) <==> p in ps
  {
    if ps != [] {
      UniqueMembers(ps[..|ps| - 1], p);
      assert ps == ps[..|ps| - 1] + [ps[|ps| - 1]];
    }
  }

  lemma {:induction false} StaleMembers(g: Group, ps: seq<Pubkey>, p: Pubkey)
    ensures p in Stale(g, ps) <==> p in ps && LeafIndexes(g, p) == {}
    ensures p in Departing(g, ps) <==> p in ps && LeafIndexes(g, p) != {}
  {
    if ps != [] {
      StaleMembers(g, ps[..|ps| - 1], p);
      assert ps == ps[..|ps| - 1] + [ps[|ps| - 1]];
    }
  }

  lemma {:induction false} WithoutMembers(admins: seq<Pubkey>, ps: seq<Pubkey>, p: Pubkey)
    ensures p in Without(admins, ps) <==> p in admins && p !in ps
  {
    if admins != [] {
      WithoutMembers(admins[..|admins| - 1], ps, p);
      assert admins == admins[..|admins| - 1] + [admins[|admins| - 1]];
    }
  }

  lemma {:induction false} RetainedMembers(es: seq<Entry>, ps: seq<Pubkey>, e: Entry)
    ensures e in Retained(es, ps) <==> e in es && e.pubkey !in ps
  {
    if es != [] {
      RetainedMembers(es[..|es| - 1], ps, e);
      assert es == es[..|es| - 1] + [es[|es| - 1]];
    }
  }

  // ── Steps ────────────────────────────────────────────────────────────────

  function PendingIn(q: Queues, g: GroupId): seq<Entry> {
    if g in q.queue && q.queue[g] in q.lists then q.lists[q.queue[g]].entries else []
  }

  function Pending(s: State, g: GroupId): seq<Entry> {
    PendingIn(s.queues, g)
  }

  /** The `onCommitted` callback: a filtered copy replaces the array, or the group's queue goes away. */
  function Requeued(q: Queues, g: GroupId, filtered: seq<Entry>, id: nat): Queues {
    if filtered == [] then q.(queue := q.queue - {g})
    else Queues(q.lists[id := List(g, filtered)], q.queue[g := id])
  }

  function OnCommitted(s: State, g: GroupId, ps: seq<Pubkey>): State {
    s.(queues := Requeued(s.queues, g, Retained(Pending(s, g), ps), s.nextId), nextId := s.nextId + 1)
  }

  predicate Enabled(s: State, step: Step) {
    match step
    case TimerFires(t) => t in s.clock.timers && s.now >= s.clock.timers[t].deadline
    case FetchFails(f) => f in s.flights.fetches
    case FetchSucceeds(f) =>
      && f in s.flights.fetches && s.flights.fetches[f].groupId in s.groups && s.flights.fetches[f].list in s.queues.lists
    case CommitFails(f) => f in s.flights.commits
    case CommitSucceeds(f) =>
      && f in s.flights.commits && s.flights.commits[f].groupId in s.groups
      && s.groups[s.flights.commits[f].groupId].epoch == s.flights.commits[f].base.epoch
    case _ => true
  }

  function Disarm(c: Clock, g: GroupId): Clock {
    if g in c.armed then c.(timers := c.timers - {c.armed[g]}, armed := c.armed - {g}) else c
  }

  function DisarmAll(c: Clock, gs: seq<GroupId>): Clock {
    if gs == [] then c else Disarm(DisarmAll(c, gs[..|gs| - 1]), gs[|gs| - 1])
  }

  /** Arms the group's timer, clearing the one it had. */
  function Armed(c: Clock, g: GroupId, now: nat, id: nat): Clock {
    var d := Disarm(c, g);
    Clock(d.timers[id := Timer(g, now + DEBOUNCE_MS)], d.armed[g := id], d.lastEnqueue[g := now])
  }

  /** `existing.push(entry)`: in place if the group has an array, else into a new one. */
  function Pushed(q: Queues, g: GroupId, e: Entry, id: nat): Queues {
    var list := if g in q.queue then q.queue[g] else id;
    Queues(q.lists[list := List(g, PendingIn(q, g) + [e])], q.queue[g := list])
  }

  function Enqueued(s: State, g: GroupId, p: Pubkey): State {
    s.(queues := Pushed(s.queues, g, Entry(g, p, s.now), s.nextId),
       clock := Armed(s.clock, g, s.now, s.nextId + 1),
       nextId := s.nextId + 2)
  }

  function Fired(s: State, t: nat): State
    requires t in s.clock.timers
  {
    var g := s.clock.timers[t].groupId;
    var s1 := s.(clock := s.clock.(timers := s.clock.timers - {t}, armed := s.clock.armed - {g}));
    if Pending(s, g) == [] then s1
    else s1.(flights := s1.flights.(fetches := s1.flights.fetches[s1.nextId := Fetch(g, s.queues.queue[g])]), nextId := s1.nextId + 1)
  }

  function QueuedAt(s: State, f: nat): seq<Entry>
    requires Enabled(s, FetchSucceeds(f))
  {
    s.queues.lists[s.flights.fetches[f].list].entries
  }

  function GroupAt(s: State, f: nat): Group
    requires Enabled(s, FetchSucceeds(f))
  {
    s.groups[s.flights.fetches[f].groupId]
  }

  /** The pubkeys a fired timer finds to be gone already. */
  function StaleAt(s: State, f: nat): seq<Pubkey>
    requires Enabled(s, FetchSucceeds(f))
  {
    Stale(GroupAt(s, f), Unique(PubkeysOf(QueuedAt(s, f))))
  }

  /** The proposals computed from a group and a queue. */
  function ProposalsFor(g: GroupId, base: Group, queued: seq<Entry>): Commit {
    var departing := Departing(base, Unique(PubkeysOf(queued)));
    Commit(g, base, queued, departing, LeavesOf(base, departing), Without(base.admins, departing))
  }

  /** The synchronous part of fireAutoCommit, up to and including the call to `commit`. */
  function Proposed(s: State, f: nat): State
    requires Enabled(s, FetchSucceeds(f))
  {
    var g := s.flights.fetches[f].groupId;
    var commit := ProposalsFor(g, GroupAt(s, f), QueuedAt(s, f));
    var s1 := s.(flights := s.flights.(fetches := s.flights.fetches - {f}));
    var s2 := if StaleAt(s, f) == [] then s1 else OnCommitted(s1, g, StaleAt(s, f));
    if commit.departing == [] then s2
    else s2.(flights := s2.flights.(commits := s2.flights.commits[s2.nextId := commit]), nextId := s2.nextId + 1)
  }

  function CommittedGroup(s: State, f: nat): Group
    requires Enabled(s, CommitSucceeds(f))
  {
    var c := s.flights.commits[f];
    var g := s.groups[c.groupId];
    Group(s.nextId, g.leaves - c.removed, c.remainingAdmins)
  }

  function Committed(s: State, f: nat): State
    requires Enabled(s, CommitSucceeds(f))
  {
    var c := s.flights.commits[f];
    var s1 := s.(flights := s.flights.(commits := s.flights.commits - {f}),
                 groups := s.groups[c.groupId := CommittedGroup(s, f)], nextId := s.nextId + 1);
    OnCommitted(s1, c.groupId, c.departing)
  }

  function Next(s: State, step: Step): State
    requires Enabled(s, step)
  {
    match step
    case Wait(ms) => s.(now := s.now + ms)
    case EnqueueLeave(g, p) => Enqueued(s, g, p)
    case TimerFires(t) => Fired(s, t)
    case FetchFails(f) => s.(flights := s.flights.(fetches := s.flights.fetches - {f}))
    case FetchSucceeds(f) => Proposed(s, f)
    case CommitFails(f) => s.(flights := s.flights.(commits := s.flights.commits - {f}))
    case CommitSucceeds(f) => Committed(s, f)
    case ExternalChange(g, None) => s.(groups := s.groups - {g})
    case ExternalChange(g, Some(changed)) =>
      s.(groups := s.groups[g := changed.(epoch := s.nextId)], nextId := s.nextId + 1)
    case Teardown(subscribed) => s.(clock := DisarmAll(s.clock, subscribed))
  }

  // ── What every step keeps ────────────────────────────────────────────────

  /** An array holds entries of the group it was created for only. */
  ghost predicate OwnEntries(l: List) {
    forall e :: e in l.entries ==> e.groupId == l.owner
  }

  /** Every group has its own array; a fired timer holds an array of its own group. */
  ghost predicate QueuesSound(q: Queues, fetches: map<nat, Fetch>, nextId: nat) {
    && (forall g :: g in q.queue ==> q.queue[g] in q.lists && q.lists[q.queue[g]].owner == g)
    && (forall l :: l in q.lists ==> l < nextId && OwnEntries(q.lists[l]))
    && (forall f :: f in fetches ==> f < nextId && fetches[f].list in q.lists && q.lists[fetches[f].list].owner == fetches[f].groupId)
  }

  /** A live timer is its group's armed timer, due 5000 ms after the group's latest enqueue. */
  ghost predicate ClockSound(c: Clock, nextId: nat) {
    && (forall t :: t in c.timers ==>
          && t < nextId
          && c.timers[t].groupId in c.armed && c.armed[c.timers[t].groupId] == t
          && c.timers[t].groupId in c.lastEnqueue
          && c.timers[t].deadline == c.lastEnqueue[c.timers[t].groupId] + DEBOUNCE_MS)
    && (forall g :: g in c.armed ==> c.armed[g] in c.timers && c.timers[c.armed[g]].groupId == g)
  }

  /** A commit in flight was computed from its base, which the group still is unless its epoch has moved on,
      and from entries of its own group. */
  ghost predicate CommitSound(groups: map<GroupId, Group>, c: Commit, nextId: nat) {
    && c.base.epoch < nextId
    && OwnEntries(List(c.groupId, c.queued))
    && (c.groupId in groups && groups[c.groupId].epoch == c.base.epoch ==> groups[c.groupId] == c.base)
    && c == ProposalsFor(c.groupId, c.base, c.queued)
  }

  ghost predicate CommitsSound(groups: map<GroupId, Group>, commits: map<nat, Commit>, nextId: nat) {
    && (forall f :: f in commits ==> f < nextId && CommitSound(groups, commits[f], nextId))
    && (forall g :: g in groups ==> groups[g].epoch < nextId)
  }

  ghost predicate Sound(s: State) {
    && QueuesSound(s.queues, s.flights.fetches, s.nextId)
    && ClockSound(s.clock, s.nextId)
    && CommitsSound(s.groups, s.flights.commits, s.nextId)
  }

  ghost predicate Initial(s: State) {
    && s.queues == Queues(map[], map[]) && s.clock == Clock(map[], map[], map[]) && s.flights == Flights(map[], map[])
    && (forall g :: g in s.groups ==> s.groups[g].epoch < s.nextId)
  }

  lemma InitiallySound(s: State)
    requires Initial(s)
    ensures Sound(s)
  {
  }

  lemma CommitsFrame(groups: map<GroupId, Group>, commits: map<nat, Commit>, nextId: nat, groups': map<GroupId, Group>,
                     commits': map<nat, Commit>, nextId': nat)
    requires CommitsSound(groups, commits, nextId) && nextId <= nextId'
    requires forall f :: f in commits' ==> f in commits && commits'[f] == commits[f]
    requires forall g :: g in groups' ==> (g in groups && groups'[g] == groups[g]) || nextId <= groups'[g].epoch < nextId'
    ensures CommitsSound(groups', commits', nextId')
  {
    hide ProposalsFor;
    forall f | f in commits'
      ensures CommitSound(groups', commits'[f], nextId')
    {
      assert CommitSound(groups, commits[f], nextId);
    }
  }

  /** Filtering a group's queue leaves entries of that group. */
  lemma RetainedOwn(q: Queues, fetches: map<nat, Fetch>, g: GroupId, ps: seq<Pubkey>, id: nat)
    requires QueuesSound(q, fetches, id)
    ensures OwnEntries(List(g, Retained(PendingIn(q, g), ps)))
  {
    var es := PendingIn(q, g);
    assert g in q.queue ==> OwnEntries(q.lists[q.queue[g]]);
    forall e | e in Retained(es, ps) ensures e.groupId == g {
      RetainedMembers(es, ps, e);
    }
  }

  lemma RequeuedSound(q: Queues, fetches: map<nat, Fetch>, g: GroupId, es: seq<Entry>, id: nat)
    requires QueuesSound(q, fetches, id) && OwnEntries(List(g, es))
    ensures QueuesSound(Requeued(q, g, es, id), fetches, id + 1)
  {
  }

  /** Giving one group a new array touches no other group's queue. */
  lemma RequeuedPending(q: Queues, fetches: map<nat, Fetch>, g: GroupId, es: seq<Entry>, id: nat, h: GroupId)
    requires QueuesSound(q, fetches, id)
    ensures PendingIn(Requeued(q, g, es, id), h) == if h == g then es else PendingIn(q, h)
  {
    if h in q.queue { assert q.queue[h] in q.lists && q.queue[h] < id; }
  }

  lemma PushedSound(q: Queues, fetches: map<nat, Fetch>, g: GroupId, e: Entry, id: nat)
    requires QueuesSound(q, fetches, id) && e.groupId == g
    ensures QueuesSound(Pushed(q, g, e, id), fetches, id + 1)
  {
    assert g in q.queue ==> OwnEntries(q.lists[q.queue[g]]);
    assert OwnEntries(List(g, PendingIn(q, g) + [e]));
  }

  lemma PushedPending(q: Queues, fetches: map<nat, Fetch>, g: GroupId, e: Entry, id: nat, h: GroupId)
    requires QueuesSound(q, fetches, id)
    ensures PendingIn(Pushed(q, g, e, id), h) == if h == g then PendingIn(q, g) + [e] else PendingIn(q, h)
  {
    if h in q.queue { assert q.queue[h] in q.lists && q.queue[h] < id && q.lists[q.queue[h]].owner == h; }
    if g in q.queue { assert q.lists[q.queue[g]].owner == g; }
  }

  lemma DisarmSound(c: Clock, g: GroupId, nextId: nat)
    requires ClockSound(c, nextId)
    ensures ClockSound(Disarm(c, g), nextId) && g !in Disarm(c, g).armed
    ensures forall t :: t in Disarm(c, g).timers <==> t in c.timers && c.timers[t].groupId != g
    ensures forall t :: t in Disarm(c, g).timers ==> Disarm(c, g).timers[t] == c.timers[t]
  {
  }

  lemma ArmedSound(c: Clock, g: GroupId, now: nat, id: nat)
    requires ClockSound(c, id)
    ensures ClockSound(Armed(c, g, now, id), id + 1)
  {
    hide Disarm;
    DisarmSound(c, g, id);
  }

  lemma {:induction false} DisarmAllSound(c: Clock, gs: seq<GroupId>, nextId: nat)
    requires ClockSound(c, nextId)
    ensures var d := DisarmAll(c, gs);
            && ClockSound(d, nextId)
            && d.lastEnqueue == c.lastEnqueue
            && (forall t :: t in d.timers <==> t in c.timers && c.timers[t].groupId !in gs)
            && (forall t :: t in d.timers ==> d.timers[t] == c.timers[t])
  {
    hide ClockSound;
    if gs != [] {
      var rest, g := gs[..|gs| - 1], gs[|gs| - 1];
      DisarmAllSound(c, rest, nextId);
      DisarmSound(DisarmAll(c, rest), g, nextId);
      assert gs == rest + [g];
    }
  }

  lemma FiredSound(s: State, t: nat)
    requires Sound(s) && t in s.clock.timers
    ensures Sound(Fired(s, t))
  {
    hide CommitsSound;
    var g := s.clock.timers[t].groupId;
    DisarmSound(s.clock, g, s.nextId);
    assert Disarm(s.clock, g) == s.clock.(timers := s.clock.timers - {t}, armed := s.clock.armed - {g});
    CommitsFrame(s.groups, s.flights.commits, s.nextId, s.groups, s.flights.commits, Fired(s, t).nextId);
  }

  lemma ProposedSound(s: State, f: nat)
    requires Sound(s) && Enabled(s, FetchSucceeds(f))
    ensures Sound(Proposed(s, f))
  {
    hide ClockSound, Requeued, Retained, ProposalsFor, StaleAt;
    var g := s.flights.fetches[f].groupId;
    var s1 := s.(flights := s.flights.(fetches := s.flights.fetches - {f}));
    RetainedOwn(s1.queues, s1.flights.fetches, g, StaleAt(s, f), s1.nextId);
    RequeuedSound(s1.queues, s1.flights.fetches, g, Retained(Pending(s1, g), StaleAt(s, f)), s1.nextId);
    LaterClock(s.clock, s.nextId, Proposed(s, f).nextId);
    var t := Proposed(s, f);
    forall c | c in t.flights.commits
      ensures CommitSound(t.groups, t.flights.commits[c], t.nextId)
    {
      if c in s.flights.commits && t.flights.commits[c] == s.flights.commits[c] {
        assert CommitSound(s.groups, s.flights.commits[c], s.nextId);
      } else {
        ProposalsSound(s, f);
      }
    }
  }

  lemma LaterClock(c: Clock, nextId: nat, nextId': nat)
    requires ClockSound(c, nextId) && nextId <= nextId'
    ensures ClockSound(c, nextId')
  {
  }

  lemma ProposalsSound(s: State, f: nat)
    requires Sound(s) && Enabled(s, FetchSucceeds(f))
    ensures CommitSound(s.groups, ProposalsFor(s.flights.fetches[f].groupId, GroupAt(s, f), QueuedAt(s, f)), s.nextId)
  {
  }

  lemma CommittedSound(s: State, f: nat)
    requires Sound(s) && Enabled(s, CommitSucceeds(f))
    ensures Sound(Committed(s, f))
  {
    hide ClockSound, QueuesSound, CommitsSound, Requeued, Retained;
    var c := s.flights.commits[f];
    var t := Committed(s, f);
    LaterQueues(s.queues, s.flights.fetches, s.nextId, s.nextId + 1);
    RetainedOwn(s.queues, s.flights.fetches, c.groupId, c.departing, s.nextId + 1);
    RequeuedSound(s.queues, s.flights.fetches, c.groupId, Retained(Pending(s, c.groupId), c.departing), s.nextId + 1);
    LaterClock(s.clock, s.nextId, t.nextId);
    CommitsFrame(s.groups, s.flights.commits, s.nextId, t.groups, t.flights.commits, t.nextId);
  }

  lemma LaterQueues(q: Queues, fetches: map<nat, Fetch>, nextId: nat, nextId': nat)
    requires QueuesSound(q, fetches, nextId) && nextId <= nextId'
    ensures QueuesSound(q, fetches, nextId')
  {
  }

  lemma StepSound(s: State, step: Step)
    requires Sound(s) && Enabled(s, step)
    ensures Sound(Next(s, step))
  {
    hide QueuesSound, ClockSound, CommitsSound;
    var t := Next(s, step);
    LaterQueues(s.queues, s.flights.fetches, s.nextId, t.nextId);
    LaterClock(s.clock, s.nextId, t.nextId);
    match step
    case Wait(_) =>
    case EnqueueLeave(g, p) =>
      PushedSound(s.queues, s.flights.fetches, g, Entry(g, p, s.now), s.nextId);
      LaterQueues(t.queues, s.flights.fetches, s.nextId + 1, t.nextId);
      LaterClock(s.clock, s.nextId, s.nextId + 1);
      ArmedSound(s.clock, g, s.now, s.nextId + 1);
      CommitsFrame(s.groups, s.flights.commits, s.nextId, t.groups, t.flights.commits, t.nextId);
    case TimerFires(timer) => FiredSound(s, timer);
    case FetchFails(f) => FewerFetches(s.queues, s.flights.fetches, s.nextId, f);
    case FetchSucceeds(f) => ProposedSound(s, f);
    case CommitFails(_) => CommitsFrame(s.groups, s.flights.commits, s.nextId, t.groups, t.flights.commits, t.nextId);
    case CommitSucceeds(f) => CommittedSound(s, f);
    case ExternalChange(_, _) => CommitsFrame(s.groups, s.flights.commits, s.nextId, t.groups, t.flights.commits, t.nextId);
    case Teardown(gs) => DisarmAllSound(s.clock, gs, s.nextId);
  }

  lemma FewerFetches(q: Queues, fetches: map<nat, Fetch>, nextId: nat, f: nat)
    requires QueuesSound(q, fetches, nextId)
    ensures QueuesSound(q, fetches - {f}, nextId)
  {
  }

  // ── What each step does to a queue ───────────────────────────────────────

  lemma {:induction false} RetainedAll(es: seq<Entry>)
    ensures Retained(es, []) == es
  {
    if es != [] {
      RetainedAll(es[..|es| - 1]);
      assert es == es[..|es| - 1] + [es[|es| - 1]];
    }
  }

  /** Only three kinds of step change a queue: an enqueue appends, a fired timer drops the stale entries,
      and a successful commit drops the committed ones. Failures and teardowns change nothing. */
  lemma PendingAfter(s: State, step: Step, g: GroupId)
    requires Sound(s) && Enabled(s, step)
    ensures Pending(Next(s, step), g) ==
            match step
            case EnqueueLeave(h, p) => if h == g then Pending(s, g) + [Entry(g, p, s.now)] else Pending(s, g)
            case FetchSucceeds(f) => if s.flights.fetches[f].groupId == g then Retained(Pending(s, g), StaleAt(s, f)) else Pending(s, g)
            case CommitSucceeds(f) => if s.flights.commits[f].groupId == g then Retained(Pending(s, g), s.flights.commits[f].departing) else Pending(s, g)
            case _ => Pending(s, g)
  {
    hide ClockSound, CommitsSound, Retained, StaleAt, ProposalsFor, PendingIn, Requeued, Pushed, QueuesSound;
    match step
    case EnqueueLeave(h, p) => PushedPending(s.queues, s.flights.fetches, h, Entry(h, p, s.now), s.nextId, g);
    case FetchSucceeds(f) =>
      var h := s.flights.fetches[f].groupId;
      RequeuedPending(s.queues, s.flights.fetches, h, Retained(Pending(s, h), StaleAt(s, f)), s.nextId, g);
      RetainedAll(Pending(s, g));
    case CommitSucceeds(f) =>
      var c := s.flights.commits[f];
      LaterQueues(s.queues, s.flights.fetches, s.nextId, s.nextId + 1);
      RequeuedPending(s.queues, s.flights.fetches, c.groupId, Retained(Pending(s, c.groupId), c.departing), s.nextId + 1, g);
    case _ =>
  }

  lemma {:induction false} RetainedConcat(a: seq<Entry>, b: seq<Entry>, ps: seq<Pubkey>)
    ensures Retained(a + b, ps) == Retained(a, ps) + Retained(b, ps)
    decreases |b|
  {
    if b == [] {
      assert a + b == a;
    } else {
      RetainedConcat(a, b[..|b| - 1], ps);
      assert (a + b)[..|a + b| - 1] == a + b[..|b| - 1];
    }
  }

  lemma {:induction false} WithoutConcat(a: seq<Pubkey>, b: seq<Pubkey>, ps: seq<Pubkey>)
    ensures Without(a + b, ps) == Without(a, ps) + Without(b, ps)
    decreases |b|
  {
    if b == [] {
      assert a + b == a;
    } else {
      WithoutConcat(a, b[..|b| - 1], ps);
      assert (a + b)[..|a + b| - 1] == a + b[..|b| - 1];
    }
  }

  /** Filtering a queue and filtering the admin list keep what is left in order: they filter piece by piece, and
      an entry is kept whole or dropped. */
  lemma FiltersKeepOrder(a: seq<Entry>, e: Entry, b: seq<Entry>, admins: seq<Pubkey>, admin: Pubkey, more: seq<Pubkey>, ps: seq<Pubkey>)
    ensures Retained(a + [e] + b, ps) == Retained(a, ps) + (if e.pubkey in ps then [] else [e]) + Retained(b, ps)
    ensures Without(admins + [admin] + more, ps) == Without(admins, ps) + (if admin in ps then [] else [admin]) + Without(more, ps)
  {
    RetainedConcat(a + [e], b, ps);
    RetainedConcat(a, [e], ps);
    WithoutConcat(admins + [admin], more, ps);
    WithoutConcat(admins, [admin], ps);
    assert [e][..0] == [] && [admin][..0] == [];
  }

  /** What a fired timer does: it is forgotten, and it waits for the live group with a reference to the queue
      exactly when something is queued. */
  lemma FireEffect(s: State, t: nat)
    requires Sound(s) && Enabled(s, TimerFires(t))
    ensures var u, g := Next(s, TimerFires(t)), s.clock.timers[t].groupId;
            && u.groups == s.groups && u.queues == s.queues && u.flights.commits == s.flights.commits
            && t !in u.clock.timers && u.clock.lastEnqueue == s.clock.lastEnqueue
            && if Pending(s, g) == [] then u.flights.fetches == s.flights.fetches
               else s.nextId !in s.flights.fetches && g in s.queues.queue
                    && u.flights.fetches == s.flights.fetches[s.nextId := Fetch(g, s.queues.queue[g])]
  {
    hide ClockSound, CommitsSound;
  }

  /** A failed fetch or commit is forgotten and leaves groups, queues and timers as they were; a fetch that went
      through is no longer waiting. */
  lemma FailureEffect(s: State, f: nat)
    requires Sound(s)
    ensures Enabled(s, FetchFails(f)) ==>
              Next(s, FetchFails(f)) == s.(flights := Flights(s.flights.fetches - {f}, s.flights.commits))
    ensures Enabled(s, CommitFails(f)) ==>
              Next(s, CommitFails(f)) == s.(flights := Flights(s.flights.fetches, s.flights.commits - {f}))
    ensures Enabled(s, FetchSucceeds(f)) ==>
              && Next(s, FetchSucceeds(f)).flights.fetches == s.flights.fetches - {f}
              && Next(s, FetchSucceeds(f)).clock == s.clock
    ensures Enabled(s, CommitSucceeds(f)) ==>
              && Next(s, CommitSucceeds(f)).flights == Flights(s.flights.fetches, s.flights.commits - {f})
              && Next(s, CommitSucceeds(f)).clock == s.clock
  {
    hide Sound, Requeued, Retained, StaleAt, ProposalsFor, CommittedGroup;
  }

  // ── What a successful commit does to the group ──────────────────────────

  predicate Queued(c: Commit, p: Pubkey) {
    p in PubkeysOf(c.queued)
  }

  lemma DepartingIff(g: Group, queued: seq<Entry>, p: Pubkey)
    ensures p in Departing(g, Unique(PubkeysOf(queued))) <==> p in PubkeysOf(queued) && LeafIndexes(g, p) != {}
    ensures p in Stale(g, Unique(PubkeysOf(queued))) <==> p in PubkeysOf(queued) && LeafIndexes(g, p) == {}
  {
    UniqueMembers(PubkeysOf(queued), p);
    StaleMembers(g, Unique(PubkeysOf(queued)), p);
  }

  /** Exactly the leaves of the queued pubkeys go, and exactly the queued pubkeys that still had a leaf
      leave the admin list: a queued admin whose leaf was already gone stays listed. */
  lemma CommitEffect(s: State, f: nat)
    requires Sound(s) && Enabled(s, CommitSucceeds(f))
    ensures var c := s.flights.commits[f];
            var before, after := s.groups[c.groupId], CommittedGroup(s, f);
            && Next(s, CommitSucceeds(f)).groups == s.groups[c.groupId := after]
            && (forall i :: i in after.leaves <==> i in before.leaves && !Queued(c, before.leaves[i]))
            && (forall i :: i in after.leaves ==> after.leaves[i] == before.leaves[i])
            && (forall p :: p in after.admins <==> p in before.admins && !(Queued(c, p) && LeafIndexes(before, p) != {}))
  {
    hide QueuesSound, ClockSound, Requeued, Retained, Unique, Departing, PubkeysOf;
    var c := s.flights.commits[f];
    var before := s.groups[c.groupId];
    assert CommitSound(s.groups, c, s.nextId);
    forall i | i in before.leaves
      ensures i in c.removed <==> Queued(c, before.leaves[i])
    {
      assert i in LeafIndexes(before, before.leaves[i]);
      DepartingIff(before, c.queued, before.leaves[i]);
    }
    forall p
      ensures p in c.remainingAdmins <==> p in before.admins && !(Queued(c, p) && LeafIndexes(before, p) != {})
    {
      WithoutMembers(before.admins, c.departing, p);
      DepartingIff(before, c.queued, p);
    }
  }

  /** Commits computed from one epoch exclude each other: once one has been applied the others can only fail. */
  lemma OneCommitPerEpoch(s: State, f: nat, other: nat)
    requires Sound(s) && Enabled(s, CommitSucceeds(f)) && other != f && other in s.flights.commits
    requires s.flights.commits[other].groupId == s.flights.commits[f].groupId
    ensures !Enabled(Next(s, CommitSucceeds(f)), CommitSucceeds(other))
  {
    hide QueuesSound, ClockSound, Requeued, Retained, ProposalsFor;
    assert CommitSound(s.groups, s.flights.commits[other], s.nextId);
  }

  // ── A queued removal leaves the queue only when it is done ──────────────

  /** The step found the pubkey gone, or was the commit that removed its last leaf and its admin entry. */
  ghost predicate Released(s: State, step: Step, g: GroupId, p: Pubkey)
    requires Enabled(s, step)
  {
    match step
    case FetchSucceeds(f) => s.flights.fetches[f].groupId == g && LeafIndexes(s.groups[g], p) == {}
    case CommitSucceeds(f) =>
      && s.flights.commits[f].groupId == g && LeafIndexes(s.groups[g], p) != {}
      && LeafIndexes(CommittedGroup(s, f), p) == {} && p !in CommittedGroup(s, f).admins
      && Next(s, step).groups == s.groups[g := CommittedGroup(s, f)]
    case _ => false
  }

  lemma DroppedOnlyWhenReleased(s: State, step: Step, g: GroupId, e: Entry)
    requires Sound(s) && Enabled(s, step)
    requires e in Pending(s, g) && e !in Pending(Next(s, step), g)
    ensures Released(s, step, g, e.pubkey)
  {
    hide QueuesSound, ClockSound, CommitsSound, Next, Retained, Departing, Stale, Unique, PubkeysOf, LeafIndexes, CommittedGroup;
    PendingAfter(s, step, g);
    match step
    case FetchSucceeds(f) =>
      RetainedMembers(Pending(s, g), StaleAt(s, f), e);
      DepartingIff(GroupAt(s, f), QueuedAt(s, f), e.pubkey);
    case CommitSucceeds(f) =>
      RetainedMembers(Pending(s, g), s.flights.commits[f].departing, e);
      CommittedIsReleased(s, f, e.pubkey);
    case _ =>
  }

  lemma CommittedIsReleased(s: State, f: nat, p: Pubkey)
    requires Sound(s) && Enabled(s, CommitSucceeds(f)) && p in s.flights.commits[f].departing
    ensures Released(s, CommitSucceeds(f), s.flights.commits[f].groupId, p)
  {
    hide QueuesSound, ClockSound, Next, Departing, Stale, Unique, PubkeysOf, CommittedGroup;
    var c := s.flights.commits[f];
    assert CommitSound(s.groups, c, s.nextId);
    DepartingIff(c.base, c.queued, p);
    CommitEffect(s, f);
  }

  // ── Runs ─────────────────────────────────────────────────────────────────

  predicate CanRun(s: State, steps: seq<Step>)
    decreases |steps|
  {
    steps == [] || (Enabled(s, steps[0]) && CanRun(Next(s, steps[0]), steps[1..]))
  }

  function After(s: State, steps: seq<Step>): State
    requires CanRun(s, steps)
    decreases |steps|
  {
    if steps == [] then s else After(Next(s, steps[0]), steps[1..])
  }

  lemma {:induction false} RunSound(s: State, steps: seq<Step>)
    requires Sound(s) && CanRun(s, steps)
    ensures Sound(After(s, steps))
    decreases |steps|
  {
    hide QueuesSound, ClockSound, CommitsSound, Next, Enabled;
    if steps != [] {
      StepSound(s, steps[0]);
      RunSound(Next(s, steps[0]), steps[1..]);
    }
  }

  lemma {:induction false} PrefixRuns(s: State, steps: seq<Step>, k: nat)
    requires CanRun(s, steps) && k <= |steps|
    ensures CanRun(s, steps[..k])
    ensures k < |steps| ==> Enabled(After(s, steps[..k]), steps[k])
    ensures k > 0 ==> var t := Next(s, steps[0]);
                      CanRun(t, steps[1..][..k - 1]) && After(s, steps[..k]) == After(t, steps[1..][..k - 1])
    decreases |steps|
  {
    hide Next, Enabled;
    if k > 0 {
      PrefixRuns(Next(s, steps[0]), steps[1..], k - 1);
      assert steps[..k][1..] == steps[1..][..k - 1];
    }
  }

  /** Over every run: an entry that was queued and no longer is was released by some step in between. */
  lemma {:induction false} RemovedOnlyWhenReleased(s: State, steps: seq<Step>, g: GroupId, e: Entry) returns (k: nat)
    requires Sound(s) && CanRun(s, steps)
    requires e in Pending(s, g) && e !in Pending(After(s, steps), g)
    ensures k < |steps| && CanRun(s, steps[..k]) && Enabled(After(s, steps[..k]), steps[k])
    ensures Released(After(s, steps[..k]), steps[k], g, e.pubkey)
    decreases |steps|
  {
    hide Sound, Next, Enabled, Released;
    var t := Next(s, steps[0]);
    if e in Pending(t, g) {
      StepSound(s, steps[0]);
      var j := RemovedOnlyWhenReleased(t, steps[1..], g, e);
      k := j + 1;
    } else {
      DroppedOnlyWhenReleased(s, steps[0], g, e);
      k := 0;
    }
    PrefixRuns(s, steps, k);
  }

  // ── Timer discipline ─────────────────────────────────────────────────────

  /** When, if ever, a run last enqueued a leave for a group. */
  function LatestEnqueue(s: State, steps: seq<Step>, g: GroupId, earlier: Option<nat>): Option<nat>
    requires CanRun(s, steps)
    decreases |steps|
  {
    if steps == [] then earlier
    else
      var at := if steps[0].EnqueueLeave? && steps[0].groupId == g then Some(s.now) else earlier;
      LatestEnqueue(Next(s, steps[0]), steps[1..], g, at)
  }

  function Lookup(m: map<GroupId, nat>, g: GroupId): Option<nat> {
    if g in m then Some(m[g]) else None
  }

  lemma LastEnqueueStep(s: State, step: Step)
    requires Sound(s) && Enabled(s, step)
    ensures Next(s, step).clock.lastEnqueue ==
            if step.EnqueueLeave? then s.clock.lastEnqueue[step.groupId := s.now] else s.clock.lastEnqueue
  {
    hide Requeued, Retained, StaleAt, ProposalsFor, CommittedGroup, Pushed;
    if step.Teardown? {
      DisarmAllSound(s.clock, step.subscribed, s.nextId);
    }
  }

  lemma {:induction false} LastEnqueueIsLatest(s: State, steps: seq<Step>, g: GroupId)
    requires Sound(s) && CanRun(s, steps)
    ensures Lookup(After(s, steps).clock.lastEnqueue, g) == LatestEnqueue(s, steps, g, Lookup(s.clock.lastEnqueue, g))
    decreases |steps|
  {
    hide QueuesSound, ClockSound, CommitsSound, Next, Enabled;
    if steps != [] {
      StepSound(s, steps[0]);
      LastEnqueueStep(s, steps[0]);
      LastEnqueueIsLatest(Next(s, steps[0]), steps[1..], g);
    }
  }

  /** In every reachable state a group has at most one live timer, due 5000 ms after the run's latest
      enqueue for that group. */
  lemma OneTimerPerGroup(s: State, steps: seq<Step>, t: nat, u: nat)
    requires Initial(s) && CanRun(s, steps)
    requires var timers := After(s, steps).clock.timers;
             t in timers && u in timers && timers[t].groupId == timers[u].groupId
    ensures t == u
    ensures var timer := After(s, steps).clock.timers[t];
            var latest := LatestEnqueue(s, steps, timer.groupId, None);
            latest.Some? && timer.deadline == latest.value + DEBOUNCE_MS
  {
    hide QueuesSound, CommitsSound, Next, Enabled, CanRun, After, LatestEnqueue;
    InitiallySound(s);
    RunSound(s, steps);
    LastEnqueueIsLatest(s, steps, After(s, steps).clock.timers[t].groupId);
  }

  /** When the group's live timer is due, if it has one. */
  function Due(c: Clock, g: GroupId): Option<nat> {
    if g in c.armed && c.armed[g] in c.timers then Some(c.timers[c.armed[g]].deadline) else None
  }

  lemma DueIsLive(c: Clock, nextId: nat, g: GroupId)
    requires ClockSound(c, nextId)
    ensures forall t :: t in c.timers && c.timers[t].groupId == g ==> Due(c, g) == Some(c.timers[t].deadline)
    ensures Due(c, g).Some? ==> exists t :: t in c.timers && c.timers[t].groupId == g
  {
  }

  /** The timer after a leave is enqueued: the group has exactly one, due 5000 ms from now, whatever it had
      before, and the timers of all other groups are as they were. */
  lemma EnqueueArms(s: State, g: GroupId, p: Pubkey)
    requires Sound(s)
    ensures var before, after := s.clock.timers, Next(s, EnqueueLeave(g, p)).clock.timers;
            && (exists t :: t in after && after[t] == Timer(g, s.now + 5000)
                            && forall u :: u in after && after[u].groupId == g ==> u == t)
            && (forall u :: u in after && after[u].groupId != g <==> u in before && before[u].groupId != g)
            && (forall u :: u in after && after[u].groupId != g ==> u in before && after[u] == before[u])
  {
    hide QueuesSound, CommitsSound, Pushed, Disarm;
    DisarmSound(s.clock, g, s.nextId);
    assert s.nextId + 1 in Next(s, EnqueueLeave(g, p)).clock.timers;
  }

  /** Of a step: when the group's timer is due after it. */
  function DueStep(s: State, step: Step, g: GroupId, due: Option<nat>): Option<nat>
    requires Enabled(s, step)
  {
    match step
    case EnqueueLeave(h, _) => if h == g then Some(s.now + 5000) else due
    case TimerFires(t) => if s.clock.timers[t].groupId == g then None else due
    case Teardown(gs) => if g in gs then None else due
    case _ => due
  }

  /** Over a run: 5000 ms after the latest enqueue for the group, if no fire or teardown of it came later. */
  function DueAfter(s: State, steps: seq<Step>, g: GroupId, due: Option<nat>): Option<nat>
    requires CanRun(s, steps)
    decreases |steps|
  {
    if steps == [] then due else DueAfter(Next(s, steps[0]), steps[1..], g, DueStep(s, steps[0], g, due))
  }

  lemma DueAfterStep(s: State, step: Step, g: GroupId)
    requires Sound(s) && Enabled(s, step)
    ensures Due(Next(s, step).clock, g) == DueStep(s, step, g, Due(s.clock, g))
  {
    hide QueuesSound, CommitsSound, Requeued, Retained, StaleAt, ProposalsFor, CommittedGroup, Pushed, Disarm, DisarmAll, Armed;
    match step
    case EnqueueLeave(h, _) => DueArmed(s.clock, h, s.now, s.nextId + 1, g);
    case TimerFires(t) => DueFired(s, t, g);
    case Teardown(gs) => DueDisarmed(s.clock, gs, s.nextId, g);
    case _ =>
  }

  lemma DueArmed(c: Clock, h: GroupId, now: nat, id: nat, g: GroupId)
    requires id > 0 && ClockSound(c, id - 1)
    ensures Due(Armed(c, h, now, id), g) == if h == g then Some(now + 5000) else Due(c, g)
  {
    LaterClock(c, id - 1, id);
    DisarmSound(c, h, id);
  }

  lemma DueFired(s: State, t: nat, g: GroupId)
    requires Sound(s) && Enabled(s, TimerFires(t))
    ensures Due(Fired(s, t).clock, g) == if s.clock.timers[t].groupId == g then None else Due(s.clock, g)
  {
    hide QueuesSound, CommitsSound;
  }

  lemma DueDisarmed(c: Clock, gs: seq<GroupId>, nextId: nat, g: GroupId)
    requires ClockSound(c, nextId)
    ensures Due(DisarmAll(c, gs), g) == if g in gs then None else Due(c, g)
  {
    DisarmAllSound(c, gs, nextId);
    var d := DisarmAll(c, gs);
    DueIsLive(c, nextId, g);
    DueIsLive(d, nextId, g);
    hide DisarmAll;
    if Due(c, g).Some? && g !in gs {
      assert c.armed[g] in d.timers;
    }
  }

  lemma {:induction false} DueOverRun(s: State, steps: seq<Step>, g: GroupId)
    requires Sound(s) && CanRun(s, steps)
    ensures Due(After(s, steps).clock, g) == DueAfter(s, steps, g, Due(s.clock, g))
    decreases |steps|
  {
    hide Sound, Next, Enabled, Due, DueStep;
    if steps != [] {
      StepSound(s, steps[0]);
      DueAfterStep(s, steps[0], g);
      DueOverRun(Next(s, steps[0]), steps[1..], g);
    }
  }

  /** In every reachable state a group has a live timer exactly when the latest among its enqueues, fires and
      teardowns was an enqueue, and the timer is due 5000 ms after it. */
  lemma LiveTimerIff(s: State, steps: seq<Step>, g: GroupId)
    requires Initial(s) && CanRun(s, steps)
    ensures var timers, due := After(s, steps).clock.timers, DueAfter(s, steps, g, None);
            && (due.Some? <==> exists t :: t in timers && timers[t].groupId == g)
            && (forall t :: t in timers && timers[t].groupId == g ==> due == Some(timers[t].deadline))
  {
    hide QueuesSound, CommitsSound, Next, Enabled, CanRun, After, DueAfter, ClockSound;
    InitiallySound(s);
    RunSound(s, steps);
    DueOverRun(s, steps, g);
    DueIsLive(After(s, steps).clock, After(s, steps).nextId, g);
  }

  /** In every reachable state a timer can fire exactly when its group's latest enqueue is at least 5000 ms ago. */
  lemma FiresAfterSilence(s: State, steps: seq<Step>, t: nat)
    requires Initial(s) && CanRun(s, steps) && t in After(s, steps).clock.timers
    ensures var latest := LatestEnqueue(s, steps, After(s, steps).clock.timers[t].groupId, None);
            latest.Some? && (Enabled(After(s, steps), TimerFires(t)) <==> After(s, steps).now >= latest.value + 5000)
  {
    hide Next, CanRun, After, LatestEnqueue, Initial;
    OneTimerPerGroup(s, steps, t, t);
  }

  /** Tearing subscriptions down takes away exactly their groups' timers and leaves every queue as it was. */
  lemma TeardownKeepsQueues(s: State, gs: seq<GroupId>)
    requires Sound(s)
    ensures var t := Next(s, Teardown(gs));
            && (forall h :: h in t.clock.timers <==> h in s.clock.timers && s.clock.timers[h].groupId !in gs)
            && (forall h :: h in t.clock.timers ==> t.clock.timers[h] == s.clock.timers[h])
            && t.queues == s.queues
  {
    DisarmAllSound(s.clock, gs, s.nextId);
  }

  // ── Nothing is removed that was not enqueued ─────────────────────────────

  function LeaveOf(step: Step): set<(GroupId, Pubkey)> {
    if step.EnqueueLeave? then {(step.groupId, step.pubkey)} else {}
  }

  /** Arrays and commits hold only what was enqueued for their group. */
  ghost predicate FromPast(s: State, past: set<(GroupId, Pubkey)>) {
    QueuesFromPast(s.queues, past) && CommitsFromPast(s.flights.commits, past)
  }

  ghost predicate QueuesFromPast(q: Queues, past: set<(GroupId, Pubkey)>) {
    forall l :: l in q.lists ==> EntriesFromPast(q.lists[l].owner, q.lists[l].entries, past)
  }

  ghost predicate CommitsFromPast(commits: map<nat, Commit>, past: set<(GroupId, Pubkey)>) {
    forall f :: f in commits ==> EntriesFromPast(commits[f].groupId, commits[f].queued, past)
  }

  ghost predicate EntriesFromPast(g: GroupId, es: seq<Entry>, past: set<(GroupId, Pubkey)>) {
    forall e :: e in es ==> (g, e.pubkey) in past
  }

  lemma RequeuedFromPast(q: Queues, fetches: map<nat, Fetch>, g: GroupId, ps: seq<Pubkey>, id: nat, past: set<(GroupId, Pubkey)>)
    requires QueuesSound(q, fetches, id) && QueuesFromPast(q, past)
    ensures QueuesFromPast(Requeued(q, g, Retained(PendingIn(q, g), ps), id), past)
  {
    assert g in q.queue ==> EntriesFromPast(g, q.lists[q.queue[g]].entries, past);
    forall e | e in Retained(PendingIn(q, g), ps) ensures (g, e.pubkey) in past {
      RetainedMembers(PendingIn(q, g), ps, e);
    }
  }

  lemma PushedFromPast(q: Queues, fetches: map<nat, Fetch>, g: GroupId, e: Entry, id: nat, past: set<(GroupId, Pubkey)>)
    requires QueuesSound(q, fetches, id) && QueuesFromPast(q, past)
    ensures QueuesFromPast(Pushed(q, g, e, id), past + {(g, e.pubkey)})
  {
    assert g in q.queue ==> EntriesFromPast(g, q.lists[q.queue[g]].entries, past);
    assert EntriesFromPast(g, PendingIn(q, g) + [e], past + {(g, e.pubkey)});
    forall l | l in q.lists ensures EntriesFromPast(q.lists[l].owner, q.lists[l].entries, past + {(g, e.pubkey)}) {
      assert EntriesFromPast(q.lists[l].owner, q.lists[l].entries, past);
    }
  }

  lemma MorePast(s: State, past: set<(GroupId, Pubkey)>, more: set<(GroupId, Pubkey)>)
    requires FromPast(s, past) && past <= more
    ensures FromPast(s, more)
  {
    forall l | l in s.queues.lists ensures EntriesFromPast(s.queues.lists[l].owner, s.queues.lists[l].entries, more) {
      assert EntriesFromPast(s.queues.lists[l].owner, s.queues.lists[l].entries, past);
    }
    forall f | f in s.flights.commits ensures EntriesFromPast(s.flights.commits[f].groupId, s.flights.commits[f].queued, more) {
      assert EntriesFromPast(s.flights.commits[f].groupId, s.flights.commits[f].queued, past);
    }
  }

  lemma FromPastStep(s: State, step: Step, past: set<(GroupId, Pubkey)>)
    requires Sound(s) && Enabled(s, step) && FromPast(s, past)
    ensures FromPast(Next(s, step), past + LeaveOf(step))
  {
    hide ClockSound, CommitsSound, Retained, StaleAt, ProposalsFor, Requeued, CommittedGroup, Pushed, EntriesFromPast, QueuesSound, QueuesFromPast;
    MorePast(s, past, past + LeaveOf(step));
    match step
    case EnqueueLeave(g, p) => PushedFromPast(s.queues, s.flights.fetches, g, Entry(g, p, s.now), s.nextId, past);
    case FetchSucceeds(f) =>
      ProposedFromPast(s, f, past);
      assert past + {} == past;
    case CommitSucceeds(f) =>
      LaterQueues(s.queues, s.flights.fetches, s.nextId, s.nextId + 1);
      RequeuedFromPast(s.queues, s.flights.fetches, s.flights.commits[f].groupId, s.flights.commits[f].departing, s.nextId + 1, past);
      assert past + {} == past;
    case _ =>
  }

  lemma ProposedFromPast(s: State, f: nat, past: set<(GroupId, Pubkey)>)
    requires Sound(s) && Enabled(s, FetchSucceeds(f)) && FromPast(s, past)
    ensures FromPast(Proposed(s, f), past)
  {
    var fetch := s.flights.fetches[f];
    assert s.queues.lists[fetch.list].owner == fetch.groupId;
    assert EntriesFromPast(fetch.groupId, QueuedAt(s, f), past);
    hide ClockSound, CommitsSound, Retained, StaleAt, ProposalsFor, Requeued, EntriesFromPast, QueuesFromPast, QueuesSound;
    RequeuedFromPast(s.queues, s.flights.fetches, fetch.groupId, StaleAt(s, f), s.nextId, past);
    ProposalsCarry(fetch.groupId, GroupAt(s, f), QueuedAt(s, f));
  }

  lemma ProposalsCarry(g: GroupId, base: Group, queued: seq<Entry>)
    ensures ProposalsFor(g, base, queued).groupId == g && ProposalsFor(g, base, queued).queued == queued
  {
  }

  function Enqueues(steps: seq<Step>): set<(GroupId, Pubkey)> {
    if steps == [] then {} else LeaveOf(steps[0]) + Enqueues(steps[1..])
  }

  lemma {:induction false} FromPastRun(s: State, steps: seq<Step>, past: set<(GroupId, Pubkey)>)
    requires Sound(s) && CanRun(s, steps) && FromPast(s, past)
    ensures FromPast(After(s, steps), past + Enqueues(steps))
    decreases |steps|
  {
    hide Sound, Next, Enabled, FromPast;
    if steps == [] {
      assert past + Enqueues(steps) == past;
    } else {
      StepSound(s, steps[0]);
      FromPastStep(s, steps[0], past);
      FromPastRun(Next(s, steps[0]), steps[1..], past + LeaveOf(steps[0]));
      assert past + LeaveOf(steps[0]) + Enqueues(steps[1..]) == past + Enqueues(steps);
    }
  }

  lemma {:induction false} EnqueuedByStep(steps: seq<Step>, g: GroupId, p: Pubkey) returns (k: nat)
    requires (g, p) in Enqueues(steps)
    ensures k < |steps| && steps[k] == EnqueueLeave(g, p)
    decreases |steps|
  {
    if (g, p) in LeaveOf(steps[0]) {
      k := 0;
    } else {
      var j := EnqueuedByStep(steps[1..], g, p);
      k := j + 1;
    }
  }

  /** Over every run: whoever loses a leaf or an admin entry to a commit had a leave enqueued for that very
      group at an earlier step. */
  lemma OnlyEnqueuedAreRemoved(s: State, steps: seq<Step>, f: nat, p: Pubkey) returns (k: nat)
    requires Initial(s) && CanRun(s, steps) && Enabled(After(s, steps), CommitSucceeds(f))
    requires var t := After(s, steps);
             var before, after := t.groups[t.flights.commits[f].groupId], CommittedGroup(t, f);
             LeafIndexes(after, p) != LeafIndexes(before, p) || (p in before.admins && p !in after.admins)
    ensures k < |steps| && steps[k] == EnqueueLeave(After(s, steps).flights.commits[f].groupId, p)
  {
    hide CommitsSound, QueuesSound, ClockSound, Next, CommittedGroup, Enqueues;
    var t := After(s, steps);
    InitiallySound(s);
    RunSound(s, steps);
    FromPastRun(s, steps, {});
    CommitEffect(t, f);
    var c := t.flights.commits[f];
    assert Queued(c, p);
    QueuedEntry(c, p);
    assert (c.groupId, p) in {} + Enqueues(steps);
    k := EnqueuedByStep(steps, c.groupId, p);
  }

  lemma QueuedEntry(c: Commit, p: Pubkey)
    requires Queued(c, p)
    ensures exists e :: e in c.queued && e.pubkey == p
  {
    var i :| 0 <= i < |c.queued| && PubkeysOf(c.queued)[i] == p;
    assert c.queued[i] in c.queued;
  }

  /** A fired timer never touches a group itself. It starts a commit exactly when some queued pubkey has a
      leaf; if all are stale, the admin list keeps them and no commit is left to remove them. */
  lemma StaleOnlyCommitsNothing(s: State, f: nat)
    requires Sound(s) && Enabled(s, FetchSucceeds(f))
    ensures Next(s, FetchSucceeds(f)).groups == s.groups
    ensures Next(s, FetchSucceeds(f)).flights.commits == s.flights.commits
            <==> forall p :: p in PubkeysOf(QueuedAt(s, f)) ==> LeafIndexes(GroupAt(s, f), p) == {}
  {
    hide QueuesSound, ClockSound, Requeued, Retained, StaleAt, Unique, Departing, PubkeysOf, LeavesOf, Without, LeafIndexes;
    var departing := Departing(GroupAt(s, f), Unique(PubkeysOf(QueuedAt(s, f))));
    forall p ensures p in departing <==> p in PubkeysOf(QueuedAt(s, f)) && LeafIndexes(GroupAt(s, f), p) != {} {
      DepartingIff(GroupAt(s, f), QueuedAt(s, f), p);
    }
    if departing != [] {
      assert departing[0] in departing;
      CommitStarts(s, f);
    }
  }

  lemma CommitStarts(s: State, f: nat)
    requires Sound(s) && Enabled(s, FetchSucceeds(f))
    requires Departing(GroupAt(s, f), Unique(PubkeysOf(QueuedAt(s, f)))) != []
    ensures Next(s, FetchSucceeds(f)).flights.commits != s.flights.commits
  {
    hide QueuesSound, ClockSound, Requeued, Retained, StaleAt, Unique, Departing, PubkeysOf, LeavesOf, Without, LeafIndexes, CommitSound;
    var t := Next(s, FetchSucceeds(f));
    var id := t.nextId - 1;
    assert id in t.flights.commits && id >= s.nextId;
    assert id !in s.flights.commits;
  }

  // ── What the fired timer holds, and what is queued ───────────────────────

  /** The array of a fired timer is still its group's queue. */
  predicate Live(s: State, f: nat) {
    && f in s.flights.fetches && s.flights.fetches[f].groupId in s.queues.queue
    && s.queues.queue[s.flights.fetches[f].groupId] == s.flights.fetches[f].list
  }

  /** The step runs `onCommitted` for the group, which gives it another array or none. */
  predicate Replaces(s: State, step: Step, g: GroupId)
    requires Enabled(s, step)
  {
    match step
    case FetchSucceeds(f) => s.flights.fetches[f].groupId == g && StaleAt(s, f) != []
    case CommitSucceeds(f) => s.flights.commits[f].groupId == g
    case _ => false
  }

  predicate NoneReplaces(s: State, steps: seq<Step>, g: GroupId)
    requires CanRun(s, steps)
    decreases |steps|
  {
    steps == [] || (!Replaces(s, steps[0], g) && NoneReplaces(Next(s, steps[0]), steps[1..], g))
  }

  /** The leaves enqueued for the fired timer's group while its array was still the queue. */
  function Pushes(s: State, steps: seq<Step>, f: nat): seq<Entry>
    requires CanRun(s, steps)
    decreases |steps|
  {
    if steps == [] then []
    else PushOf(s, steps[0], f) + Pushes(Next(s, steps[0]), steps[1..], f)
  }

  function PushOf(s: State, step: Step, f: nat): seq<Entry> {
    if step.EnqueueLeave? && Live(s, f) && step.groupId == s.flights.fetches[f].groupId
    then [Entry(step.groupId, step.pubkey, s.now)] else []
  }

  /** From one state to a later one the fired timer's array has grown by `pushed`; it is still the queue iff
      it was and has not been replaced. */
  ghost predicate HeldSince(s: State, t: State, f: nat, pushed: seq<Entry>, replaced: bool) {
    && f in s.flights.fetches && f in t.flights.fetches && t.flights.fetches[f] == s.flights.fetches[f]
    && (Live(t, f) <==> Live(s, f) && !replaced)
    && var list := s.flights.fetches[f].list;
    && list in s.queues.lists && list in t.queues.lists
    && t.queues.lists[list].entries == s.queues.lists[list].entries + pushed
  }

  lemma HeldThrough(s: State, t: State, u: State, f: nat, a: seq<Entry>, b: seq<Entry>, replaced: bool, replacedThen: bool)
    requires HeldSince(s, t, f, a, replaced) && HeldSince(t, u, f, b, replacedThen)
    ensures HeldSince(s, u, f, a + b, replaced || replacedThen)
  {
    var list := s.flights.fetches[f].list;
    assert s.queues.lists[list].entries + a + b == s.queues.lists[list].entries + (a + b);
  }

  lemma ArrayStep(s: State, step: Step, f: nat)
    requires Sound(s) && Enabled(s, step) && f in s.flights.fetches && f in Next(s, step).flights.fetches
    ensures HeldSince(s, Next(s, step), f, PushOf(s, step, f), Replaces(s, step, s.flights.fetches[f].groupId))
  {
    hide ClockSound, CommitsSound, Retained, StaleAt, ProposalsFor, CommittedGroup, Armed, Disarm, OwnEntries;
    var fetch := s.flights.fetches[f];
    match step
    case EnqueueLeave(g, p) => PushKeepsArray(s, g, p, f);
    case FetchSucceeds(_) => OtherFetchKeepsArray(s, step, f);
    case CommitSucceeds(_) => OtherFetchKeepsArray(s, step, f);
    case _ =>
  }

  lemma PushKeepsArray(s: State, g: GroupId, p: Pubkey, f: nat)
    requires Sound(s) && f in s.flights.fetches
    ensures HeldSince(s, Enqueued(s, g, p), f, PushOf(s, EnqueueLeave(g, p), f), false)
  {
    hide ClockSound, CommitsSound, Armed, OwnEntries;
    var fetch := s.flights.fetches[f];
    assert fetch.list < s.nextId;
    if g in s.queues.queue {
      assert s.queues.lists[s.queues.queue[g]].owner == g;
    }
  }

  lemma OtherFetchKeepsArray(s: State, step: Step, f: nat)
    requires Sound(s) && Enabled(s, step) && f in s.flights.fetches && f in Next(s, step).flights.fetches
    requires step.FetchSucceeds? || step.CommitSucceeds?
    ensures HeldSince(s, Next(s, step), f, [], Replaces(s, step, s.flights.fetches[f].groupId))
  {
    hide ClockSound, CommitsSound, Retained, StaleAt, ProposalsFor, CommittedGroup, OwnEntries;
    assert s.flights.fetches[f].list < s.nextId;
  }

  lemma FetchStaysGone(s: State, step: Step, f: nat)
    requires Sound(s) && Enabled(s, step) && f < s.nextId && f !in s.flights.fetches
    ensures f !in Next(s, step).flights.fetches && s.nextId <= Next(s, step).nextId
  {
    hide QueuesSound, ClockSound, CommitsSound, Requeued, Retained, StaleAt, ProposalsFor, CommittedGroup;
  }

  lemma {:induction false} FetchStaysGoneRun(s: State, steps: seq<Step>, f: nat)
    requires Sound(s) && CanRun(s, steps) && f < s.nextId && f !in s.flights.fetches
    ensures f !in After(s, steps).flights.fetches
    decreases |steps|
  {
    hide Sound, Next, Enabled;
    if steps != [] {
      StepSound(s, steps[0]);
      FetchStaysGone(s, steps[0], f);
      FetchStaysGoneRun(Next(s, steps[0]), steps[1..], f);
    }
  }

  /** Over every run that leaves a fired timer waiting: its array has grown by exactly the leaves enqueued
      while it was the queue, and it is still the queue exactly when it was and no step replaced the queue. */
  lemma {:induction false} ArrayOverRun(s: State, steps: seq<Step>, f: nat)
    requires Sound(s) && CanRun(s, steps) && f in s.flights.fetches && f in After(s, steps).flights.fetches
    ensures HeldSince(s, After(s, steps), f, Pushes(s, steps, f), !NoneReplaces(s, steps, s.flights.fetches[f].groupId))
    decreases |steps|
  {
    assert s.flights.fetches[f].list in s.queues.lists && f < s.nextId;
    if steps == [] {
      assert s.queues.lists[s.flights.fetches[f].list].entries + [] == s.queues.lists[s.flights.fetches[f].list].entries;
    } else {
      hide Sound, Next, Enabled, Live, Replaces, PushOf;
      var t := Next(s, steps[0]);
      StepSound(s, steps[0]);
      NextIdGrows(s, steps[0]);
      if f !in t.flights.fetches {
        FetchStaysGoneRun(t, steps[1..], f);
      }
      ArrayStep(s, steps[0], f);
      SameFetch(s, t, f, PushOf(s, steps[0], f), Replaces(s, steps[0], s.flights.fetches[f].groupId));
      ArrayOverRun(t, steps[1..], f);
      hide HeldSince;
      HeldThrough(s, t, After(s, steps), f, PushOf(s, steps[0], f), Pushes(t, steps[1..], f),
                  Replaces(s, steps[0], s.flights.fetches[f].groupId), !NoneReplaces(t, steps[1..], s.flights.fetches[f].groupId));
    }
  }

  lemma SameFetch(s: State, t: State, f: nat, pushed: seq<Entry>, replaced: bool)
    requires HeldSince(s, t, f, pushed, replaced)
    ensures t.flights.fetches[f].groupId == s.flights.fetches[f].groupId
  {
  }

  lemma NextIdGrows(s: State, step: Step)
    requires Enabled(s, step)
    ensures s.nextId <= Next(s, step).nextId
  {
    hide Requeued, Retained, StaleAt, ProposalsFor, CommittedGroup, Pushed, Armed;
  }

  /** The "snapshot" of the timer body: over every run from the fire to the fetch, the entries committed are
      the queue at the fire plus the leaves enqueued while that array was still the queue, so they are the
      queue at the fire exactly when there was no such leave. */
  lemma SnapshotIff(s: State, timer: nat, steps: seq<Step>)
    requires Sound(s) && Enabled(s, TimerFires(timer)) && Pending(s, s.clock.timers[timer].groupId) != []
    requires var fired := Next(s, TimerFires(timer));
             CanRun(fired, steps) && Enabled(After(fired, steps), FetchSucceeds(s.nextId))
    ensures var g, fired, f := s.clock.timers[timer].groupId, Next(s, TimerFires(timer)), s.nextId;
            && QueuedAt(After(fired, steps), f) == Pending(s, g) + Pushes(fired, steps, f)
            && (QueuedAt(After(fired, steps), f) == Pending(s, g) <==> Pushes(fired, steps, f) == [])
            && (Live(After(fired, steps), f) <==> NoneReplaces(fired, steps, g))
  {
    var g, fired, f := s.clock.timers[timer].groupId, Next(s, TimerFires(timer)), s.nextId;
    StepSound(s, TimerFires(timer));
    assert f in fired.flights.fetches && fired.flights.fetches[f] == Fetch(g, s.queues.queue[g]) && fired.queues == s.queues;
    hide QueuesSound, ClockSound, CommitsSound, Pushes, NoneReplaces, CanRun, After;
    ArrayOverRun(fired, steps, f);
  }

  // ── Are the committed pubkeys the queued ones? ───────────────────────────

  /** The fetch makes a commit of exactly the pubkeys that are queued at that moment and have a leaf. */
  ghost predicate CommitsPending(s: State, f: nat)
    requires Enabled(s, FetchSucceeds(f))
  {
    forall p :: p in ProposalsFor(s.flights.fetches[f].groupId, GroupAt(s, f), QueuedAt(s, f)).departing
                <==> p in PubkeysOf(Pending(s, s.flights.fetches[f].groupId)) && LeafIndexes(GroupAt(s, f), p) != {}
  }

  lemma LiveCommitsPending(s: State, f: nat)
    requires Enabled(s, FetchSucceeds(f)) && Live(s, f)
    ensures CommitsPending(s, f)
  {
    hide LeafIndexes, PubkeysOf, Unique, Departing;
    forall p ensures p in ProposalsFor(s.flights.fetches[f].groupId, GroupAt(s, f), QueuedAt(s, f)).departing
                     <==> p in PubkeysOf(Pending(s, s.flights.fetches[f].groupId)) && LeafIndexes(GroupAt(s, f), p) != {}
    {
      DepartingIff(GroupAt(s, f), QueuedAt(s, f), p);
    }
  }

  /** One more leave for the group, and any other tree, before the fetch. */
  function Disturbed(s: State, f: nat, p: Pubkey, changed: Group): State
    requires Enabled(s, FetchSucceeds(f))
  {
    var g := s.flights.fetches[f].groupId;
    Next(Next(s, EnqueueLeave(g, p)), ExternalChange(g, Some(changed)))
  }

  lemma DisturbedFetch(s: State, f: nat, p: Pubkey, changed: Group)
    requires Sound(s) && Enabled(s, FetchSucceeds(f))
    ensures var t, g := Disturbed(s, f, p, changed), s.flights.fetches[f].groupId;
            && Enabled(t, FetchSucceeds(f)) && t.flights.fetches[f].groupId == g
            && GroupAt(t, f).leaves == changed.leaves
            && Pending(t, g) == Pending(s, g) + [Entry(g, p, s.now)]
            && (Live(t, f) <==> Live(s, f))
            && QueuedAt(t, f) == QueuedAt(s, f) + (if Live(s, f) then [Entry(g, p, s.now)] else [])
  {
    hide ClockSound, CommitsSound, Pushed, Armed, OwnEntries;
    var g := s.flights.fetches[f].groupId;
    var mid := Next(s, EnqueueLeave(g, p));
    PendingAfter(s, EnqueueLeave(g, p), g);
    ArrayStep(s, EnqueueLeave(g, p), f);
    StepSound(s, EnqueueLeave(g, p));
    ArrayStep(mid, ExternalChange(g, Some(changed)), f);
  }

  /** Exactly when a fired timer commits the queue as it stands, whatever leave comes in and however the tree
      changes before its fetch: when its array is still the group's queue. */
  lemma CommitsPendingIff(s: State, f: nat)
    requires Sound(s) && Enabled(s, FetchSucceeds(f))
    ensures (forall p, changed :: Enabled(Disturbed(s, f, p, changed), FetchSucceeds(f)) && CommitsPending(Disturbed(s, f, p, changed), f))
            <==> Live(s, f)
  {
    hide Sound, Enabled, Live, CommitsPending, Disturbed;
    forall p, changed
      ensures Enabled(Disturbed(s, f, p, changed), FetchSucceeds(f))
      ensures Live(s, f) ==> CommitsPending(Disturbed(s, f, p, changed), f)
    {
      DisturbedFetch(s, f, p, changed);
      if Live(s, f) { LiveCommitsPending(Disturbed(s, f, p, changed), f); }
    }
    if !Live(s, f) {
      var p := NewPubkey(PubkeysOf(QueuedAt(s, f)));
      MissedLeave(s, f, p);
    }
  }

  /** A leave that comes in when the array is no longer the queue is not in the commit. */
  lemma MissedLeave(s: State, f: nat, p: Pubkey)
    requires Sound(s) && Enabled(s, FetchSucceeds(f)) && !Live(s, f) && p !in PubkeysOf(QueuedAt(s, f))
    ensures var t := Disturbed(s, f, p, Group(0, map[0 := p], []));
            Enabled(t, FetchSucceeds(f)) && !CommitsPending(t, f)
  {
    var g := s.flights.fetches[f].groupId;
    DisturbedFetch(s, f, p, Group(0, map[0 := p], []));
    var t := Disturbed(s, f, p, Group(0, map[0 := p], []));
    hide Sound, Enabled, Live, Disturbed, QueuedAt, GroupAt, Pending;
    assert 0 in LeafIndexes(GroupAt(t, f), p);
    assert PubkeysOf(Pending(t, g))[|Pending(t, g)| - 1] == p;
    DepartingIff(GroupAt(t, f), QueuedAt(t, f), p);
    assert QueuedAt(t, f) == QueuedAt(s, f);
  }

  lemma {:induction false} NewPubkey(ps: seq<Pubkey>) returns (p: Pubkey)
    ensures forall q :: q in ps ==> |q| < |p|
    ensures p !in ps
  {
    if ps == [] {
      p := [0];
    } else {
      var r := NewPubkey(ps[..|ps| - 1]);
      p := r + ps[|ps| - 1] + [0];
    }
  }

  /** The "snapshot" handed to the commit is the live array: a leave enqueued after the timer fired but before
      the group was fetched is committed with the rest. */
  lemma SnapshotSeesLaterPushes(s: State, f: nat, p: Pubkey)
    requires Sound(s) && Enabled(s, FetchSucceeds(f)) && LeafIndexes(GroupAt(s, f), p) != {}
    requires var fetch := s.flights.fetches[f];
             fetch.groupId in s.queues.queue && s.queues.queue[fetch.groupId] == fetch.list
    ensures var t := Next(s, EnqueueLeave(s.flights.fetches[f].groupId, p));
            && Enabled(t, FetchSucceeds(f))
            && exists c :: c in Next(t, FetchSucceeds(f)).flights.commits
                        && p in Next(t, FetchSucceeds(f)).flights.commits[c].departing
  {
    hide ClockSound, CommitsSound, Requeued, Retained, Stale, Unique, Departing, Without, LeavesOf, LeafIndexes;
    var g := s.flights.fetches[f].groupId;
    var t := Next(s, EnqueueLeave(g, p));
    var queued := QueuedAt(t, f);
    assert queued[|queued| - 1].pubkey == p;
    assert PubkeysOf(queued)[|queued| - 1] == p;
    DepartingIff(GroupAt(t, f), queued, p);
    var u := Next(t, FetchSucceeds(f));
    assert u.flights.commits[u.nextId - 1] == ProposalsFor(g, GroupAt(t, f), queued);
  }

  // ── From the fetch to the commit ─────────────────────────────────────────

  lemma CommitStays(s: State, step: Step, c: nat)
    requires Sound(s) && Enabled(s, step) && c < s.nextId
    ensures c in Next(s, step).flights.commits ==>
              c in s.flights.commits && Next(s, step).flights.commits[c] == s.flights.commits[c]
  {
    hide QueuesSound, ClockSound, CommitsSound, Requeued, Retained, StaleAt, ProposalsFor, CommittedGroup, Pushed, Armed, DisarmAll;
  }

  /** A step leaves a group alone or gives it an epoch never used before. */
  lemma GroupStep(s: State, step: Step, g: GroupId)
    requires Enabled(s, step)
    ensures g in Next(s, step).groups ==>
              (g in s.groups && Next(s, step).groups[g] == s.groups[g]) || Next(s, step).groups[g].epoch == s.nextId
  {
    hide Requeued, Retained, StaleAt, ProposalsFor, Pushed, Armed, DisarmAll;
  }

  lemma CommitGoes(s: State, c: nat)
    requires Enabled(s, CommitSucceeds(c))
    ensures c !in Next(s, CommitSucceeds(c)).flights.commits
  {
    hide Requeued, Retained;
  }

  lemma InFlight(s: State, c: nat)
    requires Sound(s) && c in s.flights.commits
    ensures c < s.nextId && CommitSound(s.groups, s.flights.commits[c], s.nextId)
  {
    hide CommitSound, QueuesSound, ClockSound;
  }

  /** A commit whose group has moved on can never succeed again. */
  lemma BlockedStays(s: State, step: Step, c: nat)
    requires Sound(s) && Enabled(s, step) && c in s.flights.commits && c in Next(s, step).flights.commits
    requires !Enabled(s, CommitSucceeds(c))
    ensures !Enabled(Next(s, step), CommitSucceeds(c))
  {
    hide Sound, Next, ProposalsFor;
    InFlight(s, c);
    CommitStays(s, step, c);
    GroupStep(s, step, s.flights.commits[c].groupId);
  }

  /** Whenever the commit can succeed, everyone it removes is still queued. */
  ghost predicate StillPending(s: State, c: nat) {
    Enabled(s, CommitSucceeds(c)) ==>
      forall p :: p in s.flights.commits[c].departing ==> p in PubkeysOf(Pending(s, s.flights.commits[c].groupId))
  }

  predicate CommitsTo(s: State, step: Step, g: GroupId) {
    step.CommitSucceeds? && step.fire in s.flights.commits && s.flights.commits[step.fire].groupId == g
  }

  /** Only another commit or a change from outside could drop a pubkey that has a leaf, and either moves the
      epoch on. */
  lemma StillPendingStep(s: State, step: Step, c: nat)
    requires Sound(s) && Enabled(s, step) && c in s.flights.commits && c in Next(s, step).flights.commits
    requires StillPending(s, c)
    ensures StillPending(Next(s, step), c)
  {
    hide Sound, Next, Enabled, Pending, PubkeysOf;
    InFlight(s, c);
    CommitStays(s, step, c);
    if step == CommitSucceeds(c) { CommitGoes(s, c); }
    if !Enabled(s, CommitSucceeds(c)) {
      BlockedStays(s, step, c);
    } else if CommitsTo(s, step, s.flights.commits[c].groupId) {
      OneCommitPerEpoch(s, step.fire, c);
    } else {
      BaseStands(s, c);
      forall p | p in s.flights.commits[c].departing
        ensures p in PubkeysOf(Pending(Next(s, step), s.flights.commits[c].groupId))
      {
        QueuedPubkeyStays(s, step, s.flights.commits[c], p);
      }
    }
  }

  lemma BaseStands(s: State, c: nat)
    requires Sound(s) && Enabled(s, CommitSucceeds(c))
    ensures var commit := s.flights.commits[c];
            && commit.groupId in s.groups && s.groups[commit.groupId] == commit.base
            && commit == ProposalsFor(commit.groupId, commit.base, commit.queued)
  {
    hide Sound, ProposalsFor;
    InFlight(s, c);
  }

  lemma QueuedPubkeyStays(s: State, step: Step, c: Commit, p: Pubkey)
    requires Sound(s) && Enabled(s, step) && c.groupId in s.groups && s.groups[c.groupId] == c.base
    requires c == ProposalsFor(c.groupId, c.base, c.queued) && p in c.departing
    requires !CommitsTo(s, step, c.groupId)
    requires p in PubkeysOf(Pending(s, c.groupId))
    ensures p in PubkeysOf(Pending(Next(s, step), c.groupId))
  {
    DepartingIff(c.base, c.queued, p);
    hide Sound, Next, Departing, Unique, PubkeysOf, Pending;
    var e := EntryOf(Pending(s, c.groupId), p);
    if e !in Pending(Next(s, step), c.groupId) {
      DroppedOnlyWhenReleased(s, step, c.groupId, e);
      assert false;
    }
    PubkeyOf(Pending(Next(s, step), c.groupId), e);
  }

  lemma EntryOf(es: seq<Entry>, p: Pubkey) returns (e: Entry)
    requires p in PubkeysOf(es)
    ensures e in es && e.pubkey == p
  {
    var i :| 0 <= i < |es| && PubkeysOf(es)[i] == p;
    e := es[i];
  }

  lemma PubkeyOf(es: seq<Entry>, e: Entry)
    requires e in es
    ensures e.pubkey in PubkeysOf(es)
  {
    var i :| 0 <= i < |es| && es[i] == e;
    assert PubkeysOf(es)[i] == e.pubkey;
  }

  /** The fetch started this commit. */
  predicate Starts(s: State, f: nat, c: nat)
    requires Enabled(s, FetchSucceeds(f))
  {
    c in Next(s, FetchSucceeds(f)).flights.commits && c !in s.flights.commits
  }

  lemma StartedCommit(s: State, f: nat, c: nat)
    requires Sound(s) && Enabled(s, FetchSucceeds(f)) && Starts(s, f, c)
    ensures var t := Next(s, FetchSucceeds(f));
            c < t.nextId && t.flights.commits[c] == ProposalsFor(s.flights.fetches[f].groupId, GroupAt(s, f), QueuedAt(s, f))
  {
    hide QueuesSound, ClockSound, CommitsSound, Requeued, Retained, StaleAt, ProposalsFor;
  }

  lemma StartedPending(s: State, f: nat, c: nat)
    requires Sound(s) && Enabled(s, FetchSucceeds(f)) && Starts(s, f, c) && Live(s, f)
    ensures StillPending(Next(s, FetchSucceeds(f)), c)
  {
    var t, g := Next(s, FetchSucceeds(f)), s.flights.fetches[f].groupId;
    var queued := QueuedAt(s, f);
    assert Pending(s, g) == queued;
    StartedCommit(s, f, c);
    PendingAfter(s, FetchSucceeds(f), g);
    ProposalsCarry(g, GroupAt(s, f), queued);
    assert t.flights.commits[c].departing == Departing(GroupAt(s, f), Unique(PubkeysOf(queued)));
    hide Sound, Next, Live, Retained, Departing, Stale, Unique, PubkeysOf, Pending, QueuedAt, GroupAt;
    forall p | p in t.flights.commits[c].departing ensures p in PubkeysOf(Pending(t, g)) {
      DepartingIff(GroupAt(s, f), queued, p);
      var e := EntryOf(queued, p);
      RetainedMembers(queued, StaleAt(s, f), e);
      PubkeyOf(Pending(t, g), e);
    }
  }

  lemma {:induction false} CommitOverRun(s: State, steps: seq<Step>, c: nat)
    requires Sound(s) && CanRun(s, steps) && c < s.nextId && c in After(s, steps).flights.commits
    ensures c in s.flights.commits && After(s, steps).flights.commits[c] == s.flights.commits[c]
    ensures StillPending(s, c) ==> StillPending(After(s, steps), c)
    decreases |steps|
  {
    hide Sound, Next, Enabled, StillPending;
    if steps != [] {
      StepSound(s, steps[0]);
      NextIdGrows(s, steps[0]);
      CommitOverRun(Next(s, steps[0]), steps[1..], c);
      CommitStays(s, steps[0], c);
      if StillPending(s, c) { StillPendingStep(s, steps[0], c); }
    }
  }

  /** Over every run from a fetch to the success of its commit: the commit is still the one computed by the
      fetch, from the array as it stood then; and if the array was the group's queue then, everyone the commit
      removes is still queued, whatever was enqueued, fired, committed or changed in between. */
  lemma CommitIsOfItsFetch(s: State, f: nat, c: nat, steps: seq<Step>)
    requires Sound(s) && Enabled(s, FetchSucceeds(f)) && Starts(s, f, c)
    requires var t := Next(s, FetchSucceeds(f)); CanRun(t, steps) && Enabled(After(t, steps), CommitSucceeds(c))
    ensures var end, g := After(Next(s, FetchSucceeds(f)), steps), s.flights.fetches[f].groupId;
            && end.flights.commits[c] == ProposalsFor(g, GroupAt(s, f), QueuedAt(s, f))
            && (Live(s, f) ==> forall p :: p in end.flights.commits[c].departing ==> p in PubkeysOf(Pending(end, g)))
  {
    var t, g := Next(s, FetchSucceeds(f)), s.flights.fetches[f].groupId;
    hide Sound, Next, Live, CanRun, After, Pending, PubkeysOf, ProposalsFor, QueuedAt, GroupAt, Starts, LeafIndexes, Departing;
    StepSound(s, FetchSucceeds(f));
    StartedCommit(s, f, c);
    if Live(s, f) { StartedPending(s, f, c); }
    CommitOverRun(t, steps, c);
    ProposalsCarry(g, GroupAt(s, f), QueuedAt(s, f));
  }

  // ── The code, step by step ───────────────────────────────────────────────

  class RemovalScheduler {
    var now: nat
    var groups: map<GroupId, Group>
    var queues: Queues
    var clock: Clock
    var flights: Flights
    var nextId: nat

    function View(): State
      reads this
    {
      State(now, groups, queues, clock, flights, nextId)
    }

    method EnqueueLeave(groupId: GroupId, pubkey: Pubkey)
      modifies this
      ensures View() == Next(old(View()), Step.EnqueueLeave(groupId, pubkey))
    {
      var existing := nextId;
      if groupId in queues.queue {
        existing := queues.queue[groupId];
      }
      var entry := Entry(groupId, pubkey, now);
      queues := Queues(queues.lists[existing := List(groupId, PendingIn(queues, groupId) + [entry])],
                       queues.queue[groupId := existing]);
      if groupId in clock.armed {
        clock := clock.(timers := clock.timers - {clock.armed[groupId]}, armed := clock.armed - {groupId});
      }
      var timer := nextId + 1;
      clock := Clock(clock.timers[timer := Timer(groupId, now + DEBOUNCE_MS)], clock.armed[groupId := timer],
                     clock.lastEnqueue[groupId := now]);
      nextId := nextId + 2;
    }

    /** The synchronous part of the timer callback. */
    method TimerCallback(timer: nat)
      requires Enabled(View(), TimerFires(timer))
      modifies this
      ensures View() == Next(old(View()), TimerFires(timer))
    {
      var groupId := clock.timers[timer].groupId;
      clock := clock.(timers := clock.timers - {timer}, armed := clock.armed - {groupId});
      var pendingQueue := PendingIn(queues, groupId);
      if |pendingQueue| == 0 {
        return;
      }
      flights := flights.(fetches := flights.fetches[nextId := Fetch(groupId, queues.queue[groupId])]);
      nextId := nextId + 1;
    }

    method OnCommittedCallback(groupId: GroupId, pubkeys: seq<Pubkey>)
      modifies this
      ensures View() == OnCommitted(old(View()), groupId, pubkeys)
    {
      var filtered := Retained(PendingIn(queues, groupId), pubkeys);
      if |filtered| == 0 {
        queues := queues.(queue := queues.queue - {groupId});
      } else {
        queues := Queues(queues.lists[nextId := List(groupId, filtered)], queues.queue[groupId := nextId]);
      }
      nextId := nextId + 1;
    }

    method FireAutoCommit(fire: nat)
      requires Enabled(View(), FetchSucceeds(fire))
      modifies this
      ensures View() == Next(old(View()), FetchSucceeds(fire))
    {
      hide Departing, Stale, LeavesOf, Retained, Unique;
      var fetch := flights.fetches[fire];
      var mlsGroup := groups[fetch.groupId];
      var pendingQueue := queues.lists[fetch.list].entries;
      flights := flights.(fetches := flights.fetches - {fire});
      var departing, removed, dropped := Partition(mlsGroup, Unique(PubkeysOf(pendingQueue)));
      if |dropped| > 0 {
        OnCommittedCallback(fetch.groupId, dropped);
      }
      if |departing| == 0 {
        return;
      }
      var remainingAdmins := Without(mlsGroup.admins, departing);
      var commit := Commit(fetch.groupId, mlsGroup, pendingQueue, departing, removed, remainingAdmins);
      flights := flights.(commits := flights.commits[nextId := commit]);
      nextId := nextId + 1;
    }

    /** `await mlsGroup.commit(...)` coming back: applied, or failed with the queue left alone. */
    method CommitReturns(fire: nat, applied: bool)
      requires fire in flights.commits
      requires applied ==> Enabled(View(), CommitSucceeds(fire))
      modifies this
      ensures View() == Next(old(View()), if applied then CommitSucceeds(fire) else CommitFails(fire))
    {
      var c := flights.commits[fire];
      flights := flights.(commits := flights.commits - {fire});
      if !applied {
        return;
      }
      groups := groups[c.groupId := Group(nextId, groups[c.groupId].leaves - c.removed, c.remainingAdmins)];
      nextId := nextId + 1;
      OnCommittedCallback(c.groupId, c.departing);
    }

    /** The cleanup of the subscription effect. */
    method Cleanup(subscribed: seq<GroupId>)
      modifies this
      ensures View() == Next(old(View()), Teardown(subscribed))
    {
      for i := 0 to |subscribed|
        invariant View() == old(View()).(clock := DisarmAll(old(clock), subscribed[..i]))
      {
        assert subscribed[..i + 1][..i] == subscribed[..i];
        if subscribed[i] in clock.armed {
          clock := clock.(timers := clock.timers - {clock.armed[subscribed[i]]}, armed := clock.armed - {subscribed[i]});
        }
      }
      assert subscribed[..|subscribed|] == subscribed;
    }
  }

  /** The loop of fireAutoCommit: pubkeys without a leaf are dropped, the others contribute all their leaves. */
  method Partition(group: Group, uniquePubkeys: seq<Pubkey>) returns (departing: seq<Pubkey>, removed: set<nat>, dropped: seq<Pubkey>)
    ensures departing == Departing(group, uniquePubkeys) && dropped == Stale(group, uniquePubkeys)
    ensures removed == LeavesOf(group, departing)
  {
    departing, removed, dropped := [], {}, [];
    for i := 0 to |uniquePubkeys|
      invariant departing == Departing(group, uniquePubkeys[..i]) && dropped == Stale(group, uniquePubkeys[..i])
      invariant removed == LeavesOf(group, departing)
    {
      assert uniquePubkeys[..i + 1][..i] == uniquePubkeys[..i];
      var leafIndexes := LeafIndexes(group, uniquePubkeys[i]);
      if leafIndexes == {} {
        dropped := dropped + [uniquePubkeys[i]];
      } else {
        departing := departing + [uniquePubkeys[i]];
        removed := removed + leafIndexes;
      }
    }
    assert uniquePubkeys[..|uniquePubkeys|] == uniquePubkeys;
  }
}
