/** Runs of the auto-commit from its initial state that reach what its laws leave possible. */
module AutoCommitRuns {
  import opened Js
  import opened AutoCommit

  function Start(g: GroupId, group: Group): State {
    State(0, map[g := group.(epoch := 0)], Queues(map[], map[]), Clock(map[], map[], map[]), Flights(map[], map[]), 1)
  }

  ghost predicate Reaches(s: State, steps: seq<Step>, t: State) {
    CanRun(s, steps) && After(s, steps) == t
  }

  lemma {:induction false} Then(s: State, steps: seq<Step>, t: State, step: Step)
    requires Reaches(s, steps, t) && Enabled(t, step)
    ensures Reaches(s, steps + [step], Next(t, step))
    decreases |steps|
  {
    hide Next, Enabled;
    if steps == [] {
      assert steps + [step] == [step] && [step][1..] == [];
      assert s == t && CanRun(Next(s, step), [step][1..]);
      assert CanRun(s, [step]);
      assert After(s, [step]) == After(Next(s, [step][0]), [step][1..]);
    } else {
      Then(Next(s, steps[0]), steps[1..], t, step);
      assert (steps + [step])[1..] == steps[1..] + [step];
    }
  }

  lemma {:induction false} UniqueOne(ps: seq<Pubkey>, p: Pubkey)
    requires ps != [] && forall q :: q in ps ==> q == p
    ensures Unique(ps) == [p]
  {
    var rest, last := ps[..|ps| - 1], ps[|ps| - 1];
    assert last in ps && forall q :: q in rest ==> q in ps;
    if rest != [] {
      UniqueOne(rest, p);
    }
  }

  lemma {:induction false} NoneRetained(es: seq<Entry>, ps: seq<Pubkey>)
    requires forall e :: e in es ==> e.pubkey in ps
    ensures Retained(es, ps) == []
  {
    if es != [] {
      assert es[|es| - 1] in es;
      NoneRetained(es[..|es| - 1], ps);
    }
  }

  lemma OneSplit(group: Group, p: Pubkey)
    ensures Departing(group, [p]) == if LeafIndexes(group, p) == {} then [] else [p]
    ensures Stale(group, [p]) == if LeafIndexes(group, p) == {} then [p] else []
  {
    hide LeafIndexes;
    assert [p][..0] == [];
  }

  /** A queue that names one pubkey only: the fetch finds it stale or makes it the one to depart. */
  lemma OnePubkey(group: Group, es: seq<Entry>, p: Pubkey)
    requires es != [] && forall e :: e in es ==> e.pubkey == p
    ensures Unique(PubkeysOf(es)) == [p] && Retained(es, [p]) == []
    ensures Departing(group, Unique(PubkeysOf(es))) == if LeafIndexes(group, p) == {} then [] else [p]
    ensures Stale(group, Unique(PubkeysOf(es))) == if LeafIndexes(group, p) == {} then [p] else []
  {
    hide LeafIndexes, Unique, Departing, Stale, Retained;
    forall q | q in PubkeysOf(es) ensures q == p {
      var i :| 0 <= i < |es| && PubkeysOf(es)[i] == q;
      assert es[i] in es;
    }
    UniqueOne(PubkeysOf(es), p);
    OneSplit(group, p);
    NoneRetained(es, [p]);
  }

  /** A fetch that finds everybody present starts its commit; one that finds nobody drops the stale. */
  lemma FetchResult(s: State, f: nat)
    requires Enabled(s, FetchSucceeds(f))
    ensures var g, c := s.flights.fetches[f].groupId, ProposalsFor(s.flights.fetches[f].groupId, GroupAt(s, f), QueuedAt(s, f));
            && c.departing == Departing(GroupAt(s, f), Unique(PubkeysOf(QueuedAt(s, f))))
            && (StaleAt(s, f) == [] && c.departing != [] ==>
                 Next(s, FetchSucceeds(f)) ==
                 s.(flights := Flights(s.flights.fetches - {f}, s.flights.commits[s.nextId := c]), nextId := s.nextId + 1))
            && (StaleAt(s, f) != [] && c.departing == [] ==>
                 Next(s, FetchSucceeds(f)) ==
                 s.(flights := Flights(s.flights.fetches - {f}, s.flights.commits), nextId := s.nextId + 1,
                    queues := Requeued(s.queues, g, Retained(Pending(s, g), StaleAt(s, f)), s.nextId)))
  {
    hide StaleAt, Requeued, Retained, QueuedAt, GroupAt, PendingIn;
  }

  lemma CommitResult(s: State, f: nat)
    requires Enabled(s, CommitSucceeds(f))
    ensures var c, g := s.flights.commits[f], s.groups[s.flights.commits[f].groupId];
            Next(s, CommitSucceeds(f)) ==
            s.(groups := s.groups[c.groupId := Group(s.nextId, g.leaves - c.removed, c.remainingAdmins)],
               flights := Flights(s.flights.fetches, s.flights.commits - {f}),
               queues := Requeued(s.queues, c.groupId, Retained(Pending(s, c.groupId), c.departing), s.nextId + 1),
               nextId := s.nextId + 2)
  {
    hide Requeued, Retained, PendingIn;
  }

  // ── The first timer fires ────────────────────────────────────────────────

  function FirstFire(g: GroupId, p: Pubkey): seq<Step> {
    [EnqueueLeave(g, p), Wait(5000), TimerFires(2)]
  }

  /** A timer has fired for one leave and waits for the group. */
  function Fired1(g: GroupId, group: Group, p: Pubkey): State {
    State(5000, map[g := group.(epoch := 0)], Queues(map[1 := List(g, [Entry(g, p, 0)])], map[g := 1]),
          Clock(map[], map[], map[g := 0]), Flights(map[3 := Fetch(g, 1)], map[]), 4)
  }

  lemma FirstFireReached(g: GroupId, group: Group, p: Pubkey)
    ensures Reaches(Start(g, group), FirstFire(g, p), Fired1(g, group, p))
  {
    var s0 := Start(g, group);
    var s1 := State(0, s0.groups, Queues(map[1 := List(g, [Entry(g, p, 0)])], map[g := 1]),
                    Clock(map[2 := Timer(g, 5000)], map[g := 2], map[g := 0]), Flights(map[], map[]), 3);
    assert PendingIn(s0.queues, g) + [Entry(g, p, 0)] == [Entry(g, p, 0)];
    assert Next(s0, EnqueueLeave(g, p)) == s1;
    assert Next(s1.(now := 5000), TimerFires(2)) == Fired1(g, group, p);
    assert Next(s1, Wait(5000)) == s1.(now := 5000);
    hide Next;
    Then(s0, [], s0, EnqueueLeave(g, p));
    assert [] + [EnqueueLeave(g, p)] == [EnqueueLeave(g, p)];
    Then(s0, [EnqueueLeave(g, p)], s1, Wait(5000));
    assert [EnqueueLeave(g, p)] + [Wait(5000)] == [EnqueueLeave(g, p), Wait(5000)];
    Then(s0, [EnqueueLeave(g, p), Wait(5000)], s1.(now := 5000), TimerFires(2));
    assert [EnqueueLeave(g, p), Wait(5000)] + [TimerFires(2)] == FirstFire(g, p);
  }

  // ── A later leave is in the commit ───────────────────────────────────────

  /** The snapshot is not one: from the initial state, a leave enqueued after the timer fired reaches its commit. */
  lemma LaterLeaveIsCommitted(g: GroupId, group: Group, p: Pubkey, q: Pubkey) returns (t: State)
    requires LeafIndexes(group, q) != {}
    ensures Initial(Start(g, group)) && Reaches(Start(g, group), FirstFire(g, p) + [EnqueueLeave(g, q)], t)
    ensures Enabled(t, FetchSucceeds(3)) && QueuedAt(t, 3) == [Entry(g, p, 0), Entry(g, q, 5000)]
    ensures q in ProposalsFor(g, GroupAt(t, 3), QueuedAt(t, 3)).departing
  {
    var fired := Fired1(g, group, p);
    FirstFireReached(g, group, p);
    Then(Start(g, group), FirstFire(g, p), fired, EnqueueLeave(g, q));
    t := Next(fired, EnqueueLeave(g, q));
    var queued := [Entry(g, p, 0)] + [Entry(g, q, 5000)];
    assert t.queues.lists[1].entries == queued == [Entry(g, p, 0), Entry(g, q, 5000)];
    assert PubkeysOf(queued)[1] == q;
    assert LeafIndexes(GroupAt(t, 3), q) == LeafIndexes(group, q);
    DepartingIff(GroupAt(t, 3), queued, q);
  }

  // ── A queued admin without a leaf stays an admin ─────────────────────────

  /** The stale leave dropped, and nothing else done. */
  function Dropped(g: GroupId, group: Group, p: Pubkey): State {
    var s := Fired1(g, group, p);
    s.(queues := Queues(s.queues.lists, map[]), flights := Flights(map[], map[]), nextId := 5)
  }

  lemma StaleFetch(g: GroupId, group: Group, p: Pubkey)
    requires LeafIndexes(group, p) == {}
    ensures var s := Fired1(g, group, p);
            && Enabled(s, FetchSucceeds(3)) && Pending(s, g) == [Entry(g, p, 0)]
            && Next(s, FetchSucceeds(3)) == Dropped(g, group, p)
  {
    var s, base, es := Fired1(g, group, p), group.(epoch := 0), [Entry(g, p, 0)];
    assert LeafIndexes(base, p) == LeafIndexes(group, p);
    OnePubkey(base, es, p);
    hide LeafIndexes, Unique, PubkeysOf, Departing, Stale, Retained;
    assert QueuedAt(s, 3) == es && GroupAt(s, 3) == base && StaleAt(s, 3) == [p] && Pending(s, g) == es;
    FetchResult(s, 3);
    hide ProposalsFor, StaleAt, Next, GroupAt, QueuedAt, Pending;
    assert s.queues.queue - {g} == map[] && s.flights.fetches - {3} == map[];
  }

  /** From the initial state: an admin whose leaf has gone is dropped from the queue and stays an admin. */
  lemma StaleAdminStays(g: GroupId, group: Group, p: Pubkey)
    requires p in group.admins && LeafIndexes(group, p) == {}
    ensures Initial(Start(g, group))
    ensures Reaches(Start(g, group), FirstFire(g, p), Fired1(g, group, p)) && Entry(g, p, 0) in Pending(Fired1(g, group, p), g)
    ensures Reaches(Start(g, group), FirstFire(g, p) + [FetchSucceeds(3)], Dropped(g, group, p))
    ensures var t := Dropped(g, group, p);
            Pending(t, g) == [] && t.flights == Flights(map[], map[]) && g in t.groups && p in t.groups[g].admins
  {
    FirstFireReached(g, group, p);
    StaleFetch(g, group, p);
    hide Next, Reaches;
    Then(Start(g, group), FirstFire(g, p), Fired1(g, group, p), FetchSucceeds(3));
  }

  // ── A rejoined member is removed ─────────────────────────────────────────

  /** The second timer's fire: both timers hold the one array. */
  function Fired2(g: GroupId, group: Group, p: Pubkey): State {
    State(10000, map[g := group.(epoch := 0)], Queues(map[1 := List(g, Twice(g, p))], map[g := 1]),
          Clock(map[], map[], map[g := 5000]), Flights(map[3 := Fetch(g, 1), 6 := Fetch(g, 1)], map[]), 7)
  }

  function Twice(g: GroupId, p: Pubkey): seq<Entry> {
    [Entry(g, p, 0), Entry(g, p, 5000)]
  }

  function SecondFire(g: GroupId, p: Pubkey): seq<Step> {
    [EnqueueLeave(g, p), Wait(5000), TimerFires(5)]
  }

  lemma SecondFireReached(g: GroupId, group: Group, p: Pubkey)
    ensures Reaches(Fired1(g, group, p), SecondFire(g, p), Fired2(g, group, p))
  {
    var s0 := Fired1(g, group, p);
    assert [Entry(g, p, 0)] + [Entry(g, p, 5000)] == Twice(g, p);
    var s1 := State(5000, s0.groups, Queues(map[1 := List(g, Twice(g, p))], map[g := 1]),
                    Clock(map[5 := Timer(g, 10000)], map[g := 5], map[g := 5000]), s0.flights, 6);
    assert Next(s0, EnqueueLeave(g, p)) == s1;
    assert Next(s1.(now := 10000), TimerFires(5)) == Fired2(g, group, p);
    assert Next(s1, Wait(5000)) == s1.(now := 10000);
    hide Next;
    Then(s0, [], s0, EnqueueLeave(g, p));
    assert [] + [EnqueueLeave(g, p)] == [EnqueueLeave(g, p)];
    Then(s0, [EnqueueLeave(g, p)], s1, Wait(5000));
    assert [EnqueueLeave(g, p)] + [Wait(5000)] == [EnqueueLeave(g, p), Wait(5000)];
    Then(s0, [EnqueueLeave(g, p), Wait(5000)], s1.(now := 10000), TimerFires(5));
    assert [EnqueueLeave(g, p), Wait(5000)] + [TimerFires(5)] == SecondFire(g, p);
  }

  /** The first timer's commit in flight. */
  function InFlight(g: GroupId, group: Group, p: Pubkey): State {
    var base := group.(epoch := 0);
    Fired2(g, group, p).(flights := Flights(map[6 := Fetch(g, 1)], map[7 := ProposalsFor(g, base, Twice(g, p))]), nextId := 8)
  }

  /** The first commit applied: nothing is queued, and the second timer still holds the old array. */
  function Applied(g: GroupId, group: Group, p: Pubkey): State {
    var c := ProposalsFor(g, group.(epoch := 0), Twice(g, p));
    InFlight(g, group, p).(groups := map[g := Group(8, group.leaves - c.removed, c.remainingAdmins)],
                           queues := Queues(map[1 := List(g, Twice(g, p))], map[]),
                           flights := Flights(map[6 := Fetch(g, 1)], map[]), nextId := 10)
  }

  function Rejoined(g: GroupId, group: Group, p: Pubkey, changed: Group): State {
    Applied(g, group, p).(groups := map[g := changed.(epoch := 10)], nextId := 11)
  }

  /** A fetch for a queue that names one present pubkey starts the commit that removes it. */
  lemma FetchStarts(s: State, f: nat, es: seq<Entry>, p: Pubkey)
    requires Enabled(s, FetchSucceeds(f)) && QueuedAt(s, f) == es && LeafIndexes(GroupAt(s, f), p) != {}
    requires es != [] && forall e :: e in es ==> e.pubkey == p
    ensures var c := ProposalsFor(s.flights.fetches[f].groupId, GroupAt(s, f), es);
            && c.departing == [p]
            && Next(s, FetchSucceeds(f)) ==
               s.(flights := Flights(s.flights.fetches - {f}, s.flights.commits[s.nextId := c]), nextId := s.nextId + 1)
  {
    OnePubkey(GroupAt(s, f), es, p);
    hide LeafIndexes, Unique, PubkeysOf, Departing, Stale, Retained, Enabled, QueuedAt, GroupAt;
    assert StaleAt(s, f) == [];
    FetchResult(s, f);
    hide Next, ProposalsFor, StaleAt;
  }

  lemma FirstFetch(g: GroupId, group: Group, p: Pubkey)
    requires LeafIndexes(group, p) != {}
    ensures Enabled(Fired2(g, group, p), FetchSucceeds(3)) && Next(Fired2(g, group, p), FetchSucceeds(3)) == InFlight(g, group, p)
    ensures ProposalsFor(g, group.(epoch := 0), Twice(g, p)).departing == [p]
  {
    var s, base := Fired2(g, group, p), group.(epoch := 0);
    assert LeafIndexes(base, p) == LeafIndexes(group, p);
    assert QueuedAt(s, 3) == Twice(g, p) && GroupAt(s, 3) == base;
    FetchStarts(s, 3, Twice(g, p), p);
    hide ProposalsFor, QueuedAt, Next, GroupAt, LeafIndexes;
    assert s.flights.fetches - {3} == map[6 := Fetch(g, 1)];
    assert s.flights.commits[7 := ProposalsFor(g, base, Twice(g, p))] == map[7 := ProposalsFor(g, base, Twice(g, p))];
  }

  lemma FirstCommit(g: GroupId, group: Group, p: Pubkey)
    requires LeafIndexes(group, p) != {}
    ensures Enabled(InFlight(g, group, p), CommitSucceeds(7)) && Next(InFlight(g, group, p), CommitSucceeds(7)) == Applied(g, group, p)
  {
    FirstFetch(g, group, p);
    OnePubkey(group.(epoch := 0), Twice(g, p), p);
    ProposalsCarry(g, group.(epoch := 0), Twice(g, p));
    var s, c := InFlight(g, group, p), ProposalsFor(g, group.(epoch := 0), Twice(g, p));
    assert c.base == group.(epoch := 0);
    hide LeafIndexes, Unique, PubkeysOf, Departing, Stale, Retained, ProposalsFor;
    CommitResult(s, 7);
    assert Pending(s, g) == Twice(g, p);
    hide Next;
    assert s.flights.commits - {7} == map[];
    assert s.queues.queue - {g} == map[];
    assert s.groups[g := Group(8, group.leaves - c.removed, c.remainingAdmins)] == map[g := Group(8, group.leaves - c.removed, c.remainingAdmins)];
  }

  function RejoinSteps(g: GroupId, p: Pubkey, changed: Group): seq<Step> {
    FirstFire(g, p) + SecondFire(g, p) + [FetchSucceeds(3)] + [CommitSucceeds(7)] + [ExternalChange(g, Some(changed))]
  }

  lemma {:induction false} Onward(s: State, a: seq<Step>, t: State, b: seq<Step>, u: State)
    requires Reaches(s, a, t) && Reaches(t, b, u)
    ensures Reaches(s, a + b, u)
    decreases |a|
  {
    hide Next, Enabled;
    if a == [] {
      assert a + b == b;
    } else {
      Onward(Next(s, a[0]), a[1..], t, b, u);
      assert (a + b)[1..] == a[1..] + b;
    }
  }

  lemma RejoinStep(g: GroupId, group: Group, p: Pubkey, changed: Group)
    ensures Enabled(Applied(g, group, p), ExternalChange(g, Some(changed)))
    ensures Next(Applied(g, group, p), ExternalChange(g, Some(changed))) == Rejoined(g, group, p, changed)
  {
    hide ProposalsFor;
  }

  lemma RejoinReached(g: GroupId, group: Group, p: Pubkey, changed: Group)
    requires LeafIndexes(group, p) != {}
    ensures Reaches(Start(g, group), RejoinSteps(g, p, changed), Rejoined(g, group, p, changed))
  {
    FirstFireReached(g, group, p);
    SecondFireReached(g, group, p);
    FirstFetch(g, group, p);
    FirstCommit(g, group, p);
    RejoinStep(g, group, p, changed);
    hide Next, Enabled, Reaches, Fired1, Fired2, InFlight, Applied, Rejoined, Start;
    var s := Start(g, group);
    Onward(s, FirstFire(g, p), Fired1(g, group, p), SecondFire(g, p), Fired2(g, group, p));
    Then(s, FirstFire(g, p) + SecondFire(g, p), Fired2(g, group, p), FetchSucceeds(3));
    Then(s, FirstFire(g, p) + SecondFire(g, p) + [FetchSucceeds(3)], InFlight(g, group, p), CommitSucceeds(7));
    Then(s, FirstFire(g, p) + SecondFire(g, p) + [FetchSucceeds(3)] + [CommitSucceeds(7)], Applied(g, group, p),
         ExternalChange(g, Some(changed)));
  }

  lemma SecondFetch(g: GroupId, group: Group, p: Pubkey, changed: Group) returns (t: State)
    requires LeafIndexes(changed, p) != {}
    ensures var s, base := Rejoined(g, group, p, changed), changed.(epoch := 10);
            && Enabled(s, FetchSucceeds(6)) && t == Next(s, FetchSucceeds(6))
            && !Live(s, 6) && QueuedAt(s, 6) == Twice(g, p) && GroupAt(s, 6) == base
            && ProposalsFor(g, base, Twice(g, p)).departing == [p]
            && t.queues == s.queues && t.groups == map[g := base]
            && t.flights.commits == map[11 := ProposalsFor(g, base, Twice(g, p))]
  {
    var s, base := Rejoined(g, group, p, changed), changed.(epoch := 10);
    assert LeafIndexes(base, p) == LeafIndexes(changed, p);
    assert QueuedAt(s, 6) == Twice(g, p) && GroupAt(s, 6) == base;
    FetchStarts(s, 6, Twice(g, p), p);
    t := Next(s, FetchSucceeds(6));
    hide ProposalsFor, QueuedAt, Next, GroupAt, LeafIndexes;
    assert s.flights.commits[11 := ProposalsFor(g, base, Twice(g, p))] == map[11 := ProposalsFor(g, base, Twice(g, p))];
  }

  /** Why the committed pubkeys need not be queued: two timers fire for one array, the first commits it, the
      member rejoins, and the second removes it again although nothing is queued. */
  lemma RejoinedIsRemovedAgain(g: GroupId, group: Group, p: Pubkey, changed: Group) returns (t: State)
    requires LeafIndexes(group, p) != {} && LeafIndexes(changed, p) != {}
    ensures Initial(Start(g, group)) && Reaches(Start(g, group), RejoinSteps(g, p, changed) + [FetchSucceeds(6)], t)
    ensures Pending(t, g) == [] && Enabled(t, CommitSucceeds(11))
    ensures g in t.groups && LeafIndexes(t.groups[g], p) != {} && LeafIndexes(CommittedGroup(t, 11), p) == {}
    ensures Enabled(Rejoined(g, group, p, changed), FetchSucceeds(6)) && !Live(Rejoined(g, group, p, changed), 6)
    ensures !CommitsPending(Rejoined(g, group, p, changed), 6)
  {
    var s, base := Rejoined(g, group, p, changed), changed.(epoch := 10);
    RejoinReached(g, group, p, changed);
    t := SecondFetch(g, group, p, changed);
    Then(Start(g, group), RejoinSteps(g, p, changed), s, FetchSucceeds(6));
    ProposalsCarry(g, base, Twice(g, p));
    LeavesGone(t, g, base, p);
    NothingQueued(s, g, base, p);
  }

  lemma LeavesGone(t: State, g: GroupId, base: Group, p: Pubkey)
    requires t.groups == map[g := base] && t.flights.commits == map[11 := ProposalsFor(g, base, Twice(g, p))]
    requires ProposalsFor(g, base, Twice(g, p)).departing == [p]
    ensures Enabled(t, CommitSucceeds(11)) && LeafIndexes(CommittedGroup(t, 11), p) == {}
  {
    var c := ProposalsFor(g, base, Twice(g, p));
    assert c.base == base && c.groupId == g && c.removed == LeavesOf(base, [p]);
    hide ProposalsFor, Departing, Unique, PubkeysOf, Without;
    assert forall i :: i in base.leaves && base.leaves[i] == p ==> i in c.removed;
  }

  lemma NothingQueued(s: State, g: GroupId, base: Group, p: Pubkey)
    requires Enabled(s, FetchSucceeds(6)) && s.flights.fetches[6].groupId == g && s.queues.queue == map[]
    requires GroupAt(s, 6) == base && QueuedAt(s, 6) == Twice(g, p) && ProposalsFor(g, base, Twice(g, p)).departing == [p]
    ensures Pending(s, g) == [] && !CommitsPending(s, 6)
  {
    hide ProposalsFor, LeafIndexes, QueuedAt, GroupAt;
    assert p in ProposalsFor(g, base, Twice(g, p)).departing;
    assert PubkeysOf(Pending(s, g)) == [];
  }
}
