/** The stranger purges against the ever-known peers: migration, maintenance and purge effects over one
    device, with crashes at any point and the asynchronous purges deciding before they delete. */
module PurgeSafety {
  import opened Js
  import opened WalledGarden
  import opened KnownPeers

  /** The stores keyed by peer. The first three are purged synchronously, the others across an await. */
  datatype Kind = Counters | Contacts | ContactCache | Threads | Reactions {
    predicate Async() { Threads? || Reactions? }
  }

  datatype Entry = Entry(kind: Kind, peer: JsString)

  /** How the deleting half of an asynchronous purge ends: it may fail, and a sweep of threads that was too
      slow throws after it has deleted. */
  datatype PurgeEnd = Deleted | Failed | ThrewAfter

  /** A purge of one store that has read the whitelist and not deleted yet. */
  datatype Doom = Doom(kind: Kind, victims: set<Entry>, pass: Option<nat>)

  /** A running migration: the key it was started under, and which purges have returned to it. */
  datatype Migration = Migration(own: JsString, returned: set<Kind>)

  /** `known`, `migrated` and `entries` are on disk. `groups` is loaded from disk before the effects run.
      `own`, empty until the user's key is known, `dooms` and `passes` live in memory. */
  datatype Device = Device(own: JsString, groups: seq<Group>, known: set<JsString>, migrated: bool,
                           entries: set<Entry>, dooms: seq<Doom>, passes: seq<Migration>)

  /** A purge judges by the key its effect captured: a migration's (`pass`), else `own`. */
  datatype Event =
    | SetGroups(groups: seq<Group>)
    | SetOwn(own: JsString)
    | AddEntry(entry: Entry)
    | Meet(peer: JsString)
    | Maintain
    | MigrateSeed
    | PurgeNow(kind: Kind, pass: Option<nat>, own: JsString, saved: bool)
    | Judge(kind: Kind, pass: Option<nat>, own: JsString)
    | Delete(doom: nat, end: PurgeEnd)
    | MigrateDone(finished: nat)
    | Crash

  const AllKinds: set<Kind> := {Counters, Contacts, ContactCache, Threads, Reactions}

  lemma EveryKind(kind: Kind)
    ensures kind in AllKinds
  {
    match kind
    case Counters =>
    case Contacts =>
    case ContactCache =>
    case Threads =>
    case Reactions =>
  }

  ghost function Strangers(d: Device, kind: Kind, own: JsString): set<Entry> {
    set e | e in d.entries && e.kind == kind && !Allowed(e.peer, d.groups, d.known, own)
  }

  predicate Running(d: Device, pass: Option<nat>) {
    pass.Some? && pass.value < |d.passes|
  }

  function Whose(d: Device, pass: Option<nat>, own: JsString): JsString {
    if Running(d, pass) then d.passes[pass.value].own else own
  }

  function Marked(d: Device, pass: Option<nat>, kind: Kind): seq<Migration> {
    if Running(d, pass)
    then d.passes[pass.value := d.passes[pass.value].(returned := d.passes[pass.value].returned + {kind})]
    else d.passes
  }

  ghost function Step(d: Device, e: Event): Device {
    match e
    case SetGroups(groups) => d.(groups := groups)
    case SetOwn(own) => d.(own := own)
    case AddEntry(entry) => d.(entries := d.entries + {entry})
    case Meet(peer) => d.(known := d.known + LowerKeys([peer]))
    case Maintain => if d.own == [] then d else d.(known := d.known + OtherMembers(d.groups, d.own))
    case MigrateSeed =>
      if d.own == [] || d.migrated then d
      else d.(known := d.known + OtherMembers(d.groups, d.own), passes := d.passes + [Migration(d.own, {})])
    case PurgeNow(kind, pass, own, saved) =>
      // a write that fails is swallowed, and the pass goes on
      if kind.Async() then d
      else d.(entries := if saved then d.entries - Strangers(d, kind, Whose(d, pass, own)) else d.entries,
              passes := Marked(d, pass, kind))
    case Judge(kind, pass, own) =>
      if !kind.Async() then d
      else d.(dooms := d.dooms + [Doom(kind, Strangers(d, kind, Whose(d, pass, own)), if Running(d, pass) then pass else None)])
    case Delete(i, end) =>
      // a failure of any kind is thrown, and the pass does not go on
      if i >= |d.dooms| then d
      else d.(entries := if end.Failed? then d.entries else d.entries - d.dooms[i].victims,
              dooms := d.dooms[..i] + d.dooms[i + 1..],
              passes := if end.Deleted? then Marked(d, d.dooms[i].pass, d.dooms[i].kind) else d.passes)
    case MigrateDone(finished) =>
      if finished < |d.passes| && d.passes[finished].returned == AllKinds then d.(migrated := true) else d
    case Crash => d.(own := [], dooms := [], passes := [])
  }

  /** A crash loses what is in memory and keeps what is on disk. */
  lemma CrashEffect(d: Device)
    ensures Step(d, Crash) == Device([], d.groups, d.known, d.migrated, d.entries, [], [])
  {
  }

  ghost function Run(d: Device, es: seq<Event>): Device
    decreases |es|
  {
    if es == [] then d else Step(Run(d, es[..|es| - 1]), es[|es| - 1])
  }

  // ── A remembered peer is never purged ────────────────────────────────────

  /** Both passes remember every member but oneself, in whatever spelling. */
  lemma PassRemembers(d: Device, e: Event, peer: JsString)
    requires e.Maintain? || (e.MigrateSeed? && !d.migrated)
    requires d.own != [] && peer != [] && !IsOwn(peer, d.own) && InSomeGroup(d.groups, Lower(peer))
    ensures Lower(peer) in Step(d, e).known
  {
    MembersAreCollected(peer, d.groups, d.own);
  }

  /** Nothing in flight is about to delete the entry. */
  ghost predicate Undoomed(d: Device, entry: Entry) {
    forall i :: 0 <= i < |d.dooms| ==> entry !in d.dooms[i].victims
  }

  /** No migration still running was started under the peer's own key. */
  ghost predicate NotMigratingFor(d: Device, peer: JsString) {
    forall r :: 0 <= r < |d.passes| ==> !IsOwn(peer, d.passes[r].own)
  }

  ghost predicate Safe(d: Device, entry: Entry) {
    && entry in d.entries
    && entry.peer != [] && Lower(entry.peer) in d.known && !IsOwn(entry.peer, d.own)
    && Undoomed(d, entry) && NotMigratingFor(d, entry.peer)
  }

  /** The only thing asked of later events: the identity does not become the peer's. */
  ghost predicate NotAs(e: Event, peer: JsString) {
    e.SetOwn? || e.PurgeNow? || e.Judge? ==> !IsOwn(peer, e.own)
  }

  ghost predicate NeverOwn(es: seq<Event>, peer: JsString) {
    forall i :: 0 <= i < |es| ==> NotAs(es[i], peer)
  }

  lemma SafeStep(d: Device, e: Event, entry: Entry)
    requires Safe(d, entry) && NotAs(e, entry.peer)
    ensures Safe(Step(d, e), entry)
  {
    assert e.PurgeNow? || e.Judge? ==> !IsOwn(entry.peer, Whose(d, e.pass, e.own));
    hide IsOwn;
  }

  lemma {:induction false} SafeRun(d: Device, es: seq<Event>, entry: Entry)
    requires Safe(d, entry) && NeverOwn(es, entry.peer)
    ensures Safe(Run(d, es), entry)
    decreases |es|
  {
    if es != [] {
      SafeRun(d, es[..|es| - 1], entry);
      SafeStep(Run(d, es[..|es| - 1]), es[|es| - 1], entry);
    }
  }

  ghost predicate SurvivesAll(d: Device, entry: Entry) {
    forall es: seq<Event> :: NeverOwn(es, entry.peer) ==> entry in Run(d, es).entries
  }

  /** Exactly when a known peer's entry survives everything that can follow, leaving every group, crashes
      and reboots included: when no purge that judged earlier is still about to delete it, and no migration
      is still running under that very peer's key. */
  lemma SurvivesIff(d: Device, entry: Entry)
    requires entry in d.entries && entry.peer != [] && Lower(entry.peer) in d.known && !IsOwn(entry.peer, d.own)
    ensures SurvivesAll(d, entry) <==> Undoomed(d, entry) && NotMigratingFor(d, entry.peer)
  {
    if Undoomed(d, entry) && NotMigratingFor(d, entry.peer) {
      forall es: seq<Event> | NeverOwn(es, entry.peer) ensures entry in Run(d, es).entries {
        SafeRun(d, es, entry);
      }
    } else if !Undoomed(d, entry) {
      var i :| 0 <= i < |d.dooms| && entry in d.dooms[i].victims;
      DeletedBy(d, i, entry);
    } else {
      var r :| 0 <= r < |d.passes| && IsOwn(entry.peer, d.passes[r].own);
      PurgedBy(d, r, entry);
    }
  }

  lemma RunOne(d: Device, e: Event)
    ensures Run(d, [e]) == Step(d, e)
  {
    assert [e][..0] == [];
  }

  lemma RunTwo(d: Device, e1: Event, e2: Event)
    ensures Run(d, [e1, e2]) == Step(Step(d, e1), e2)
  {
    RunOne(d, e1);
    hide Step;
    assert [e1, e2][..1] == [e1];
  }

  lemma DeletedBy(d: Device, i: nat, entry: Entry)
    requires i < |d.dooms| && entry in d.dooms[i].victims
    ensures !SurvivesAll(d, entry)
  {
    var es := [Delete(i, Deleted)];
    RunOne(d, es[0]);
    assert NeverOwn(es, entry.peer) && entry !in Run(d, es).entries;
  }

  lemma PurgedBy(d: Device, r: nat, entry: Entry)
    requires entry in d.entries && r < |d.passes| && IsOwn(entry.peer, d.passes[r].own)
    ensures !SurvivesAll(d, entry)
  {
    var pass := Some(r);
    var judged := Step(d, Judge(entry.kind, pass, []));
    var es := if entry.kind.Async() then [Judge(entry.kind, pass, []), Delete(|d.dooms|, Deleted)]
              else [PurgeNow(entry.kind, pass, [], true)];
    RunOne(d, PurgeNow(entry.kind, pass, [], true));
    RunTwo(d, Judge(entry.kind, pass, []), Delete(|d.dooms|, Deleted));
    assert NeverOwn(es, entry.peer);
    assert entry !in Run(d, es).entries;
  }

  /** The exception is reachable from a device with no purge in flight: a purge reads the whitelist, the peer is
      met, and the purge deletes the entries of a peer that is known by then. */
  lemma MetTooLate(d: Device, entry: Entry, own: JsString)
    requires d.dooms == [] && entry in d.entries && entry.kind in {Threads, Reactions}
    requires entry.peer != [] && !IsOwn(entry.peer, d.own) && !Allowed(entry.peer, d.groups, d.known, own)
    ensures var after := Run(d, [Judge(entry.kind, None, own), Meet(entry.peer), Delete(0, Deleted)]);
            && Allowed(entry.peer, after.groups, after.known, after.own)
            && Lower(entry.peer) in after.known && entry !in after.entries
  {
    var es := [Judge(entry.kind, None, own), Meet(entry.peer), Delete(0, Deleted)];
    assert es[..2] == [es[0], es[1]] && es[2] == Delete(0, Deleted);
    var doom := Doom(entry.kind, Strangers(d, entry.kind, own), None);
    assert entry in doom.victims;
    hide Allowed, Strangers, LowerKeys;
    RunTwo(d, es[0], es[1]);
    var met := Run(d, es[..2]);
    assert met == d.(known := d.known + LowerKeys([entry.peer]), dooms := [doom]);
    MetIsKnown(d, entry.peer);
    DeletesFirst(met, doom);
    assert Run(d, es) == Step(met, es[2]);
  }

  lemma MetIsKnown(d: Device, peer: JsString)
    requires peer != [] && !IsOwn(peer, d.own)
    ensures var known := d.known + LowerKeys([peer]);
            Lower(peer) in known && Allowed(peer, d.groups, known, d.own)
  {
    assert peer in [peer];
  }

  lemma DeletesFirst(d: Device, doom: Doom)
    requires d.dooms == [doom]
    ensures var after := Step(d, Delete(0, Deleted));
            after.entries == d.entries - doom.victims && after.known == d.known && after.groups == d.groups && after.own == d.own
  {
    hide Marked;
  }

  /** Only the asynchronous stores ever have a purge in flight. */
  ghost predicate DoomsAreAsync(d: Device) {
    forall i :: 0 <= i < |d.dooms| ==>
      d.dooms[i].kind.Async() && forall e :: e in d.dooms[i].victims ==> e.kind == d.dooms[i].kind
  }

  lemma {:induction false} DoomsStayAsync(d: Device, es: seq<Event>)
    requires DoomsAreAsync(d)
    ensures DoomsAreAsync(Run(d, es))
    decreases |es|
  {
    if es != [] {
      DoomsStayAsync(d, es[..|es| - 1]);
    }
  }

  /** Once a peer other than oneself has been a group member in a maintenance or migration pass, no later
      purge deletes its contact, counters or cached card. */
  lemma MemberContactsAreNeverPurged(d: Device, before: seq<Event>, pass: Event, after: seq<Event>, entry: Entry)
    requires DoomsAreAsync(d)
    requires var at := Run(d, before);
             && (pass.Maintain? || (pass.MigrateSeed? && !at.migrated))
             && at.own != [] && !IsOwn(entry.peer, at.own) && InSomeGroup(at.groups, Lower(entry.peer))
             && entry in at.entries && entry.peer != [] && entry.kind in {Counters, Contacts, ContactCache}
             && NotMigratingFor(at, entry.peer)
    requires NeverOwn(after, entry.peer)
    ensures entry in Run(Step(Run(d, before), pass), after).entries
  {
    var at := Run(d, before);
    DoomsStayAsync(d, before);
    PassRemembers(at, pass, entry.peer);
    assert Safe(Step(at, pass), entry);
    SafeRun(Step(at, pass), after, entry);
  }

  // ── The migration flag ───────────────────────────────────────────────────

  /** Every entry of the store passes the gate of the key. */
  ghost predicate Clean(d: Device, kind: Kind, key: JsString) {
    forall e | e in d.entries && e.kind == kind :: Allowed(e.peer, d.groups, d.known, key)
  }

  /** Deleting the judged entries leaves the store clean. */
  ghost predicate Covers(d: Device, doom: Doom, key: JsString) {
    forall e | e in d.entries && e.kind == doom.kind :: e in doom.victims || Allowed(e.peer, d.groups, d.known, key)
  }

  /** The user's key, or none known yet. */
  ghost predicate Mine(own: JsString, key: JsString) {
    own == [] || own == key
  }

  ghost predicate OneIdentity(d: Device, key: JsString) {
    Mine(d.own, key) && forall r :: 0 <= r < |d.passes| ==> d.passes[r].own == key
  }

  /** What a pass can rely on: an asynchronous purge that returned to it has left its store clean. */
  ghost predicate Progress(d: Device, key: JsString) {
    && OneIdentity(d, key)
    && (forall r, k :: 0 <= r < |d.passes| && k in d.passes[r].returned && k.Async() ==> Clean(d, k, key))
    && (forall i :: 0 <= i < |d.dooms| && d.dooms[i].pass.Some? ==>
          d.dooms[i].pass.value < |d.passes| && Covers(d, d.dooms[i], key))
    && (d.migrated ==> forall k: Kind :: k.Async() ==> Clean(d, k, key))
  }

  /** Nothing undoes a purge: the user stays the same, whose key is unknown at times, only senders who pass its
      gate gain entries, and whoever leaves the groups has been remembered first. */
  ghost predicate Gentle(d: Device, e: Event, key: JsString) {
    match e
    case SetGroups(_) => OtherMembers(d.groups, key) <= d.known
    case SetOwn(own) => Mine(own, key)
    case AddEntry(entry) => Allowed(entry.peer, d.groups, d.known, key)
    case PurgeNow(_, _, own, _) => Mine(own, key)
    case Judge(_, _, own) => Mine(own, key)
    case _ => true
  }

  ghost predicate GentleRun(d: Device, es: seq<Event>, key: JsString)
    decreases |es|
  {
    es == [] || (GentleRun(d, es[..|es| - 1], key) && Gentle(Run(d, es[..|es| - 1]), es[|es| - 1], key))
  }

  lemma AllowedStays(d: Device, e: Event, peer: JsString, key: JsString)
    requires key != [] && Gentle(d, e, key) && Allowed(peer, d.groups, d.known, key)
    ensures Allowed(peer, Step(d, e).groups, Step(d, e).known, key)
  {
    KnownPeersOnlyAdmit(peer, d.groups, d.known, Step(d, e).known, key);
    if e.SetGroups? {
      if InSomeGroup(d.groups, Lower(peer)) { MembersAreCollected(peer, d.groups, key); }
    }
  }

  lemma IdentityStays(d: Device, e: Event, key: JsString)
    requires key != [] && OneIdentity(d, key) && Gentle(d, e, key)
    ensures OneIdentity(Step(d, e), key)
  {
    hide Allowed, OtherMembers, LowerKeys;
  }

  /** A purge, in one step or two, leaves its store clean if it is a migration's. */
  lemma PurgeProgress(d: Device, e: Event, key: JsString)
    requires key != [] && Progress(d, key) && Gentle(d, e, key) && Purges(e)
    ensures Progress(Step(d, e), key)
  {
    hide Allowed;
    IdentityStays(d, e, key);
    var after := Step(d, e);
    assert forall k :: Clean(d, k, key) ==> Clean(after, k, key);
    assert |after.passes| == |d.passes|;
    match e
    case PurgeNow(_, _, _, _) => assert after.dooms == d.dooms;
    case Judge(kind, pass, _) => if Running(d, pass) { assert Whose(d, pass, e.own) == key; }
    case Delete(i, end) => if i < |d.dooms| { DeletedProgress(d, i, end, key); }
  }

  lemma DeletedProgress(d: Device, i: nat, end: PurgeEnd, key: JsString)
    requires key != [] && Progress(d, key) && i < |d.dooms|
    ensures Progress(Step(d, Delete(i, end)), key)
  {
    hide Allowed;
    var after := Step(d, Delete(i, end));
    IdentityStays(d, Delete(i, end), key);
    assert forall k :: Clean(d, k, key) ==> Clean(after, k, key);
    if end.Deleted? && d.dooms[i].pass.Some? {
      assert Covers(d, d.dooms[i], key);
      assert Clean(after, d.dooms[i].kind, key);
    }
    forall j | 0 <= j < |after.dooms| && after.dooms[j].pass.Some? ensures Covers(after, after.dooms[j], key) {
      assert Covers(d, if j < i then d.dooms[j] else d.dooms[j + 1], key);
    }
  }

  ghost predicate Purges(e: Event) {
    e.PurgeNow? || e.Delete? || e.Judge?
  }

  lemma CleanStays(d: Device, e: Event, kind: Kind, key: JsString)
    requires key != [] && Gentle(d, e, key) && !Purges(e) && Clean(d, kind, key)
    ensures Clean(Step(d, e), kind, key)
  {
    forall x | x in Step(d, e).entries && x.kind == kind
      ensures Allowed(x.peer, Step(d, e).groups, Step(d, e).known, key)
    {
      AllowedStays(d, e, x.peer, key);
    }
  }

  lemma DoomsStay(d: Device, e: Event, doom: Doom, key: JsString)
    requires key != [] && Gentle(d, e, key) && !Purges(e) && Covers(d, doom, key)
    ensures Covers(Step(d, e), doom, key)
  {
    forall x | x in Step(d, e).entries && x.kind == doom.kind && x !in doom.victims
      ensures Allowed(x.peer, Step(d, e).groups, Step(d, e).known, key)
    {
      AllowedStays(d, e, x.peer, key);
    }
  }

  lemma ProgressStep(d: Device, e: Event, key: JsString)
    requires key != [] && Progress(d, key) && Gentle(d, e, key)
    ensures Progress(Step(d, e), key)
  {
    if Purges(e) {
      PurgeProgress(d, e, key);
    } else {
      var after := Step(d, e);
      IdentityStays(d, e, key);
      hide Clean, Covers;
      forall r, k | 0 <= r < |after.passes| && k in after.passes[r].returned && k.Async() ensures Clean(after, k, key) {
        assert k in d.passes[r].returned;
        CleanStays(d, e, k, key);
      }
      forall i | 0 <= i < |after.dooms| && after.dooms[i].pass.Some? ensures Covers(after, after.dooms[i], key) {
        DoomsStay(d, e, d.dooms[i], key);
      }
      if after.migrated {
        forall k: Kind | k.Async() ensures Clean(after, k, key) {
          EveryKind(k);
          assert d.migrated || k in d.passes[e.finished].returned;
          CleanStays(d, e, k, key);
        }
      }
    }
  }

  lemma {:induction false} ProgressRun(d: Device, es: seq<Event>, key: JsString)
    requires key != [] && Progress(d, key) && GentleRun(d, es, key)
    ensures Progress(Run(d, es), key)
    decreases |es|
  {
    hide Step, Progress, Gentle;
    if es != [] {
      ProgressRun(d, es[..|es| - 1], key);
      ProgressStep(Run(d, es[..|es| - 1]), es[|es| - 1], key);
    }
  }

  /** The event is a synchronous purge that finds the entry to be a stranger's and writes its result. */
  ghost predicate PurgesEntry(d: Device, e: Event, x: Entry) {
    e.PurgeNow? && e.kind == x.kind && e.saved && !Allowed(x.peer, d.groups, d.known, Whose(d, e.pass, e.own))
  }

  /** Some event of the run is. */
  ghost predicate Judged(d: Device, es: seq<Event>, x: Entry) {
    exists i :: 0 <= i < |es| && PurgesEntry(Run(d, es[..i]), es[i], x)
  }

  lemma JudgedSnoc(d: Device, es: seq<Event>, e: Event, x: Entry)
    ensures Judged(d, es + [e], x) <==> Judged(d, es, x) || PurgesEntry(Run(d, es), e, x)
  {
    hide PurgesEntry, Run;
    var more := es + [e];
    assert more[|es|] == e && more[..|es|] == es;
    forall i | 0 <= i < |es|
      ensures PurgesEntry(Run(d, more[..i]), more[i], x) <==> PurgesEntry(Run(d, es[..i]), es[i], x)
    {
      assert more[i] == es[i] && more[..i] == es[..i];
    }
  }

  /** Some synchronous purge of the store wrote its result. */
  ghost predicate SavedPurge(es: seq<Event>, kind: Kind) {
    exists i :: 0 <= i < |es| && es[i].PurgeNow? && es[i].kind == kind && es[i].saved
  }

  lemma SavedPurgeSnoc(es: seq<Event>, e: Event, kind: Kind)
    ensures SavedPurge(es + [e], kind) <==> SavedPurge(es, kind) || (e.PurgeNow? && e.kind == kind && e.saved)
  {
    assert (es + [e])[|es|] == e;
    forall i | 0 <= i < |es| && es[i].PurgeNow? && es[i].kind == kind && es[i].saved ensures SavedPurge(es + [e], kind) {
      assert (es + [e])[i] == es[i];
    }
  }

  /** Whoever is not the user is a stranger to a purge that does not know the user's key as well. */
  lemma StrangerWithoutKey(peer: JsString, groups: seq<Group>, known: set<JsString>, own: JsString, key: JsString)
    requires Mine(own, key) && !IsOwn(peer, key) && !Allowed(peer, groups, known, key)
    ensures !Allowed(peer, groups, known, own)
  {
  }

  lemma StrangerStep(d: Device, e: Event, x: Entry, key: JsString)
    requires key != [] && DoomsAreAsync(d) && Gentle(d, e, key) && !x.kind.Async()
    requires !Allowed(x.peer, Step(d, e).groups, Step(d, e).known, key)
    ensures !Allowed(x.peer, d.groups, d.known, key)
    ensures x in Step(d, e).entries <==> x in d.entries && !PurgesEntry(d, e, x)
  {
    if Allowed(x.peer, d.groups, d.known, key) {
      AllowedStays(d, e, x.peer, key);
    }
    hide Allowed;
  }

  /** A stranger's entry of a synchronous store is there at the end of a run exactly when it was there at the
      start and no purge of its store found it to be a stranger's and wrote its result. */
  lemma {:induction false} StrangersStayUntilSaved(d: Device, es: seq<Event>, x: Entry, key: JsString)
    requires key != [] && DoomsAreAsync(d) && GentleRun(d, es, key) && !x.kind.Async()
    requires !Allowed(x.peer, Run(d, es).groups, Run(d, es).known, key)
    ensures x in Run(d, es).entries <==> x in d.entries && !Judged(d, es, x)
    decreases |es|
  {
    hide Step, Gentle, DoomsAreAsync, Allowed, Judged, PurgesEntry;
    if es == [] {
      assert !Judged(d, es, x) by { NothingJudged(d, x); }
    } else {
      var rest, e := es[..|es| - 1], es[|es| - 1];
      assert es == rest + [e];
      DoomsStayAsync(d, rest);
      StrangerStep(Run(d, rest), e, x, key);
      StrangersStayUntilSaved(d, rest, x, key);
      JudgedSnoc(d, rest, e, x);
    }
  }

  lemma NothingJudged(d: Device, x: Entry)
    ensures !Judged(d, [], x) && !SavedPurge([], x.kind)
  {
  }

  /** For any stranger but the user's own key, every purge of the store that wrote its result counts, whether it
      knew the user's key or not. */
  lemma {:induction false} JudgedIff(d: Device, es: seq<Event>, x: Entry, key: JsString)
    requires key != [] && OneIdentity(d, key) && DoomsAreAsync(d) && GentleRun(d, es, key)
    requires !x.kind.Async() && !IsOwn(x.peer, key) && !Allowed(x.peer, Run(d, es).groups, Run(d, es).known, key)
    ensures OneIdentity(Run(d, es), key)
    ensures Judged(d, es, x) <==> SavedPurge(es, x.kind)
    decreases |es|
  {
    hide Step, Gentle, DoomsAreAsync, Allowed, Judged, SavedPurge, IsOwn;
    NothingJudged(d, x);
    if es != [] {
      var rest, e := es[..|es| - 1], es[|es| - 1];
      var before := Run(d, rest);
      assert es == rest + [e];
      DoomsStayAsync(d, rest);
      StrangerStep(before, e, x, key);
      JudgedIff(d, rest, x, key);
      IdentityStays(before, e, key);
      JudgedSnoc(d, rest, e, x);
      SavedPurgeSnoc(rest, e, x.kind);
      if e.PurgeNow? {
        assert Mine(e.own, key) by { GentleOwn(before, e, key); }
        StrangerWithoutKey(x.peer, before.groups, before.known, Whose(before, e.pass, e.own), key);
      }
    }
  }

  lemma GentleOwn(d: Device, e: Event, key: JsString)
    requires Gentle(d, e, key) && e.PurgeNow?
    ensures Mine(e.own, key)
  {
  }

  /** What the flag guarantees of one store when it is found set, however often the migration crashed and
      restarted, and whenever the user's key was known. Threads and reactions are clean. A synchronous store is
      clean exactly when every stranger's entry it began with was found by a purge that wrote its result: a
      failed write does not hold the flag back. */
  lemma FlagMeansPurged(d: Device, es: seq<Event>, kind: Kind, key: JsString)
    requires key != [] && Mine(d.own, key) && !d.migrated && d.dooms == [] && d.passes == []
    requires GentleRun(d, es, key) && Run(d, es).migrated
    ensures kind in {Threads, Reactions} ==> Clean(Run(d, es), kind, key)
    ensures kind in {Counters, Contacts, ContactCache} ==>
              (Clean(Run(d, es), kind, key) <==>
               forall x | x in d.entries && x.kind == kind ::
                 Allowed(x.peer, Run(d, es).groups, Run(d, es).known, key) || Judged(d, es, x))
  {
    ProgressRun(d, es, key);
    if !kind.Async() {
      var after := Run(d, es);
      forall x: Entry | x.kind == kind && !Allowed(x.peer, after.groups, after.known, key)
        ensures x in after.entries <==> x in d.entries && !Judged(d, es, x)
      {
        StrangersStayUntilSaved(d, es, x, key);
      }
      hide Allowed, Judged, Run, GentleRun, Progress;
    }
  }

  // ── Interrupted migrations ───────────────────────────────────────────────

  /** What a migration leaves on disk. */
  datatype Disk = Disk(known: set<JsString>, migrated: bool, entries: set<Entry>)

  ghost function Kept(entries: set<Entry>, kinds: set<Kind>, groups: seq<Group>, known: set<JsString>, own: JsString): set<Entry> {
    set e | e in entries && (e.kind in kinds ==> Allowed(e.peer, groups, known, own))
  }

  /** One boot that gets as far as purging `kinds`; it reaches the flag if it `finishes`. */
  ghost function Pass(disk: Disk, groups: seq<Group>, own: JsString, kinds: set<Kind>, finishes: bool): Disk {
    if own == [] || disk.migrated then disk
    else
      var known := disk.known + OtherMembers(groups, own);
      Disk(known, finishes, Kept(disk.entries, kinds, groups, known, own))
  }

  /** What such a boot leaves, peer by peer and entry by entry: nothing happens without a key or once migrated;
      else every other member is known, and of the purged stores the peers that pass the gate remain. */
  lemma PassEffect(disk: Disk, groups: seq<Group>, own: JsString, kinds: set<Kind>, finishes: bool, peer: JsString, e: Entry)
    requires peer != []
    ensures var after := Pass(disk, groups, own, kinds, finishes);
            if own == [] || disk.migrated then after == disk
            else
              && after.migrated == finishes && disk.known <= after.known
              && (Lower(peer) in after.known <==>
                    Lower(peer) in disk.known || (Lower(peer) != Lower(own) && InSomeGroup(groups, Lower(peer))))
              && (e in after.entries <==> e in disk.entries && (e.kind !in kinds || Allowed(e.peer, groups, after.known, own)))
  {
    if Lower(peer) != Lower(own) {
      MembersAreCollected(peer, groups, own);
    }
  }

  ghost function Boots(disk: Disk, groups: seq<Group>, own: JsString, cuts: seq<set<Kind>>): Disk
    decreases |cuts|
  {
    if cuts == [] then disk
    else Pass(Boots(disk, groups, own, cuts[..|cuts| - 1]), groups, own, cuts[|cuts| - 1], false)
  }

  lemma BootsSnoc(disk: Disk, groups: seq<Group>, own: JsString, cuts: seq<set<Kind>>, cut: set<Kind>)
    ensures Boots(disk, groups, own, []) == disk
    ensures Boots(disk, groups, own, cuts + [cut]) == Pass(Boots(disk, groups, own, cuts), groups, own, cut, false)
  {
    assert (cuts + [cut])[..|cuts|] == cuts;
  }

  /** However many boots were cut short, and wherever, a boot that finishes leaves what a single full
      migration would have left. */
  lemma {:induction false} InterruptedMigrationsConverge(disk: Disk, groups: seq<Group>, own: JsString, cuts: seq<set<Kind>>)
    ensures Pass(Boots(disk, groups, own, cuts), groups, own, AllKinds, true) == Pass(disk, groups, own, AllKinds, true)
    decreases |cuts|
  {
    if cuts != [] {
      var shorter := cuts[..|cuts| - 1];
      InterruptedMigrationsConverge(disk, groups, own, shorter);
      CutThenFull(Boots(disk, groups, own, shorter), groups, own, cuts[|cuts| - 1]);
    }
  }

  lemma CutThenFull(disk: Disk, groups: seq<Group>, own: JsString, kinds: set<Kind>)
    ensures Pass(Pass(disk, groups, own, kinds, false), groups, own, AllKinds, true) == Pass(disk, groups, own, AllKinds, true)
  {
    var known := disk.known + OtherMembers(groups, own);
    assert known + OtherMembers(groups, own) == known;
    forall e: Entry ensures e.kind in AllKinds {
      EveryKind(e.kind);
    }
    assert Kept(Kept(disk.entries, kinds, groups, known, own), AllKinds, groups, known, own)
        == Kept(disk.entries, AllKinds, groups, known, own);
  }

  /** When a full migration is final although a write of it failed: exactly when that write had nothing to
      take away. The flag is set, so no later boot makes up for it. */
  lemma SwallowedWriteIsFinal(disk: Disk, groups: seq<Group>, own: JsString, kinds: set<Kind>)
    requires own != [] && !disk.migrated
    ensures Pass(Pass(disk, groups, own, kinds, true), groups, own, AllKinds, true) == Pass(disk, groups, own, AllKinds, true)
            <==> forall x | x in disk.entries ::
                   x.kind in kinds || Allowed(x.peer, groups, disk.known + OtherMembers(groups, own), own)
  {
    var known := disk.known + OtherMembers(groups, own);
    forall x: Entry ensures x.kind in AllKinds {
      EveryKind(x.kind);
    }
    hide Allowed;
    var some, all := Kept(disk.entries, kinds, groups, known, own), Kept(disk.entries, AllKinds, groups, known, own);
    forall x | x in disk.entries
      ensures x in some && x !in all <==> !(x.kind in kinds || Allowed(x.peer, groups, known, own))
    {
    }
    assert all <= some;
  }

  // ── The effect is a run of the step system ───────────────────────────────

  ghost function DiskOf(d: Device): Disk {
    Disk(d.known, d.migrated, d.entries)
  }

  /** What a running migration does between its seed and its flag. */
  ghost predicate Purging(e: Event, pass: nat) {
    (e.PurgeNow? && e.pass == Some(pass)) || (e.Judge? && e.pass == Some(pass)) || e.Delete?
  }

  /** The stores whose purge has taken effect. */
  ghost function Effective(d: Device, es: seq<Event>): set<Kind>
    decreases |es|
  {
    if es == [] then {}
    else Effective(d, es[..|es| - 1]) + EffectOf(Run(d, es[..|es| - 1]), es[|es| - 1])
  }

  ghost function EffectOf(d: Device, e: Event): set<Kind> {
    match e
    case PurgeNow(kind, _, _, saved) => if saved && !kind.Async() then {kind} else {}
    case Delete(i, end) => if i < |d.dooms| && !end.Failed? then {d.dooms[i].kind} else {}
    case _ => {}
  }

  /** The purges that have returned to their pass: a synchronous one always does, its write swallowed or not, an
      asynchronous one unless it failed or threw. */
  ghost function Returned(d: Device, es: seq<Event>): set<Kind>
    decreases |es|
  {
    if es == [] then {}
    else Returned(d, es[..|es| - 1]) + ReturnOf(Run(d, es[..|es| - 1]), es[|es| - 1])
  }

  ghost function ReturnOf(d: Device, e: Event): set<Kind> {
    match e
    case PurgeNow(kind, _, _, _) => if kind in {Counters, Contacts, ContactCache} then {kind} else {}
    case Delete(i, end) => if i < |d.dooms| && end == Deleted then {d.dooms[i].kind} else {}
    case _ => {}
  }

  ghost predicate InPass(d: Device, r: Device, kinds: set<Kind>) {
    && r.own == d.own && r.groups == d.groups && r.known == d.known + OtherMembers(d.groups, d.own) && !r.migrated
    && |r.passes| == |d.passes| + 1 && r.passes[|d.passes|].own == d.own
    && r.entries == Kept(d.entries, kinds, d.groups, r.known, d.own)
    && forall i :: 0 <= i < |r.dooms| ==> DoomFits(d, r, r.dooms[i])
  }

  /** A judgement names strangers of its store only, and all of them that are still there. */
  ghost predicate DoomFits(d: Device, r: Device, doom: Doom) {
    && doom.pass == Some(|d.passes|)
    && (forall x :: x in doom.victims ==> x.kind == doom.kind && !Allowed(x.peer, r.groups, r.known, r.own))
    && (forall x :: x in r.entries && x.kind == doom.kind && !Allowed(x.peer, r.groups, r.known, r.own) ==> x in doom.victims)
  }

  lemma InPassStep(d: Device, r: Device, e: Event, kinds: set<Kind>)
    requires InPass(d, r, kinds) && Purging(e, |d.passes|)
    ensures InPass(d, Step(r, e), kinds + EffectOf(r, e))
  {
    hide Allowed;
    var after := Step(r, e);
    match e
    case PurgeNow(kind, _, _, saved) =>
      assert after.dooms == r.dooms;
      assert after.entries == Kept(d.entries, kinds + EffectOf(r, e), d.groups, r.known, d.own);
    case Judge(kind, _, _) =>
      assert DoomFits(d, r, Doom(kind, Strangers(r, kind, d.own), e.pass));
      assert kinds + EffectOf(r, e) == kinds;
    case Delete(i, _) =>
      if i < |r.dooms| {
        assert DoomFits(d, r, r.dooms[i]);
        assert after.entries == Kept(d.entries, kinds + EffectOf(r, e), d.groups, r.known, d.own);
        forall j | 0 <= j < |after.dooms| ensures DoomFits(d, after, after.dooms[j]) {
          assert DoomFits(d, r, if j < i then r.dooms[j] else r.dooms[j + 1]);
        }
      } else {
        assert kinds + EffectOf(r, e) == kinds;
      }
    case _ =>
  }

  lemma ReturnStep(d: Device, r: Device, e: Event, kinds: set<Kind>)
    requires InPass(d, r, kinds) && Purging(e, |d.passes|)
    ensures |Step(r, e).passes| == |r.passes|
    ensures Step(r, e).passes[|d.passes|].returned == r.passes[|d.passes|].returned + ReturnOf(r, e)
  {
    hide Allowed, Strangers, Kept;
    if e.Delete? && e.doom < |r.dooms| {
      assert DoomFits(d, r, r.dooms[e.doom]);
    }
  }

  lemma {:induction false} ReturnedRun(d: Device, seeded: Device, es: seq<Event>)
    requires InPass(d, seeded, {}) && forall i :: 0 <= i < |es| ==> Purging(es[i], |d.passes|)
    ensures |Run(seeded, es).passes| == |seeded.passes| == |d.passes| + 1
    ensures Run(seeded, es).passes[|d.passes|].returned == seeded.passes[|d.passes|].returned + Returned(seeded, es)
    decreases |es|
  {
    InPassSize(d, seeded, {});
    hide InPass, Step, ReturnOf;
    if es != [] {
      var rest := es[..|es| - 1];
      ReturnedRun(d, seeded, rest);
      InPassRun(d, seeded, rest);
      ReturnStep(d, Run(seeded, rest), es[|es| - 1], Effective(seeded, rest));
    }
  }

  lemma InPassSize(d: Device, r: Device, kinds: set<Kind>)
    requires InPass(d, r, kinds)
    ensures |r.passes| == |d.passes| + 1
  {
  }

  lemma {:induction false} InPassRun(d: Device, seeded: Device, es: seq<Event>)
    requires InPass(d, seeded, {}) && forall i :: 0 <= i < |es| ==> Purging(es[i], |d.passes|)
    ensures InPass(d, Run(seeded, es), Effective(seeded, es))
    decreases |es|
  {
    hide InPass, Step, EffectOf;
    if es != [] {
      InPassRun(d, seeded, es[..|es| - 1]);
      InPassStep(d, Run(seeded, es[..|es| - 1]), es[|es| - 1], Effective(seeded, es[..|es| - 1]));
    }
  }

  lemma Seeded(d: Device)
    requires d.own != [] && !d.migrated && d.dooms == []
    ensures InPass(d, Step(d, MigrateSeed), {})
  {
    KeptNone(d.entries, d.groups, d.known + OtherMembers(d.groups, d.own), d.own);
    hide Kept;
  }

  /** What a migration boot leaves on disk, its purges run in any order, overlap between judging and deleting,
      and fail or not: the disk states of the effect, for the stores whose purge took effect. Only a migration
      to which every purge has returned can set the flag. */
  lemma PassIsARun(d: Device, es: seq<Event>)
    requires d.own != [] && !d.migrated && d.dooms == []
    requires forall i :: 0 <= i < |es| ==> Purging(es[i], |d.passes|)
    ensures var seeded := Step(d, MigrateSeed);
            var after := Run(seeded, es);
            && DiskOf(after) == Pass(DiskOf(d), d.groups, d.own, Effective(seeded, es), false)
            && |d.passes| < |after.passes|
            && after.passes[|d.passes|].returned == Returned(seeded, es)
            && (Step(after, MigrateDone(|d.passes|)).migrated <==> Returned(seeded, es) == AllKinds)
  {
    Seeded(d);
    InPassRun(d, Step(d, MigrateSeed), es);
    ReturnedRun(d, Step(d, MigrateSeed), es);
    assert Step(d, MigrateSeed).passes[|d.passes|].returned == {};
    assert {} + Returned(Step(d, MigrateSeed), es) == Returned(Step(d, MigrateSeed), es);
    hide Kept, Run, Effective, Returned, Allowed, OtherMembers, DoomFits, Strangers, Marked;
  }

  /** The migration effect, statement by statement; the tab closes after `steps` of them. Threads and
      reactions are purged in parallel, so either may come first. */
  class MigrationEffect {
    var known: set<JsString>
    var migrated: bool
    var entries: set<Entry>

    ghost function OnDisk(): Disk
      reads this
    {
      Disk(known, migrated, entries)
    }

    constructor (disk: Disk)
      ensures OnDisk() == disk
    {
      known, migrated, entries := disk.known, disk.migrated, disk.entries;
    }

    method PurgeKind(kind: Kind, groups: seq<Group>, own: JsString)
      modifies `entries
      ensures entries == Kept(old(entries), {kind}, groups, known, own)
      ensures forall e :: e in entries <==> e in old(entries) && (e.kind != kind || Allowed(e.peer, groups, known, own))
    {
      var rest := entries;
      var kept := entries;
      while rest != {}
        invariant rest <= entries
        invariant kept == set e | e in entries && (e !in rest && e.kind == kind ==> Allowed(e.peer, groups, known, own))
        invariant unchanged(this)
        decreases |rest|
      {
        var e :| e in rest;
        var allowed := IsAllowedDmSender(e.peer, groups, known, own);
        if e.kind == kind && !allowed {
          kept := kept - {e};
        }
        rest := rest - {e};
      }
      assert kept == Kept(entries, {kind}, groups, known, own);
      entries := kept;
    }

    /** `saved` are the stores whose write or deletion goes through; `threw` says whether the sweep of threads
        throws after all for being slow. */
    method Boot(ready: bool, groups: seq<Group>, own: JsString, steps: nat, threadsFirst: bool, saved: set<Kind>, threw: bool)
      modifies this
      ensures OnDisk() ==
              if !ready then old(OnDisk())
              else Pass(old(OnDisk()), groups, own, Reached(steps, threadsFirst) * saved,
                        steps > 5 && Threads in saved && Reactions in saved && !threw)
    {
      if !ready || own == [] || migrated {
        return;
      }
      var allMemberPubkeys := CollectMembers(groups, own);
      known := known + LowerKeys(allMemberPubkeys);
      ghost var all := entries;
      KeptNone(all, groups, known, own);
      hide Kept;
      var order := [Counters, Contacts, ContactCache] + (if threadsFirst then [Threads, Reactions] else [Reactions, Threads]);
      assert {} * saved == {};
      for i := 0 to 5
        invariant known == old(known) + OtherMembers(groups, own) && !migrated
        invariant all == old(entries) && i <= steps
        invariant entries == Kept(all, FirstOf(order, i) * saved, groups, known, own)
        invariant FirstOf(order, i) == Reached(i, threadsFirst)
      {
        if i == steps {
          return;
        }
        if order[i] in saved {
          PurgeKind(order[i], groups, own);
          KeptTwice(all, FirstOf(order, i) * saved, order[i], groups, known, own);
          assert FirstOf(order, i + 1) * saved == FirstOf(order, i) * saved + {order[i]};
        } else {
          assert FirstOf(order, i + 1) * saved == FirstOf(order, i) * saved;
        }
      }
      if steps == 5 || Threads !in saved || Reactions !in saved || threw {
        return;
      }
      assert Reached(steps, threadsFirst) == AllKinds;
      migrated := true;
    }
  }

  function FirstOf(order: seq<Kind>, n: nat): set<Kind>
    requires n <= |order|
  {
    if n == 0 then {} else FirstOf(order, n - 1) + {order[n - 1]}
  }

  /** The stores purged by the first `steps` steps. */
  function Reached(steps: nat, threadsFirst: bool): set<Kind> {
    if steps == 0 then {}
    else if steps == 1 then {Counters}
    else if steps == 2 then {Counters, Contacts}
    else if steps == 3 then {Counters, Contacts, ContactCache}
    else if steps == 4 then {Counters, Contacts, ContactCache, if threadsFirst then Threads else Reactions}
    else AllKinds
  }

  /** The order of the purges: counters, contacts and cached cards one after the other, then threads and reactions
      in either order. */
  lemma BootOrder(steps: nat, threadsFirst: bool)
    ensures Counters in Reached(steps, threadsFirst) <==> steps >= 1
    ensures Contacts in Reached(steps, threadsFirst) <==> steps >= 2
    ensures ContactCache in Reached(steps, threadsFirst) <==> steps >= 3
    ensures Threads in Reached(steps, threadsFirst) <==> steps >= if threadsFirst then 4 else 5
    ensures Reactions in Reached(steps, threadsFirst) <==> steps >= if threadsFirst then 5 else 4
  {
  }

  lemma KeptNone(entries: set<Entry>, groups: seq<Group>, known: set<JsString>, own: JsString)
    ensures Kept(entries, {}, groups, known, own) == entries
  {
  }

  lemma KeptTwice(entries: set<Entry>, kinds: set<Kind>, kind: Kind, groups: seq<Group>, known: set<JsString>, own: JsString)
    ensures Kept(Kept(entries, kinds, groups, known, own), {kind}, groups, known, own)
            == Kept(entries, kinds + {kind}, groups, known, own)
  {
  }
}
