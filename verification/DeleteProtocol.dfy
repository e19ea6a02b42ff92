/** Optimistic delete and edit of a group message against storage: the view is changed first, the
    rumor is published, the stored row is changed, and reconciles may run at any await. */
module DeleteProtocol {
  import opened Js
  import opened ChatView

  // ── View transforms ──────────────────────────────────────────────────────

  function Without(view: Messages, id: Id): Messages {
    if view == [] then []
    else if view[|view| - 1].id == id then Without(view[..|view| - 1], id)
    else Without(view[..|view| - 1], id) + [view[|view| - 1]]
  }

  /** The rollback of a delete: no check for a row that is already there. */
  function PutBack(view: Messages, snapshot: Message): Messages {
    Sort(view + [snapshot])
  }

  function Replaced(view: Messages, id: Id, row: Message): Messages {
    seq(|view|, i requires 0 <= i < |view| => if view[i].id == id then row else view[i])
  }

  function EditedView(view: Messages, id: Id, content: JsString): Messages {
    seq(|view|, i requires 0 <= i < |view| =>
      if view[i].id == id then view[i].(content := content, edited := true) else view[i])
  }

  function Tombstoned(rows: Messages, id: Id): Messages {
    seq(|rows|, i requires 0 <= i < |rows| => if rows[i].id == id then rows[i].(tombstoned := true) else rows[i])
  }

  /** `find`: the first row of an id. */
  function Find(ms: Messages, id: Id): (r: Option<Message>)
    ensures r.Some? ==> r.value in ms && r.value.id == id
    ensures r.None? <==> !HasId(ms, id)
  {
    if ms == [] then None
    else if ms[0].id == id then Some(ms[0])
    else
      assert ms == [ms[0]] + ms[1..];
      assert forall i :: 1 <= i < |ms| ==> ms[i] == ms[1..][i - 1];
      Find(ms[1..], id)
  }

  // ── The step system ──────────────────────────────────────────────────────

  /** `loads` holds the rows of loads that have returned but whose continuation has not run yet. */
  datatype Chat = Chat(view: Messages, rows: Messages, loads: seq<Messages>)

  datatype Event =
    | Remove(id: Id)
    | Tombstone(id: Id)
    | Rollback(snapshot: Message)
    | Edit(id: Id, content: JsString)
    | Replace(id: Id, row: Message)
    | Store(rows: Messages)
    | OtherView(view: Messages)
    | ReconcileNow
    | BeginRead
    | ApplyRead(read: nat)

  function Step(c: Chat, e: Event): Chat {
    match e
    case Remove(id) => c.(view := Without(c.view, id))
    case Tombstone(id) => c.(rows := Tombstoned(c.rows, id))
    case Rollback(snapshot) => c.(view := PutBack(c.view, snapshot))
    case Edit(id, content) => c.(view := EditedView(c.view, id, content))
    case Replace(id, row) => c.(view := Replaced(c.view, id, row))
    case Store(rows) => c.(rows := rows)
    case OtherView(view) => c.(view := view)
    case ReconcileNow => c.(view := Reconcile(c.view, c.rows))
    case BeginRead => c.(loads := c.loads + [c.rows])
    case ApplyRead(i) =>
      if i < |c.loads| then
        c.(view := Reconcile(c.view, c.loads[i]), loads := c.loads[..i] + c.loads[i + 1..])
      else c
  }

  /** What other activity does: storage is written, the view is set, a load returns what is stored at that moment,
      and applying it reconciles the view with that. */
  lemma OtherActivity(c: Chat, rows: Messages, i: nat)
    ensures Step(c, Store(rows)) == Chat(c.view, rows, c.loads)
    ensures Step(c, OtherView(rows)) == Chat(rows, c.rows, c.loads)
    ensures Step(c, BeginRead) == Chat(c.view, c.rows, c.loads + [c.rows])
    ensures i < |c.loads| ==>
              Step(c, ApplyRead(i)) == Chat(Reconcile(c.view, c.loads[i]), c.rows, c.loads[..i] + c.loads[i + 1..])
  {
    hide Reconcile;
  }

  function Run(c: Chat, es: seq<Event>): Chat
    decreases |es|
  {
    if es == [] then c else Step(Run(c, es[..|es| - 1]), es[|es| - 1])
  }

  lemma {:induction false} RunAppend(c: Chat, a: seq<Event>, b: seq<Event>)
    ensures Run(c, a + b) == Run(Run(c, a), b)
    decreases |b|
  {
    if b == [] {
      assert a + b == a;
    } else {
      RunAppend(c, a, b[..|b| - 1]);
      assert (a + b)[..|a + b| - 1] == a + b[..|b| - 1];
    }
  }

  lemma RunOne(c: Chat, e: Event)
    ensures Run(c, [e]) == Step(c, e)
  {
    assert [e][..0] == [];
  }

  lemma RunThree(c: Chat, e1: Event, e2: Event, e3: Event)
    ensures Run(c, [e1, e2, e3]) == Step(Step(Step(c, e1), e2), e3)
  {
    hide *;
    RunOne(c, e1);
    RunOne(Step(c, e1), e2);
    RunOne(Step(Step(c, e1), e2), e3);
    RunAppend(c, [e1], [e2]);
    RunAppend(c, [e1, e2], [e3]);
    assert [e1] + [e2] == [e1, e2] && [e1, e2] + [e3] == [e1, e2, e3];
  }

  // ── Presence of an id ────────────────────────────────────────────────────

  ghost predicate HasLive(rows: Messages, id: Id) {
    exists i :: 0 <= i < |rows| && rows[i].id == id && !rows[i].tombstoned
  }

  lemma {:induction false} WithoutRows(view: Messages, id: Id)
    ensures forall m :: m in Without(view, id) <==> m in view && m.id != id
    ensures !HasId(Without(view, id), id)
  {
    if view != [] {
      WithoutRows(view[..|view| - 1], id);
      assert view == view[..|view| - 1] + [view[|view| - 1]];
    }
    forall i | 0 <= i < |Without(view, id)| ensures Without(view, id)[i].id != id {
      assert Without(view, id)[i] in Without(view, id);
    }
  }

  lemma TombstonedRows(rows: Messages, id: Id)
    ensures !HasLive(Tombstoned(rows, id), id)
  {
  }

  lemma ReconciledRows(prev: Messages, stored: Messages, id: Id)
    requires !HasId(prev, id)
    ensures forall m: Message :: m.id == id ==> (m in Reconcile(prev, stored) <==> m in stored && !m.tombstoned)
  {
    var merged := Merged(prev, stored);
    var all := merged + NewFromStore(merged, stored);
    MergedIds(prev, stored);
    NewRows(merged, stored);
    VisibleRows(all);
    SortSorts(Visible(all));
    SameMultisetSameRows(Visible(all), Sort(Visible(all)));
    assert forall m: Message :: m in merged ==> m.id in IdsOf(merged);
  }

  /** A view without an id gains it from a reconcile exactly when storage has a live row for it. */
  lemma ReconcileAbsent(prev: Messages, stored: Messages, id: Id)
    requires !HasId(prev, id)
    ensures HasId(Reconcile(prev, stored), id) <==> HasLive(stored, id)
  {
    hide Reconcile;
    ReconciledRows(prev, stored, id);
    if HasLive(stored, id) {
      var i :| 0 <= i < |stored| && stored[i].id == id && !stored[i].tombstoned;
      assert stored[i] in Reconcile(prev, stored);
      var j :| 0 <= j < |Reconcile(prev, stored)| && Reconcile(prev, stored)[j] == stored[i];
    }
    if HasId(Reconcile(prev, stored), id) {
      var j :| 0 <= j < |Reconcile(prev, stored)| && Reconcile(prev, stored)[j].id == id;
      assert Reconcile(prev, stored)[j] in Reconcile(prev, stored);
      assert Reconcile(prev, stored)[j] in stored;
    }
  }

  // ── A deleted message stays deleted ──────────────────────────────────────

  /** What other activity may do once the delete is durable: it never makes a row of the id live again. */
  ghost predicate KeepsTombstone(e: Event, id: Id) {
    e.Store? ==> !HasLive(e.rows, id)
  }

  /** ... and no other view change brings the id in. */
  ghost predicate Quiet(e: Event, id: Id) {
    && KeepsTombstone(e, id)
    && (e.OtherView? ==> !HasId(e.view, id))
    && (e.Rollback? ==> e.snapshot.id != id)
    && (e.Replace? ==> e.row.id == e.id)
  }

  ghost predicate AllKeep(es: seq<Event>, id: Id) {
    forall i :: 0 <= i < |es| ==> KeepsTombstone(es[i], id)
  }

  ghost predicate AllQuiet(es: seq<Event>, id: Id) {
    forall i :: 0 <= i < |es| ==> Quiet(es[i], id)
  }

  /** Every reconcile reads and applies as one step. */
  ghost predicate Atomic(es: seq<Event>) {
    forall i :: 0 <= i < |es| ==> !es[i].BeginRead?
  }

  ghost predicate NoLiveRead(c: Chat, id: Id) {
    forall i :: 0 <= i < |c.loads| ==> !HasLive(c.loads[i], id)
  }

  ghost predicate Gone(c: Chat, id: Id) {
    !HasId(c.view, id) && !HasLive(c.rows, id) && NoLiveRead(c, id)
  }

  lemma PutBackIds(view: Messages, snapshot: Message, id: Id)
    ensures HasId(PutBack(view, snapshot), id) <==> HasId(view, id) || snapshot.id == id
  {
    SortSorts(view + [snapshot]);
    SameMultisetSameRows(view + [snapshot], Sort(view + [snapshot]));
    SameIds(view + [snapshot], Sort(view + [snapshot]), id);
    HasIdSnoc(view, snapshot, id);
  }

  lemma SameIds(a: Messages, b: Messages, id: Id)
    requires forall m :: m in a <==> m in b
    ensures HasId(a, id) <==> HasId(b, id)
  {
    forall i | 0 <= i < |a| && a[i].id == id ensures HasId(b, id) {
      assert a[i] in b;
    }
    forall i | 0 <= i < |b| && b[i].id == id ensures HasId(a, id) {
      assert b[i] in a;
    }
  }

  lemma GoneStep(c: Chat, e: Event, id: Id)
    requires Gone(c, id) && Quiet(e, id)
    ensures Gone(Step(c, e), id)
  {
    hide Reconcile, PutBack, Without;
    match e
    case Remove(other) => WithoutRows(c.view, other); WithoutKeepsAbsent(c.view, other, id);
    case Rollback(snapshot) => PutBackIds(c.view, snapshot, id);
    case ReconcileNow => ReconcileAbsent(c.view, c.rows, id);
    case ApplyRead(i) => if i < |c.loads| { ReconcileAbsent(c.view, c.loads[i], id); }
    case _ =>
  }

  lemma WithoutKeepsAbsent(view: Messages, other: Id, id: Id)
    requires !HasId(view, id)
    ensures !HasId(Without(view, other), id)
  {
    WithoutRows(view, other);
    forall i | 0 <= i < |Without(view, other)| ensures Without(view, other)[i].id != id {
      assert Without(view, other)[i] in view;
    }
  }

  lemma {:induction false} GoneRun(c: Chat, es: seq<Event>, id: Id)
    requires Gone(c, id) && AllQuiet(es, id)
    ensures Gone(Run(c, es), id)
    decreases |es|
  {
    if es != [] {
      GoneRun(c, es[..|es| - 1], id);
      GoneStep(Run(c, es[..|es| - 1]), es[|es| - 1], id);
    }
  }

  /** The id is absent now and after every further run that leaves its row tombstoned. */
  ghost predicate AbsentForever(c: Chat, id: Id) {
    forall es: seq<Event> :: AllQuiet(es, id) ==> !HasId(Run(c, es).view, id)
  }

  /** Exactly when an absent message can never come back: storage and every load still in flight hold no
      live row of it. */
  lemma AbsentForeverIff(c: Chat, id: Id)
    requires !HasId(c.view, id)
    ensures AbsentForever(c, id) <==> !HasLive(c.rows, id) && NoLiveRead(c, id)
  {
    if !HasLive(c.rows, id) && NoLiveRead(c, id) {
      forall es: seq<Event> | AllQuiet(es, id) ensures !HasId(Run(c, es).view, id) {
        GoneRun(c, es, id);
      }
    } else if HasLive(c.rows, id) {
      Resurrected(c, ReconcileNow, id);
    } else {
      var i :| 0 <= i < |c.loads| && HasLive(c.loads[i], id);
      Resurrected(c, ApplyRead(i), id);
    }
  }

  lemma Resurrected(c: Chat, e: Event, id: Id)
    requires !HasId(c.view, id)
    requires
      || (e.ReconcileNow? && HasLive(c.rows, id))
      || (e.ApplyRead? && e.read < |c.loads| && HasLive(c.loads[e.read], id))
    ensures !AbsentForever(c, id)
  {
    var es := [e];
    RunOne(c, e);
    ReconcileAbsent(c.view, if e.ReconcileNow? then c.rows else c.loads[e.read], id);
    assert AllQuiet(es, id) && HasId(Run(c, es).view, id);
  }

  /** The successful delete: view, publish window, tombstone, window until the write settles, view again. */
  function DeleteEvents(id: Id, publishing: seq<Event>, settling: seq<Event>): seq<Event> {
    [Remove(id)] + publishing + [Tombstone(id)] + settling + [Remove(id)]
  }

  lemma {:induction false} RowsStayHidden(c: Chat, es: seq<Event>, id: Id)
    requires !HasLive(c.rows, id) && AllKeep(es, id)
    ensures !HasLive(Run(c, es).rows, id)
    decreases |es|
  {
    if es != [] {
      RowsStayHidden(c, es[..|es| - 1], id);
      var before, e := Run(c, es[..|es| - 1]), es[|es| - 1];
      if e.Tombstone? {
        assert forall i :: 0 <= i < |before.rows| ==> before.rows[i].id == id ==> before.rows[i].tombstoned;
      }
    }
  }

  lemma {:induction false} AtomicRunsHoldNoReads(c: Chat, es: seq<Event>)
    requires c.loads == [] && Atomic(es)
    ensures Run(c, es).loads == []
    decreases |es|
  {
    hide Reconcile, PutBack, Without, Tombstoned, EditedView, Replaced;
    if es != [] {
      AtomicRunsHoldNoReads(c, es[..|es| - 1]);
    }
  }

  /** The load was in flight at the start, or began at one of these events. */
  ghost predicate BegunIn(c: Chat, es: seq<Event>, load: Messages) {
    load in c.loads || exists k :: 0 <= k < |es| && es[k].BeginRead? && load == Run(c, es[..k]).rows
  }

  lemma BegunSnoc(c: Chat, es: seq<Event>, e: Event, load: Messages)
    ensures BegunIn(c, es, load) ==> BegunIn(c, es + [e], load)
    ensures e.BeginRead? && load == Run(c, es).rows ==> BegunIn(c, es + [e], load)
  {
    var more := es + [e];
    assert more[..|es|] == es && more[|es|] == e;
    forall k | 0 <= k < |es| && es[k].BeginRead? && load == Run(c, es[..k]).rows ensures BegunIn(c, more, load) {
      assert more[..k] == es[..k] && more[k] == es[k];
    }
  }

  lemma {:induction false} LoadsBegan(c: Chat, es: seq<Event>, load: Messages)
    requires load in Run(c, es).loads
    ensures BegunIn(c, es, load)
    decreases |es|
  {
    hide Reconcile, PutBack, Without, Tombstoned, EditedView, Replaced;
    if es != [] {
      var rest, e := es[..|es| - 1], es[|es| - 1];
      var before := Run(c, rest);
      assert es == rest + [e];
      BegunSnoc(c, rest, e, load);
      hide BegunIn;
      if load in before.loads {
        LoadsBegan(c, rest, load);
      } else {
        assert e.BeginRead?;
      }
    }
  }

  /** A load that began once the row was tombstoned did not return it alive. */
  lemma {:induction false} LaterLoadsAreHidden(c: Chat, es: seq<Event>, id: Id, load: Messages)
    requires !HasLive(c.rows, id) && AllKeep(es, id) && load in Run(c, es).loads && HasLive(load, id)
    ensures load in c.loads
    decreases |es|
  {
    hide Reconcile, PutBack, Without, Tombstoned, EditedView, Replaced, HasLive;
    if es != [] {
      var rest := es[..|es| - 1];
      assert forall k :: 0 <= k < |rest| ==> rest[k] == es[k];
      RowsStayHidden(c, rest, id);
      LaterLoadsAreHidden(c, rest, id, load);
    }
  }

  lemma LiveLoadsAreOld(c: Chat, id: Id, publishing: seq<Event>, settling: seq<Event>)
    requires AllKeep(settling, id)
    ensures forall load :: load in Run(c, DeleteEvents(id, publishing, settling)).loads && HasLive(load, id) ==>
                             BegunIn(c, [Remove(id)] + publishing, load)
  {
    var early := [Remove(id)] + publishing;
    var at := Run(c, early);
    var marked := Step(at, Tombstone(id));
    TombstonedRows(at.rows, id);
    RunOne(at, Tombstone(id));
    RunAppend(c, early, [Tombstone(id)]);
    RunAppend(c, early + [Tombstone(id)], settling);
    RunOne(Run(marked, settling), Remove(id));
    RunAppend(c, early + [Tombstone(id)] + settling, [Remove(id)]);
    assert DeleteEvents(id, publishing, settling) == early + [Tombstone(id)] + settling + [Remove(id)];
    var d := Run(c, DeleteEvents(id, publishing, settling));
    assert d.loads == Run(marked, settling).loads && marked.loads == at.loads;
    hide Run, BegunIn, HasLive, DeleteEvents, Tombstoned;
    forall load | load in d.loads && HasLive(load, id) ensures BegunIn(c, early, load) {
      LaterLoadsAreHidden(marked, settling, id, load);
      LoadsBegan(c, early, load);
    }
  }

  /** After a successful delete the message is absent, and it is absent for good exactly when no load still
      in flight returned it alive; and such a load began before the tombstone. */
  lemma DeleteOutcome(c: Chat, id: Id, publishing: seq<Event>, settling: seq<Event>)
    requires AllKeep(settling, id)
    ensures var d := Run(c, DeleteEvents(id, publishing, settling));
            && !HasId(d.view, id)
            && !HasLive(d.rows, id)
            && (AbsentForever(d, id) <==> NoLiveRead(d, id))
            && (forall load :: load in d.loads && HasLive(load, id) ==> BegunIn(c, [Remove(id)] + publishing, load))
  {
    var head := [Remove(id)] + publishing + [Tombstone(id)];
    var marked := Run(c, head);
    assert head[..|head| - 1] == [Remove(id)] + publishing;
    TombstonedRows(Run(c, [Remove(id)] + publishing).rows, id);
    RunAppend(c, head, settling);
    RowsStayHidden(marked, settling, id);
    LiveLoadsAreOld(c, id, publishing, settling);
    var es := DeleteEvents(id, publishing, settling);
    assert es[..|es| - 1] == head + settling;
    WithoutRows(Run(c, head + settling).view, id);
    hide Run, Without, AbsentForever;
    AbsentForeverIff(Run(c, es), id);
  }

  lemma LoadDuringDelete(c: Chat, id: Id)
    ensures Run(c, DeleteEvents(id, [BeginRead], [])).loads == c.loads + [c.rows]
  {
    hide Without, Tombstoned, Run;
    var s := Step(Step(Step(c, Remove(id)), BeginRead), Tombstone(id));
    assert Step(s, Remove(id)).loads == c.loads + [c.rows];
    assert DeleteEvents(id, [BeginRead], []) == [Remove(id), BeginRead, Tombstone(id)] + [Remove(id)];
    hide *;
    RunThree(c, Remove(id), BeginRead, Tombstone(id));
    RunOne(s, Remove(id));
    RunAppend(c, [Remove(id), BeginRead, Tombstone(id)], [Remove(id)]);
  }

  /** The exception is reachable: a load that begins while the delete is being published, and is applied after
      it, brings a stored message back although its row is tombstoned. */
  lemma StaleReadBringsBack(c: Chat, id: Id)
    requires HasLive(c.rows, id)
    ensures var d := Run(c, DeleteEvents(id, [BeginRead], []));
            && !HasLive(d.rows, id) && !AbsentForever(d, id)
            && HasId(Run(d, [ApplyRead(|c.loads|)]).view, id)
  {
    var d := Run(c, DeleteEvents(id, [BeginRead], []));
    var read := ApplyRead(|c.loads|);
    assert AllKeep([], id);
    hide *;
    LoadDuringDelete(c, id);
    DeleteOutcome(c, id, [BeginRead], []);
    assert d.loads[|c.loads|] == c.rows;
    Resurrected(d, read, id);
    RunOne(d, read);
    ReconcileAbsent(d.view, c.rows, id);
    AppliedRead(d, |c.loads|);
  }

  lemma AppliedRead(c: Chat, i: nat)
    requires i < |c.loads|
    ensures Step(c, ApplyRead(i)).view == Reconcile(c.view, c.loads[i])
  {
    hide Reconcile;
  }

  /** With reconciles that read and apply in one step: whatever ran during the delete, the message is absent
      at its end and in every state reached afterwards while its row stays tombstoned. */
  lemma DeletedStaysAbsent(c: Chat, id: Id, publishing: seq<Event>, settling: seq<Event>, later: seq<Event>)
    requires c.loads == [] && Atomic(publishing) && Atomic(settling)
    requires AllKeep(settling, id) && AllQuiet(later, id)
    ensures !HasId(Run(c, DeleteEvents(id, publishing, settling) + later).view, id)
  {
    var es := DeleteEvents(id, publishing, settling);
    assert Atomic(es);
    hide Run, DeleteEvents, Atomic;
    DeleteOutcome(c, id, publishing, settling);
    AtomicRunsHoldNoReads(c, es);
    RunAppend(c, es, later);
    assert AbsentForever(Run(c, es), id);
  }

  lemma ReconciledAfterRemoval(c: Chat, id: Id)
    ensures Step(Step(c, Remove(id)), ReconcileNow) == c.(view := Reconcile(Without(c.view, id), c.rows))
  {
    hide Reconcile, Without;
  }

  lemma RemoveThenReconcile(c: Chat, id: Id, e: Event)
    ensures Run(c, [Remove(id), ReconcileNow, e])
            == Step(c.(view := Reconcile(Without(c.view, id), c.rows)), e)
  {
    ReconciledAfterRemoval(c, id);
    hide *;
    RunThree(c, Remove(id), ReconcileNow, e);
  }

  /** Why the view is filtered a second time: with one removal only, a reconcile inside the publish window
      brings back every message storage still holds alive, and the tombstone does not take it away again. */
  lemma OneRemovalIsNotEnough(c: Chat, id: Id)
    ensures HasId(Run(c, [Remove(id), ReconcileNow, Tombstone(id)]).view, id) <==> HasLive(c.rows, id)
    ensures !HasId(Run(c, DeleteEvents(id, [ReconcileNow], [])).view, id)
  {
    DeleteOutcome(c, id, [ReconcileNow], []);
    RemoveThenReconcile(c, id, Tombstone(id));
    WithoutRows(c.view, id);
    ReconcileAbsent(Without(c.view, id), c.rows, id);
  }

  // ── Other messages ───────────────────────────────────────────────────────

  /** Tombstoning a message touches no other row, and of its own row the flag only; where storage has each id
      once, it is the update of the first row of that id. */
  lemma TombstoneTouchesOnlyIts(rows: Messages, id: Id)
    ensures |Tombstoned(rows, id)| == |rows|
    ensures forall i :: 0 <= i < |rows| && rows[i].id != id ==> Tombstoned(rows, id)[i] == rows[i]
    ensures forall i :: 0 <= i < |rows| && rows[i].id == id ==> Tombstoned(rows, id)[i] == rows[i].(tombstoned := true)
    ensures UniqueIds(rows) ==>
              forall k :: 0 <= k < |rows| && rows[k].id == id ==> Tombstoned(rows, id) == rows[k := rows[k].(tombstoned := true)]
  {
    if UniqueIds(rows) {
      forall k | 0 <= k < |rows| && rows[k].id == id
        ensures Tombstoned(rows, id) == rows[k := rows[k].(tombstoned := true)]
      {
        assert forall i :: 0 <= i < k ==> rows[i].id != rows[k].id;
        assert forall i :: k < i < |rows| ==> rows[k].id != rows[i].id;
      }
    }
  }

  /** The rows of one id, in order. */
  function Of(ms: Messages, id: Id): Messages {
    if ms == [] then []
    else if ms[|ms| - 1].id == id then Of(ms[..|ms| - 1], id) + [ms[|ms| - 1]]
    else Of(ms[..|ms| - 1], id)
  }

  ghost predicate SameSet(a: Messages, b: Messages) {
    forall m :: m in a <==> m in b
  }

  /** Two chats agree about a message: the same rows are shown for it, and storage and every load in flight hold
      the same rows of it. */
  ghost predicate SameFor(c: Chat, d: Chat, id: Id) {
    && SameSet(Of(c.view, id), Of(d.view, id))
    && Of(c.rows, id) == Of(d.rows, id)
    && |c.loads| == |d.loads|
    && forall i :: 0 <= i < |c.loads| ==> Of(c.loads[i], id) == Of(d.loads[i], id)
  }

  lemma {:induction false} OfRows(ms: Messages, id: Id)
    ensures forall m: Message :: m in Of(ms, id) <==> m in ms && m.id == id
  {
    if ms != [] {
      OfRows(ms[..|ms| - 1], id);
      assert ms == ms[..|ms| - 1] + [ms[|ms| - 1]];
    }
  }

  lemma {:induction false} StoredRowOf(ms: Messages, id: Id)
    ensures StoredRow(Of(ms, id), id) == StoredRow(ms, id)
  {
    if ms != [] {
      StoredRowOf(ms[..|ms| - 1], id);
    }
  }

  lemma {:induction false} OfTombstoned(rows: Messages, id: Id, other: Id)
    requires other != id
    ensures Of(Tombstoned(rows, id), other) == Of(rows, other)
  {
    if rows != [] {
      var rest, last := rows[..|rows| - 1], rows[|rows| - 1];
      OfTombstoned(rest, id, other);
      assert Tombstoned(rows, id)[..|rest|] == Tombstoned(rest, id);
    }
  }

  lemma HasIdIsOf(ms: Messages, id: Id)
    ensures HasId(ms, id) <==> exists m :: m in Of(ms, id)
  {
    OfRows(ms, id);
    if HasId(ms, id) {
      var i :| 0 <= i < |ms| && ms[i].id == id;
      assert ms[i] in Of(ms, id);
    }
    forall m | m in Of(ms, id) ensures HasId(ms, id) {
      RowHasItsId(ms, m);
    }
  }

  /** What a reconcile shows for an id depends on the rows of that id only. */
  lemma ReconcileSame(prev: Messages, stored: Messages, prev': Messages, stored': Messages, id: Id)
    requires SameSet(Of(prev, id), Of(prev', id)) && Of(stored, id) == Of(stored', id)
    ensures SameSet(Of(Reconcile(prev, stored), id), Of(Reconcile(prev', stored'), id))
  {
    hide *;
    ShownOf(prev, stored, id);
    ShownOf(prev', stored', id);
    SameShown(Of(prev, id), Of(prev', id), Of(stored, id), id, Of(Reconcile(prev, stored), id), Of(Reconcile(prev', stored'), id));
  }

  ghost predicate ShownFor(prev: Messages, stored: Messages, id: Id, m: Message) {
    && m.id == id && !m.tombstoned
    && if exists p :: p in prev then StoredRow(stored, id) == Some(m) || (StoredRow(stored, id).None? && m in prev) else m in stored
  }

  lemma ShownOf(prev: Messages, stored: Messages, id: Id)
    ensures forall m :: m in Of(Reconcile(prev, stored), id) <==> ShownFor(Of(prev, id), Of(stored, id), id, m)
  {
    hide Reconcile, Of, StoredRow, HasId;
    ReconcileRows(prev, stored);
    OfRows(Reconcile(prev, stored), id);
    OfRows(prev, id);
    OfRows(stored, id);
    StoredRowOf(stored, id);
    HasIdIsOf(prev, id);
  }

  lemma SameShown(prev: Messages, prev': Messages, stored: Messages, id: Id, shown: Messages, shown': Messages)
    requires SameSet(prev, prev')
    requires forall m :: m in shown <==> ShownFor(prev, stored, id, m)
    requires forall m :: m in shown' <==> ShownFor(prev', stored, id, m)
    ensures SameSet(shown, shown')
  {
    hide StoredRow;
  }

  /** An event concerns the id only: it is a removal, tombstone, rollback, edit or replacement of that message. */
  predicate Concerns(e: Event, id: Id) {
    match e
    case Remove(other) => other == id
    case Tombstone(other) => other == id
    case Rollback(snapshot) => snapshot.id == id
    case Edit(other, _) => other == id
    case Replace(other, row) => other == id && row.id == id
    case _ => false
  }

  /** No event turns a row into one of another message. */
  predicate KeepsIds(e: Event) {
    e.Replace? ==> e.row.id == e.id
  }

  lemma OfTransformed(view: Messages, view': Messages, id: Id)
    requires forall m: Message :: m.id == id ==> (m in view' <==> m in view)
    ensures SameSet(Of(view', id), Of(view, id))
  {
    OfRows(view, id);
    OfRows(view', id);
  }

  lemma EditedRows(view: Messages, id: Id, content: JsString, m: Message)
    ensures m in EditedView(view, id, content) <==>
              (m in view && m.id != id) || exists p: Message :: p in view && p.id == id && m == p.(content := content, edited := true)
  {
    var r := EditedView(view, id, content);
    forall i | 0 <= i < |view|
      ensures r[i] == if view[i].id == id then view[i].(content := content, edited := true) else view[i]
      ensures r[i] in r && view[i] in view
    {
    }
    hide EditedView;
    if m in r {
      var i :| 0 <= i < |r| && r[i] == m;
      assert view[i] in view;
    }
    forall p: Message | p in view && (p.id != id || m == p.(content := content, edited := true))
      ensures p.id != id ==> p in r
      ensures p.id == id ==> m in r
    {
      var i :| 0 <= i < |view| && view[i] == p;
      assert r[i] in r;
    }
  }

  lemma PutBackRows(view: Messages, snapshot: Message, m: Message)
    ensures m in PutBack(view, snapshot) <==> m in view || m == snapshot
  {
    SortSorts(view + [snapshot]);
    SameMultisetSameRows(view + [snapshot], PutBack(view, snapshot));
    hide PutBack, Sort;
  }

  lemma ConcernsNoRow(c: Chat, e: Event, id: Id, m: Message)
    requires Concerns(e, id) && m.id != id
    ensures m in Step(c, e).view <==> m in c.view
  {
    hide PutBack, Without, Replaced, EditedView, Tombstoned;
    if e.Remove? {
      WithoutRows(c.view, id);
    } else if e.Rollback? {
      PutBackRows(c.view, e.snapshot, m);
    } else if e.Edit? {
      EditedRows(c.view, id, e.content, m);
    } else if e.Replace? {
      ReplacedRows(c.view, id, e.row, m);
    }
  }

  /** The steps of a delete or an edit leave every other message alone. */
  lemma ConcernsNoOther(c: Chat, e: Event, id: Id, other: Id)
    requires Concerns(e, id) && other != id
    ensures SameFor(Step(c, e), c, other)
  {
    hide PutBack, Without, Replaced, EditedView, Tombstoned, Of, SameSet;
    if e.Tombstone? {
      OfTombstoned(c.rows, id, other);
    }
    forall m: Message | m.id == other ensures m in Step(c, e).view <==> m in c.view {
      ConcernsNoRow(c, e, id, m);
    }
    OfTransformed(c.view, Step(c, e).view, other);
  }

  lemma SameSetRefl(a: Messages)
    ensures SameSet(a, a)
  {
  }

  /** Every other step acts alike on two chats that agree about a message. */
  lemma SameForStep(c: Chat, d: Chat, e: Event, id: Id)
    requires SameFor(c, d, id) && KeepsIds(e)
    ensures SameFor(Step(c, e), Step(d, e), id)
  {
    hide PutBack, Without, Replaced, EditedView, Tombstoned, Of, SameSet, Reconcile;
    match e
    case Tombstone(other) => SameTombstoned(c.rows, d.rows, other, id);
    case ReconcileNow => ReconcileSame(c.view, c.rows, d.view, d.rows, id);
    case ApplyRead(i) => if i < |c.loads| { ReconcileSame(c.view, c.loads[i], d.view, d.loads[i], id); }
    case Store(rows) =>
    case BeginRead =>
    case OtherView(view) => SameSetRefl(Of(view, id));
    case _ => SameView(c, d, e, id);
  }

  lemma {:induction false} SameTombstoned(rows: Messages, rows': Messages, other: Id, id: Id)
    requires Of(rows, id) == Of(rows', id)
    ensures Of(Tombstoned(rows, other), id) == Of(Tombstoned(rows', other), id)
  {
    OfTombstonedAny(rows, other, id);
    OfTombstonedAny(rows', other, id);
  }

  lemma {:induction false} OfTombstonedAny(rows: Messages, other: Id, id: Id)
    ensures Of(Tombstoned(rows, other), id) == Tombstoned(Of(rows, id), other)
  {
    if rows != [] {
      var rest, last := rows[..|rows| - 1], rows[|rows| - 1];
      OfTombstonedAny(rest, other, id);
      assert Tombstoned(rows, other)[..|rest|] == Tombstoned(rest, other);
    }
  }

  lemma SameView(c: Chat, d: Chat, e: Event, id: Id)
    requires SameFor(c, d, id) && KeepsIds(e)
    requires e.Remove? || e.Rollback? || e.Edit? || e.Replace?
    ensures SameSet(Of(Step(c, e).view, id), Of(Step(d, e).view, id))
  {
    hide PutBack, Without, Replaced, EditedView, Of;
    OfRows(c.view, id);
    OfRows(d.view, id);
    OfRows(Step(c, e).view, id);
    OfRows(Step(d, e).view, id);
    HasIdIsOf(c.view, id);
    HasIdIsOf(d.view, id);
    forall m: Message | m.id == id ensures m in Step(c, e).view <==> m in Step(d, e).view {
      match e
      case Remove(other) => WithoutRows(c.view, other); WithoutRows(d.view, other);
      case Rollback(snapshot) => PutBackRows(c.view, snapshot, m); PutBackRows(d.view, snapshot, m);
      case Edit(other, content) => SameEdited(c.view, d.view, other, content, m);
      case Replace(other, row) => ReplacedRows(c.view, other, row, m); ReplacedRows(d.view, other, row, m);
    }
  }

  lemma SameEdited(view: Messages, view': Messages, other: Id, content: JsString, m: Message)
    requires forall p: Message :: p.id == m.id ==> (p in view <==> p in view')
    ensures m in EditedView(view, other, content) <==> m in EditedView(view', other, content)
  {
    EditedRows(view, other, content, m);
    EditedRows(view', other, content, m);
    hide EditedView;
  }

  /** The run without the events that concern one message. */
  function Others(es: seq<Event>, id: Id): seq<Event> {
    if es == [] then []
    else if Concerns(es[|es| - 1], id) then Others(es[..|es| - 1], id)
    else Others(es[..|es| - 1], id) + [es[|es| - 1]]
  }

  lemma RunSnoc(c: Chat, es: seq<Event>, e: Event)
    ensures Run(c, es + [e]) == Step(Run(c, es), e)
  {
    assert (es + [e])[..|es|] == es;
  }

  lemma SameForTransitive(a: Chat, b: Chat, c: Chat, id: Id)
    requires SameFor(a, b, id) && SameFor(b, c, id)
    ensures SameFor(a, c, id)
  {
    hide Of;
  }

  lemma SameForRefl(c: Chat, id: Id)
    ensures SameFor(c, c, id)
  {
    hide Of;
  }

  /** Over any run, other activity at the awaits included: deleting or editing one message, whatever comes of
      it, makes no difference to any other message. */
  lemma {:induction false} OthersAreUnaffected(c: Chat, es: seq<Event>, id: Id, other: Id)
    requires other != id && forall i :: 0 <= i < |es| ==> KeepsIds(es[i])
    ensures SameFor(Run(c, es), Run(c, Others(es, id)), other)
    decreases |es|
  {
    hide Step, SameFor, Concerns;
    if es == [] {
      SameForRefl(c, other);
    } else {
      var rest, e := es[..|es| - 1], es[|es| - 1];
      OthersAreUnaffected(c, rest, id, other);
      if Concerns(e, id) {
        ConcernsNoOther(Run(c, rest), e, id, other);
        SameForTransitive(Step(Run(c, rest), e), Run(c, rest), Run(c, Others(rest, id)), other);
      } else {
        SameForStep(Run(c, rest), Run(c, Others(rest, id)), e, other);
        RunSnoc(c, Others(rest, id), e);
      }
    }
  }

  lemma {:induction false} OthersConcat(a: seq<Event>, b: seq<Event>, id: Id)
    ensures Others(a + b, id) == Others(a, id) + Others(b, id)
    decreases |b|
  {
    if b == [] {
      assert a + b == a;
    } else {
      OthersConcat(a, b[..|b| - 1], id);
      assert (a + b)[..|a + b| - 1] == a + b[..|b| - 1];
    }
  }

  lemma OthersOfOne(e: Event, id: Id)
    ensures Others([e], id) == if Concerns(e, id) then [] else [e]
  {
    assert [e][..0] == [];
  }

  lemma LiveOf(rows: Messages, id: Id)
    ensures HasLive(rows, id) <==> exists m: Message :: m in Of(rows, id) && !m.tombstoned
  {
    OfRows(rows, id);
    if HasLive(rows, id) {
      var i :| 0 <= i < |rows| && rows[i].id == id && !rows[i].tombstoned;
      assert rows[i] in Of(rows, id);
    }
    forall m: Message | m in Of(rows, id) && !m.tombstoned ensures HasLive(rows, id) {
      var i :| 0 <= i < |rows| && rows[i] == m;
    }
  }

  /** A successful delete, whatever ran at its awaits, leaves every other message as it would be without it: live
      in storage or not, and shown or not by the view and by a later reconcile. */
  lemma DeleteTouchesNoOther(c: Chat, id: Id, publishing: seq<Event>, settling: seq<Event>, other: Id)
    requires other != id && forall e :: e in publishing || e in settling ==> KeepsIds(e)
    ensures var with, without := Run(c, DeleteEvents(id, publishing, settling)), Run(c, Others(publishing, id) + Others(settling, id));
            && (HasLive(with.rows, other) <==> HasLive(without.rows, other))
            && (forall m: Message :: m.id == other ==> (m in with.view <==> m in without.view))
            && (forall m: Message :: m.id == other ==> (m in Step(with, ReconcileNow).view <==> m in Step(without, ReconcileNow).view))
  {
    var es := DeleteEvents(id, publishing, settling);
    forall i | 0 <= i < |es| ensures KeepsIds(es[i]) {
      assert es[i] in publishing || es[i] in settling || es[i].Remove? || es[i].Tombstone?;
    }
    OthersOfDelete(id, publishing, settling);
    hide DeleteEvents, Run, Step, Others;
    OthersAreUnaffected(c, es, id, other);
    var a, b := Run(c, es), Run(c, Others(publishing, id) + Others(settling, id));
    SameForStep(a, b, ReconcileNow, other);
    LiveOf(a.rows, other);
    LiveOf(b.rows, other);
    OfRows(a.view, other);
    OfRows(b.view, other);
    OfRows(Step(a, ReconcileNow).view, other);
    OfRows(Step(b, ReconcileNow).view, other);
    hide Of, HasLive;
  }

  lemma OthersOfDelete(id: Id, publishing: seq<Event>, settling: seq<Event>)
    ensures Others(DeleteEvents(id, publishing, settling), id) == Others(publishing, id) + Others(settling, id)
  {
    hide Others;
    OthersOfOne(Remove(id), id);
    OthersOfOne(Tombstone(id), id);
    OthersConcat([Remove(id)], publishing, id);
    OthersConcat([Remove(id)] + publishing, [Tombstone(id)], id);
    OthersConcat([Remove(id)] + publishing + [Tombstone(id)], settling, id);
    OthersConcat([Remove(id)] + publishing + [Tombstone(id)] + settling, [Remove(id)], id);
  }

  // ── A failed delete ──────────────────────────────────────────────────────

  lemma {:induction false} WithoutAbsent(view: Messages, id: Id)
    requires !HasId(view, id)
    ensures Without(view, id) == view
  {
    if view != [] {
      assert view == view[..|view| - 1] + [view[|view| - 1]];
      WithoutAbsent(view[..|view| - 1], id);
    }
  }

  function RowsOf(view: Messages, id: Id): nat {
    if view == [] then 0
    else RowsOf(view[..|view| - 1], id) + if view[|view| - 1].id == id then 1 else 0
  }

  lemma {:induction false} WithoutCounts(view: Messages, id: Id)
    ensures |Without(view, id)| + RowsOf(view, id) == |view|
    ensures RowsOf(view, id) == 0 <==> !HasId(view, id)
  {
    if view != [] {
      var rest, last := view[..|view| - 1], view[|view| - 1];
      WithoutCounts(rest, id);
      HasIdSnoc(rest, last, id);
      assert view == rest + [last];
    }
  }

  lemma {:induction false} WithoutOnly(view: Messages, m: Message)
    requires m in view && RowsOf(view, m.id) == 1
    ensures multiset(Without(view, m.id)) + multiset{m} == multiset(view)
  {
    var rest, last := view[..|view| - 1], view[|view| - 1];
    assert view == rest + [last];
    WithoutCounts(rest, m.id);
    RowHasItsId(rest, m);
    if last.id == m.id {
      assert m == last;
      WithoutAbsent(rest, m.id);
    } else {
      WithoutOnly(rest, m);
    }
  }

  /** A failed publish with nothing in between restores the view, up to the order of rows of one instant,
      exactly when the view held the message once. */
  lemma FailedDeleteRestores(view: Messages, snapshot: Message)
    requires snapshot in view
    ensures multiset(PutBack(Without(view, snapshot.id), snapshot)) == multiset(view) <==> RowsOf(view, snapshot.id) == 1
    ensures Sorted(PutBack(Without(view, snapshot.id), snapshot))
  {
    var all := Without(view, snapshot.id) + [snapshot];
    SortSorts(all);
    WithoutCounts(view, snapshot.id);
    if RowsOf(view, snapshot.id) == 1 {
      WithoutOnly(view, snapshot);
    }
    assert |multiset(all)| == |all| == |Without(view, snapshot.id)| + 1;
    assert |multiset(view)| == |view|;
  }

  /** Exactly when the unchecked append is harmless. */
  lemma PutBackUnique(view: Messages, snapshot: Message)
    ensures UniqueIds(PutBack(view, snapshot)) <==> UniqueIds(view) && !HasId(view, snapshot.id)
  {
    var all := view + [snapshot];
    SortSorts(all);
    if UniqueIds(all) { UniqueIdsPermute(all, Sort(all)); }
    if UniqueIds(Sort(all)) { UniqueIdsPermute(Sort(all), all); }
    assert all[|view|] == snapshot && forall i :: 0 <= i < |view| ==> all[i] == view[i];
  }

  /** A failed publish with a reconcile in the window: the id ends up once in the view exactly when storage
      held no live row of it, so an ordinary stored message ends up twice. */
  lemma FailedDeleteAfterReconcile(c: Chat, snapshot: Message)
    requires UniqueIds(c.view) && UniqueIds(c.rows)
    ensures UniqueIds(Run(c, [Remove(snapshot.id), ReconcileNow, Rollback(snapshot)]).view)
            <==> !HasLive(c.rows, snapshot.id)
  {
    hide Reconcile, PutBack, Without, Run, UniqueIds;
    RemoveThenReconcile(c, snapshot.id, Rollback(snapshot));
    WithoutRows(c.view, snapshot.id);
    WithoutUnique(c.view, snapshot.id);
    ReconcileRows(Without(c.view, snapshot.id), c.rows);
    ReconcileAbsent(Without(c.view, snapshot.id), c.rows, snapshot.id);
    PutBackUnique(Reconcile(Without(c.view, snapshot.id), c.rows), snapshot);
  }

  lemma PutBackLast(view: Messages, m: Message)
    requires Sorted(view + [m])
    ensures PutBack(view, m) == view + [m]
  {
    hide Sort;
    SortKeepsSorted(view + [m]);
  }

  lemma WithoutItself(m: Message)
    ensures Without([m], m.id) == [] && Without([m, m], m.id) == []
  {
    assert [m][..0] == [] && [m, m][..1] == [m];
    assert Without([m], m.id) == [];
  }

  lemma ReconcileNothingWith(m: Message)
    requires !m.tombstoned
    ensures Reconcile([], [m]) == [m]
  {
    assert [m][..0] == [];
    assert NewFromStore([], [m][..0]) == [];
    assert NewFromStore([], [m]) == [] + [m] == [m];
    assert Merged([], [m]) == [] && [] + [m] == [m];
    assert Visible([m]) == [] + [m] == [m];
    SortKeepsSorted([m]);
  }

  /** A message that a failed delete has doubled, and the next failed delete of it, which keeps one row. */
  lemma SecondFailedDeleteLosesARow(m: Message)
    requires !m.tombstoned
    ensures var doubled := Run(Chat([m], [m], []), [Remove(m.id), ReconcileNow, Rollback(m)]);
            && doubled.view == [m, m]
            && PutBack(Without(doubled.view, m.id), m) == [m]
  {
    var c := Chat([m], [m], []);
    RemoveThenReconcile(c, m.id, Rollback(m));
    hide Run, PutBack, Without, Reconcile;
    PutBackLast([], m);
    PutBackLast([m], m);
    WithoutItself(m);
    ReconcileNothingWith(m);
    assert [] + [m] == [m] && [m] + [m] == [m, m];
    assert Step(Chat([m], [m], []), Rollback(m)).view == PutBack([m], m);
  }

  // ── Any publish window ───────────────────────────────────────────────────

  /** A reconcile with these rows shows an id the view has. */
  ghost predicate KeepsShown(prev: Messages, stored: Messages, id: Id) {
    match StoredRow(stored, id)
    case Some(row) => !row.tombstoned
    case None => HasLive(prev, id)
  }

  /** The event brings an id into a view that lacks it. */
  ghost predicate Brings(c: Chat, e: Event, id: Id) {
    && !HasId(c.view, id)
    && match e
       case Rollback(snapshot) => snapshot.id == id
       case Replace(other, row) => row.id == id && HasId(c.view, other)
       case OtherView(view) => HasId(view, id)
       case ReconcileNow => HasLive(c.rows, id)
       case ApplyRead(i) => i < |c.loads| && HasLive(c.loads[i], id)
       case _ => false
  }

  /** The event takes an id out of a view that has it. */
  ghost predicate Takes(c: Chat, e: Event, id: Id) {
    && HasId(c.view, id)
    && match e
       case Remove(other) => other == id
       case Replace(other, row) => other == id && row.id != id
       case OtherView(view) => !HasId(view, id)
       case ReconcileNow => !KeepsShown(c.view, c.rows, id)
       case ApplyRead(i) => i < |c.loads| && !KeepsShown(c.view, c.loads[i], id)
       case _ => false
  }

  lemma ReconcilePresent(prev: Messages, stored: Messages, id: Id)
    requires HasId(prev, id)
    ensures HasId(Reconcile(prev, stored), id) <==> KeepsShown(prev, stored, id)
  {
    var r := Reconcile(prev, stored);
    ReconcileRows(prev, stored);
    StoredRowFound(stored, id);
    hide Reconcile;
    if KeepsShown(prev, stored, id) {
      if StoredRow(stored, id).Some? {
        RowHasItsId(r, StoredRow(stored, id).value);
      } else {
        var i :| 0 <= i < |prev| && prev[i].id == id && !prev[i].tombstoned;
        RowHasItsId(r, prev[i]);
      }
    }
    forall i | 0 <= i < |r| && r[i].id == id ensures KeepsShown(prev, stored, id) {
      assert r[i] in r && Shows(prev, stored, r[i]);
    }
  }

  lemma WithoutOther(view: Messages, other: Id, id: Id)
    requires other != id
    ensures HasId(Without(view, other), id) <==> HasId(view, id)
  {
    WithoutRows(view, other);
    forall i | 0 <= i < |view| && view[i].id == id ensures HasId(Without(view, other), id) {
      RowHasItsId(Without(view, other), view[i]);
    }
    forall i | 0 <= i < |Without(view, other)| && Without(view, other)[i].id == id ensures HasId(view, id) {
      RowHasItsId(view, Without(view, other)[i]);
    }
  }

  lemma ReplacedIds(view: Messages, other: Id, row: Message, id: Id)
    ensures HasId(Replaced(view, other, row), id)
            <==> (HasId(view, id) && other != id) || (row.id == id && HasId(view, other))
  {
    var r := Replaced(view, other, row);
    forall i | 0 <= i < |view| && (view[i].id == other || view[i].id == id)
      ensures view[i].id == other && row.id == id ==> HasId(r, id)
      ensures view[i].id == id && other != id ==> HasId(r, id)
    {
      assert r[i].id == if view[i].id == other then row.id else view[i].id;
    }
  }

  lemma EditedIds(view: Messages, other: Id, content: JsString, id: Id)
    ensures HasId(EditedView(view, other, content), id) <==> HasId(view, id)
  {
    assert forall i :: 0 <= i < |view| ==> EditedView(view, other, content)[i].id == view[i].id;
  }

  lemma PresenceStep(c: Chat, e: Event, id: Id)
    ensures HasId(Step(c, e).view, id) <==> Brings(c, e, id) || (HasId(c.view, id) && !Takes(c, e, id))
  {
    hide Reconcile, PutBack, Without, Replaced, EditedView, Tombstoned, KeepsShown, HasLive, HasId;
    match e
    case Remove(other) =>
      if other == id { WithoutRows(c.view, id); } else { WithoutOther(c.view, other, id); }
    case Rollback(snapshot) => PutBackIds(c.view, snapshot, id);
    case Edit(other, content) => EditedIds(c.view, other, content, id);
    case Replace(other, row) => ReplacedIds(c.view, other, row, id);
    case ReconcileNow => ReconcilePresence(c.view, c.rows, id);
    case ApplyRead(i) => if i < |c.loads| { ReconcilePresence(c.view, c.loads[i], id); }
    case _ =>
  }

  lemma ReconcilePresence(prev: Messages, stored: Messages, id: Id)
    ensures HasId(Reconcile(prev, stored), id) <==> if HasId(prev, id) then KeepsShown(prev, stored, id) else HasLive(stored, id)
  {
    if HasId(prev, id) { ReconcilePresent(prev, stored, id); } else { ReconcileAbsent(prev, stored, id); }
  }

  /** The event at `k` brought the id in, and none after it took it out. */
  ghost predicate BroughtAt(c: Chat, es: seq<Event>, id: Id, k: nat)
    requires k < |es|
  {
    Brings(Run(c, es[..k]), es[k], id) && forall j :: k < j < |es| ==> !Takes(Run(c, es[..j]), es[j], id)
  }

  /** Some event of the run brought the id in for good. */
  ghost predicate BroughtBack(c: Chat, es: seq<Event>, id: Id) {
    exists k: nat :: k < |es| && BroughtAt(c, es, id, k)
  }

  lemma BroughtAtSnoc(c: Chat, es: seq<Event>, e: Event, id: Id, k: nat)
    requires k <= |es|
    ensures BroughtAt(c, es + [e], id, k) <==>
              if k == |es| then Brings(Run(c, es), e, id) else BroughtAt(c, es, id, k) && !Takes(Run(c, es), e, id)
  {
    var more := es + [e];
    hide Brings, Takes, Run;
    assert more[..|es|] == es && more[|es|] == e;
    assert forall j :: 0 <= j < |es| ==> more[..j] == es[..j] && more[j] == es[j];
    if k < |es| && BroughtAt(c, more, id, k) {
      forall j | k < j < |es| ensures !Takes(Run(c, es[..j]), es[j], id) {
        assert !Takes(Run(c, more[..j]), more[j], id);
      }
      assert !Takes(Run(c, more[..|es|]), more[|es|], id);
    }
  }

  lemma BroughtBackSnoc(c: Chat, es: seq<Event>, e: Event, id: Id)
    ensures BroughtBack(c, es + [e], id) <==>
              Brings(Run(c, es), e, id) || (BroughtBack(c, es, id) && !Takes(Run(c, es), e, id))
  {
    hide Brings, Takes, Run, BroughtAt;
    forall k: nat | k <= |es|
      ensures BroughtAt(c, es + [e], id, k) <==>
                if k == |es| then Brings(Run(c, es), e, id) else BroughtAt(c, es, id, k) && !Takes(Run(c, es), e, id)
    {
      BroughtAtSnoc(c, es, e, id, k);
    }
    assert |es + [e]| == |es| + 1;
    assert BroughtAt(c, es + [e], id, |es|) <==> Brings(Run(c, es), e, id);
    if BroughtBack(c, es, id) && !Takes(Run(c, es), e, id) {
      var k: nat :| k < |es| && BroughtAt(c, es, id, k);
      assert BroughtAt(c, es + [e], id, k);
    }
  }

  /** Over any run from a view without the id: exactly when it is shown at the end. */
  lemma {:induction false} PresenceOverRun(c: Chat, es: seq<Event>, id: Id)
    requires !HasId(c.view, id)
    ensures HasId(Run(c, es).view, id) <==> BroughtBack(c, es, id)
    decreases |es|
  {
    if es != [] {
      var rest, e := es[..|es| - 1], es[|es| - 1];
      assert es == rest + [e];
      hide BroughtBack, Step, Brings, Takes, HasId;
      PresenceOverRun(c, rest, id);
      BroughtBackSnoc(c, rest, e, id);
      PresenceStep(Run(c, rest), e, id);
      TakesOnlyShown(Run(c, rest), e, id);
    }
  }

  lemma TakesOnlyShown(c: Chat, e: Event, id: Id)
    ensures Takes(c, e, id) ==> HasId(c.view, id)
    ensures Brings(c, e, id) ==> !HasId(c.view, id)
  {
  }

  /** A failed publish after any window: the rolled-back view shows no id twice exactly when the view before
      the rollback did not, and nothing in the window had brought the message back for good. */
  lemma FailedDeleteAfterWindow(c: Chat, snapshot: Message, window: seq<Event>)
    ensures var removed := Step(c, Remove(snapshot.id));
            UniqueIds(Run(c, [Remove(snapshot.id)] + window + [Rollback(snapshot)]).view)
            <==> UniqueIds(Run(removed, window).view) && !BroughtBack(removed, window, snapshot.id)
  {
    var id := snapshot.id;
    var removed := Step(c, Remove(id));
    WithoutRows(c.view, id);
    RunOne(c, Remove(id));
    RunAppend(c, [Remove(id)], window);
    RunAppend(c, [Remove(id)] + window, [Rollback(snapshot)]);
    RunOne(Run(removed, window), Rollback(snapshot));
    PresenceOverRun(removed, window, id);
    PutBackUnique(Run(removed, window).view, snapshot);
    hide Run, Without, PutBack, UniqueIds, BroughtBack;
  }

  lemma {:induction false} WithoutUnique(view: Messages, id: Id)
    requires UniqueIds(view)
    ensures UniqueIds(Without(view, id))
  {
    if view != [] {
      var rest, last := view[..|view| - 1], view[|view| - 1];
      WithoutUnique(rest, id);
      WithoutRows(rest, id);
      forall i | 0 <= i < |Without(rest, id)| ensures Without(rest, id)[i].id != last.id {
        assert Without(rest, id)[i] in rest;
      }
    }
  }

  lemma {:induction false} VisibleCount(ms: Messages, m: Message)
    requires !m.tombstoned
    ensures multiset(Visible(ms))[m] == multiset(ms)[m]
  {
    if ms != [] {
      VisibleCount(ms[..|ms| - 1], m);
      assert ms == ms[..|ms| - 1] + [ms[|ms| - 1]];
    }
  }

  /** No later reconcile repairs a doubled row: storage's row is substituted for both copies. */
  lemma DoubledRowSurvives(prev: Messages, stored: Messages, i: nat, j: nat)
    requires i < j < |prev| && prev[i].id == prev[j].id
    requires StoredRow(stored, prev[i].id).Some? && !StoredRow(stored, prev[i].id).value.tombstoned
    ensures !UniqueIds(Reconcile(prev, stored))
  {
    var row := StoredRow(stored, prev[i].id).value;
    var merged := Merged(prev, stored);
    var all := merged + NewFromStore(merged, stored);
    assert all[i] == row && all[j] == row;
    TwiceInMultiset(all, i, j);
    VisibleCount(all, row);
    SortSorts(Visible(all));
    if UniqueIds(Reconcile(prev, stored)) {
      OnceInUnique(Reconcile(prev, stored), row);
    }
  }

  // ── Edits ────────────────────────────────────────────────────────────────

  /** Rolling an edit back undoes it exactly when every row of the id was the snapshot, as it is when there is
      one row only. */
  lemma FailedEditRestores(view: Messages, id: Id, content: JsString, snapshot: Message)
    ensures Replaced(EditedView(view, id, content), id, snapshot) == view
            <==> forall i :: 0 <= i < |view| && view[i].id == id ==> view[i] == snapshot
    ensures UniqueIds(view) && snapshot in view && snapshot.id == id ==> Replaced(EditedView(view, id, content), id, snapshot) == view
  {
    var r := Replaced(EditedView(view, id, content), id, snapshot);
    assert |r| == |view| && forall i :: 0 <= i < |view| ==> r[i] == if view[i].id == id then snapshot else view[i];
    hide Replaced, EditedView;
    if UniqueIds(view) && snapshot in view && snapshot.id == id {
      var k :| 0 <= k < |view| && view[k] == snapshot;
      assert forall i :: 0 <= i < k ==> view[i].id != view[k].id;
      assert forall i :: k < i < |view| ==> view[k].id != view[i].id;
    }
  }

  /** A doubled message whose rows differ, as after a failed delete and an edit that storage has not seen: a
      failed edit makes both rows the first. */
  lemma FailedEditMergesDoubledRows(m: Message, other: Message, content: JsString)
    requires m.id == other.id && m != other
    ensures Find([m, other], m.id) == Some(m)
    ensures Replaced(EditedView([m, other], m.id, content), m.id, m) == [m, m] != [m, other]
  {
  }

  /** The close of an edit, given the rows read for it: the row is shown, or taken away if it is deleted. */
  function Closed(c: Chat, id: Id, read: Messages): Chat {
    match Find(read, id)
    case None => c
    case Some(row) => Step(c, if row.tombstoned then Remove(id) else Replace(id, row))
  }

  /** What rows hold to be shown for an id. */
  function VisibleRow(rows: Messages, id: Id): Option<Message> {
    match Find(rows, id)
    case None => None
    case Some(row) => if row.tombstoned then None else Some(row)
  }

  /** Whatever happened during an edit, its close shows the row it read wherever the view showed the id, or
      nothing if that row is tombstoned; without a row it leaves the view alone; it touches no other message. */
  lemma EditShowsWhatItRead(c: Chat, id: Id, read: Messages, m: Message)
    ensures m.id != id ==> (m in Closed(c, id, read).view <==> m in c.view)
    ensures m.id == id ==> (m in Closed(c, id, read).view <==>
                             if HasId(read, id) then HasId(c.view, id) && VisibleRow(read, id) == Some(m) else m in c.view)
    ensures Closed(c, id, read).rows == c.rows
  {
    match Find(read, id)
    case None =>
    case Some(row) =>
      if row.tombstoned {
        WithoutRows(c.view, id);
      } else {
        ReplacedRows(c.view, id, row, m);
      }
  }

  /** The view shows for an id what storage holds for it. */
  ghost predicate Agrees(c: Chat, id: Id) {
    && (HasId(c.view, id) <==> VisibleRow(c.rows, id).Some?)
    && forall m: Message :: m in c.view && m.id == id ==> VisibleRow(c.rows, id) == Some(m)
  }

  /** The view's rows of the id are this row and no other. */
  ghost predicate ShowsOnly(view: Messages, id: Id, row: Message) {
    HasId(view, id) && forall m: Message :: m in view && m.id == id ==> m == row
  }

  /** Exactly when the close of an edit leaves view and storage in agreement. If the read had a row and the view
      still shows the id: when what storage shows for the id has not changed since the read. Otherwise the close
      does nothing for the id, and they agree when neither has anything to show, or when the read had no row
      and the view shows just what storage has come to hold. */
  lemma EditAgreesIff(c: Chat, id: Id, read: Messages)
    ensures Agrees(Closed(c, id, read), id)
            <==> if HasId(read, id) && HasId(c.view, id) then VisibleRow(c.rows, id) == VisibleRow(read, id)
                 else
                   match VisibleRow(c.rows, id)
                   case None => !HasId(c.view, id)
                   case Some(row) => !HasId(read, id) && ShowsOnly(c.view, id, row)
  {
    var after := Closed(c, id, read);
    forall m: Message
      ensures m.id == id ==> (m in after.view <==>
                               if HasId(read, id) then HasId(c.view, id) && VisibleRow(read, id) == Some(m) else m in c.view)
      ensures after.rows == c.rows
    {
      EditShowsWhatItRead(c, id, read, m);
    }
    ShownBy(after.view, id);
    ShownBy(c.view, id);
    RowHasId(read, id);
    hide Closed, VisibleRow, HasId;
    if HasId(read, id) && HasId(c.view, id) && VisibleRow(read, id).Some? {
      assert VisibleRow(read, id).value in after.view;
    }
  }

  /** Storage unchanged is not enough: an edited message that is not stored, its first write pending or failed,
      stays in the view, which storage knows nothing of. */
  lemma EditOfUnstoredMessage(m: Message, content: JsString)
    ensures var c := Run(Chat([m], [], []), [Edit(m.id, content)]);
            && VisibleRow(c.rows, m.id) == VisibleRow([], m.id)
            && Closed(c, m.id, c.rows).view == [m.(content := content, edited := true)]
            && !Agrees(Closed(c, m.id, c.rows), m.id)
  {
    RunOne(Chat([m], [], []), Edit(m.id, content));
    var c := Run(Chat([m], [], []), [Edit(m.id, content)]);
    assert c.view[0].id == m.id;
    EditAgreesIff(c, m.id, []);
  }

  lemma ShownBy(view: Messages, id: Id)
    ensures HasId(view, id) <==> exists m: Message :: m in view && m.id == id
  {
    forall i | 0 <= i < |view| && view[i].id == id ensures exists m: Message :: m in view && m.id == id {
      assert view[i] in view;
    }
  }

  lemma RowHasId(rows: Messages, id: Id)
    ensures VisibleRow(rows, id).Some? ==> VisibleRow(rows, id).value.id == id
  {
  }

  lemma ReplacedRows(view: Messages, id: Id, row: Message, m: Message)
    requires row.id == id
    ensures m in Replaced(view, id, row) <==> (m in view && m.id != id) || (m == row && HasId(view, id))
  {
    var r := Replaced(view, id, row);
    forall i | 0 <= i < |view| && (view[i] == m || view[i].id == id)
      ensures view[i].id == id ==> row in r
      ensures view[i] == m && m.id != id ==> m in r
    {
      assert r[i] in r;
    }
  }

  /** A publish that fails puts the old row back over everything that happened to it in the meantime. */
  lemma FailedEditShowsSnapshot(c: Chat, id: Id, snapshot: Message, m: Message)
    requires snapshot.id == id
    ensures m in Step(c, Replace(id, snapshot)).view <==> (m in c.view && m.id != id) || (m == snapshot && HasId(c.view, id))
  {
    ReplacedRows(c.view, id, snapshot, m);
  }

  // ── Sending ──────────────────────────────────────────────────────────────

  /** One call of `sendApplicationRumor`; `commitOk` is what the commit after it would do. */
  datatype Attempt = Sent | Unapplied(commitOk: bool) | Broken

  const MAX_RETRIES: nat := 3

  ghost predicate Retried(net: nat -> Attempt, n: nat) {
    forall k :: 0 <= k < n ==> net(k) == Unapplied(true)
  }

  /** `sendRumorSafe`: at most four sends and three commits; it succeeds iff one of the four sends is
      accepted and everything before it was only blocked by unapplied proposals that a commit cleared. */
  method SendRumorSafe(net: nat -> Attempt) returns (ok: bool, sends: nat, commits: nat)
    ensures 1 <= sends <= MAX_RETRIES + 1 && sends - 1 <= commits <= MAX_RETRIES && commits <= sends
    ensures forall k :: 0 <= k < sends - 1 ==> net(k) == Unapplied(true)
    ensures ok <==> net(sends - 1) == Sent
    ensures ok <==> exists k: nat :: k <= 3 && net(k) == Sent && Retried(net, k)
    ensures !ok ==> net(sends - 1) == Broken || net(sends - 1) == Unapplied(false) || sends == MAX_RETRIES + 1
  {
    sends, commits := 0, 0;
    while true
      invariant sends == commits <= MAX_RETRIES
      invariant Retried(net, sends)
      decreases MAX_RETRIES - sends
    {
      var attempt := sends;
      sends := sends + 1;
      var result := net(attempt);
      if result == Sent {
        return true, sends, commits;
      }
      if result == Broken || attempt == MAX_RETRIES {
        return false, sends, commits;
      }
      commits := commits + 1;
      if !result.commitOk {
        return false, sends, commits;
      }
    }
  }

  // ── The two operations ───────────────────────────────────────────────────

  class GroupThread {
    var view: Messages
    var rows: Messages
    var loads: seq<Messages>

    ghost function State(): Chat
      reads this
    {
      Chat(view, rows, loads)
    }

    constructor (stored: Messages)
      ensures State() == Chat([], stored, [])
    {
      view, rows, loads := [], stored, [];
    }

    method Happen(e: Event)
      modifies this
      ensures State() == Step(old(State()), e)
    {
      hide Reconcile, PutBack, Without, Tombstoned, EditedView, Replaced;
      match e
      case Remove(id) => view := Without(view, id);
      case Tombstone(id) => rows := Tombstoned(rows, id);
      case Rollback(snapshot) => view := PutBack(view, snapshot);
      case Edit(id, content) => view := EditedView(view, id, content);
      case Replace(id, row) => view := Replaced(view, id, row);
      case Store(stored) => rows := stored;
      case OtherView(other) => view := other;
      case ReconcileNow => view := Reconcile(view, rows);
      case BeginRead => loads := loads + [rows];
      case ApplyRead(k) =>
        if k < |loads| {
          view, loads := Reconcile(view, loads[k]), loads[..k] + loads[k + 1..];
        }
    }

    /** Everything else that happens at an await, in order. */
    method Meanwhile(es: seq<Event>)
      modifies this
      ensures State() == Run(old(State()), es)
    {
      for i := 0 to |es|
        invariant State() == Run(old(State()), es[..i])
      {
        assert es[..i + 1][..i] == es[..i];
        hide Step;
        Happen(es[i]);
      }
      assert es[..|es|] == es;
    }

    /** `performGroupDeleteMessage`. `prepared` says whether the revision lookup and the rumor building went
        through; `durable` whether the tombstone was written, a failure of which is swallowed. */
    method PerformGroupDelete(id: Id, pubkey: JsString, prepared: bool, net: nat -> Attempt, durable: bool,
                              publishing: seq<Event>, settling: seq<Event>)
      returns (refused: bool, thrown: bool)
      modifies this
      ensures refused <==> !HasId(old(view), id) || Lower(Find(old(view), id).value.senderPubkey) != Lower(pubkey)
      ensures refused ==> !thrown && State() == old(State())
      ensures !refused ==> (thrown <==> !(prepared && exists k: nat :: k <= MAX_RETRIES && net(k) == Sent && Retried(net, k)))
      ensures !refused && thrown ==>
                State() == Run(old(State()), [Remove(id)] + publishing + [Rollback(Find(old(view), id).value)])
      ensures !refused && !thrown && durable ==>
                State() == Run(old(State()), DeleteEvents(id, publishing, settling))
      ensures !refused && !thrown && !durable ==>
                State() == Run(old(State()), [Remove(id)] + publishing + settling + [Remove(id)])
      ensures !refused && !thrown ==> !HasId(view, id)
    {
      hide Run, Without, Tombstoned, PutBack, DeleteEvents;
      refused, thrown := false, false;
      var snapshot := Find(view, id);
      if snapshot.None? || Lower(snapshot.value.senderPubkey) != Lower(pubkey) {
        refused := true;
        return;
      }
      ghost var start := State();
      Meanwhile([Remove(id)]);
      Meanwhile(publishing);
      RunAppend(start, [Remove(id)], publishing);
      ghost var head := [Remove(id)] + publishing;
      var sent := false;
      if prepared {
        var sends, commits;
        sent, sends, commits := SendRumorSafe(net);
      }
      if !sent {
        Meanwhile([Rollback(snapshot.value)]);
        RunAppend(start, head, [Rollback(snapshot.value)]);
        thrown := true;
        return;
      }
      if durable {
        Meanwhile([Tombstone(id)]);
        RunAppend(start, head, [Tombstone(id)]);
        head := head + [Tombstone(id)];
      }
      Meanwhile(settling);
      RunAppend(start, head, settling);
      ghost var settled := State();
      Meanwhile([Remove(id)]);
      RunAppend(start, head + settling, [Remove(id)]);
      LastRemoval(settled, id);
      DeleteSplit(id, publishing, settling);
    }

    /** `performGroupEditMessage`. `durable` is what the apply leaves in storage, None if it fails, which is
        swallowed, as is a failure of the companion event; `reread` whether the closing load works, whose
        failure rolls back although the edit was published. `closing` happens between that load and its use. */
    method PerformGroupEdit(id: Id, content: JsString, pubkey: JsString, prepared: bool, net: nat -> Attempt,
                            durable: Option<Messages>, companion: nat -> Attempt, reread: bool,
                            publishing: seq<Event>, settling: seq<Event>, closing: seq<Event>)
      returns (refused: bool, thrown: bool)
      modifies this
      ensures refused <==> !HasId(old(view), id) || Lower(Find(old(view), id).value.senderPubkey) != Lower(pubkey)
      ensures refused ==> !thrown && State() == old(State())
      ensures !refused ==>
                (thrown <==> !(prepared && reread && exists k: nat :: k <= MAX_RETRIES && net(k) == Sent && Retried(net, k)))
      ensures !refused ==>
                var snapshot := Find(old(view), id).value;
                var head := [Edit(id, content)] + publishing;
                var applied := if durable.Some? then [Store(durable.value)] else [];
                var sent := prepared && exists k: nat :: k <= MAX_RETRIES && net(k) == Sent && Retried(net, k);
                State() == if !sent then Run(old(State()), head + [Replace(id, snapshot)])
                           else if !reread then Step(Run(old(State()), head + applied + settling), Replace(id, snapshot))
                           else
                             var read := Run(old(State()), head + applied + settling);
                             Closed(Run(read, closing), id, read.rows)
    {
      hide Run, EditedView, Replaced, Without;
      refused, thrown := false, false;
      var snapshot := Find(view, id);
      if snapshot.None? || Lower(snapshot.value.senderPubkey) != Lower(pubkey) {
        refused := true;
        return;
      }
      ghost var start := State();
      ghost var head := [Edit(id, content)] + publishing;
      Meanwhile([Edit(id, content)]);
      Meanwhile(publishing);
      RunAppend(start, [Edit(id, content)], publishing);
      var sent := false;
      if prepared {
        var sends, commits;
        sent, sends, commits := SendRumorSafe(net);
      }
      if !sent {
        Meanwhile([Replace(id, snapshot.value)]);
        RunAppend(start, head, [Replace(id, snapshot.value)]);
        thrown := true;
        return;
      }
      ghost var applied := if durable.Some? then [Store(durable.value)] else [];
      if durable.Some? {
        Meanwhile([Store(durable.value)]);
        RunAppend(start, head, [Store(durable.value)]);
      }
      assert head + applied == if durable.Some? then head + [Store(durable.value)] else head;
      var companionSent, tries, repairs := SendRumorSafe(companion);
      Meanwhile(settling);
      RunAppend(start, head + applied, settling);
      if !reread {
        view := Replaced(view, id, snapshot.value);
        thrown := true;
        return;
      }
      var after := rows;
      Meanwhile(closing);
      var updated := Find(after, id);
      if updated.Some? {
        view := if updated.value.tombstoned then Without(view, id) else Replaced(view, id, updated.value);
      }
    }
  }

  lemma LastRemoval(c: Chat, id: Id)
    ensures !HasId(Run(c, [Remove(id)]).view, id)
  {
    RunOne(c, Remove(id));
    WithoutRows(c.view, id);
  }

  lemma DeleteSplit(id: Id, publishing: seq<Event>, settling: seq<Event>)
    ensures DeleteEvents(id, publishing, settling)
            == ([Remove(id)] + publishing + [Tombstone(id)]) + settling + [Remove(id)]
  {
  }
}
