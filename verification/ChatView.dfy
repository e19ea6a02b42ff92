/** The rendered message list of a group chat and its reconciliation with the stored rows. */
module ChatView {
  import opened Js

  type Id = JsString

  datatype Message = Message(id: Id, content: JsString, senderPubkey: JsString, createdAt: int, tombstoned: bool, edited: bool)

  type Messages = seq<Message>

  ghost predicate HasId(ms: Messages, id: Id) {
    exists i :: 0 <= i < |ms| && ms[i].id == id
  }

  ghost predicate UniqueIds(ms: Messages) {
    forall i, j :: 0 <= i < j < |ms| ==> ms[i].id != ms[j].id
  }

  // ── Stable sort by createdAt ─────────────────────────────────────────────

  ghost predicate Sorted(ms: Messages) {
    forall i, j :: 0 <= i < j < |ms| ==> ms[i].createdAt <= ms[j].createdAt
  }

  /** Puts a message behind everything not younger than it. */
  function Insert(ms: Messages, m: Message): Messages {
    if ms == [] || ms[|ms| - 1].createdAt <= m.createdAt then ms + [m]
    else Insert(ms[..|ms| - 1], m) + [ms[|ms| - 1]]
  }

  function Sort(ms: Messages): Messages {
    if ms == [] then [] else Insert(Sort(ms[..|ms| - 1]), ms[|ms| - 1])
  }

  lemma {:induction false} InsertKeeps(ms: Messages, m: Message)
    ensures multiset(Insert(ms, m)) == multiset(ms) + multiset{m}
  {
    if ms != [] && ms[|ms| - 1].createdAt > m.createdAt {
      var rest, last := ms[..|ms| - 1], ms[|ms| - 1];
      InsertKeeps(rest, m);
      assert ms == rest + [last];
    }
  }

  ghost predicate NoneAfter(ms: Messages, t: int) {
    forall i :: 0 <= i < |ms| ==> ms[i].createdAt <= t
  }

  lemma {:induction false} InsertBounded(ms: Messages, m: Message, t: int)
    requires NoneAfter(ms, t) && m.createdAt <= t
    ensures NoneAfter(Insert(ms, m), t)
  {
    if ms != [] && ms[|ms| - 1].createdAt > m.createdAt {
      InsertBounded(ms[..|ms| - 1], m, t);
    }
  }

  lemma {:induction false} InsertSorted(ms: Messages, m: Message)
    requires Sorted(ms)
    ensures Sorted(Insert(ms, m))
  {
    if ms != [] && ms[|ms| - 1].createdAt > m.createdAt {
      InsertSorted(ms[..|ms| - 1], m);
      InsertBounded(ms[..|ms| - 1], m, ms[|ms| - 1].createdAt);
    }
  }

  lemma {:induction false} SortSorts(ms: Messages)
    ensures Sorted(Sort(ms)) && multiset(Sort(ms)) == multiset(ms)
  {
    if ms != [] {
      SortSorts(ms[..|ms| - 1]);
      InsertSorted(Sort(ms[..|ms| - 1]), ms[|ms| - 1]);
      InsertKeeps(Sort(ms[..|ms| - 1]), ms[|ms| - 1]);
      assert ms == ms[..|ms| - 1] + [ms[|ms| - 1]];
    }
  }

  /** Stability, as far as it is used: what is sorted already is left alone. */
  lemma {:induction false} SortKeepsSorted(ms: Messages)
    requires Sorted(ms)
    ensures Sort(ms) == ms
  {
    if ms != [] {
      SortKeepsSorted(ms[..|ms| - 1]);
    }
  }

  function At(ms: Messages, t: int): Messages {
    if ms == [] then []
    else if ms[|ms| - 1].createdAt == t then At(ms[..|ms| - 1], t) + [ms[|ms| - 1]]
    else At(ms[..|ms| - 1], t)
  }

  /** Stability in full: messages of one instant keep their order. */
  lemma {:induction false} SortStable(ms: Messages, t: int)
    ensures At(Sort(ms), t) == At(ms, t)
  {
    if ms != [] {
      SortStable(ms[..|ms| - 1], t);
      SortSorts(ms[..|ms| - 1]);
      InsertStable(Sort(ms[..|ms| - 1]), ms[|ms| - 1], t);
    }
  }

  lemma {:induction false} InsertStable(ms: Messages, m: Message, t: int)
    requires Sorted(ms)
    ensures At(Insert(ms, m), t) == if m.createdAt == t then At(ms, t) + [m] else At(ms, t)
  {
    if ms != [] && ms[|ms| - 1].createdAt > m.createdAt {
      var rest, last := ms[..|ms| - 1], ms[|ms| - 1];
      InsertStable(rest, m, t);
      assert Insert(ms, m)[..|Insert(ms, m)| - 1] == Insert(rest, m);
      if last.createdAt == t {
        assert m.createdAt != t;
      } else if m.createdAt == t {
        assert At(ms, t) == At(rest, t);
      }
    } else {
      assert (ms + [m])[..|ms|] == ms;
    }
  }

  // ── Reconciliation ───────────────────────────────────────────────────────

  /** `new Map(stored.map(m => [m.id, m])).get(id)`: a later row replaces an earlier one. */
  function StoredRow(stored: Messages, id: Id): Option<Message> {
    if stored == [] then None
    else if stored[|stored| - 1].id == id then Some(stored[|stored| - 1])
    else StoredRow(stored[..|stored| - 1], id)
  }

  function Substituted(stored: Messages, m: Message): Message {
    match StoredRow(stored, m.id)
    case None => m
    case Some(row) => row
  }

  function Merged(prev: Messages, stored: Messages): (ms: Messages)
    ensures |ms| == |prev|
    ensures forall i :: 0 <= i < |prev| ==> ms[i] == Substituted(stored, prev[i])
  {
    seq(|prev|, i requires 0 <= i < |prev| => Substituted(stored, prev[i]))
  }

  function NewFromStore(merged: Messages, stored: Messages): Messages {
    if stored == [] then []
    else
      var rest, last := NewFromStore(merged, stored[..|stored| - 1]), stored[|stored| - 1];
      if last.id in IdsOf(merged) then rest else rest + [last]
  }

  function IdsOf(ms: Messages): set<Id> {
    set m | m in ms :: m.id
  }

  function Visible(ms: Messages): Messages {
    if ms == [] then []
    else if ms[|ms| - 1].tombstoned then Visible(ms[..|ms| - 1])
    else Visible(ms[..|ms| - 1]) + [ms[|ms| - 1]]
  }

  function Reconcile(prev: Messages, stored: Messages): Messages {
    var merged := Merged(prev, stored);
    Sort(Visible(merged + NewFromStore(merged, stored)))
  }

  // ── What is shown ────────────────────────────────────────────────────────

  /** The row that counts for an id: storage's if there is one, else the view's. */
  function Authoritative(prev: Messages, stored: Messages, id: Id): Option<Message> {
    if StoredRow(stored, id).Some? then StoredRow(stored, id) else StoredRow(prev, id)
  }

  lemma HasIdSnoc(ms: Messages, m: Message, id: Id)
    ensures HasId(ms + [m], id) <==> HasId(ms, id) || m.id == id
  {
    assert (ms + [m])[|ms|] == m;
    forall i | 0 <= i < |ms| && ms[i].id == id
      ensures HasId(ms + [m], id)
    {
      assert (ms + [m])[i].id == id;
    }
  }

  lemma {:induction false} StoredRowFound(ms: Messages, id: Id)
    ensures StoredRow(ms, id).Some? <==> HasId(ms, id)
    ensures StoredRow(ms, id).Some? ==> StoredRow(ms, id).value in ms && StoredRow(ms, id).value.id == id
  {
    if ms != [] {
      var rest, last := ms[..|ms| - 1], ms[|ms| - 1];
      StoredRowFound(rest, id);
      assert ms == rest + [last];
      HasIdSnoc(rest, last, id);
    }
  }

  lemma StoredRowIs(ms: Messages, m: Message)
    requires UniqueIds(ms) && m in ms
    ensures StoredRow(ms, m.id) == Some(m)
  {
    StoredRowFound(ms, m.id);
    var i :| 0 <= i < |ms| && ms[i] == m;
    assert HasId(ms, m.id);
    var j :| 0 <= j < |ms| && ms[j] == StoredRow(ms, m.id).value;
    assert i == j;
  }

  lemma {:induction false} VisibleRows(ms: Messages)
    ensures forall m :: m in Visible(ms) <==> m in ms && !m.tombstoned
  {
    if ms != [] {
      VisibleRows(ms[..|ms| - 1]);
      assert ms == ms[..|ms| - 1] + [ms[|ms| - 1]];
    }
  }

  lemma {:induction false} VisibleUnique(ms: Messages)
    requires UniqueIds(ms)
    ensures UniqueIds(Visible(ms))
  {
    if ms != [] {
      var rest, last := ms[..|ms| - 1], ms[|ms| - 1];
      VisibleUnique(rest);
      VisibleRows(rest);
      forall i | 0 <= i < |Visible(rest)|
        ensures Visible(rest)[i].id != last.id
      {
        assert Visible(rest)[i] in rest;
      }
    }
  }

  lemma {:induction false} NewRows(merged: Messages, stored: Messages)
    ensures forall m :: m in NewFromStore(merged, stored) <==> m in stored && m.id !in IdsOf(merged)
  {
    if stored != [] {
      NewRows(merged, stored[..|stored| - 1]);
      assert stored == stored[..|stored| - 1] + [stored[|stored| - 1]];
    }
  }

  lemma {:induction false} NewUnique(merged: Messages, stored: Messages)
    requires UniqueIds(stored)
    ensures UniqueIds(NewFromStore(merged, stored))
  {
    if stored != [] {
      var rest, last := stored[..|stored| - 1], stored[|stored| - 1];
      NewUnique(merged, rest);
      NewRows(merged, rest);
      forall i | 0 <= i < |NewFromStore(merged, rest)|
        ensures NewFromStore(merged, rest)[i].id != last.id
      {
        assert NewFromStore(merged, rest)[i] in rest;
      }
    }
  }

  lemma MergedIds(prev: Messages, stored: Messages)
    ensures forall i :: 0 <= i < |prev| ==> Merged(prev, stored)[i].id == prev[i].id
    ensures UniqueIds(prev) ==> UniqueIds(Merged(prev, stored))
    ensures forall id :: id in IdsOf(Merged(prev, stored)) <==> HasId(prev, id)
  {
    forall i | 0 <= i < |prev|
      ensures Merged(prev, stored)[i].id == prev[i].id
    {
      StoredRowFound(stored, prev[i].id);
    }
    forall id
      ensures id in IdsOf(Merged(prev, stored)) <==> HasId(prev, id)
    {
      if HasId(prev, id) {
        var i :| 0 <= i < |prev| && prev[i].id == id;
        assert Merged(prev, stored)[i] in Merged(prev, stored);
      }
    }
  }

  lemma SameMultisetSameRows(a: Messages, b: Messages)
    requires multiset(a) == multiset(b)
    ensures forall m :: m in a <==> m in b
    ensures |a| == |b|
  {
    forall m ensures m in a <==> m in b {
      assert m in a <==> m in multiset(a);
    }
    assert |multiset(a)| == |multiset(b)|;
  }

  /** Ids are unique exactly when no id has two rows, however they are ordered. */
  lemma {:induction false} UniqueIdsPermute(a: Messages, b: Messages)
    requires multiset(a) == multiset(b) && UniqueIds(a)
    ensures UniqueIds(b)
  {
    SameMultisetSameRows(a, b);
    forall i, j | 0 <= i < j < |b|
      ensures b[i].id != b[j].id
    {
      if b[i].id == b[j].id {
        StoredRowIs(a, b[i]);
        StoredRowIs(a, b[j]);
        TwiceInMultiset(b, i, j);
        OnceInUnique(a, b[i]);
      }
    }
  }

  lemma TwiceInMultiset(b: Messages, i: nat, j: nat)
    requires i < j < |b| && b[i] == b[j]
    ensures multiset(b)[b[i]] >= 2
  {
    assert b == b[..i] + [b[i]] + b[i + 1..j] + [b[j]] + b[j + 1..];
  }

  lemma {:induction false} OnceInUnique(a: Messages, m: Message)
    requires UniqueIds(a)
    ensures multiset(a)[m] <= 1
  {
    if a != [] {
      var rest, last := a[..|a| - 1], a[|a| - 1];
      assert a == rest + [last];
      OnceInUnique(rest, m);
      assert forall i :: 0 <= i < |rest| ==> a[i].id != last.id;
    }
  }

  /** "Storage wins", row by row and for any view and storage: where the view has the id, storage's row takes
      its place if there is one; other rows of storage are added; tombstoned rows are not shown. */
  ghost predicate Shows(prev: Messages, stored: Messages, m: Message) {
    && !m.tombstoned
    && if HasId(prev, m.id)
       then StoredRow(stored, m.id) == Some(m) || (StoredRow(stored, m.id).None? && m in prev)
       else m in stored
  }

  /** A reconcile shows exactly those rows, sorted. If neither side has an id twice, neither has the result,
      and a row is shown iff it is the authoritative one for its id and not tombstoned. */
  lemma ReconcileRows(prev: Messages, stored: Messages)
    ensures Sorted(Reconcile(prev, stored))
    ensures forall m :: m in Reconcile(prev, stored) <==> Shows(prev, stored, m)
    ensures UniqueIds(prev) && UniqueIds(stored) ==> UniqueIds(Reconcile(prev, stored))
    ensures UniqueIds(prev) && UniqueIds(stored) ==>
              forall m :: m in Reconcile(prev, stored) <==> Authoritative(prev, stored, m.id) == Some(m) && !m.tombstoned
  {
    var all := Merged(prev, stored) + NewFromStore(Merged(prev, stored), stored);
    VisibleRows(all);
    SortSorts(Visible(all));
    SameMultisetSameRows(Visible(all), Sort(Visible(all)));
    if UniqueIds(prev) && UniqueIds(stored) {
      AllUnique(prev, stored);
      VisibleUnique(all);
      UniqueIdsPermute(Visible(all), Sort(Visible(all)));
    }
    hide Visible, Sort, UniqueIds, Merged, NewFromStore;
    forall m ensures m in Reconcile(prev, stored) <==> Shows(prev, stored, m) {
      AllRows(prev, stored, m);
    }
    if UniqueIds(prev) && UniqueIds(stored) {
      forall m ensures Shows(prev, stored, m) <==> Authoritative(prev, stored, m.id) == Some(m) && !m.tombstoned {
        ShownIsAuthoritative(prev, stored, m);
      }
    }
  }

  lemma AllUnique(prev: Messages, stored: Messages)
    requires UniqueIds(prev) && UniqueIds(stored)
    ensures UniqueIds(Merged(prev, stored) + NewFromStore(Merged(prev, stored), stored))
  {
    var merged := Merged(prev, stored);
    var all := merged + NewFromStore(merged, stored);
    MergedIds(prev, stored);
    NewRows(merged, stored);
    NewUnique(merged, stored);
    forall i, j | 0 <= i < j < |all| ensures all[i].id != all[j].id {
      if i < |merged| <= j { assert merged[i] in merged; assert all[j] in NewFromStore(merged, stored); }
    }
  }

  lemma AllRows(prev: Messages, stored: Messages, m: Message)
    ensures var merged := Merged(prev, stored);
            m in merged + NewFromStore(merged, stored) && !m.tombstoned <==> Shows(prev, stored, m)
  {
    var merged := Merged(prev, stored);
    MergedIds(prev, stored);
    NewRows(merged, stored);
    StoredRowFound(stored, m.id);
    assert m in merged ==> HasId(prev, m.id) by {
      assert m in merged ==> m.id in IdsOf(merged);
    }
    if HasId(prev, m.id) {
      var i :| 0 <= i < |prev| && prev[i].id == m.id;
      assert merged[i] == Substituted(stored, prev[i]);
      if StoredRow(stored, m.id).None? {
        assert forall k :: 0 <= k < |prev| && prev[k].id == m.id ==> merged[k] == prev[k];
      } else {
        assert forall k :: 0 <= k < |prev| && prev[k].id == m.id ==> merged[k] == StoredRow(stored, m.id).value;
      }
    }
  }

  lemma ShownIsAuthoritative(prev: Messages, stored: Messages, m: Message)
    requires UniqueIds(prev) && UniqueIds(stored)
    ensures Shows(prev, stored, m) <==> Authoritative(prev, stored, m.id) == Some(m) && !m.tombstoned
  {
    StoredRowFound(prev, m.id);
    StoredRowFound(stored, m.id);
    if m in prev { StoredRowIs(prev, m); }
    if m in stored { StoredRowIs(stored, m); }
  }

  /** Reconciling twice with the same rows changes nothing more. */
  lemma ReconcileIdempotent(prev: Messages, stored: Messages)
    requires UniqueIds(stored)
    ensures Reconcile(Reconcile(prev, stored), stored) == Reconcile(prev, stored)
  {
    var r := Reconcile(prev, stored);
    ReconcileRows(prev, stored);
    hide UniqueIds;
    forall i | 0 <= i < |r| ensures Substituted(stored, r[i]) == r[i] {
      assert r[i] in r;
      ShownIsKept(prev, stored, r[i]);
    }
    assert Merged(r, stored) == r;
    NewRows(r, stored);
    MergedIds(r, stored);
    forall m | m in NewFromStore(r, stored)
      ensures m.tombstoned
    {
      ShownIsKept(prev, stored, m);
      assert m in r ==> m.id in IdsOf(r);
    }
    VisibleOfHidden(r, NewFromStore(r, stored));
    SortKeepsSorted(r);
  }

  /** A shown row is not replaced by the same storage, and a live stored row is shown. */
  lemma ShownIsKept(prev: Messages, stored: Messages, m: Message)
    requires UniqueIds(stored)
    ensures Shows(prev, stored, m) ==> Substituted(stored, m) == m
    ensures m in stored && !m.tombstoned ==> Shows(prev, stored, m)
  {
    StoredRowFound(stored, m.id);
    if m in stored { StoredRowIs(stored, m); }
  }

  lemma {:induction false} VisibleOfHidden(shown: Messages, hidden: Messages)
    requires forall m :: m in shown ==> !m.tombstoned
    requires forall m :: m in hidden ==> m.tombstoned
    ensures Visible(shown + hidden) == shown
  {
    if hidden != [] {
      VisibleOfHidden(shown, hidden[..|hidden| - 1]);
      assert (shown + hidden)[..|shown + hidden| - 1] == shown + hidden[..|hidden| - 1];
    } else if shown != [] {
      VisibleOfHidden(shown[..|shown| - 1], []);
      assert shown[..|shown| - 1] + [] == shown[..|shown| - 1];
      assert shown + [] == shown;
      assert shown == shown[..|shown| - 1] + [shown[|shown| - 1]];
    }
  }

  /** A stop at an older snapshot leaves no trace once a snapshot that knows all its ids has been applied. */
  lemma OlderSnapshotLeavesNoTrace(prev: Messages, older: Messages, newer: Messages)
    requires UniqueIds(newer)
    requires forall id :: HasId(older, id) ==> HasId(newer, id)
    ensures forall m :: m in Reconcile(Reconcile(prev, older), newer) <==> m in Reconcile(prev, newer)
  {
    var mid := Reconcile(prev, older);
    ReconcileRows(prev, older);
    ReconcileRows(mid, newer);
    ReconcileRows(prev, newer);
    hide Reconcile;
    forall m
      ensures Shows(mid, newer, m) <==> Shows(prev, newer, m)
    {
      if HasId(newer, m.id) {
        NewerDecides(mid, newer, m);
        NewerDecides(prev, newer, m);
      } else {
        ViewDecides(mid, newer, m);
        ViewDecides(prev, newer, m);
        ViewDecides(prev, older, m);
      }
    }
  }

  lemma NewerDecides(prev: Messages, stored: Messages, m: Message)
    requires UniqueIds(stored) && HasId(stored, m.id)
    ensures Shows(prev, stored, m) <==> m in stored && !m.tombstoned
  {
    StoredRowFound(stored, m.id);
    if m in stored { StoredRowIs(stored, m); }
  }

  lemma ViewDecides(prev: Messages, stored: Messages, m: Message)
    requires !HasId(stored, m.id)
    ensures Shows(prev, stored, m) <==> m in prev && !m.tombstoned
  {
    StoredRowFound(stored, m.id);
    assert m in stored ==> HasId(stored, m.id) by {
      RowHasItsId(stored, m);
    }
    RowHasItsId(prev, m);
  }

  lemma RowHasItsId(ms: Messages, m: Message)
    ensures m in ms ==> HasId(ms, m.id)
  {
    forall i | 0 <= i < |ms| && ms[i] == m ensures HasId(ms, m.id) {
      assert ms[i].id == m.id;
    }
  }
}
