/** The contact store, its block and pending-confirmation axes, and the gate built on them. Stored keys
    are not normalised: some operations match a key exactly, others in any letter case. */
module Contacts {
  import opened Js
  import opened WalledGarden
  import Hex
  import KnownPeers

  /** `new Date(0).toISOString()` */
  const EPOCH: JsString := Text("1970-01-01T00:00:00.000Z")

  /** A contact as every read returns it. */
  datatype Contact = Contact(pubkeyHex: JsString, firstSeenAt: JsString, lastSeenAt: JsString,
                             archivedAt: Option<JsString>, pending: Option<JsString>)

  type Book = map<JsString, Contact>

  /** A contact as it lies in storage: any field may be missing. */
  datatype Record = Record(pubkeyHex: Option<JsString>, firstSeenAt: Option<JsString>, lastSeenAt: Option<JsString>,
                           archivedAt: Option<JsString>, pending: Option<JsString>)

  // ── Reading and writing ──────────────────────────────────────────────────

  /** `value || fallback` */
  function OrElse(value: Option<JsString>, fallback: JsString): JsString {
    if value.Some? && value.value != [] then value.value else fallback
  }

  predicate Truthy(value: Option<JsString>) {
    value.Some? && value.value != []
  }

  /** `normalizeStoredContact` */
  function Normalize(key: JsString, r: Record): Contact {
    Contact(OrElse(r.pubkeyHex, key), OrElse(r.firstSeenAt, EPOCH),
            OrElse(r.lastSeenAt, OrElse(r.firstSeenAt, EPOCH)), r.archivedAt, r.pending)
  }

  function Written(c: Contact): Record {
    Record(Some(c.pubkeyHex), Some(c.firstSeenAt), Some(c.lastSeenAt), c.archivedAt, c.pending)
  }

  function Read(stored: map<JsString, Record>): Book {
    map key | key in stored :: Normalize(key, stored[key])
  }

  function Write(book: Book): map<JsString, Record> {
    map key | key in book :: Written(book[key])
  }

  /** What every read guarantees, whatever was stored. */
  ghost predicate Normal(book: Book) {
    forall key | key in book ::
      && (book[key].pubkeyHex == [] ==> key == [])
      && book[key].firstSeenAt != [] && book[key].lastSeenAt != []
  }

  lemma ReadIsNormal(stored: map<JsString, Record>)
    ensures Normal(Read(stored))
  {
  }

  /** Writing what was read and reading it back changes nothing. */
  lemma WriteReadsBack(book: Book)
    requires Normal(book)
    ensures Read(Write(book)) == book
  {
    forall key | key in book ensures Read(Write(book))[key] == book[key] {
      assert Write(book)[key] == Written(book[key]);
    }
  }

  // ── The operations, on what a read returns ───────────────────────────────

  /** `a >= b ? a : b` */
  function Later(a: JsString, b: JsString): JsString {
    if Before(a, b) then b else a
  }

  /** A new entry as the next read returns it: an empty time stamp reads as the epoch. */
  function Fresh(key: JsString, seenAt: JsString, pending: Option<JsString>): Contact {
    var at := if seenAt == [] then EPOCH else seenAt;
    Contact(key, at, at, None, pending)
  }

  predicate SameKey(a: JsString, b: JsString) {
    Lower(a) == Lower(b)
  }

  predicate HasVariant(book: Book, key: JsString) {
    exists k :: k in book && SameKey(k, key)
  }

  function Bumped(c: Contact, seenAt: JsString): Contact {
    c.(lastSeenAt := Later(c.lastSeenAt, seenAt))
  }

  function Remembered(book: Book, key: JsString, seenAt: JsString): Book {
    if key == [] then book
    else book[key := if key in book then Bumped(book[key], seenAt) else Fresh(key, seenAt, None)]
  }

  function RememberedPending(book: Book, key: JsString, seenAt: JsString): Book {
    if key == [] then book
    else if HasVariant(book, key) then
      map k | k in book :: if SameKey(k, key) then Bumped(book[k], seenAt) else book[k]
    else book[key := Fresh(key, seenAt, Some(seenAt))]
  }

  function Cleared(c: Contact): Contact {
    if Truthy(c.pending) then c.(pending := None) else c
  }

  function Confirmed(book: Book, key: JsString): Book {
    if key == [] then book
    else map k | k in book :: if SameKey(k, key) then Cleared(book[k]) else book[k]
  }

  /** `archiveContact` and `unarchiveContact`: the exact key only. */
  function Archived(book: Book, key: JsString, archivedAt: Option<JsString>): Book {
    if key == [] || key !in book then book else book[key := book[key].(archivedAt := archivedAt)]
  }

  ghost function Purged(book: Book, groups: seq<Group>, known: set<JsString>, own: JsString): Book {
    map k | k in book && Allowed(k, groups, known, own) :: book[k]
  }

  predicate IsLowerHex64(s: JsString) {
    |s| == 64 && forall i :: 0 <= i < 64 ==> '0' as int <= s[i] <= '9' as int || 'a' as int <= s[i] <= 'f' as int
  }

  datatype AddResult = Added(pubkeyHex: JsString) | InvalidNpub | Self | AlreadyExists | Blocked(pubkeyHex: JsString)

  ghost predicate HasActiveVariant(book: Book, key: JsString) {
    exists k :: k in book && SameKey(k, key) && !Truthy(book[k].archivedAt)
  }

  /** `addContactByNpub`: `decoded` is what the npub decodes to, None if it does not. */
  ghost function AddOutcome(book: Book, decoded: Option<JsString>, own: JsString): AddResult {
    if decoded.None? || !IsLowerHex64(Lower(decoded.value)) then InvalidNpub
    else if IsOwn(decoded.value, own) then Self
    else if HasActiveVariant(book, decoded.value) then AlreadyExists
    else if HasVariant(book, decoded.value) then Blocked(Lower(decoded.value))
    else Added(Lower(decoded.value))
  }

  /** `saved` is whether the write goes through; `allowed` the answer of the optional whitelist accessor. */
  datatype Op =
    | Remember(key: JsString, seenAt: JsString, allowed: bool)
    | RememberPending(key: JsString, seenAt: JsString)
    | Confirm(key: JsString)
    | Archive(key: JsString, archivedAt: JsString)
    | Unarchive(key: JsString)
    | AddByNpub(decoded: Option<JsString>, own: JsString, now: JsString)
    | Purge(groups: seq<Group>, known: set<JsString>, own: JsString)
    | Unsaved

  ghost function Step(book: Book, op: Op): Book {
    match op
    case Remember(key, seenAt, allowed) => if allowed then Remembered(book, key, seenAt) else book
    case RememberPending(key, seenAt) => RememberedPending(book, key, seenAt)
    case Confirm(key) => Confirmed(book, key)
    case Archive(key, archivedAt) => Archived(book, key, Some(archivedAt))
    case Unarchive(key) => Archived(book, key, None)
    case AddByNpub(decoded, own, now) =>
      var outcome := AddOutcome(book, decoded, own);
      if outcome.Added? then Remembered(book, outcome.pubkeyHex, now) else book
    case Purge(groups, known, own) => Purged(book, groups, known, own)
    case Unsaved => book
  }

  ghost function Run(book: Book, ops: seq<Op>): Book
    decreases |ops|
  {
    if ops == [] then book else Step(Run(book, ops[..|ops| - 1]), ops[|ops| - 1])
  }

  lemma RunSnoc(book: Book, ops: seq<Op>, op: Op)
    ensures Run(book, []) == book && Run(book, ops + [op]) == Step(Run(book, ops), op)
  {
    assert (ops + [op])[..|ops|] == ops;
  }

  // ── Each operation, entry by entry ───────────────────────────────────────

  /** `c` seen again: only the last sighting changes, and only forwards. */
  ghost predicate SeenAgain(before: Contact, after: Contact, seenAt: JsString) {
    && after.pubkeyHex == before.pubkeyHex && after.firstSeenAt == before.firstSeenAt
    && after.archivedAt == before.archivedAt && after.pending == before.pending
    && after.lastSeenAt == if Before(before.lastSeenAt, seenAt) then seenAt else before.lastSeenAt
  }

  /** Remembering a contact touches that exact key only: a stored one is seen again, a new one is neither archived
      nor pending. */
  lemma RememberEffect(book: Book, key: JsString, seenAt: JsString, allowed: bool, k: JsString)
    ensures var after := Step(book, Remember(key, seenAt, allowed));
            if key == [] || !allowed then after == book
            else
              && after.Keys == book.Keys + {key}
              && (k in book && k != key ==> after[k] == book[k])
              && (key in book ==> SeenAgain(book[key], after[key], seenAt))
              && (key !in book && seenAt != [] ==> after[key] == Contact(key, seenAt, seenAt, None, None))
  {
  }

  /** A pairing acknowledgement sees every stored spelling of the key again and no other entry; if there is none, a
      pending entry is made. */
  lemma RememberPendingEffect(book: Book, key: JsString, seenAt: JsString, k: JsString)
    ensures var after := Step(book, RememberPending(key, seenAt));
            if key == [] then after == book
            else if exists other :: other in book && Lower(other) == Lower(key) then
              && after.Keys == book.Keys
              && (k in book ==> if Lower(k) == Lower(key) then SeenAgain(book[k], after[k], seenAt) else after[k] == book[k])
            else
              && after.Keys == book.Keys + {key}
              && (k in book ==> after[k] == book[k])
              && (seenAt != [] ==> after[key] == Contact(key, seenAt, seenAt, None, Some(seenAt)))
  {
    hide Lower;
  }

  /** Confirming clears the pending mark of every spelling, archiving and unarchiving set one field of one exact
      key, and nothing else changes. */
  lemma FlagEffects(book: Book, key: JsString, at: JsString, k: JsString)
    requires k in book
    ensures Step(book, Confirm(key)).Keys == Step(book, Archive(key, at)).Keys == Step(book, Unarchive(key)).Keys == book.Keys
    ensures Step(book, Confirm(key))[k] ==
            if key != [] && Lower(k) == Lower(key) && book[k].pending.Some? && book[k].pending.value != [] then book[k].(pending := None) else book[k]
    ensures Step(book, Archive(key, at))[k] == if key != [] && k == key then book[k].(archivedAt := Some(at)) else book[k]
    ensures Step(book, Unarchive(key))[k] == if key != [] && k == key then book[k].(archivedAt := None) else book[k]
  {
    hide Lower;
  }

  /** A purge keeps exactly the entries whose key passes the gate, unchanged. */
  lemma PurgeEffect(book: Book, groups: seq<Group>, known: set<JsString>, own: JsString, k: JsString)
    ensures var after := Step(book, Purge(groups, known, own));
            && (k in after <==> k in book && Allowed(k, groups, known, own))
            && (k in after ==> after[k] == book[k])
  {
  }

  /** What a read makes of a record: missing or empty fields fall back to the key, the epoch, and the first
      sighting. */
  lemma ReadEntry(stored: map<JsString, Record>, key: JsString)
    requires key in stored
    ensures var r, c := stored[key], Read(stored)[key];
            && c.archivedAt == r.archivedAt && c.pending == r.pending
            && c.pubkeyHex == (if r.pubkeyHex.Some? && r.pubkeyHex.value != [] then r.pubkeyHex.value else key)
            && c.firstSeenAt == (if r.firstSeenAt.Some? && r.firstSeenAt.value != [] then r.firstSeenAt.value
                                 else Text("1970-01-01T00:00:00.000Z"))
            && c.lastSeenAt == if r.lastSeenAt.Some? && r.lastSeenAt.value != [] then r.lastSeenAt.value else c.firstSeenAt
    ensures Read(stored).Keys == stored.Keys
  {
  }

  // ── Well-keyed books ─────────────────────────────────────────────────────

  /** Each entry carries its own key, up to letter case. */
  ghost predicate WellKeyed(book: Book) {
    forall k | k in book :: SameKey(book[k].pubkeyHex, k)
  }

  lemma StepKeepsKeys(book: Book, op: Op)
    requires WellKeyed(book)
    ensures WellKeyed(Step(book, op))
  {
  }

  lemma {:induction false} RunKeepsKeys(book: Book, ops: seq<Op>)
    requires WellKeyed(book)
    ensures WellKeyed(Run(book, ops))
    decreases |ops|
  {
    if ops != [] {
      RunKeepsKeys(book, ops[..|ops| - 1]);
      StepKeepsKeys(Run(book, ops[..|ops| - 1]), ops[|ops| - 1]);
    }
  }

  // ── Blocking ─────────────────────────────────────────────────────────────

  ghost predicate IsBlockedIn(book: Book, peer: JsString) {
    peer != [] && exists k :: k in book && SameKey(book[k].pubkeyHex, peer) && book[k].archivedAt.Some?
  }

  /** `loadBlockedPeers` */
  method LoadBlockedPeers(book: Book) returns (blocked: set<JsString>)
    ensures forall peer: JsString :: peer != [] ==> (Lower(peer) in blocked <==> IsBlockedIn(book, peer))
  {
    blocked := {};
    var rest := book.Keys;
    while rest != {}
      invariant rest <= book.Keys
      invariant forall p :: p in blocked <==> exists k :: k in book && k !in rest && Lower(book[k].pubkeyHex) == p && book[k].archivedAt.Some?
      decreases |rest|
    {
      var k :| k in rest;
      rest := rest - {k};
      if book[k].archivedAt.Some? {
        blocked := blocked + {Lower(book[k].pubkeyHex)};
      }
    }
  }

  /** `isBlockedPeer` */
  predicate IsBlockedPeer(peer: JsString, blocked: set<JsString>) {
    peer != [] && Lower(peer) in blocked
  }

  /** `isAllowedDmSenderComposite` over the store: deny overrides allow. */
  method IsAllowedDmSenderComposite(peer: JsString, groups: seq<Group>, known: set<JsString>, own: JsString, book: Book)
    returns (allowed: bool)
    ensures allowed <==> Allowed(peer, groups, known, own) && !IsBlockedIn(book, peer)
  {
    var blocked := LoadBlockedPeers(book);
    allowed := IsAllowedDmSender(peer, groups, known, own);
    allowed := allowed && !IsBlockedPeer(peer, blocked);
  }

  /** What can end a block: unarchiving that very key, or a purge that does not know the peer. */
  ghost predicate MayRelease(op: Op, key: JsString) {
    || (op.Unarchive? && op.key == key)
    || (op.Purge? && !Allowed(key, op.groups, op.known, op.own))
  }

  lemma BlockSurvivesStep(book: Book, op: Op, key: JsString)
    requires key in book && book[key].archivedAt.Some?
    ensures MayRelease(op, key) || (key in Step(book, op) && Step(book, op)[key].archivedAt.Some?)
  {
  }

  /** A blocked contact stays blocked over every run that neither unarchives its exact key nor purges it. */
  lemma {:induction false} BlockSurvivesRun(book: Book, ops: seq<Op>, key: JsString)
    requires key in book && book[key].archivedAt.Some?
    requires forall i :: 0 <= i < |ops| ==> !MayRelease(ops[i], key)
    ensures key in Run(book, ops) && Run(book, ops)[key].archivedAt.Some?
    decreases |ops|
  {
    if ops != [] {
      BlockSurvivesRun(book, ops[..|ops| - 1], key);
      BlockSurvivesStep(Run(book, ops[..|ops| - 1]), ops[|ops| - 1], key);
    }
  }

  /** ... so the gate turns the peer away under every spelling of its key. */
  lemma BlockedInEveryCase(book: Book, ops: seq<Op>, key: JsString, peer: JsString)
    requires WellKeyed(book) && key in book && book[key].archivedAt.Some?
    requires forall i :: 0 <= i < |ops| ==> !MayRelease(ops[i], key)
    requires peer != [] && SameKey(peer, key)
    ensures IsBlockedIn(Run(book, ops), peer)
  {
    BlockSurvivesRun(book, ops, key);
    RunKeepsKeys(book, ops);
  }

  /** Unarchiving a key unblocks its peer exactly when no other spelling of the key is archived. */
  lemma UnarchiveUnblocksIff(book: Book, key: JsString, peer: JsString)
    requires WellKeyed(book) && key in book && key != [] && SameKey(peer, key)
    ensures IsBlockedIn(Step(book, Unarchive(key)), peer)
            <==> exists k :: k in book && k != key && SameKey(k, key) && book[k].archivedAt.Some?
  {
    var after := Step(book, Unarchive(key));
    assert |peer| == |Lower(peer)| && |key| == |Lower(key)|;
    forall k | k in book && k != key && SameKey(k, key) && book[k].archivedAt.Some?
      ensures IsBlockedIn(after, peer)
    {
      assert k in after && after[k] == book[k];
    }
  }

  /** Archiving blocks a peer that was not blocked exactly when the key is stored in that spelling. */
  lemma ArchiveBlocksIff(book: Book, key: JsString, archivedAt: JsString, peer: JsString)
    requires WellKeyed(book) && key != [] && SameKey(peer, key) && !IsBlockedIn(book, peer)
    ensures IsBlockedIn(Step(book, Archive(key, archivedAt)), peer) <==> key in book
  {
    var after := Step(book, Archive(key, archivedAt));
    assert |peer| == |Lower(peer)| && |key| == |Lower(key)|;
    if key in book {
      assert key in after && after[key].archivedAt.Some? && SameKey(after[key].pubkeyHex, peer);
    }
  }

  // ── Pending confirmation ─────────────────────────────────────────────────

  /** `isPendingConfirmation` */
  ghost predicate IsPending(book: Book, peer: JsString) {
    peer != [] && exists k :: k in book && SameKey(book[k].pubkeyHex, peer) && Truthy(book[k].pending)
  }

  /** A pairing acknowledgement of a peer that is stored in no spelling. */
  ghost predicate Admits(book: Book, op: Op, peer: JsString) {
    && op.RememberPending?
    && op.key != [] && op.seenAt != []
    && SameKey(op.key, peer) && !HasVariant(book, op.key)
  }

  /** What can end a pending state: a confirmation in any spelling, or a purge of every pending entry. */
  ghost predicate MayConfirm(op: Op, peer: JsString) {
    (op.Confirm? && SameKey(op.key, peer)) || (op.Purge? && !Allowed(peer, op.groups, op.known, op.own))
  }

  lemma PendingEntry(book: Book, k: JsString, peer: JsString)
    requires peer != [] && k in book && SameKey(book[k].pubkeyHex, peer) && Truthy(book[k].pending)
    ensures IsPending(book, peer)
  {
  }

  /** Exactly when a step makes a peer pending. */
  lemma BecomesPendingIff(book: Book, op: Op, peer: JsString)
    requires WellKeyed(book) && !IsPending(book, peer) && peer != []
    ensures IsPending(Step(book, op), peer) <==> Admits(book, op, peer)
  {
    var after := Step(book, op);
    if Admits(book, op, peer) {
      assert op.key in after;
      PendingEntry(after, op.key, peer);
    }
    forall k | k in after
      ensures k in book ==> after[k].pubkeyHex == book[k].pubkeyHex && (Truthy(after[k].pending) ==> Truthy(book[k].pending))
      ensures k !in book && Truthy(after[k].pending) ==> op.RememberPending? && k == op.key && !HasVariant(book, k)
    {
      StepEntry(book, op, k);
    }
  }

  /** What a step may do to one entry's pending state. */
  lemma StepEntry(book: Book, op: Op, k: JsString)
    requires k in Step(book, op)
    ensures k in book ==> Step(book, op)[k].pubkeyHex == book[k].pubkeyHex
    ensures k in book ==> Step(book, op)[k].pending in {None, book[k].pending}
    ensures k !in book ==> Step(book, op)[k].pending.None? || (op.RememberPending? && k == op.key && !HasVariant(book, k))
  {
  }

  lemma PendingSurvivesStep(book: Book, op: Op, peer: JsString)
    requires WellKeyed(book) && IsPending(book, peer)
    ensures MayConfirm(op, peer) || IsPending(Step(book, op), peer)
  {
    var k :| k in book && SameKey(book[k].pubkeyHex, peer) && Truthy(book[k].pending);
    if !MayConfirm(op, peer) {
      var after := Step(book, op);
      if op.Purge? { GateIgnoresCase(k, peer, op.groups, op.known, op.own); }
      assert k in after && after[k].pubkeyHex == book[k].pubkeyHex && after[k].pending == book[k].pending;
      PendingEntry(after, k, peer);
    }
  }

  /** A peer that was not pending and is pending after a run was admitted by a pairing acknowledgement at a
      moment when no spelling of its key was stored. */
  lemma {:induction false} PendingNeedsAdmission(book: Book, ops: seq<Op>, peer: JsString)
    requires WellKeyed(book) && peer != [] && !IsPending(book, peer) && IsPending(Run(book, ops), peer)
    ensures exists i :: 0 <= i < |ops| && Admits(Run(book, ops[..i]), ops[i], peer)
    decreases |ops|
  {
    if ops != [] {
      var n := |ops| - 1;
      var before := Run(book, ops[..n]);
      RunKeepsKeys(book, ops[..n]);
      if IsPending(before, peer) {
        PendingNeedsAdmission(book, ops[..n], peer);
        var i :| 0 <= i < n && Admits(Run(book, ops[..n][..i]), ops[..n][i], peer);
        assert ops[..n][..i] == ops[..i];
      } else {
        BecomesPendingIff(before, ops[n], peer);
      }
    }
  }

  /** A pending peer stays pending over every run without a confirmation or a purge of it. */
  lemma {:induction false} PendingSurvivesRun(book: Book, ops: seq<Op>, peer: JsString)
    requires WellKeyed(book) && IsPending(book, peer)
    requires forall i :: 0 <= i < |ops| ==> !MayConfirm(ops[i], peer)
    ensures IsPending(Run(book, ops), peer)
    decreases |ops|
  {
    if ops != [] {
      PendingSurvivesRun(book, ops[..|ops| - 1], peer);
      RunKeepsKeys(book, ops[..|ops| - 1]);
      PendingSurvivesStep(Run(book, ops[..|ops| - 1]), ops[|ops| - 1], peer);
    }
  }

  /** A confirmation in any spelling confirms every spelling, and touches nothing else. */
  lemma ConfirmConfirms(book: Book, key: JsString, peer: JsString)
    requires WellKeyed(book) && key != [] && SameKey(key, peer)
    ensures !IsPending(Step(book, Confirm(key)), peer)
    ensures forall other :: IsBlockedIn(Step(book, Confirm(key)), other) <==> IsBlockedIn(book, other)
  {
    var after := Step(book, Confirm(key));
    assert after.Keys == book.Keys;
    assert forall k :: k in book ==> after[k].pubkeyHex == book[k].pubkeyHex && after[k].archivedAt == book[k].archivedAt;
    assert forall k :: k in book && SameKey(k, key) ==> !Truthy(after[k].pending);
  }

  // ── Adding by npub ───────────────────────────────────────────────────────

  /** An archive time, if there is one, is not empty: archiving writes the current time. */
  ghost predicate ArchivesDated(book: Book) {
    forall k | k in book :: book[k].archivedAt != Some([])
  }

  /** Some spelling of the peer's key is stored and not archived. */
  ghost predicate HasActiveContact(book: Book, peer: JsString) {
    exists k :: k in book && SameKey(book[k].pubkeyHex, peer) && book[k].archivedAt.None?
  }

  lemma LowerHexIff(key: JsString)
    ensures IsLowerHex64(Lower(key)) <==> |key| == 64 && Hex.IsHex(key)
  {
    if |key| == 64 {
      forall i | 0 <= i < 64
        ensures Hex.IsHexUnit(key[i]) <==> '0' as int <= Lower(key)[i] <= '9' as int || 'a' as int <= Lower(key)[i] <= 'f' as int
      {
      }
    }
  }

  lemma VariantsOfPeer(book: Book, peer: JsString)
    requires WellKeyed(book) && ArchivesDated(book) && peer != []
    ensures HasActiveVariant(book, peer) <==> HasActiveContact(book, peer)
    ensures HasVariant(book, peer) <==> HasActiveContact(book, peer) || IsBlockedIn(book, peer)
  {
    forall k | k in book
      ensures SameKey(book[k].pubkeyHex, peer) <==> SameKey(k, peer)
      ensures Truthy(book[k].archivedAt) <==> book[k].archivedAt.Some?
    {
    }
    if HasVariant(book, peer) {
      var k :| k in book && SameKey(k, peer);
      assert book[k].archivedAt.Some? || HasActiveContact(book, peer);
    }
  }

  /** What adding a peer by npub answers, told from the peer's state: an active contact already exists, one that
      is archived in every spelling is blocked, and only an unknown one is added. A refusal changes nothing. An
      added peer is stored under its lower-case key, seen now, and neither blocked nor pending. */
  lemma AddOutcomeIff(book: Book, decoded: Option<JsString>, own: JsString, now: JsString)
    requires WellKeyed(book) && ArchivesDated(book)
    ensures var outcome, after := AddOutcome(book, decoded, own), Step(book, AddByNpub(decoded, own, now));
            if decoded.None? || !(|decoded.value| == 64 && Hex.IsHex(decoded.value)) then outcome == InvalidNpub && after == book
            else if IsOwn(decoded.value, own) then outcome == Self && after == book
            else
              var peer := decoded.value;
              if HasActiveContact(book, peer) then outcome == AlreadyExists && after == book
              else if IsBlockedIn(book, peer) then outcome == Blocked(Lower(peer)) && after == book
              else
                && outcome == Added(Lower(peer))
                && after.Keys == book.Keys + {Lower(peer)} && (forall k | k in book :: after[k] == book[k])
                && after[Lower(peer)].pubkeyHex == Lower(peer) && HasActiveContact(after, peer)
                && !IsBlockedIn(after, peer) && !IsPending(after, peer)
  {
    if decoded.Some? {
      var peer := decoded.value;
      LowerHexIff(peer);
      if |peer| == 64 {
        VariantsOfPeer(book, peer);
        if !HasVariant(book, peer) { AddedIsNew(book, peer, now); }
      }
    }
    hide IsLowerHex64, Hex.IsHex, Lower, HasActiveContact, HasVariant, HasActiveVariant, IsBlockedIn, IsPending, Remembered;
  }

  lemma AddedIsNew(book: Book, peer: JsString, now: JsString)
    requires WellKeyed(book) && peer != [] && !HasVariant(book, peer)
    ensures var key, after := Lower(peer), Remembered(book, Lower(peer), now);
            && key !in book && after.Keys == book.Keys + {key} && (forall k | k in book :: after[k] == book[k])
            && after[key].pubkeyHex == key && HasActiveContact(after, peer)
            && !IsBlockedIn(after, peer) && !IsPending(after, peer)
  {
    var key, after := Lower(peer), Remembered(book, Lower(peer), now);
    LowerIdempotent(peer);
    assert |key| == |peer|;
    assert SameKey(key, peer);
    assert key in after && after[key] == Fresh(key, now, None);
    assert forall k :: k in book ==> !SameKey(k, peer) && !SameKey(book[k].pubkeyHex, peer);
  }

  // ── Time stamps ──────────────────────────────────────────────────────────

  ghost predicate NotEarlier(a: JsString, b: JsString) {
    !Before(a, b)
  }

  lemma LaterIsNotEarlier(a: JsString, b: JsString)
    ensures NotEarlier(Later(a, b), a) && NotEarlier(Later(a, b), b)
  {
    BeforeIrreflexive(a);
    BeforeIrreflexive(b);
    if Before(a, b) { BeforeAsymmetric(a, b); }
  }

  lemma NotEarlierTransitive(a: JsString, b: JsString, c: JsString)
    requires NotEarlier(a, b) && NotEarlier(b, c)
    ensures NotEarlier(a, c)
  {
    BeforeTotal(a, b);
    BeforeTotal(b, c);
    if Before(a, c) {
      if Before(b, a) { BeforeTransitive(b, a, c); }
    }
  }

  lemma StepKeepsTimes(book: Book, op: Op, key: JsString)
    requires key in book
    requires op.Purge? ==> Allowed(key, op.groups, op.known, op.own)
    ensures key in Step(book, op)
    ensures Step(book, op)[key].firstSeenAt == book[key].firstSeenAt
    ensures NotEarlier(Step(book, op)[key].lastSeenAt, book[key].lastSeenAt)
  {
    BeforeIrreflexive(book[key].lastSeenAt);
    if op.Remember? || op.RememberPending? {
      LaterIsNotEarlier(book[key].lastSeenAt, op.seenAt);
    } else if op.AddByNpub? {
      LaterIsNotEarlier(book[key].lastSeenAt, op.now);
    }
  }

  /** While an entry is kept, its first sighting never changes and its last never moves back. */
  lemma {:induction false} TimesOverRuns(book: Book, ops: seq<Op>, key: JsString)
    requires key in book
    requires forall i :: 0 <= i < |ops| && ops[i].Purge? ==> Allowed(key, ops[i].groups, ops[i].known, ops[i].own)
    ensures key in Run(book, ops)
    ensures Run(book, ops)[key].firstSeenAt == book[key].firstSeenAt
    ensures NotEarlier(Run(book, ops)[key].lastSeenAt, book[key].lastSeenAt)
    decreases |ops|
  {
    if ops == [] {
      BeforeIrreflexive(book[key].lastSeenAt);
    } else {
      var before := Run(book, ops[..|ops| - 1]);
      TimesOverRuns(book, ops[..|ops| - 1], key);
      StepKeepsTimes(before, ops[|ops| - 1], key);
      NotEarlierTransitive(Run(book, ops)[key].lastSeenAt, before[key].lastSeenAt, book[key].lastSeenAt);
    }
  }

  // ── Loops over stored keys ───────────────────────────────────────────────

  method BumpMatching(book: Book, matchingKeys: set<JsString>, seenAt: JsString) returns (contacts: Book)
    requires matchingKeys <= book.Keys
    ensures contacts == map k | k in book :: if k in matchingKeys then Bumped(book[k], seenAt) else book[k]
  {
    contacts := book;
    var rest := matchingKeys;
    while rest != {}
      invariant rest <= matchingKeys
      invariant contacts.Keys == book.Keys
      invariant forall k | k in book :: contacts[k] == if k in matchingKeys - rest then Bumped(book[k], seenAt) else book[k]
      decreases |rest|
    {
      var matchingKey :| matchingKey in rest;
      var existing := contacts[matchingKey];
      contacts := contacts[matchingKey := existing.(lastSeenAt := Later(existing.lastSeenAt, seenAt))];
      rest := rest - {matchingKey};
    }
  }

  method ClearMatching(book: Book, matchingKeys: set<JsString>) returns (contacts: Book, changed: bool)
    requires matchingKeys <= book.Keys
    ensures contacts == map k | k in book :: if k in matchingKeys then Cleared(book[k]) else book[k]
    ensures changed <==> exists k :: k in matchingKeys && Truthy(book[k].pending)
    ensures !changed ==> contacts == book
  {
    contacts, changed := book, false;
    var rest := matchingKeys;
    while rest != {}
      invariant rest <= matchingKeys
      invariant contacts.Keys == book.Keys
      invariant forall k | k in book :: contacts[k] == if k in matchingKeys - rest then Cleared(book[k]) else book[k]
      invariant changed <==> exists k :: k in matchingKeys - rest && Truthy(book[k].pending)
      decreases |rest|
    {
      var matchingKey :| matchingKey in rest;
      var existing := contacts[matchingKey];
      if Truthy(existing.pending) {
        contacts := contacts[matchingKey := existing.(pending := None)];
        changed := true;
      }
      rest := rest - {matchingKey};
    }
  }

  /** The loop of `purgeStrangerContacts`, run over the contact store and over the contact cache. */
  method PurgeKeys<V>(stored: map<JsString, V>, groups: seq<Group>, known: set<JsString>, own: JsString)
    returns (parsed: map<JsString, V>, deleted: nat)
    ensures parsed == map k | k in stored && Allowed(k, groups, known, own) :: stored[k]
    ensures deleted == |set k | k in stored && !Allowed(k, groups, known, own)|
    ensures deleted == 0 ==> parsed == stored
  {
    parsed, deleted := stored, 0;
    var rest := stored.Keys;
    ghost var gone: set<JsString> := {};
    while rest != {}
      invariant rest <= stored.Keys
      invariant gone == set k | k in stored.Keys - rest && !Allowed(k, groups, known, own)
      invariant parsed == stored - gone
      invariant deleted == |gone|
      decreases |rest|
    {
      var key :| key in rest;
      var allowed := IsAllowedDmSender(key, groups, known, own);
      hide Allowed;
      if !allowed {
        parsed := parsed - {key};
        deleted := deleted + 1;
        gone := gone + {key};
      }
      rest := rest - {key};
    }
    assert gone == set k | k in stored && !Allowed(k, groups, known, own);
    assert deleted == 0 ==> gone == {};
  }

  // ── The store itself ─────────────────────────────────────────────────────

  class ContactStore {
    var stored: map<JsString, Record>
    const known: KnownPeers.KnownPeersStore

    function View(): (book: Book)
      reads this
    {
      Read(stored)
    }

    constructor (known: KnownPeers.KnownPeersStore)
      ensures View() == map[] && this.known == known
    {
      stored, this.known := map[], known;
    }

    method WriteStoredContacts(next: Book, saved: bool)
      modifies `stored
      ensures stored == if saved then Write(next) else old(stored)
    {
      if saved {
        stored := Write(next);
      }
    }

    method RememberContact(key: JsString, seenAt: JsString, allowed: bool, saved: bool)
      modifies `stored
      ensures View() == if saved then Step(old(View()), Remember(key, seenAt, allowed)) else old(View())
    {
      ReadIsNormal(stored);
      if key == [] || !allowed {
        return;
      }
      var contacts := View();
      RememberedReads(contacts, key, seenAt);
      if key in contacts {
        var existing := contacts[key];
        contacts := contacts[key := existing.(lastSeenAt := if Before(existing.lastSeenAt, seenAt) then seenAt else existing.lastSeenAt)];
      } else {
        contacts := contacts[key := Contact(key, seenAt, seenAt, None, None)];
      }
      hide Read, Write, Normalize, Written, Fresh, Before;
      WriteStoredContacts(contacts, saved);
    }

    method RememberPendingContact(key: JsString, seenAt: JsString, saved: bool)
      modifies `stored
      ensures View() == if saved then Step(old(View()), RememberPending(key, seenAt)) else old(View())
    {
      ReadIsNormal(stored);
      if key == [] {
        return;
      }
      var contacts := View();
      ghost var book := contacts;
      var matchingKeys := set k | k in contacts && Lower(k) == Lower(key);
      Matching(contacts, key);
      if matchingKeys != {} {
        contacts := BumpMatching(contacts, matchingKeys, seenAt);
        assert contacts == RememberedPending(book, key, seenAt);
        BumpedStaysNormal(book, key, seenAt);
        WriteReadsBack(contacts);
      } else {
        contacts := contacts[key := Contact(key, seenAt, seenAt, None, Some(seenAt))];
        NewReads(book, key, seenAt, Some(seenAt));
      }
      hide Read, Write, Normalize, Written, Fresh, Bumped;
      WriteStoredContacts(contacts, saved);
    }

    method ConfirmContact(key: JsString, saved: bool)
      modifies `stored
      ensures View() == if saved then Step(old(View()), Confirm(key)) else old(View())
    {
      ReadIsNormal(stored);
      if key == [] {
        return;
      }
      var contacts := View();
      ghost var book := contacts;
      var matchingKeys := set k | k in contacts && Lower(k) == Lower(key);
      var changed;
      contacts, changed := ClearMatching(contacts, matchingKeys);
      assert contacts == Confirmed(book, key);
      if changed {
        WriteReadsBack(contacts);
        WriteStoredContacts(contacts, saved);
      }
    }

    method ArchiveContact(key: JsString, archivedAt: JsString, saved: bool)
      modifies `stored
      ensures View() == if saved then Step(old(View()), Archive(key, archivedAt)) else old(View())
    {
      ReadIsNormal(stored);
      if key == [] || key !in stored {
        return;
      }
      var contacts := View();
      contacts := contacts[key := contacts[key].(archivedAt := Some(archivedAt))];
      WriteReadsBack(contacts);
      WriteStoredContacts(contacts, saved);
    }

    method UnarchiveContact(key: JsString, saved: bool)
      modifies `stored
      ensures View() == if saved then Step(old(View()), Unarchive(key)) else old(View())
    {
      ReadIsNormal(stored);
      if key == [] || key !in stored {
        return;
      }
      var contacts := View();
      contacts := contacts[key := contacts[key].(archivedAt := None)];
      WriteReadsBack(contacts);
      WriteStoredContacts(contacts, saved);
    }

    method AddContactByNpub(decoded: Option<JsString>, own: JsString, now: JsString, saved: bool, knownSaved: bool)
      returns (result: AddResult)
      modifies `stored, known`stored
      ensures result == AddOutcome(old(View()), decoded, own)
      ensures known.Known() == if result.Added? && knownSaved then old(known.Known()) + {result.pubkeyHex} else old(known.Known())
      ensures View() == if saved then Step(old(View()), AddByNpub(decoded, own, now)) else old(View())
    {
      if decoded.None? || !IsLowerHex64(Lower(decoded.value)) {
        return InvalidNpub;
      }
      var pubkeyHex := Lower(decoded.value);
      LowerIdempotent(decoded.value);
      if own != [] && pubkeyHex == Lower(own) {
        return Self;
      }
      var contacts := View();
      var matchingKeys := set k | k in contacts && Lower(k) == pubkeyHex;
      assert forall k :: k in matchingKeys <==> k in contacts && SameKey(k, decoded.value);
      if exists k :: k in matchingKeys && !Truthy(contacts[k].archivedAt) {
        return AlreadyExists;
      }
      Matching(contacts, decoded.value);
      if matchingKeys != {} {
        return Blocked(pubkeyHex);
      }
      known.RememberKnownPeers([pubkeyHex], knownSaved);
      AddedKey(pubkeyHex);
      RememberContact(pubkeyHex, now, true, saved);
      return Added(pubkeyHex);
    }

    /** The contacts half of `purgeStrangerContacts`. */
    method PurgeStrangerContacts(groups: seq<Group>, known: set<JsString>, own: JsString, saved: bool)
      returns (deleted: nat)
      modifies `stored
      ensures View() == if saved then Step(old(View()), Purge(groups, known, own)) else old(View())
      ensures deleted == |set k | k in old(stored) && !Allowed(k, groups, known, own)|
    {
      var parsed;
      parsed, deleted := PurgeKeys(stored, groups, known, own);
      assert Read(parsed) == Purged(View(), groups, known, own);
      if deleted > 0 && saved {
        stored := parsed;
      }
    }
  }

  lemma AddedKey(key: JsString)
    requires key != [] && Lower(key) == key
    ensures KnownPeers.LowerKeys([key]) == {key}
  {
    assert [key][0] == key;
  }

  lemma Matching(book: Book, key: JsString)
    ensures (set k | k in book && Lower(k) == Lower(key)) != {} <==> HasVariant(book, key)
  {
    var matchingKeys := set k | k in book && Lower(k) == Lower(key);
    assert forall k :: k in matchingKeys <==> k in book && SameKey(k, key);
  }

  lemma BumpedStaysNormal(book: Book, key: JsString, seenAt: JsString)
    requires Normal(book) && HasVariant(book, key)
    ensures Normal(RememberedPending(book, key, seenAt))
  {
    hide HasVariant, SameKey;
  }

  /** A new entry, written and read back. */
  lemma NewReads(book: Book, key: JsString, seenAt: JsString, pending: Option<JsString>)
    requires Normal(book) && key != [] && key !in book
    ensures Read(Write(book[key := Contact(key, seenAt, seenAt, None, pending)])) == book[key := Fresh(key, seenAt, pending)]
  {
    var next := book[key := Contact(key, seenAt, seenAt, None, pending)];
    WrittenOnce(book, next, key);
    hide Read, Write;
  }

  /** What remembering writes reads back as specified. */
  lemma RememberedReads(book: Book, key: JsString, seenAt: JsString)
    requires Normal(book) && key != []
    ensures key !in book ==>
              Read(Write(book[key := Contact(key, seenAt, seenAt, None, None)])) == Remembered(book, key, seenAt)
    ensures key in book ==> Read(Write(book[key := Bumped(book[key], seenAt)])) == Remembered(book, key, seenAt)
  {
    if key in book {
      WriteReadsBack(book[key := Bumped(book[key], seenAt)]);
    } else {
      NewReads(book, key, seenAt, None);
    }
  }

  /** Writing a book that differs from a normal one in one new or kept entry. */
  lemma WrittenOnce(book: Book, next: Book, key: JsString)
    requires Normal(book) && key != [] && next.Keys == book.Keys + {key}
    requires forall k | k in book && k != key :: next[k] == book[k]
    requires next[key].pubkeyHex != []
    ensures Read(Write(next)) == next[key := Normalize(key, Written(next[key]))]
  {
    forall k | k in next && k != key ensures Read(Write(next))[k] == next[k] {
      assert Write(next)[k] == Written(next[k]);
    }
  }
}
