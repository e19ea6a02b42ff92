/** Spreading a batch of due sends over a window: the archive filter, the threshold and the delays. */
module Stagger {
  import opened Js

  const THRESHOLD: nat := 5
  const WINDOW_MS: nat := 30_000
  const GIVE_UP_CEILING_SECONDS: int := 30 * 24 * 60 * 60

  // ── Rounding ─────────────────────────────────────────────────────────────

  /** `Math.round(p / q)` in exact arithmetic: to the nearest integer, halves up. */
  function Round(p: nat, q: nat): nat
    requires q > 0
  {
    (2 * p + q) / (2 * q)
  }

  /** `Math.round((index / n) * 30000)` */
  function Delay(index: nat, n: nat): nat
    requires n > 0
  {
    Round(index * WINDOW_MS, n)
  }

  /** Exactly one integer lies in the half-open unit interval around the quotient. */
  lemma RoundIsNearest(p: nat, q: nat, r: nat)
    requires q > 0
    ensures r == Round(p, q) <==> 2 * q * r - q <= 2 * p < 2 * q * r + q
  {
    var d, a := 2 * q, 2 * p + q;
    assert a == d * (a / d) + a % d && d * (a / d) == 2 * q * Round(p, q);
    if 2 * q * r - q <= 2 * p < 2 * q * r + q {
      assert 0 <= a - d * r < d;
      Quotient(r, a - d * r, d);
      assert r * d == d * r;
    }
  }

  lemma DelayBounds(index: nat, n: nat)
    requires n > 0
    ensures 2 * n * Delay(index, n) - n <= 2 * index * WINDOW_MS < 2 * n * Delay(index, n) + n
  {
    RoundIsNearest(index * WINDOW_MS, n, Delay(index, n));
  }

  // ── Delays ───────────────────────────────────────────────────────────────

  lemma PositiveMultiple(n: nat, k: int)
    ensures k >= 1 ==> n * k >= n
  {
    if k >= 1 { Product(k - 1, n); }
  }

  /** A larger multiple of a positive number has a larger factor. */
  lemma Factor(n: nat, a: int, b: int)
    requires n > 0 && n * a < n * b + n
    ensures a <= b
  {
    assert n * (a - b) == n * a - n * b;
    PositiveMultiple(n, a - b);
  }

  lemma FirstDelayIsZero(n: nat)
    requires n > 0
    ensures Delay(0, n) == 0
  {
    RoundIsNearest(0, n, 0);
  }

  lemma DelaysStayInWindow(index: nat, n: nat)
    requires index < n
    ensures Delay(index, n) <= WINDOW_MS
  {
    DelayBounds(index, n);
    Product(n - index, WINDOW_MS);
    assert index * WINDOW_MS <= n * WINDOW_MS;
    Factor(2 * n, Delay(index, n), WINDOW_MS);
  }

  lemma DelaysNeverDecrease(i: nat, j: nat, n: nat)
    requires i <= j && n > 0
    ensures Delay(i, n) <= Delay(j, n)
  {
    DelayBounds(i, n);
    DelayBounds(j, n);
    Factor(2 * n, Delay(i, n), Delay(j, n));
  }

  /** Consecutive sends are floor(30000 / n) or ceil(30000 / n) milliseconds apart. */
  lemma Gaps(i: nat, n: nat)
    requires n > 0
    ensures Delay(i + 1, n) - Delay(i, n) in {WINDOW_MS / n, (WINDOW_MS + n - 1) / n}
  {
    DelayBounds(i, n);
    DelayBounds(i + 1, n);
    GapRange(n, Delay(i + 1, n) - Delay(i, n), Delay(i, n), Delay(i + 1, n), i);
    hide Delay;
    FloorOrCeiling(n, WINDOW_MS, Delay(i + 1, n) - Delay(i, n));
  }

  lemma FloorOrCeiling(n: nat, total: nat, gap: int)
    requires n > 0 && total - n < n * gap < total + n
    ensures gap in {total / n, (total + n - 1) / n}
  {
    var floor, rest := total / n, total % n;
    assert total == floor * n + rest && n * floor == floor * n && n * (floor + 1) == floor * n + n;
    Factor(n, floor, gap);
    if rest == 0 {
      Factor(n, gap, floor);
    } else {
      Factor(n, gap, floor + 1);
      assert (floor + 1) * n == floor * n + n;
      Quotient(floor + 1, rest - 1, n);
    }
  }

  lemma GapRange(n: nat, gap: int, d: nat, e: nat, i: nat)
    requires n > 0 && gap == e - d
    requires 2 * n * d - n <= 2 * i * WINDOW_MS < 2 * n * d + n
    requires 2 * n * e - n <= 2 * (i + 1) * WINDOW_MS < 2 * n * e + n
    ensures WINDOW_MS - n < n * gap < WINDOW_MS + n
  {
    assert 2 * n * gap == 2 * n * e - 2 * n * d;
    assert n * (2 * gap) == 2 * (n * gap);
  }

  // ── How many sends fit a slice ───────────────────────────────────────────

  function InSlice(n: nat, from: nat, length: nat): set<nat>
    requires n > 0
  {
    set i: nat | i < n && from <= Delay(i, n) < from + length
  }

  /** Two sends of one 1000 ms slice are fewer than n/30 places apart. */
  lemma SliceIsShort(i: nat, j: nat, n: nat, from: nat)
    requires n > 0 && i <= j
    requires from <= Delay(i, n) && Delay(j, n) < from + 1000
    ensures 30 * (j - i) < n
  {
    DelayBounds(i, n);
    DelayBounds(j, n);
    var d, e := Delay(i, n), Delay(j, n) - Delay(i, n);
    assert 2 * n * Delay(j, n) == 2 * (n * d) + 2 * (n * e) && 2 * n * d == 2 * (n * d);
    hide Delay;
    AtMost(n, e, 999);
  }

  lemma AtMost(n: nat, e: int, bound: int)
    requires e <= bound
    ensures n * e <= n * bound
  {
    Product(bound - e, n);
    assert n * bound - n * e == (bound - e) * n;
  }

  lemma {:induction false} WithinRange(s: set<nat>, lo: nat, k: nat)
    requires forall x :: x in s ==> lo <= x < lo + k
    ensures |s| <= k
    decreases k
  {
    if k == 0 {
      assert s == {};
    } else {
      WithinRange(s - {lo}, lo + 1, k - 1);
    }
  }

  lemma Smallest(s: set<nat>) returns (lo: nat)
    requires s != {}
    ensures lo in s && forall x :: x in s ==> lo <= x
    decreases |s|
  {
    var x :| x in s;
    if s == {x} {
      lo := x;
    } else {
      var rest := Smallest(s - {x});
      lo := if x < rest then x else rest;
      assert forall y :: y in s ==> y == x || y in s - {x};
    }
  }

  /** No 1000 ms of the window sees more than ceil(n/30) sends. */
  lemma SlicesAreBounded(n: nat, from: nat)
    requires n > 0
    ensures |InSlice(n, from, 1000)| <= (n + 29) / 30
  {
    var s := InSlice(n, from, 1000);
    if s != {} {
      var lo := Smallest(s);
      forall x | x in s ensures lo <= x < lo + (n + 29) / 30 {
        SliceIsShort(lo, x, n, from);
      }
      WithinRange(s, lo, (n + 29) / 30);
    }
  }

  // ── The plan ─────────────────────────────────────────────────────────────

  datatype Contact = Contact(pubkeyHex: JsString, archived: bool)

  datatype Schedule = Schedule(pubkeyHex: JsString, active: bool, nextAttemptAt: int, firstAttemptAt: int)

  datatype Planned<T> = Planned(item: T, delayMs: nat)

  predicate IsDue(s: Schedule, now: int) {
    s.active && now >= s.nextAttemptAt && now - s.firstAttemptAt < GIVE_UP_CEILING_SECONDS
  }

  predicate IsArchived(contacts: seq<Contact>, pubkeyHex: JsString) {
    exists c :: c in contacts && c.archived && Lower(c.pubkeyHex) == Lower(pubkeyHex)
  }

  function Filter<T>(items: seq<T>, keep: T -> bool): seq<T> {
    if items == [] then []
    else if keep(items[|items| - 1]) then Filter(items[..|items| - 1], keep) + [items[|items| - 1]]
    else Filter(items[..|items| - 1], keep)
  }

  function Spread<T>(items: seq<T>): seq<Planned<T>> {
    seq(|items|, i requires 0 <= i < |items| => Planned(items[i], if |items| > THRESHOLD then Delay(i, |items|) else 0))
  }

  /** `planDueSweep`, the sends. */
  function PlanDueSweep(contacts: seq<Contact>, schedules: seq<Schedule>, now: int): seq<Planned<Schedule>> {
    Spread(Filter(Filter(schedules, (s: Schedule) => IsDue(s, now)), (s: Schedule) => !IsArchived(contacts, s.pubkeyHex)))
  }

  /** The twin on profile edits: every contact that is not archived, by lower-case key. */
  function PlanProfileAnnounceFanout(contacts: seq<Contact>): seq<Planned<JsString>> {
    Spread(LowerKeys(Filter(contacts, (c: Contact) => !c.archived)))
  }

  function LowerKeys(contacts: seq<Contact>): seq<JsString> {
    seq(|contacts|, i requires 0 <= i < |contacts| => Lower(contacts[i].pubkeyHex))
  }

  lemma {:induction false} FilterRows<T>(items: seq<T>, keep: T -> bool)
    ensures forall x :: x in Filter(items, keep) <==> x in items && keep(x)
  {
    if items != [] {
      FilterRows(items[..|items| - 1], keep);
      assert items == items[..|items| - 1] + [items[|items| - 1]];
    }
  }

  lemma {:induction false} FilterConcat<T>(a: seq<T>, b: seq<T>, keep: T -> bool)
    ensures Filter(a + b, keep) == Filter(a, keep) + Filter(b, keep)
    decreases |b|
  {
    if b == [] {
      assert a + b == a;
    } else {
      FilterConcat(a, b[..|b| - 1], keep);
      assert (a + b)[..|a + b| - 1] == a + b[..|b| - 1];
    }
  }

  lemma {:induction false} FilterNothing<T>(items: seq<T>, keep: T -> bool)
    requires forall x :: x in items ==> !keep(x)
    ensures Filter(items, keep) == []
  {
    if items != [] {
      FilterNothing(items[..|items| - 1], keep);
      assert items[|items| - 1] in items;
    }
  }

  /** A schedule is sent exactly when it is active, its next attempt has come, its first is less than thirty days
      ago, and no entry for its contact, in any letter case, is archived. */
  lemma SentIff(contacts: seq<Contact>, schedules: seq<Schedule>, now: int, s: Schedule)
    ensures (exists p :: p in PlanDueSweep(contacts, schedules, now) && p.item == s)
            <==> && s in schedules
                 && s.active && s.nextAttemptAt <= now < s.firstAttemptAt + 2_592_000
                 && forall c :: c in contacts && Lower(c.pubkeyHex) == Lower(s.pubkeyHex) ==> !c.archived
  {
    var due := Filter(schedules, (s: Schedule) => IsDue(s, now));
    var kept := Filter(due, (s: Schedule) => !IsArchived(contacts, s.pubkeyHex));
    var plan := PlanDueSweep(contacts, schedules, now);
    FilterRows(schedules, (s: Schedule) => IsDue(s, now));
    FilterRows(due, (s: Schedule) => !IsArchived(contacts, s.pubkeyHex));
    assert |plan| == |kept| && forall i :: 0 <= i < |plan| ==> plan[i].item == kept[i];
    if s in kept {
      var i :| 0 <= i < |kept| && kept[i] == s;
      assert plan[i] in plan;
    }
  }

  /** The archive filter comes before the threshold: an archived contact's schedule changes neither who is
      sent to nor any delay. */
  lemma ArchivedNeverCount(contacts: seq<Contact>, a: seq<Schedule>, archived: Schedule, b: seq<Schedule>, now: int)
    requires IsArchived(contacts, archived.pubkeyHex)
    ensures PlanDueSweep(contacts, a + [archived] + b, now) == PlanDueSweep(contacts, a + b, now)
  {
    var due, kept := (s: Schedule) => IsDue(s, now), (s: Schedule) => !IsArchived(contacts, s.pubkeyHex);
    FilterConcat(a + [archived], b, due);
    FilterConcat(a, [archived], due);
    FilterConcat(a, b, due);
    FilterConcat(Filter(a, due) + Filter([archived], due), Filter(b, due), kept);
    FilterConcat(Filter(a, due), Filter([archived], due), kept);
    FilterConcat(Filter(a, due), Filter(b, due), kept);
    FilterRows([archived], due);
    FilterNothing(Filter([archived], due), kept);
  }

  /** On a profile edit a key is announced to exactly when some contact of that spelling or another is not
      archived. Unlike the sweep, an archived spelling does not shut out an active one. */
  lemma AnnouncedIff(contacts: seq<Contact>, key: JsString)
    ensures (exists p :: p in PlanProfileAnnounceFanout(contacts) && p.item == key)
            <==> exists c :: c in contacts && !c.archived && Lower(c.pubkeyHex) == key
  {
    var active := Filter(contacts, (c: Contact) => !c.archived);
    var plan := PlanProfileAnnounceFanout(contacts);
    FilterRows(contacts, (c: Contact) => !c.archived);
    assert |plan| == |active| && forall i :: 0 <= i < |plan| ==> plan[i].item == Lower(active[i].pubkeyHex);
    forall c | c in contacts && !c.archived && Lower(c.pubkeyHex) == key
      ensures exists p :: p in plan && p.item == key
    {
      var i :| 0 <= i < |active| && active[i] == c;
      assert plan[i] in plan;
    }
    forall p | p in plan && p.item == key
      ensures exists c :: c in contacts && !c.archived && Lower(c.pubkeyHex) == key
    {
      var i :| 0 <= i < |plan| && plan[i] == p;
      assert active[i] in active;
    }
  }

  lemma {:induction false} AnnouncedCount(contacts: seq<Contact>, key: JsString)
    ensures var active, one := (c: Contact) => !c.archived, (c: Contact) => !c.archived && Lower(c.pubkeyHex) == key;
            |Filter(LowerKeys(Filter(contacts, active)), (k: JsString) => k == key)| == |Filter(contacts, one)|
  {
    var active, same := (c: Contact) => !c.archived, (k: JsString) => k == key;
    if contacts != [] {
      var rest, last := contacts[..|contacts| - 1], contacts[|contacts| - 1];
      AnnouncedCount(rest, key);
      if active(last) {
        assert LowerKeys(Filter(rest, active) + [last]) == LowerKeys(Filter(rest, active)) + [Lower(last.pubkeyHex)];
        assert (LowerKeys(Filter(rest, active)) + [Lower(last.pubkeyHex)])[..|Filter(rest, active)|] == LowerKeys(Filter(rest, active));
      }
    }
  }

  /** How often a key is announced to: once for each contact of it that is not archived, so folding the keys
      does not keep two spellings of one key from two sends. */
  lemma AnnouncedOncePerContact(contacts: seq<Contact>, key: JsString)
    ensures |Filter(ItemsOf(PlanProfileAnnounceFanout(contacts)), (k: JsString) => k == key)|
            == |Filter(contacts, (c: Contact) => !c.archived && Lower(c.pubkeyHex) == key)|
  {
    AnnouncedCount(contacts, key);
    var keys := LowerKeys(Filter(contacts, (c: Contact) => !c.archived));
    assert ItemsOf(Spread(keys)) == keys;
    hide Filter, Spread, LowerKeys;
  }

  function ItemsOf<T>(plan: seq<Planned<T>>): seq<T> {
    seq(|plan|, i requires 0 <= i < |plan| => plan[i].item)
  }

  /** Both plans keep the order they are given: planning two lists one after the other plans their
      concatenation. */
  lemma PlansKeepOrder(contacts: seq<Contact>, more: seq<Contact>, a: seq<Schedule>, b: seq<Schedule>, now: int)
    ensures ItemsOf(PlanDueSweep(contacts, a + b, now)) == ItemsOf(PlanDueSweep(contacts, a, now)) + ItemsOf(PlanDueSweep(contacts, b, now))
    ensures ItemsOf(PlanProfileAnnounceFanout(contacts + more))
            == ItemsOf(PlanProfileAnnounceFanout(contacts)) + ItemsOf(PlanProfileAnnounceFanout(more))
  {
    var due, kept, active := (s: Schedule) => IsDue(s, now), (s: Schedule) => !IsArchived(contacts, s.pubkeyHex), (c: Contact) => !c.archived;
    FilterConcat(a, b, due);
    FilterConcat(Filter(a, due), Filter(b, due), kept);
    FilterConcat(contacts, more, active);
    SpreadKeeps(Filter(Filter(a + b, due), kept));
    SpreadKeeps(Filter(Filter(a, due), kept));
    SpreadKeeps(Filter(Filter(b, due), kept));
    SpreadKeeps(LowerKeys(Filter(contacts + more, active)));
    SpreadKeeps(LowerKeys(Filter(contacts, active)));
    SpreadKeeps(LowerKeys(Filter(more, active)));
    hide Filter, Spread, ItemsOf;
    assert LowerKeys(Filter(contacts, active) + Filter(more, active)) == LowerKeys(Filter(contacts, active)) + LowerKeys(Filter(more, active));
  }

  lemma SpreadKeeps<T>(items: seq<T>)
    ensures ItemsOf(Spread(items)) == items
  {
  }

  /** When the i-th of n sends goes out: at once if there are at most five, else i/n of 30000 ms, rounded to the
      nearest millisecond, halves up. */
  lemma SendTimes<T>(items: seq<T>, i: nat)
    requires i < |items|
    ensures var n, d := |items|, Spread(items)[i].delayMs;
            if n <= 5 then d == 0 else 2 * n * d - n <= 2 * (i * 30000) < 2 * n * d + n
  {
    DelayBounds(i, |items|);
  }

  // ── Both plans are spread alike ──────────────────────────────────────────

  /** Up to five sends go at once. More start at 0, never go back, stay within 30000 ms, are floor(30000/n) or
      ceil(30000/n) apart, and no 1000 ms sees more than ceil(n/30) of them. */
  ghost predicate WellSpread(delays: seq<nat>) {
    var n := |delays|;
    && (n <= THRESHOLD ==> forall i :: 0 <= i < n ==> delays[i] == 0)
    && (n > THRESHOLD ==>
         && delays[0] == 0
         && (forall i, j :: 0 <= i <= j < n ==> delays[i] <= delays[j] <= WINDOW_MS)
         && (forall i :: 0 <= i < n - 1 ==> delays[i + 1] - delays[i] in {WINDOW_MS / n, (WINDOW_MS + n - 1) / n})
         && (forall from: nat :: |Sends(delays, from)| <= (n + 29) / 30))
  }

  /** The sends of one 1000 ms slice. */
  ghost function Sends(delays: seq<nat>, from: nat): set<nat> {
    set i: nat | i < |delays| && from <= delays[i] < from + 1000
  }

  function DelaysOf<T>(plan: seq<Planned<T>>): seq<nat> {
    seq(|plan|, i requires 0 <= i < |plan| => plan[i].delayMs)
  }

  lemma SpreadIsWell<T>(items: seq<T>)
    ensures WellSpread(DelaysOf(Spread(items)))
  {
    var delays, n := DelaysOf(Spread(items)), |items|;
    assert |delays| == n && forall i :: 0 <= i < n ==> delays[i] == if n > THRESHOLD then Delay(i, n) else 0;
    hide Delay, Spread, DelaysOf;
    if n > THRESHOLD {
      FirstDelayIsZero(n);
      forall i, j | 0 <= i <= j < n ensures delays[i] <= delays[j] <= WINDOW_MS {
        DelaysNeverDecrease(i, j, n);
        DelaysStayInWindow(j, n);
      }
      forall i | 0 <= i < n - 1 ensures delays[i + 1] - delays[i] in {WINDOW_MS / n, (WINDOW_MS + n - 1) / n} {
        Gaps(i, n);
      }
      forall from: nat ensures |Sends(delays, from)| <= (n + 29) / 30 {
        SlicesAreBounded(n, from);
        assert Sends(delays, from) == InSlice(n, from, 1000);
      }
    }
  }

  /** The sweep of due schedules and the fan-out of a profile edit. */
  lemma PlansAreSpread(contacts: seq<Contact>, schedules: seq<Schedule>, now: int)
    ensures WellSpread(DelaysOf(PlanDueSweep(contacts, schedules, now)))
    ensures WellSpread(DelaysOf(PlanProfileAnnounceFanout(contacts)))
  {
    hide WellSpread;
    var due := Filter(schedules, (s: Schedule) => IsDue(s, now));
    SpreadIsWell(Filter(due, (s: Schedule) => !IsArchived(contacts, s.pubkeyHex)));
    SpreadIsWell(LowerKeys(Filter(contacts, (c: Contact) => !c.archived)));
  }
}
