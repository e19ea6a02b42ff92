/** The cached contact profiles: last writer wins by `updatedAt`, two write paths, and the card import. */
module ContactCache {
  import opened Js
  import opened WalledGarden
  import Contacts
  import ContactCard

  datatype Profile = Profile(nickname: JsString, avatar: Option<JsString>, updatedAt: JsString)

  type Cache = map<JsString, Profile>

  /** The one comparison behind every write. */
  predicate Wins(cache: Cache, key: JsString, profile: Profile) {
    key !in cache || Before(cache[key].updatedAt, profile.updatedAt)
  }

  function Put(cache: Cache, key: JsString, profile: Profile): Cache {
    if Wins(cache, key, profile) then cache[key := profile] else cache
  }

  // ── Convergence ──────────────────────────────────────────────────────────

  /** `writeContactEntry` takes the key as it comes, `writeContactEntryNeutralized` folds it. */
  datatype Write = Plain(key: JsString, profile: Profile) | Neutralized(key: JsString, profile: Profile)
  {
    function Target(): JsString {
      if Plain? then key else Lower(key)
    }
  }

  function Run(cache: Cache, writes: seq<Write>): Cache
    decreases |writes|
  {
    if writes == [] then cache
    else
      var w := writes[|writes| - 1];
      Put(Run(cache, writes[..|writes| - 1]), w.Target(), w.profile)
  }

  /** Write `i` is the earliest of those with the greatest time stamp among the writes to its key, and later
      than what the key held before them. */
  ghost predicate Decides(cache: Cache, writes: seq<Write>, key: JsString, i: int) {
    && 0 <= i < |writes| && writes[i].Target() == key
    && (key in cache ==> Before(cache[key].updatedAt, writes[i].profile.updatedAt))
    && forall j :: 0 <= j < |writes| && writes[j].Target() == key ==>
         if j < i then Before(writes[j].profile.updatedAt, writes[i].profile.updatedAt)
         else !Before(writes[i].profile.updatedAt, writes[j].profile.updatedAt)
  }

  /** No write to the key is later than what it held. */
  ghost predicate Stands(cache: Cache, writes: seq<Write>, key: JsString) {
    key in cache && forall j :: 0 <= j < |writes| && writes[j].Target() == key ==>
                      !Before(cache[key].updatedAt, writes[j].profile.updatedAt)
  }

  ghost predicate Untouched(writes: seq<Write>, key: JsString) {
    forall j :: 0 <= j < |writes| ==> writes[j].Target() != key
  }

  /** How one key ends: absent, as it was, or as the deciding write left it. */
  ghost predicate Outcome(cache: Cache, writes: seq<Write>, key: JsString, final: Cache) {
    || (key !in cache && Untouched(writes, key) && key !in final)
    || (Stands(cache, writes, key) && key in final && final[key] == cache[key])
    || exists i :: Decides(cache, writes, key, i) && key in final && final[key] == writes[i].profile
  }

  lemma StandsGrows(cache: Cache, writes: seq<Write>, w: Write, key: JsString)
    requires Stands(cache, writes, key)
    requires w.Target() == key ==> !Before(cache[key].updatedAt, w.profile.updatedAt)
    ensures Stands(cache, writes + [w], key)
  {
  }

  lemma DecidesGrows(cache: Cache, writes: seq<Write>, w: Write, key: JsString, i: int)
    requires Decides(cache, writes, key, i)
    requires w.Target() == key ==> !Before(writes[i].profile.updatedAt, w.profile.updatedAt)
    ensures Decides(cache, writes + [w], key, i)
  {
  }

  lemma BeforeSplits(a: JsString, b: JsString, c: JsString)
    requires !Before(b, a) && Before(b, c)
    ensures Before(a, c)
  {
    BeforeTotal(a, b);
    if Before(a, b) { BeforeTransitive(a, b, c); }
  }

  /** Whatever decided, nothing written or stored is later. */
  lemma NothingLater(cache: Cache, writes: seq<Write>, key: JsString, final: Cache)
    requires Outcome(cache, writes, key, final)
    ensures key !in final ==> key !in cache && Untouched(writes, key)
    ensures key in final && key in cache ==> !Before(final[key].updatedAt, cache[key].updatedAt)
    ensures key in final ==> forall j :: 0 <= j < |writes| && writes[j].Target() == key ==>
                               !Before(final[key].updatedAt, writes[j].profile.updatedAt)
  {
    if key in final {
      BeforeIrreflexive(final[key].updatedAt);
      if !(Stands(cache, writes, key) && final[key] == cache[key]) {
        var i :| Decides(cache, writes, key, i) && final[key] == writes[i].profile;
        DecidesLast(cache, writes, key, i);
      }
    }
  }

  lemma DecidesLast(cache: Cache, writes: seq<Write>, key: JsString, i: int)
    requires Decides(cache, writes, key, i)
    ensures key in cache ==> !Before(writes[i].profile.updatedAt, cache[key].updatedAt)
    ensures forall j :: 0 <= j < |writes| && writes[j].Target() == key ==>
                          !Before(writes[i].profile.updatedAt, writes[j].profile.updatedAt)
  {
    if key in cache { BeforeAsymmetric(cache[key].updatedAt, writes[i].profile.updatedAt); }
    forall j | 0 <= j < i && writes[j].Target() == key
      ensures !Before(writes[i].profile.updatedAt, writes[j].profile.updatedAt)
    {
      BeforeAsymmetric(writes[j].profile.updatedAt, writes[i].profile.updatedAt);
    }
  }

  lemma NewDecides(cache: Cache, writes: seq<Write>, w: Write, key: JsString, final: Cache)
    requires Outcome(cache, writes, key, final) && w.Target() == key && Wins(final, key, w.profile)
    ensures Decides(cache, writes + [w], key, |writes|)
  {
    NothingLater(cache, writes, key, final);
    hide Outcome, Before;
    BeforeIrreflexive(w.profile.updatedAt);
    forall j | 0 <= j < |writes| && writes[j].Target() == key
      ensures Before(writes[j].profile.updatedAt, w.profile.updatedAt)
    {
      BeforeSplits(writes[j].profile.updatedAt, final[key].updatedAt, w.profile.updatedAt);
    }
    if key in cache {
      BeforeSplits(cache[key].updatedAt, final[key].updatedAt, w.profile.updatedAt);
    }
  }

  /** Any interleaving of the two kinds of write leaves, for every key, the earliest write among those of
      greatest `updatedAt`, unless what was there is at least as late. */
  lemma {:induction false} LastWriterWins(cache: Cache, writes: seq<Write>, key: JsString)
    ensures Outcome(cache, writes, key, Run(cache, writes))
    decreases |writes|
  {
    if writes != [] {
      var rest, w := writes[..|writes| - 1], writes[|writes| - 1];
      LastWriterWins(cache, rest, key);
      assert writes == rest + [w];
      OutcomeGrows(cache, rest, w, key, Run(cache, rest));
    }
  }

  lemma OutcomeGrows(cache: Cache, writes: seq<Write>, w: Write, key: JsString, final: Cache)
    requires Outcome(cache, writes, key, final)
    ensures Outcome(cache, writes + [w], key, Put(final, w.Target(), w.profile))
  {
    hide Before;
    var next := Put(final, w.Target(), w.profile);
    if w.Target() == key && Wins(final, key, w.profile) {
      NewDecides(cache, writes, w, key, final);
      assert (writes + [w])[|writes|] == w;
    } else if key in final {
      assert next[key] == final[key];
      if Stands(cache, writes, key) && key in cache && final[key] == cache[key] {
        StandsGrows(cache, writes, w, key);
      } else {
        var i :| Decides(cache, writes, key, i) && final[key] == writes[i].profile;
        DecidesGrows(cache, writes, w, key, i);
        assert (writes + [w])[i] == writes[i];
      }
    }
  }

  /** No two writes to one key carry the same time stamp, unless they are the same write. */
  ghost predicate DistinctTimes(writes: seq<Write>) {
    forall i, j ::
      (0 <= i < |writes| && 0 <= j < |writes| && writes[i].Target() == writes[j].Target()
       && writes[i].profile.updatedAt == writes[j].profile.updatedAt)
      ==> writes[i].profile == writes[j].profile
  }

  /** The order of delivery, and repeated delivery, do not matter. */
  lemma OrderIsIrrelevant(cache: Cache, a: seq<Write>, b: seq<Write>)
    requires (forall w :: w in a <==> w in b) && DistinctTimes(a)
    ensures Run(cache, a) == Run(cache, b)
  {
    forall key
      ensures key in Run(cache, a) <==> key in Run(cache, b)
      ensures key in Run(cache, a) && key in Run(cache, b) ==> Run(cache, a)[key] == Run(cache, b)[key]
    {
      LastWriterWins(cache, a, key);
      LastWriterWins(cache, b, key);
      SameOutcome(cache, a, b, key, Run(cache, a), Run(cache, b));
    }
  }

  lemma SameOutcome(cache: Cache, a: seq<Write>, b: seq<Write>, key: JsString, fa: Cache, fb: Cache)
    requires (forall w :: w in a <==> w in b) && DistinctTimes(a)
    requires Outcome(cache, a, key, fa) && Outcome(cache, b, key, fb)
    ensures key in fa <==> key in fb
    ensures key in fa && key in fb ==> fa[key] == fb[key]
  {
    hide Outcome;
    Latest(cache, a, key, fa);
    Latest(cache, b, key, fb);
    if key in fa && key in fb {
      BeforeTotal(fa[key].updatedAt, fb[key].updatedAt);
    }
  }

  /** The outcome without its order: from storage or from a write, and nothing is later; storage wins ties. */
  lemma Latest(cache: Cache, writes: seq<Write>, key: JsString, final: Cache)
    requires Outcome(cache, writes, key, final)
    ensures key in final <==> key in cache || exists w :: w in writes && w.Target() == key
    ensures key in final ==> forall w :: w in writes && w.Target() == key ==> !Before(final[key].updatedAt, w.profile.updatedAt)
    ensures key in final && key in cache ==> final[key] == cache[key] || Before(cache[key].updatedAt, final[key].updatedAt)
    ensures key in final ==> (key in cache && final[key] == cache[key])
                             || exists w :: w in writes && w.Target() == key && w.profile == final[key]
  {
    NothingLater(cache, writes, key, final);
    hide Before;
    if key in final && !(key in cache && final[key] == cache[key]) {
      var i :| Decides(cache, writes, key, i) && final[key] == writes[i].profile;
      assert writes[i] in writes;
    }
  }

  /** One write: the key as it comes on the one path, folded on the other. */
  lemma OneWrite(cache: Cache, key: JsString, profile: Profile)
    ensures Run(cache, [Plain(key, profile)]) == Put(cache, key, profile)
    ensures Run(cache, [Neutralized(key, profile)]) == Put(cache, Lower(key), profile)
  {
    assert [Plain(key, profile)][..0] == [] && [Neutralized(key, profile)][..0] == [];
  }

  // ── Card import ──────────────────────────────────────────────────────────

  /** `readContactEntry` folds the key. */
  function ReadEntry(cache: Cache, key: JsString): Option<Profile> {
    if Lower(key) in cache then Some(cache[Lower(key)]) else None
  }

  /** The entry `importCard` hands to `writeContactEntry`. */
  function Imported(cache: Cache, key: JsString, nickname: JsString, updatedAt: JsString): Profile {
    var existing := ReadEntry(cache, key);
    Profile(nickname, if existing.Some? then existing.value.avatar else None, updatedAt)
  }

  /** The `cached` it reports. */
  predicate Reported(cache: Cache, key: JsString, updatedAt: JsString) {
    var existing := ReadEntry(cache, key);
    existing.None? || Before(existing.value.updatedAt, updatedAt)
  }

  function AfterImport(cache: Cache, key: JsString, nickname: JsString, updatedAt: JsString): Cache {
    Put(cache, key, Imported(cache, key, nickname, updatedAt))
  }

  /** Whether the import wrote is reported correctly for every cache exactly when the key is in lower case:
      the read folds the key and the write does not. */
  lemma ReportIsRightIff(key: JsString, nickname: JsString, updatedAt: JsString)
    ensures (forall cache: Cache :: Reported(cache, key, updatedAt) <==> Wins(cache, key, Imported(cache, key, nickname, updatedAt)))
            <==> Lower(key) == key
  {
    if Lower(key) != key {
      var cache: Cache := map[Lower(key) := Profile(nickname, None, updatedAt)];
      BeforeIrreflexive(updatedAt);
      assert !Reported(cache, key, updatedAt) && Wins(cache, key, Imported(cache, key, nickname, updatedAt));
    }
  }

  ghost predicate KeepsAvatars(before: Cache, after: Cache) {
    forall k | k in before && before[k].avatar.Some? :: k in after && after[k].avatar == before[k].avatar
  }

  /** An import never takes a stored avatar away, for every cache, exactly when the key is in lower case (or
      the card carries no time at all, and so never replaces an entry). */
  lemma AvatarsSurviveIff(key: JsString, nickname: JsString, updatedAt: JsString)
    ensures (forall cache: Cache :: KeepsAvatars(cache, AfterImport(cache, key, nickname, updatedAt)))
            <==> Lower(key) == key || updatedAt == []
  {
    if Lower(key) != key && updatedAt != [] {
      var cache: Cache := map[key := Profile(nickname, Some([]), [])];
      assert AfterImport(cache, key, nickname, updatedAt)[key].avatar == None;
      assert !KeepsAvatars(cache, AfterImport(cache, key, nickname, updatedAt));
    }
  }

  /** The keys an import gets from a scanned card are in lower case, so its report is right and no avatar is
      lost. */
  lemma CardImportsAreRight(card: JsString, verify: ContactCard.Verifier, cache: Cache, nickname: JsString, updatedAt: JsString)
    requires ContactCard.Decoded(card, verify).Ok?
    ensures var key := ContactCard.Decoded(card, verify).value.pubkeyHex;
            && (Reported(cache, key, updatedAt) <==> Wins(cache, key, Imported(cache, key, nickname, updatedAt)))
            && KeepsAvatars(cache, AfterImport(cache, key, nickname, updatedAt))
  {
    ContactCard.DecodedKeyIsLower(card, verify);
    var key := ContactCard.Decoded(card, verify).value.pubkeyHex;
    ReportIsRightIff(key, nickname, updatedAt);
    AvatarsSurviveIff(key, nickname, updatedAt);
  }

  /** What an import under a lower-case key does to the cache: a card later than what is stored gives the entry its
      nickname and time and keeps the avatar; any other changes nothing; and no other entry is touched. */
  lemma ImportEffect(cache: Cache, key: JsString, nickname: JsString, updatedAt: JsString, other: JsString)
    requires Lower(key) == key
    ensures var after := AfterImport(cache, key, nickname, updatedAt);
            && (if key in cache && !Before(cache[key].updatedAt, updatedAt) then after == cache
                else key in after && after[key].nickname == nickname && after[key].updatedAt == updatedAt
                     && after[key].avatar == (if key in cache then cache[key].avatar else None))
            && (other != key ==> (other in after <==> other in cache) && (other in cache ==> after[other] == cache[other]))
  {
  }

  // ── The store ────────────────────────────────────────────────────────────

  datatype WriteResult = WriteResult(landed: bool, lwwWon: bool, avatarNonNull: bool)

  class ContactCacheStore {
    var cache: Cache
    const contacts: Contacts.ContactStore

    constructor (contacts: Contacts.ContactStore)
      ensures cache == map[] && this.contacts == contacts
    {
      cache := map[];
      this.contacts := contacts;
    }

    /** `writeContactEntry`: a write that goes through also remembers the contact. */
    method WriteContactEntry(key: JsString, profile: Profile, saved: bool, contactSaved: bool)
      modifies `cache, contacts
      ensures cache == if saved then Run(old(cache), [Plain(key, profile)]) else old(cache)
      ensures contacts.View() ==
              if saved && contactSaved && Wins(old(cache), key, profile)
              then Contacts.Step(old(contacts.View()), Contacts.Remember(key, profile.updatedAt, true))
              else old(contacts.View())
    {
      if key in cache && !Before(cache[key].updatedAt, profile.updatedAt) {
        return;
      }
      if !saved {
        return;
      }
      cache := cache[key := profile];
      contacts.RememberContact(key, profile.updatedAt, true, contactSaved);
    }

    /** `writeContactEntryNeutralized`: never touches the contacts, and reports what happened. */
    method WriteContactEntryNeutralized(pubkeyHex: JsString, profile: Profile, saved: bool) returns (result: WriteResult)
      modifies `cache
      ensures cache == if saved then Run(old(cache), [Neutralized(pubkeyHex, profile)]) else old(cache)
      ensures result.lwwWon <==> saved && Wins(old(cache), Lower(pubkeyHex), profile)
      ensures result.landed <==> result.lwwWon && profile.avatar.Some?
      ensures result.avatarNonNull ==> Lower(pubkeyHex) in cache && cache[Lower(pubkeyHex)].avatar.Some?
      ensures saved && Lower(pubkeyHex) in cache ==> (result.avatarNonNull <==> cache[Lower(pubkeyHex)].avatar.Some?)
    {
      var key := Lower(pubkeyHex);
      var lwwWon := key !in cache || Before(cache[key].updatedAt, profile.updatedAt);
      if lwwWon {
        if !saved {
          return WriteResult(false, false, false);
        }
        cache := cache[key := profile];
      }
      var finalEntry := if lwwWon then profile else cache[key];
      result := WriteResult(lwwWon && finalEntry.avatar.Some?, lwwWon, finalEntry.avatar.Some?);
    }

    /** `importCard` */
    method ImportCard(pubkeyHex: JsString, nickname: JsString, updatedAt: JsString, saved: bool, contactSaved: bool)
      returns (cached: bool)
      modifies `cache, contacts
      ensures cached <==> Reported(old(cache), pubkeyHex, updatedAt)
      ensures cache == if saved then AfterImport(old(cache), pubkeyHex, nickname, updatedAt) else old(cache)
      ensures saved && Lower(pubkeyHex) == pubkeyHex ==> (cached <==> Wins(old(cache), pubkeyHex, Imported(old(cache), pubkeyHex, nickname, updatedAt)))
      ensures Lower(pubkeyHex) == pubkeyHex ==> KeepsAvatars(old(cache), cache)
    {
      var existing := ReadEntry(cache, pubkeyHex);
      var willWrite := existing.None? || Before(existing.value.updatedAt, updatedAt);
      var avatar := if existing.Some? then existing.value.avatar else None;
      WriteContactEntry(pubkeyHex, Profile(nickname, avatar, updatedAt), saved, contactSaved);
      return willWrite;
    }

    /** `purgeStrangerContacts`: the contacts first, then the cached profiles. Each half swallows a failed
        write and still counts. */
    method PurgeStrangerContacts(groups: seq<Group>, known: set<JsString>, own: JsString, saved: bool, cacheSaved: bool)
      returns (deleted: nat)
      modifies `cache, contacts
      ensures contacts.View() ==
              if saved then Contacts.Step(old(contacts.View()), Contacts.Purge(groups, known, own)) else old(contacts.View())
      ensures cache == if cacheSaved then map k | k in old(cache) && Allowed(k, groups, known, own) :: old(cache)[k] else old(cache)
      ensures deleted == |set k | k in old(contacts.stored) && !Allowed(k, groups, known, own)|
                         + |set k | k in old(cache) && !Allowed(k, groups, known, own)|
    {
      deleted := contacts.PurgeStrangerContacts(groups, known, own, saved);
      var kept, more := Contacts.PurgeKeys(cache, groups, known, own);
      if more > 0 && cacheSaved {
        cache := kept;
      }
      deleted := deleted + more;
    }
  }
}
