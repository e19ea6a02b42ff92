/** Who may send direct messages: members of a shared group and peers met before. */
module WalledGarden {
  import opened Js

  datatype Group = Group(memberPubkeys: seq<JsString>)

  /** Some member of some group is the peer, in whatever letter case. */
  ghost predicate InSomeGroup(groups: seq<Group>, peerLower: JsString) {
    exists i, j :: 0 <= i < |groups| && 0 <= j < |groups[i].memberPubkeys| && Lower(groups[i].memberPubkeys[j]) == peerLower
  }

  /** `own` is empty while the user's key is unknown. */
  ghost predicate IsOwn(peer: JsString, own: JsString) {
    own != [] && Lower(peer) == Lower(own)
  }

  ghost predicate Allowed(peer: JsString, groups: seq<Group>, known: set<JsString>, own: JsString) {
    peer != [] && !IsOwn(peer, own) && (InSomeGroup(groups, Lower(peer)) || Lower(peer) in known)
  }

  /** `isAllowedDmSender`. */
  method IsAllowedDmSender(peer: JsString, groups: seq<Group>, known: set<JsString>, own: JsString) returns (allowed: bool)
    ensures allowed <==> Allowed(peer, groups, known, own)
  {
    if peer == [] {
      return false;
    }
    var peerLower := Lower(peer);
    if own != [] && peerLower == Lower(own) {
      return false;
    }
    if |groups| == 0 && |known| == 0 {
      return false;
    }
    for i := 0 to |groups|
      invariant !InSomeGroup(groups[..i], peerLower)
    {
      var members := groups[i].memberPubkeys;
      for j := 0 to |members|
        invariant forall k :: 0 <= k < j ==> Lower(members[k]) != peerLower
      {
        if Lower(members[j]) == peerLower {
          return true;
        }
      }
    }
    assert groups[..|groups|] == groups;
    allowed := peerLower in known;
  }

  /** Who passes: a peer that is named, is not the user, and is a member of some group or known, letter case aside. */
  lemma AllowedMeans(peer: JsString, groups: seq<Group>, known: set<JsString>, own: JsString)
    ensures Allowed(peer, groups, known, own) <==>
              && peer != []
              && !(own != [] && Lower(peer) == Lower(own))
              && ((exists group, member :: group in groups && member in group.memberPubkeys && Lower(member) == Lower(peer))
                  || Lower(peer) in known)
  {
    hide Lower;
    if InSomeGroup(groups, Lower(peer)) {
      var i, j :| 0 <= i < |groups| && 0 <= j < |groups[i].memberPubkeys| && Lower(groups[i].memberPubkeys[j]) == Lower(peer);
      assert groups[i] in groups && groups[i].memberPubkeys[j] in groups[i].memberPubkeys;
    }
  }

  /** The gate does not see letter case. */
  lemma GateIgnoresCase(peer: JsString, other: JsString, groups: seq<Group>, known: set<JsString>, own: JsString)
    requires Lower(peer) == Lower(other)
    ensures Allowed(peer, groups, known, own) <==> Allowed(other, groups, known, own)
  {
    assert |peer| == |Lower(peer)| && |other| == |Lower(other)|;
  }

  /** More known peers never shut anyone out. */
  lemma KnownPeersOnlyAdmit(peer: JsString, groups: seq<Group>, known: set<JsString>, more: set<JsString>, own: JsString)
    requires known <= more
    ensures Allowed(peer, groups, known, own) ==> Allowed(peer, groups, more, own)
  {
  }
}
