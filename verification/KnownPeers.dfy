/** The ever-known peers, a stored list that only grows, and the flag of the one-time migration. */
module KnownPeers {
  import opened Js
  import opened WalledGarden

  function Elements(list: seq<JsString>): set<JsString> {
    set x | x in list
  }

  /** The keys a bulk add contributes: lower case, empty ones skipped. */
  function LowerKeys(hexes: seq<JsString>): set<JsString> {
    set hex | hex in hexes && hex != [] :: Lower(hex)
  }

  /** Everybody but oneself in the current groups, lower case. */
  ghost function OtherMembers(groups: seq<Group>, own: JsString): set<JsString> {
    set i, j | 0 <= i < |groups| && 0 <= j < |groups[i].memberPubkeys| && groups[i].memberPubkeys[j] != []
               && Lower(groups[i].memberPubkeys[j]) != Lower(own) :: Lower(groups[i].memberPubkeys[j])
  }

  /** The loop both passes share: every member other than oneself. */
  method CollectMembers(groups: seq<Group>, own: JsString) returns (all: seq<JsString>)
    ensures LowerKeys(all) == OtherMembers(groups, own)
    ensures forall x :: x in LowerKeys(all) <==>
              exists group, member :: group in groups && member in group.memberPubkeys
                                      && member != [] && Lower(member) != Lower(own) && x == Lower(member)
  {
    all := [];
    for i := 0 to |groups|
      invariant LowerKeys(all) == OtherMembers(groups[..i], own)
    {
      var members := groups[i].memberPubkeys;
      EmptyGroupAddsNobody(groups[..i], own);
      assert members[..0] == [];
      for j := 0 to |members|
        invariant LowerKeys(all) == OtherMembers(groups[..i] + [Group(members[..j])], own)
      {
        MembersGrow(groups[..i], members[..j], members[j], own);
        assert members[..j] + [members[j]] == members[..j + 1];
        LowerKeysGrow(all, members[j]);
        if Lower(members[j]) != Lower(own) {
          all := all + [members[j]];
        }
      }
      assert groups[..i] + [Group(members[..|members|])] == groups[..i + 1] by {
        assert members[..|members|] == members;
      }
    }
    assert groups[..|groups|] == groups;
  }

  lemma MembersGrow(groups: seq<Group>, members: seq<JsString>, m: JsString, own: JsString)
    ensures OtherMembers(groups + [Group(members + [m])], own)
            == OtherMembers(groups + [Group(members)], own) + (if m != [] && Lower(m) != Lower(own) then {Lower(m)} else {})
  {
    var more, less := groups + [Group(members + [m])], groups + [Group(members)];
    forall x
      ensures x in OtherMembers(more, own) <==>
              x in OtherMembers(less, own) || (m != [] && Lower(m) != Lower(own) && x == Lower(m))
    {
      MemberOf(groups, members + [m], own, x);
      MemberOf(groups, members, own, x);
    }
  }

  lemma EmptyGroupAddsNobody(groups: seq<Group>, own: JsString)
    ensures OtherMembers(groups + [Group([])], own) == OtherMembers(groups, own)
  {
    forall x ensures x in OtherMembers(groups + [Group([])], own) <==> x in OtherMembers(groups, own) {
      MemberOf(groups, [], own, x);
    }
  }

  lemma ElementsGrow(list: seq<JsString>, x: JsString)
    ensures Elements(list + [x]) == Elements(list) + {x}
  {
    assert forall y :: y in list + [x] <==> y in list || y == x;
  }

  lemma LowerKeysGrow(hexes: seq<JsString>, hex: JsString)
    ensures LowerKeys(hexes + [hex]) == LowerKeys(hexes) + (if hex == [] then {} else {Lower(hex)})
  {
    if hex != [] {
      assert hex in hexes + [hex];
    }
    assert forall h :: h in hexes + [hex] <==> h in hexes || h == hex;
  }

  lemma MemberOf(groups: seq<Group>, members: seq<JsString>, own: JsString, x: JsString)
    ensures x in OtherMembers(groups + [Group(members)], own)
            <==> x in OtherMembers(groups, own) || (x in LowerKeys(members) && x != Lower(own))
  {
    var all := groups + [Group(members)];
    forall i, j | 0 <= i < |all| && 0 <= j < |all[i].memberPubkeys| && all[i].memberPubkeys[j] != []
                  && Lower(all[i].memberPubkeys[j]) != Lower(own) && Lower(all[i].memberPubkeys[j]) == x
      ensures x in OtherMembers(groups, own) || (x in LowerKeys(members) && x != Lower(own))
    {
      if i < |groups| {
        assert groups[i].memberPubkeys[j] == all[i].memberPubkeys[j];
      } else {
        assert members[j] in members;
      }
    }
    forall i, j | 0 <= i < |groups| && 0 <= j < |groups[i].memberPubkeys| && groups[i].memberPubkeys[j] != []
                  && Lower(groups[i].memberPubkeys[j]) != Lower(own) && Lower(groups[i].memberPubkeys[j]) == x
      ensures x in OtherMembers(all, own)
    {
      assert all[i].memberPubkeys[j] == groups[i].memberPubkeys[j];
    }
    forall j | 0 <= j < |members| && members[j] != [] && Lower(members[j]) == x && x != Lower(own)
      ensures x in OtherMembers(all, own)
    {
      assert all[|groups|].memberPubkeys[j] == members[j];
    }
  }

  /** A member other than oneself passes the gate, and is among those a pass remembers. */
  lemma MembersAreCollected(peer: JsString, groups: seq<Group>, own: JsString)
    requires peer != [] && Lower(peer) != Lower(own)
    ensures InSomeGroup(groups, Lower(peer)) <==> Lower(peer) in OtherMembers(groups, own)
  {
    if InSomeGroup(groups, Lower(peer)) {
      var i, j :| 0 <= i < |groups| && 0 <= j < |groups[i].memberPubkeys| && Lower(groups[i].memberPubkeys[j]) == Lower(peer);
      assert |groups[i].memberPubkeys[j]| == |Lower(peer)|;
    }
  }

  class KnownPeersStore {
    var stored: seq<JsString>
    var migrated: bool

    function Known(): set<JsString>
      reads this
    {
      Elements(stored)
    }

    constructor ()
      ensures Known() == {} && !migrated
    {
      stored, migrated := [], false;
    }

    /** `rememberKnownPeer` */
    method RememberKnownPeer(hex: JsString, saved: bool)
      modifies `stored
      ensures Known() == if saved then old(Known()) + LowerKeys([hex]) else old(Known())
      ensures old(stored) <= stored
    {
      if hex == [] {
        return;
      }
      var lower := Lower(hex);
      assert LowerKeys([hex]) == {lower};
      if lower in stored {
        return;
      }
      if saved {
        ElementsGrow(stored, lower);
        stored := stored + [lower];
      }
    }

    /** `rememberKnownPeers`: one write, and only if something is new. */
    method RememberKnownPeers(hexes: seq<JsString>, saved: bool)
      modifies `stored
      ensures Known() == if saved then old(Known()) + LowerKeys(hexes) else old(Known())
      ensures forall x :: x in Known() <==>
                x in old(Known()) || (saved && exists hex :: hex in hexes && hex != [] && x == Lower(hex))
    {
      var existing := stored;
      var changed := false;
      for i := 0 to |hexes|
        invariant Elements(existing) == Elements(stored) + LowerKeys(hexes[..i])
        invariant !changed ==> existing == stored
        invariant stored == old(stored)
      {
        assert hexes[..i + 1] == hexes[..i] + [hexes[i]];
        LowerKeysGrow(hexes[..i], hexes[i]);
        var hex := hexes[i];
        if hex != [] {
          var lower := Lower(hex);
          if lower !in existing {
            ElementsGrow(existing, lower);
            existing := existing + [lower];
            changed := true;
          }
        }
      }
      assert hexes[..|hexes|] == hexes;
      if changed && saved {
        stored := existing;
      }
    }
  }
}
