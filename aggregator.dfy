/** The shared report: a map from interface name to the set of VLAN IDs seen
    on it, filled by the capture callback of every observer. The mutex of
    the source serialises every update, so the model applies the updates one
    after another, in the order the lock was taken. */
module Aggregator {
  import opened VlanTag
  import Interfaces

  /** `std::map<std::string, std::set<unsigned short int>>` as a value. */
  type VlanMap = map<string, set<u16>>

  /** One packet handed to the capture callback of the observer of `iface`. */
  datatype Delivery = Delivery(iface: string, frame: seq<bv8>)

  /** The "inbound && vlan" filter lets only tagged frames through, so every
      delivered frame holds the two TCI bytes the callback reads. */
  predicate Tagged(traffic: seq<Delivery>) {
    forall d :: d in traffic ==> |d.frame| >= 16
  }

  /** Every ID in the map is a 12-bit VLAN identifier. */
  ghost predicate VidsValid(m: VlanMap) {
    forall iface, v :: iface in m && v in m[iface] ==> v <= MaxVid
  }

  /** `map[iface].insert(vid)`: the key is created with an empty set when it
      is missing, then `vid` joins its set; nothing else changes. */
  function Inserted(m: VlanMap, iface: string, vid: u16): (r: VlanMap)
    ensures r.Keys == m.Keys + {iface}
    ensures forall v :: v in r[iface] <==> v == vid || (iface in m && v in m[iface])
    ensures forall k :: k in m && k != iface ==> r[k] == m[k]
  {
    var ids := if iface in m then m[iface] else {};
    m[iface := ids + {vid}]
  }

  /** Inserting a pair that is already recorded changes nothing, so
      recording the same packet twice is the same as recording it once. */
  lemma InsertedIdempotent(m: VlanMap, iface: string, vid: u16)
    ensures Inserted(Inserted(m, iface, vid), iface, vid) == Inserted(m, iface, vid)
  {
    var once := Inserted(m, iface, vid);
    assert once[iface] + {vid} == once[iface];
  }

  /** Insertion only grows the map: every recorded pair stays recorded. */
  lemma InsertedGrows(m: VlanMap, iface: string, vid: u16, k: string, v: u16)
    requires k in m && v in m[k]
    ensures k in Inserted(m, iface, vid) && v in Inserted(m, iface, vid)[k]
  {
  }

  class VlanList {
    var vlans: VlanMap

    constructor ()
      ensures vlans == map[]
    {
      vlans := map[];
    }

    /** The locked section of the callback: `operator[]` then `insert`. */
    method Record(iface: string, vid: u16)
      modifies this
      ensures vlans == Inserted(old(vlans), iface, vid)
    {
      if iface !in vlans {
        vlans := vlans[iface := {}];
      }
      vlans := vlans[iface := vlans[iface] + {vid}];
    }

    /** `pcapHandler`: extract the VID of a tagged frame and record it
        under the observer's interface. */
    method HandlePacket(iface: string, frame: seq<bv8>)
      requires |frame| >= 16
      modifies this
      ensures vlans == Inserted(old(vlans), iface, ExtractVid(frame))
      ensures VidsValid(old(vlans)) ==> VidsValid(vlans)
    {
      var vid := ExtractVid(frame);
      Record(iface, vid);
    }
  }

  /** The map after the callbacks for `traffic` ran in this order, where only
      the interfaces in `observed` have an observer. */
  function Collected(traffic: seq<Delivery>, observed: seq<string>): (m: VlanMap)
    requires Tagged(traffic)
    ensures forall iface :: iface in m ==> iface in observed
    ensures VidsValid(m)
  {
    if traffic == [] then map[]
    else
      var n := |traffic| - 1;
      var d := traffic[n];
      assert d in traffic;
      var before := Collected(traffic[..n], observed);
      if d.iface in observed then Inserted(before, d.iface, ExtractVid(d.frame)) else before
  }

  /** The collected map holds exactly the pairs of the observed traffic: no
      update is lost and none is invented. */
  lemma {:induction false} CollectedPairs(traffic: seq<Delivery>, observed: seq<string>, iface: string, v: u16)
    requires Tagged(traffic)
    ensures var m := Collected(traffic, observed);
            iface in m <==> iface in observed && exists d :: d in traffic && d.iface == iface
    ensures var m := Collected(traffic, observed);
            (iface in m && v in m[iface])
            <==> iface in observed && exists d :: d in traffic && d.iface == iface && ExtractVid(d.frame) == v
  {
    if traffic != [] {
      var n := |traffic| - 1;
      var d := traffic[n];
      var prefix := traffic[..n];
      assert traffic == prefix + [d];
      CollectedPairs(prefix, observed, iface, v);
      forall e | e in traffic ensures e in prefix || e == d {
      }
    }
  }

  /** Whatever order the lock was taken in, the result is the same map. */
  lemma CollectedOrderIndependent(a: seq<Delivery>, b: seq<Delivery>, observed: seq<string>)
    requires Tagged(a) && multiset(a) == multiset(b)
    ensures Tagged(b)
    ensures Collected(a, observed) == Collected(b, observed)
  {
    forall d | d in b ensures d in a {
      assert d in multiset(b);
    }
    var ma, mb := Collected(a, observed), Collected(b, observed);
    forall iface ensures iface in ma <==> iface in mb {
      CollectedPairs(a, observed, iface, 0);
      CollectedPairs(b, observed, iface, 0);
      SameElements(a, b);
    }
    forall iface | iface in ma ensures ma[iface] == mb[iface] {
      forall v: u16 ensures v in ma[iface] <==> v in mb[iface] {
        CollectedPairs(a, observed, iface, v);
        CollectedPairs(b, observed, iface, v);
        SameElements(a, b);
      }
    }
  }

  lemma SameElements(a: seq<Delivery>, b: seq<Delivery>)
    requires multiset(a) == multiset(b)
    ensures forall d :: d in a <==> d in b
  {
    forall d ensures d in a <==> d in b {
      assert d in a <==> d in multiset(a);
      assert d in b <==> d in multiset(b);
    }
  }

  /** `getVlanList`: enumerate the interfaces, start one observer on each,
      and read the map when the observation window ends. `traffic` is what
      the callbacks of all observers delivered before that read, in the order
      they took the lock; packets of an interface without an observer are
      never captured. An observer whose capture could not be opened simply
      has no packets in `traffic`. */
  method GetVlanList(dir: Interfaces.DirListing, files: Interfaces.Files, traffic: seq<Delivery>)
    returns (vlans: VlanMap)
    requires Tagged(traffic)
    ensures vlans == Collected(traffic, if dir.Opened? then Interfaces.Selected(dir.entries, files) else [])
  {
    var list := new VlanList();
    var interfaces := Interfaces.GetInterfaces(dir, files);
    var i := 0;
    while i < |traffic|
      invariant 0 <= i <= |traffic|
      invariant list.vlans == Collected(traffic[..i], interfaces)
    {
      var d := traffic[i];
      assert d in traffic;
      if d.iface in interfaces {
        list.HandlePacket(d.iface, d.frame);
      }
      assert traffic[..i + 1][..i] == traffic[..i];
      i := i + 1;
    }
    assert traffic[..i] == traffic;
    vlans := list.vlans;
  }

  /** Three frames on "eth0" tagged 10, 20 and 10 leave the one entry
      "eth0" -> {10, 20}. */
  lemma ThreePacketsOnOneInterface(addresses: seq<bv8>)
    requires |addresses| == 12
    ensures var traffic := [Delivery("eth0", TaggedFrame(addresses, 0, false, 10, [])),
                            Delivery("eth0", TaggedFrame(addresses, 0, false, 20, [])),
                            Delivery("eth0", TaggedFrame(addresses, 0, false, 10, []))];
            Tagged(traffic) && Collected(traffic, ["eth0"]) == map["eth0" := {10, 20}]
  {
    var f10 := TaggedFrame(addresses, 0, false, 10, []);
    var f20 := TaggedFrame(addresses, 0, false, 20, []);
    ExtractTaggedFrame(addresses, 0, false, 10, []);
    ExtractTaggedFrame(addresses, 0, false, 20, []);
    var traffic := [Delivery("eth0", f10), Delivery("eth0", f20), Delivery("eth0", f10)];
    var observed := ["eth0"];
    assert traffic[..1][..0] == [];
    assert Collected([], observed) == map[];
    assert traffic[..1][0] == traffic[0] && traffic[..2][1] == traffic[1];
    assert "eth0" in observed;
    var m1 := Collected(traffic[..1], observed);
    assert m1 == Inserted(map[], "eth0", 10);
    assert {} + {10} == {10};
    assert m1 == map["eth0" := {10}];
    assert traffic[..2][..1] == traffic[..1];
    var m2 := Collected(traffic[..2], observed);
    assert m2 == Inserted(m1, "eth0", 20);
    assert {10} + {20} == {10, 20};
    assert m2 == map["eth0" := {10, 20}];
    assert traffic[..2] == traffic[..|traffic| - 1];
    assert Collected(traffic, observed) == Inserted(m2, "eth0", 10);
    assert {10, 20} + {10} == {10, 20};
  }
}
