/**
 Exactly which hosts NetworkTopologyStrategy gives a datacenter, and in which order: the first host met of
 every rack and then the other hosts in the order they are met, up to the number wanted.
 */
module PlacementOrder {
  import opened ReplicaPlacement
  import opened PlacementLaws
  import opened PlacementCounts
  import opened Seqs
  import Wrappers

  /** The first host of each rack. */
  function Firsts(own: seq<Host>): seq<Host> {
    if own == [] then []
    else
      var init, last := own[..|own| - 1], own[|own| - 1];
      if RackMet(init, last) then Firsts(init) else Firsts(init) + [last]
  }

  /** All others. */
  function Others(own: seq<Host>): seq<Host> {
    if own == [] then []
    else
      var init, last := own[..|own| - 1], own[|own| - 1];
      if RackMet(init, last) then Others(init) + [last] else Others(init)
  }

  predicate RackMet(own: seq<Host>, h: Host) {
    exists i :: 0 <= i < |own| && own[i].rack == h.rack
  }

  lemma AppendHost(own: seq<Host>, h: Host)
    ensures Firsts(own + [h]) == if RackMet(own, h) then Firsts(own) else Firsts(own) + [h]
    ensures Others(own + [h]) == if RackMet(own, h) then Others(own) + [h] else Others(own)
  {
    assert (own + [h])[..|own|] == own;
  }

  lemma RackMetIs(own: seq<Host>, h: Host)
    ensures RackMet(own, h) <==> h.rack in RacksOf(Elements(own))
  {
    if h.rack in RacksOf(Elements(own)) {
      var g :| g in Elements(own) && g.rack == h.rack;
      assert g in own;
    }
    if RackMet(own, h) {
      var i :| 0 <= i < |own| && own[i].rack == h.rack;
      assert own[i] in Elements(own);
    }
  }

  lemma {:induction false} LengthsAdd(own: seq<Host>)
    ensures |Firsts(own)| + |Others(own)| == |own|
    decreases |own|
  {
    if own != [] {
      LengthsAdd(own[..|own| - 1]);
    }
  }

  lemma {:induction false} PartsAreHosts(own: seq<Host>)
    ensures Elements(Firsts(own)) + Elements(Others(own)) == Elements(own)
    decreases |own|
  {
    if own != [] {
      var init, last := own[..|own| - 1], own[|own| - 1];
      PartsAreHosts(init);
      hide RackMet, Elements;
      assert own == init + [last];
      ElementsAppend(init, last);
      ElementsAppend(Firsts(init), last);
      ElementsAppend(Others(init), last);
    } else {
      assert Elements([]) == {};
    }
  }

  /** The first hosts stand for all racks, one each. */
  lemma {:induction false} FirstsHaveRacks(own: seq<Host>)
    ensures RacksOf(Elements(Firsts(own))) == RacksOf(Elements(own))
    ensures |Firsts(own)| == |RacksOf(Elements(own))|
    decreases |own|
  {
    if own != [] {
      var init, last := own[..|own| - 1], own[|own| - 1];
      FirstsHaveRacks(init);
      assert own == init + [last];
      RackMetIs(init, last);
      ElementsAppend(init, last);
      ElementsAppend(Firsts(init), last);
      RacksUnion(Elements(init), {last});
      RacksUnion(Elements(Firsts(init)), {last});
      RacksOfOne(last);
      hide RackMet, RacksOf, Elements;
    }
  }

  /** The first host of each rack, and then the others. */
  function RacksFirst(own: seq<Host>): (r: seq<Host>)
    ensures |r| == |own|
  {
    LengthsAdd(own);
    Firsts(own) + Others(own)
  }

  /** How far a walk of one datacenter has come after its hosts `own`. */
  ghost predicate AsMet(c: Config, s: State, own: seq<Host>, dc: string) {
    var first, others, wanted := Firsts(own), Others(own), c.Wanted(dc);
    && s.Count(dc) == |s.replicas| && wanted >= 0
    && if |first| >= wanted then s.replicas == first[..wanted]
       else
         && s.Placed(dc) == RacksOf(Elements(first))
         && if |first| < c.Racks(dc) then
              && s.replicas == first && s.skipped <= others
              && (s.skipped == others || |first| + |s.skipped| >= wanted)
            else s.replicas == RacksFirst(own)[..Min(wanted, |own|)]
  }

  lemma {:induction false} PlentyStep(c: Config, s: State, own: seq<Host>, dc: string, h: Host)
    requires AsMet(c, s, own, dc) && h.datacenter == dc && |Firsts(own)| >= c.Wanted(dc)
    ensures AsMet(c, Visit(c, s, h), own + [h], dc)
  {
    AppendHost(own, h);
  }

  lemma {:induction false} RepeatedRackStep(c: Config, s: State, own: seq<Host>, dc: string, h: Host)
    requires AsMet(c, s, own, dc) && h.datacenter == dc && h.rack.Some? && h !in s.replicas && c.Factor(dc) != 0
    requires |Firsts(own)| < c.Wanted(dc) && |Firsts(own)| < c.Racks(dc)
    requires RackMet(own, h)
    ensures AsMet(c, Visit(c, s, h), own + [h], dc)
  {
    AppendHost(own, h);
    RackMetIs(own, h);
    FirstsHaveRacks(own);
    LengthsAdd(own);
    hide Firsts, Others, RackMet, RacksOf, Elements;
    assert Skips(c, s, h) && !Ignores(c, s, h);
  }

  lemma {:induction false} NewRackStep(c: Config, s: State, own: seq<Host>, dc: string, h: Host)
    requires AsMet(c, s, own, dc) && h.datacenter == dc && h.rack.Some? && h !in s.replicas && c.Factor(dc) != 0
    requires |Firsts(own)| < c.Wanted(dc) && |Firsts(own)| < c.Racks(dc)
    requires !RackMet(own, h)
    ensures AsMet(c, Visit(c, s, h), own + [h], dc)
  {
    AppendHost(own, h);
    RackMetIs(own, h);
    FirstsHaveRacks(own);
    LengthsAdd(own);
    ElementsAppend(Firsts(own), h);
    RacksUnion(Elements(Firsts(own)), {h});
    RacksOfOne(h);
    hide Firsts, Others, RackMet, RacksOf, Elements;
    var first, others, wanted := Firsts(own), Others(own), c.Wanted(dc);
    assert !Skips(c, s, h) && !Ignores(c, s, h);
    var t := Take(c, s, h);
    assert t.Placed(dc) == s.Placed(dc) + {h.rack} && |t.Placed(dc)| == |first| + 1;
    if |first| + 1 < c.Racks(dc) {
      assert t.replicas == first + [h];
    } else {
      var room := Room(wanted, |first| + 1, s.skipped);
      assert s.skipped[..room] == others[..room];
      assert t.replicas == first + [h] + others[..room];
      assert room == Min(wanted, |own| + 1) - (|first| + 1);
      assert (first + [h] + others)[..Min(wanted, |own| + 1)] == first + [h] + others[..room];
    }
  }

  lemma {:induction false} AllRacksStep(c: Config, s: State, own: seq<Host>, dc: string, h: Host)
    requires AsMet(c, s, own, dc) && h.datacenter == dc && h.rack.Some? && h !in s.replicas && c.Factor(dc) != 0
    requires |Firsts(own)| < c.Wanted(dc) && |Firsts(own)| >= c.Racks(dc)
    requires RackMet(own, h)
    ensures AsMet(c, Visit(c, s, h), own + [h], dc)
  {
    AppendHost(own, h);
    RackMetIs(own, h);
    FirstsHaveRacks(own);
    LengthsAdd(own);
    hide Firsts, Others, RackMet, RacksOf, Elements;
    var all := Firsts(own) + Others(own);
    assert Firsts(own + [h]) + Others(own + [h]) == all + [h];
    if |own| >= c.Wanted(dc) {
      assert Ignores(c, s, h);
      assert (all + [h])[..c.Wanted(dc)] == all[..c.Wanted(dc)];
    } else {
      assert all[..|own|] == all && (all + [h])[..|own| + 1] == all + [h];
      assert !Skips(c, s, h) && !Ignores(c, s, h);
      assert s.skipped[..0] == [];
    }
  }

  lemma {:induction false} OwnStep(c: Config, s: State, own: seq<Host>, dc: string, h: Host)
    requires AsMet(c, s, own, dc) && h.datacenter == dc && h.rack.Some? && h !in own && c.Factor(dc) != 0
    requires Elements(s.replicas) <= Elements(own)
    requires dc in c.datacenters && RacksOf(Elements(own + [h])) <= c.datacenters[dc].racks
    ensures AsMet(c, Visit(c, s, h), own + [h], dc)
  {
    hide AsMet, Visit, Firsts, Others;
    assert h !in s.replicas by {
      assert h in s.replicas ==> h in Elements(own);
    }
    if |Firsts(own)| >= c.Wanted(dc) {
      PlentyStep(c, s, own, dc, h);
    } else if |Firsts(own)| < c.Racks(dc) {
      if RackMet(own, h) {
        RepeatedRackStep(c, s, own, dc, h);
      } else {
        NewRackStep(c, s, own, dc, h);
      }
    } else {
      AllRacksMet(c, own, dc, h);
      AllRacksStep(c, s, own, dc, h);
    }
  }

  /** No rack is new when as many have been met as there are. */
  lemma {:induction false} AllRacksMet(c: Config, own: seq<Host>, dc: string, h: Host)
    requires dc in c.datacenters && RacksOf(Elements(own + [h])) <= c.datacenters[dc].racks
    requires |Firsts(own)| >= c.Racks(dc)
    ensures RackMet(own, h)
  {
    FirstsHaveRacks(own);
    LengthsAdd(own);
    RackMetIs(own, h);
    ElementsAppend(own, h);
    RacksUnion(Elements(own), {h});
    RacksOfOne(h);
    var met, all := RacksOf(Elements(own)), c.datacenters[dc].racks;
    if h.rack !in met {
      SubsetCardinality(met + {h.rack}, all);
    }
  }

  lemma {:induction false} OwnHostMet(c: Config, hosts: seq<Host>, dc: string, n: nat)
    requires 0 < n <= |hosts| && OneDatacenter(c, hosts, dc) && hosts[n - 1].datacenter == dc
    ensures var own, h := Own(hosts[..n - 1], dc), hosts[n - 1];
      && h.rack.Some? && h !in own && Elements(Walk(c, hosts, n - 1).replicas) <= Elements(own)
      && RacksOf(Elements(own + [h])) <= c.datacenters[dc].racks
      && Own(hosts[..n], dc) == own + [h]
  {
    hide Own, Walk, RacksOf, Collecting, Filling;
    var h := hosts[n - 1];
    assert hosts[..n] == hosts[..n - 1] + [h];
    OwnAppend(hosts[..n - 1], h, dc);
    SeenStep(c, hosts, dc, n);
    OwnElements(hosts[..n - 1], dc);
    OwnElements(hosts[..n], dc);
    PhaseInvariant(c, hosts, dc, n - 1);
  }

  lemma {:induction false} WalkAsMet(c: Config, hosts: seq<Host>, dc: string, n: nat)
    requires n <= |hosts| && OneDatacenter(c, hosts, dc)
    ensures AsMet(c, Walk(c, hosts, n), Own(hosts[..n], dc), dc)
    decreases n
  {
    hide AsMet, Visit, Own, Describes, NoRepeats, RacksOf, Elements;
    if n == 0 {
      StartAsMet(c, dc);
      assert hosts[..0] == [];
    } else {
      WalkAsMet(c, hosts, dc, n - 1);
      var s, h := Walk(c, hosts, n - 1), hosts[n - 1];
      if h.datacenter == dc {
        OwnHostMet(c, hosts, dc, n);
        OwnStep(c, s, Own(hosts[..n - 1], dc), dc, h);
      } else {
        assert hosts[..n] == hosts[..n - 1] + [h];
        OwnAppend(hosts[..n - 1], h, dc);
        IgnoresOthers(c, s, h);
        assert Own(hosts[..n - 1], dc) + [] == Own(hosts[..n - 1], dc);
      }
    }
  }

  lemma StartAsMet(c: Config, dc: string)
    requires dc in c.datacenters && c.Factor(dc) > 0
    ensures AsMet(c, START, Own([], dc), dc)
  {
  }

  /**
   With one replicated datacenter and one token per host, any factor gives the first host met of each rack
   and then the others in the order they are met, as many of all as wanted.
   */
  lemma {:induction false} PlacedInOrder(c: Config, hosts: seq<Host>, dc: string)
    requires OneDatacenter(c, hosts, dc)
    ensures var own := Own(hosts, dc);
      Replicas(c, hosts) == RacksFirst(own)[..Min(c.Factor(dc), |own|)]
  {
    var own := Own(hosts, dc);
    WalkAsMet(c, hosts, dc, |hosts|);
    assert hosts[..|hosts|] == hosts;
    FirstsHaveRacks(own);
    LengthsAdd(own);
    OwnElements(hosts, dc);
    OwnNoRepeats(hosts, dc);
    NoRepeatsCardinality(own);
    WholeWalk(c, Walk(c, hosts, |hosts|), own, dc);
  }

  lemma WholeWalk(c: Config, s: State, own: seq<Host>, dc: string)
    requires AsMet(c, s, own, dc) && dc in c.datacenters && c.Factor(dc) > 0
    requires c.datacenters[dc].hostLength == |own| && c.Racks(dc) == |Firsts(own)|
    ensures s.replicas == RacksFirst(own)[..Min(c.Factor(dc), |own|)]
  {
    LengthsAdd(own);
    hide Firsts, Others;
  }

  lemma {:induction false} OwnNoRepeats(hosts: seq<Host>, dc: string)
    requires NoRepeats(hosts)
    ensures NoRepeats(Own(hosts, dc))
    decreases |hosts|
  {
    if hosts != [] {
      var init, last := hosts[..|hosts| - 1], hosts[|hosts| - 1];
      OwnNoRepeats(init, dc);
      OwnElements(init, dc);
      assert last !in init;
      ElementsAppend(Own(init, dc), last);
    }
  }

  /** The same of each datacenter in a cluster where no datacenter takes hosts that another one skipped. */
  lemma {:induction false} OwnPlacedInOrder(c: Config, hosts: seq<Host>, dc: string)
    requires Describes(c, hosts) && NoRepeats(hosts) && !TakesForeign(c) && dc in c.datacenters && c.Factor(dc) > 0
    ensures var own := Own(hosts, dc);
      Own(Replicas(c, hosts), dc) == RacksFirst(own)[..Min(c.Factor(dc), |own|)]
  {
    hide RacksFirst, Own;
    AloneIs(c, dc);
    PlacedAlone(c, hosts, |hosts|, dc);
    PlacedInOrder(Alone(c, dc), hosts, dc);
  }

  // ----- Hosts without a rack -----

  /** The datacenter table is that of the hosts on the ring, whether they have a rack or not. */
  ghost predicate Tabled(c: Config, hosts: seq<Host>) {
    && c.Knows(hosts)
    && forall dc :: dc in c.datacenters ==>
       && c.datacenters[dc].hostLength == |HostsIn(hosts, dc)|
       && c.datacenters[dc].racks == RacksOf(HostsIn(hosts, dc))
  }

  ghost predicate OneReplicated(c: Config, hosts: seq<Host>, dc: string) {
    && Tabled(c, hosts) && NoRepeats(hosts)
    && dc in c.datacenters && c.Factor(dc) > 0
    && forall i :: 0 <= i < |hosts| && hosts[i].datacenter != dc ==> c.Factor(hosts[i].datacenter) == 0
  }

  /** The hosts without a rack and the first host of each rack. */
  function Fresh(own: seq<Host>): seq<Host> {
    if own == [] then []
    else
      var init, last := own[..|own| - 1], own[|own| - 1];
      if last.rack.Some? && RackMet(init, last) then Fresh(init) else Fresh(init) + [last]
  }

  lemma AppendFresh(own: seq<Host>, h: Host)
    ensures Fresh(own + [h]) == if h.rack.Some? && RackMet(own, h) then Fresh(own) else Fresh(own) + [h]
  {
    assert (own + [h])[..|own|] == own;
  }

  lemma {:induction false} FreshHasRacks(own: seq<Host>)
    ensures RacksOf(Elements(Fresh(own))) == RacksOf(Elements(own)) && Elements(Fresh(own)) <= Elements(own)
    decreases |own|
  {
    if own != [] {
      var init, last := own[..|own| - 1], own[|own| - 1];
      FreshHasRacks(init);
      assert own == init + [last];
      RackMetIs(init, last);
      ElementsAppend(init, last);
      ElementsAppend(Fresh(init), last);
      RacksUnion(Elements(init), {last});
      RacksUnion(Elements(Fresh(init)), {last});
      RacksOfOne(last);
      hide RackMet, RacksOf, Elements;
    }
  }

  ghost predicate AsFresh(c: Config, s: State, own: seq<Host>, dc: string) {
    var early, wanted := Fresh(own), c.Wanted(dc);
    && s.Count(dc) == |s.replicas|
    && if |early| >= wanted then 0 <= wanted && s.replicas == early[..wanted]
       else s.replicas == early && s.Placed(dc) == RacksOf(Elements(early)) - {Wrappers.None}
  }

  lemma {:induction false} FreshStep(c: Config, s: State, own: seq<Host>, dc: string, h: Host)
    requires AsFresh(c, s, own, dc) && h.datacenter == dc && h !in own && c.Factor(dc) > 0
    requires dc in c.datacenters && Wrappers.None in c.datacenters[dc].racks
    requires RacksOf(Elements(own + [h])) <= c.datacenters[dc].racks
    ensures AsFresh(c, Visit(c, s, h), own + [h], dc)
  {
    hide Fresh, RackMet, RacksOf, Elements, Visit;
    var early := Fresh(own);
    AppendFresh(own, h);
    FreshHasRacks(own);
    if |early| >= c.Wanted(dc) {
      EnoughFresh(c, s, own, dc, h);
    } else {
      NotYetReplica(s.replicas, own, h);
      RacksGrow(own, h);
      RacksGrow(early, h);
      RackMetIs(own, h);
      RoomForRack(RacksOf(Elements(own)), h.rack, c.datacenters[dc].racks);
      hide AsFresh;
      FreshLater(c, s, own, dc, h);
    }
  }

  lemma RacksGrow(hosts: seq<Host>, h: Host)
    ensures RacksOf(Elements(hosts + [h])) == RacksOf(Elements(hosts)) + {h.rack}
  {
    ElementsAppend(hosts, h);
    RacksUnion(Elements(hosts), {h});
    RacksOfOne(h);
  }

  lemma RoomForRack(met: set<Wrappers.Option<string>>, rack: Wrappers.Option<string>, racks: set<Wrappers.Option<string>>)
    requires met + {rack} <= racks && Wrappers.None in racks
    ensures var placed := met - {Wrappers.None};
      |placed| < |racks| && |placed + (if rack.Some? then {rack} else {})| < |racks|
    ensures (met + {rack}) - {Wrappers.None} == (met - {Wrappers.None}) + (if rack.Some? then {rack} else {})
  {
    NeverAll(met - {Wrappers.None}, racks);
    NeverAll((met - {Wrappers.None}) + (if rack.Some? then {rack} else {}), racks);
  }

  lemma {:induction false} FreshLater(c: Config, s: State, own: seq<Host>, dc: string, h: Host)
    requires AsFresh(c, s, own, dc) && h.datacenter == dc && h !in s.replicas && c.Factor(dc) > 0
    requires |Fresh(own)| < c.Wanted(dc)
    requires Fresh(own + [h]) == if h.rack.Some? && RackMet(own, h) then Fresh(own) else Fresh(own) + [h]
    requires RacksOf(Elements(Fresh(own) + [h])) == RacksOf(Elements(Fresh(own))) + {h.rack}
    requires RackMet(own, h) <==> h.rack in RacksOf(Elements(Fresh(own)))
    requires var placed, rack := RacksOf(Elements(Fresh(own))) - {Wrappers.None}, if h.rack.Some? then {h.rack} else {};
      && |placed| < c.Racks(dc) && |placed + rack| < c.Racks(dc)
      && (RacksOf(Elements(Fresh(own))) + {h.rack}) - {Wrappers.None} == placed + rack
    ensures AsFresh(c, Visit(c, s, h), own + [h], dc)
  {
    hide Fresh, RackMet, RacksOf, Elements, Visit;
    TakenOrSkipped(c, s, dc, h);
    var early := Fresh(own);
    assert |early| + 1 >= c.Wanted(dc) ==> (early + [h])[..c.Wanted(dc)] == early + [h];
  }

  lemma NotYetReplica(replicas: seq<Host>, own: seq<Host>, h: Host)
    requires Elements(replicas) <= Elements(own) && h !in own
    ensures h !in replicas
  {
    assert h in replicas ==> h in Elements(own);
  }

  lemma EnoughFresh(c: Config, s: State, own: seq<Host>, dc: string, h: Host)
    requires AsFresh(c, s, own, dc) && h.datacenter == dc && |Fresh(own)| >= c.Wanted(dc)
    requires Fresh(own + [h]) == Fresh(own) || Fresh(own + [h]) == Fresh(own) + [h]
    ensures AsFresh(c, Visit(c, s, h), own + [h], dc)
  {
    hide Fresh;
    assert Ignores(c, s, h);
  }

  /** As long as racks are missing, a host is skipped if its rack is placed, and else taken alone. */
  lemma TakenOrSkipped(c: Config, s: State, dc: string, h: Host)
    requires h.datacenter == dc && h !in s.replicas && c.Factor(dc) > 0 && s.Count(dc) < c.Wanted(dc)
    requires |s.Placed(dc)| < c.Racks(dc) && |s.Placed(dc) + (if h.rack.Some? then {h.rack} else {})| < c.Racks(dc)
    ensures var t := Visit(c, s, h);
      if h.rack.Some? && h.rack in s.Placed(dc)
      then t.replicas == s.replicas && t.Count(dc) == s.Count(dc) && t.Placed(dc) == s.Placed(dc)
      else t.replicas == s.replicas + [h] && t.Count(dc) == s.Count(dc) + 1
           && t.Placed(dc) == s.Placed(dc) + (if h.rack.Some? then {h.rack} else {})
  {
    assert s.skipped[..0] == [];
  }

  /** A host without a rack leaves one rack that is never placed. */
  lemma NeverAll(placed: set<Wrappers.Option<string>>, racks: set<Wrappers.Option<string>>)
    requires Wrappers.None in racks && Wrappers.None !in placed && placed <= racks
    ensures |placed| < |racks|
  {
    SubsetCardinality(placed + {Wrappers.None}, racks);
  }

  lemma {:induction false} OwnHostFresh(c: Config, hosts: seq<Host>, dc: string, n: nat)
    requires 0 < n <= |hosts| && OneReplicated(c, hosts, dc) && hosts[n - 1].datacenter == dc
    ensures var own, h := Own(hosts[..n - 1], dc), hosts[n - 1];
      h !in own && RacksOf(Elements(own + [h])) <= c.datacenters[dc].racks && Own(hosts[..n], dc) == own + [h]
  {
    hide Own;
    var h := hosts[n - 1];
    assert hosts[..n] == hosts[..n - 1] + [h];
    OwnAppend(hosts[..n - 1], h, dc);
    OwnElements(hosts[..n - 1], dc);
    OwnElements(hosts[..n], dc);
    assert HostsIn(hosts[..n], dc) <= HostsIn(hosts, dc);
  }

  lemma {:induction false} WalkAsFresh(c: Config, hosts: seq<Host>, dc: string, n: nat)
    requires n <= |hosts| && OneReplicated(c, hosts, dc) && Wrappers.None in c.datacenters[dc].racks
    ensures AsFresh(c, Walk(c, hosts, n), Own(hosts[..n], dc), dc)
    decreases n
  {
    hide AsFresh, Visit, Own, Tabled, NoRepeats, RacksOf, Elements;
    if n == 0 {
      StartAsFresh(c, dc);
      assert hosts[..0] == [];
    } else {
      WalkAsFresh(c, hosts, dc, n - 1);
      var s, h := Walk(c, hosts, n - 1), hosts[n - 1];
      if h.datacenter == dc {
        OwnHostFresh(c, hosts, dc, n);
        FreshStep(c, s, Own(hosts[..n - 1], dc), dc, h);
      } else {
        assert hosts[..n] == hosts[..n - 1] + [h];
        OwnAppend(hosts[..n - 1], h, dc);
        IgnoresOthers(c, s, h);
        assert Own(hosts[..n - 1], dc) + [] == Own(hosts[..n - 1], dc);
      }
    }
  }

  lemma StartAsFresh(c: Config, dc: string)
    requires dc in c.datacenters && c.Factor(dc) > 0
    ensures AsFresh(c, START, Own([], dc), dc)
  {
    assert RacksOf(Elements([])) == {};
  }

  /**
   A host without a rack counts as a rack that never gets a replica, so that skipped hosts are never taken: the
   replicas are the hosts without a rack and the first of each rack, however many more are wanted.
   */
  lemma {:induction false} SkippedHostsAreLost(c: Config, hosts: seq<Host>, dc: string, rackless: Host)
    requires OneReplicated(c, hosts, dc) && rackless in hosts && rackless.datacenter == dc && rackless.rack.None?
    ensures var early := Fresh(Own(hosts, dc));
      Replicas(c, hosts) == if c.Factor(dc) < |early| then early[..c.Factor(dc)] else early
  {
    var own := Own(hosts, dc);
    assert rackless in HostsIn(hosts, dc);
    assert rackless.rack in RacksOf(HostsIn(hosts, dc));
    WalkAsFresh(c, hosts, dc, |hosts|);
    assert hosts[..|hosts|] == hosts;
    OwnElements(hosts, dc);
    OwnNoRepeats(hosts, dc);
    NoRepeatsCardinality(own);
    FreshLength(own);
  }

  lemma {:induction false} FreshLength(own: seq<Host>)
    ensures |Fresh(own)| <= |own|
    decreases |own|
  {
    if own != [] {
      FreshLength(own[..|own| - 1]);
    }
  }

  /**
   So the number wanted is missed exactly when the factor is above the number of these hosts and some rack has
   two hosts.
   */
  lemma {:induction false} ShortExactly(c: Config, hosts: seq<Host>, dc: string, rackless: Host)
    requires OneReplicated(c, hosts, dc) && rackless in hosts && rackless.datacenter == dc && rackless.rack.None?
    ensures var own := Own(hosts, dc);
      |Replicas(c, hosts)| < Min(c.Factor(dc), |own|) <==>
      c.Factor(dc) > |Fresh(own)| && exists i, j :: 0 <= i < j < |own| && own[i].rack == own[j].rack && own[i].rack.Some?
  {
    hide Fresh, Own, OneReplicated, Replicas;
    SkippedHostsAreLost(c, hosts, dc, rackless);
    FreshLength(Own(hosts, dc));
    FreshIsAll(Own(hosts, dc));
  }

  lemma {:induction false} FreshIsAll(own: seq<Host>)
    ensures |Fresh(own)| < |own| <==> exists i, j :: 0 <= i < j < |own| && own[i].rack == own[j].rack && own[i].rack.Some?
    decreases |own|
  {
    if own != [] {
      var init, last := own[..|own| - 1], own[|own| - 1];
      FreshIsAll(init);
      FreshLength(init);
      assert own == init + [last];
      AppendFresh(init, last);
      if i, j :| 0 <= i < j < |own| && own[i].rack == own[j].rack && own[i].rack.Some? {
        assert j < |init| ==> init[i].rack == init[j].rack && init[i].rack.Some?;
        assert j == |init| ==> RackMet(init, last);
      }
      if i, j :| 0 <= i < j < |init| && init[i].rack == init[j].rack && init[i].rack.Some? {
        assert own[i].rack == own[j].rack && own[i].rack.Some?;
      }
      if last.rack.Some? && RackMet(init, last) {
        var i :| 0 <= i < |init| && init[i].rack == last.rack;
        assert own[i].rack == own[|init|].rack && own[i].rack.Some?;
      }
    }
  }
}
