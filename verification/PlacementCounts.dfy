/**
 When NetworkTopologyStrategy gives every datacenter its own replicas in the number wanted. A skipped host of one
 datacenter can be counted as a replica of another one; exactly which clusters have an arrangement of their hosts
 around the ring on which that happens.
 */
module PlacementCounts {
  import opened Wrappers
  import opened ReplicaPlacement
  import opened PlacementLaws
  import opened PlacementRepeats
  import opened Seqs

  // ----- What a caller can check of a cluster -----

  /** One datacenter takes skipped hosts, and another one can skip a host. */
  ghost predicate TakesForeign(c: Config) {
    exists d, e :: d != e && Overfull(c, d, 1) && CanSkip(c, e, 1)
  }

  /** A datacenter takes two of its own skipped hosts, which can be one host skipped with two tokens. */
  ghost predicate TakesOwnTwice(c: Config) {
    exists d :: Overfull(c, d, 2) && CanSkip(c, d, 2)
  }

  /** The number of replicas wanted; a factor below zero asks for none. */
  function Target(c: Config, dc: string): nat {
    if c.Wanted(dc) < 0 then 0 else c.Wanted(dc)
  }

  /** Every datacenter has exactly the wanted number of its own hosts among the replicas. */
  ghost predicate EachGetsWanted(c: Config, hosts: seq<Host>) {
    forall dc :: dc in c.datacenters ==> |HostsIn(Replicas(c, hosts), dc)| == Target(c, dc)
  }

  // ----- The hosts of one datacenter, in order -----

  function Own(hosts: seq<Host>, dc: string): seq<Host> {
    if hosts == [] then []
    else
      var last := hosts[|hosts| - 1];
      Own(hosts[..|hosts| - 1], dc) + if last.datacenter == dc then [last] else []
  }

  lemma OwnAppend(hosts: seq<Host>, h: Host, dc: string)
    ensures Own(hosts + [h], dc) == Own(hosts, dc) + if h.datacenter == dc then [h] else []
  {
    assert (hosts + [h])[..|hosts|] == hosts;
  }

  lemma {:induction false} OwnJoin(a: seq<Host>, b: seq<Host>, dc: string)
    ensures Own(a + b, dc) == Own(a, dc) + Own(b, dc)
    decreases |b|
  {
    if b == [] {
      assert a + b == a;
      assert Own(a, dc) + [] == Own(a, dc);
    } else {
      hide Own;
      var init, last := b[..|b| - 1], b[|b| - 1];
      OwnJoin(a, init, dc);
      assert b == init + [last];
      Assoc(a, init, [last]);
      OwnAppend(a + init, last, dc);
      OwnAppend(init, last, dc);
      Assoc(Own(a, dc), Own(init, dc), if last.datacenter == dc then [last] else []);
    }
  }

  lemma {:induction false} OwnAll(hosts: seq<Host>, dc: string)
    requires forall h <- hosts :: h.datacenter == dc
    ensures Own(hosts, dc) == hosts
    decreases |hosts|
  {
    if hosts != [] {
      OwnAll(hosts[..|hosts| - 1], dc);
      assert hosts == hosts[..|hosts| - 1] + [hosts[|hosts| - 1]];
    }
  }

  lemma {:induction false} OwnNone(hosts: seq<Host>, dc: string)
    requires forall h <- hosts :: h.datacenter != dc
    ensures Own(hosts, dc) == []
    decreases |hosts|
  {
    if hosts != [] {
      OwnNone(hosts[..|hosts| - 1], dc);
    }
  }

  lemma {:induction false} OwnElements(hosts: seq<Host>, dc: string)
    ensures forall h :: h in Own(hosts, dc) <==> h in hosts && h.datacenter == dc
    ensures Elements(Own(hosts, dc)) == HostsIn(hosts, dc)
    decreases |hosts|
  {
    if hosts != [] {
      OwnElements(hosts[..|hosts| - 1], dc);
      assert hosts == hosts[..|hosts| - 1] + [hosts[|hosts| - 1]];
    }
  }

  // ----- Each datacenter as if it were the only one replicated -----

  function Alone(c: Config, dc: string): Config {
    c.(factors := map[dc := c.Factor(dc)])
  }

  lemma AloneIs(c: Config, dc: string)
    ensures var a := Alone(c, dc);
      && a.datacenters == c.datacenters && a.Factor(dc) == c.Factor(dc) && a.Wanted(dc) == c.Wanted(dc)
      && (forall d :: a.Racks(d) == c.Racks(d)) && (forall d :: d != dc ==> a.Factor(d) == 0)
  {
  }

  /** Only hosts of the datacenter are skipped then. */
  lemma {:induction false} AloneSkipsOwn(c: Config, hosts: seq<Host>, n: nat, dc: string)
    requires n <= |hosts|
    ensures forall h <- Walk(Alone(c, dc), hosts, n).skipped :: h.datacenter == dc
    decreases n
  {
    if n > 0 {
      AloneSkipsOwn(c, hosts, n - 1, dc);
      if hosts[n - 1].datacenter != dc {
        IgnoresOthers(Alone(c, dc), Walk(Alone(c, dc), hosts, n - 1), hosts[n - 1]);
      }
    }
  }

  /** A host was skipped where a host can be skipped. */
  lemma {:induction false} SkippedWhereCan(c: Config, hosts: seq<Host>, n: nat)
    requires n <= |hosts| && Describes(c, hosts)
    ensures forall h <- Walk(c, hosts, n).skipped :: CanSkip(c, h.datacenter, 1)
    decreases n
  {
    if n > 0 {
      SkippedWhereCan(c, hosts, n - 1);
      SkippedCanSkip(c, hosts, n - 1);
      VisitSkips(c, Walk(c, hosts, n - 1), hosts[n - 1]);
    }
  }

  lemma VisitSkips(c: Config, s: State, h: Host)
    ensures Visit(c, s, h).skipped == s.skipped || Visit(c, s, h).skipped == s.skipped + [h]
  {
  }

  /** What a walk keeps in a datacenter that takes no skipped hosts: one replica counted for each rack. */
  ghost predicate CountsRacks(c: Config, s: State, dc: string) {
    !Overfull(c, dc, 1) && dc in c.datacenters ==> s.Count(dc) == |s.Placed(dc)|
  }

  lemma {:induction false} CountsRacksStep(c: Config, s: State, h: Host, dc: string)
    requires CountsRacks(c, s, dc) && h.rack.Some?
    ensures CountsRacks(c, Visit(c, s, h), dc)
  {
    if h.datacenter == dc && !Ignores(c, s, h) && !Skips(c, s, h) {
      var t := Take(c, s, h);
      assert h.rack !in s.Placed(dc) ==> |s.Placed(dc) + {h.rack}| == |s.Placed(dc)| + 1;
      assert h.rack in s.Placed(dc) ==> s.Placed(dc) + {h.rack} == s.Placed(dc);
      assert t.Placed(dc) == s.Placed(dc) + {h.rack};
    }
  }

  lemma {:induction false} CountsRacksWalk(c: Config, hosts: seq<Host>, n: nat, dc: string)
    requires n <= |hosts| && Describes(c, hosts)
    ensures CountsRacks(c, Walk(c, hosts, n), dc)
    decreases n
  {
    hide CountsRacks, Visit;
    if n == 0 {
      CountsRacksStart(c, dc);
    } else {
      CountsRacksWalk(c, hosts, n - 1, dc);
      HasRack(c, hosts, n - 1);
      CountsRacksStep(c, Walk(c, hosts, n - 1), hosts[n - 1], dc);
    }
  }

  lemma CountsRacksStart(c: Config, dc: string)
    ensures CountsRacks(c, START, dc)
  {
  }

  /** The two walks agree in the datacenter. */
  ghost predicate Agree(c: Config, s: State, t: State, dc: string) {
    && Own(s.replicas, dc) == t.replicas && s.Count(dc) == t.Count(dc) && s.Placed(dc) == t.Placed(dc)
    && (Overfull(c, dc, 1) ==> s.skipped == t.skipped)
  }

  /** A host of the datacenter is treated alike. */
  lemma {:induction false} OwnHostAgrees(c: Config, s: State, t: State, dc: string, h: Host)
    requires Agree(c, s, t, dc) && CountsRacks(c, s, dc)
    requires h.datacenter == dc && dc in c.datacenters && h.rack.Some?
    requires forall x <- t.skipped :: x.datacenter == dc
    ensures Agree(c, Visit(c, s, h), Visit(Alone(c, dc), t, h), dc)
  {
    AloneIs(c, dc);
    OwnElements(s.replicas, dc);
    var a := Alone(c, dc);
    assert Ignores(c, s, h) == Ignores(a, t, h) && Skips(c, s, h) == Skips(a, t, h);
    if !Ignores(c, s, h) && !Skips(c, s, h) {
      OwnHostTaken(c, s, t, dc, h);
    }
  }

  /** The same hosts come with it, all of the datacenter; none where no more are wanted than there are racks. */
  lemma {:induction false} SameRoom(c: Config, s: State, t: State, dc: string, h: Host) returns (room: nat, room': nat)
    requires Agree(c, s, t, dc) && CountsRacks(c, s, dc) && dc in c.datacenters
    requires h.datacenter == dc && !Ignores(c, s, h)
    requires forall x <- t.skipped :: x.datacenter == dc
    ensures var last := h.rack !in s.Placed(dc) && |s.Placed(dc) + {h.rack}| == c.Racks(dc);
      && room == (if last then Room(c.Wanted(dc), s.Count(dc) + 1, s.skipped) else 0)
      && room' == (if last then Room(c.Wanted(dc), s.Count(dc) + 1, t.skipped) else 0)
    ensures room <= |s.skipped| && room' <= |t.skipped| && s.skipped[..room] == t.skipped[..room']
    ensures forall x <- s.skipped[..room] :: x.datacenter == dc
    ensures room == room'
  {
    hide Own;
    var last := h.rack !in s.Placed(dc) && |s.Placed(dc) + {h.rack}| == c.Racks(dc);
    room := if last then Room(c.Wanted(dc), s.Count(dc) + 1, s.skipped) else 0;
    room' := if last then Room(c.Wanted(dc), s.Count(dc) + 1, t.skipped) else 0;
    if !Overfull(c, dc, 1) {
      assert last ==> |s.Placed(dc) + {h.rack}| == |s.Placed(dc)| + 1;
      assert room == 0 == room';
      assert s.skipped[..0] == [] == t.skipped[..0];
    }
  }

  lemma {:induction false} OwnHostTaken(c: Config, s: State, t: State, dc: string, h: Host)
    requires Agree(c, s, t, dc) && CountsRacks(c, s, dc)
    requires h.datacenter == dc && dc in c.datacenters && h.rack.Some?
    requires forall x <- t.skipped :: x.datacenter == dc
    requires !Ignores(c, s, h)
    ensures Agree(c, Take(c, s, h), Take(Alone(c, dc), t, h), dc)
  {
    hide Take, Own, CountsRacks, Room, Alone, Ignores;
    AloneIs(c, dc);
    var room, room' := SameRoom(c, s, t, dc, h);
    TakeGives(c, s, h, room);
    TakeGives(Alone(c, dc), t, h, room');
    var some := s.skipped[..room];
    OwnAppend(s.replicas, h, dc);
    OwnJoin(s.replicas + [h], some, dc);
    OwnAll(some, dc);
  }

  lemma TakeGives(c: Config, s: State, h: Host, room: nat)
    requires h.rack.Some?
    requires var racks := s.Placed(h.datacenter) + {h.rack};
      room == if h.rack !in s.Placed(h.datacenter) && |racks| == c.Racks(h.datacenter)
              then Room(c.Wanted(h.datacenter), s.Count(h.datacenter) + 1, s.skipped) else 0
    ensures var t := Take(c, s, h);
      && room <= |s.skipped| && t.replicas == s.replicas + [h] + s.skipped[..room] && t.skipped == s.skipped
      && t.Count(h.datacenter) == s.Count(h.datacenter) + 1 + room && t.Placed(h.datacenter) == s.Placed(h.datacenter) + {h.rack}
      && (forall d :: d != h.datacenter ==> t.Count(d) == s.Count(d) && t.Placed(d) == s.Placed(d))
  {
  }

  /** A host of another datacenter, and the skipped hosts with it, changes nothing in this one. */
  lemma {:induction false} OtherHostTaken(c: Config, s: State, dc: string, h: Host)
    requires !TakesForeign(c) && |s.Placed(h.datacenter)| <= s.Count(h.datacenter)
    requires h.datacenter != dc && h.datacenter in c.datacenters && h.rack.Some?
    requires forall x <- s.skipped :: CanSkip(c, x.datacenter, 1)
    ensures var u := Take(c, s, h);
      Own(u.replicas, dc) == Own(s.replicas, dc) && u.Count(dc) == s.Count(dc) && u.Placed(dc) == s.Placed(dc)
      && u.skipped == s.skipped
  {
    hide Take, Own;
    var e := h.datacenter;
    var racks := s.Placed(e) + {h.rack};
    var room := if h.rack !in s.Placed(e) && |racks| == c.Racks(e) then Room(c.Wanted(e), s.Count(e) + 1, s.skipped) else 0;
    TakeGives(c, s, h, room);
    OwnAppend(s.replicas, h, dc);
    var some := s.skipped[..room];
    OwnJoin(s.replicas + [h], some, dc);
    if room > 0 {
      assert |racks| == |s.Placed(e)| + 1 && Overfull(c, e, 1);
      assert forall x <- some :: x in s.skipped;
    }
    OwnNone(some, dc);
    assert Own(s.replicas, dc) + [] + [] == Own(s.replicas, dc);
  }

  lemma {:induction false} OtherHostAgrees(c: Config, s: State, t: State, dc: string, h: Host)
    requires Agree(c, s, t, dc) && !TakesForeign(c) && Witnessed(s)
    requires h.datacenter != dc && h.datacenter in c.datacenters && h.rack.Some? && dc in c.datacenters
    requires forall x <- Visit(c, s, h).skipped :: CanSkip(c, x.datacenter, 1)
    ensures Agree(c, Visit(c, s, h), Visit(Alone(c, dc), t, h), dc)
  {
    AloneIs(c, dc);
    IgnoresOthers(Alone(c, dc), t, h);
    VisitSkips(c, s, h);
    assert |s.Placed(h.datacenter)| <= s.Count(h.datacenter);
    assert Visit(c, s, h).skipped == s.skipped + [h] ==> CanSkip(c, h.datacenter, 1) by {
      assert h in s.skipped + [h];
    }
    assert Overfull(c, dc, 1) ==> !CanSkip(c, h.datacenter, 1);
    assert forall x <- s.skipped :: x in Visit(c, s, h).skipped;
    hide Witnessed, TakesForeign, Take, Alone, Overfull, CanSkip, Own;
    if !Ignores(c, s, h) && !Skips(c, s, h) {
      OtherHostTaken(c, s, dc, h);
    }
  }

  /** Without foreign hosts taken, every datacenter is placed as if it were the only one replicated. */
  lemma {:induction false} PlacedAlone(c: Config, hosts: seq<Host>, n: nat, dc: string)
    requires n <= |hosts| && Describes(c, hosts) && !TakesForeign(c) && dc in c.datacenters
    ensures Agree(c, Walk(c, hosts, n), Walk(Alone(c, dc), hosts, n), dc)
    decreases n
  {
    hide Agree, CountsRacks, Visit, TakesForeign, Witnessed, Describes, CanSkip;
    if n == 0 {
      AgreeStart(c, dc);
    } else {
      PlacedAlone(c, hosts, n - 1, dc);
      RingHost(c, hosts, n - 1);
      var s, t, h := Walk(c, hosts, n - 1), Walk(Alone(c, dc), hosts, n - 1), hosts[n - 1];
      if h.datacenter == dc {
        CountsRacksWalk(c, hosts, n - 1, dc);
        AloneSkipsOwn(c, hosts, n - 1, dc);
        OwnHostAgrees(c, s, t, dc, h);
      } else {
        AlwaysWitnessed(c, hosts, n - 1);
        SkippedWhereCan(c, hosts, n);
        OtherHostAgrees(c, s, t, dc, h);
      }
    }
  }

  lemma AgreeStart(c: Config, dc: string)
    ensures Agree(c, START, START, dc)
  {
  }

  // ----- One replicated datacenter, any numbers of tokens -----

  ghost predicate OneReplicated(c: Config, hosts: seq<Host>, dc: string) {
    && Describes(c, hosts) && dc in c.datacenters && c.Factor(dc) > 0
    && forall d :: d != dc ==> c.Factor(d) == 0
  }

  /** The datacenter takes at most one skipped host, or has one rack. */
  ghost predicate TakesAtMostOne(c: Config, dc: string) {
    c.Wanted(dc) > c.Racks(dc) && (c.Wanted(dc) == c.Racks(dc) + 1 || c.Racks(dc) <= 1)
  }

  ghost predicate TokensSane(c: Config, s: State, seen: set<Host>, dc: string) {
    && NoRepeats(s.replicas) && Elements(s.replicas) <= seen && Elements(s.skipped) <= seen
    && s.Placed(dc) == RacksOf(Elements(s.replicas))
    && s.Count(dc) == |s.replicas| <= c.Wanted(dc)
  }

  /** Some racks have no replica yet; a host that was seen and not taken left a skipped one. */
  ghost predicate TokensCollecting(c: Config, s: State, seen: set<Host>, dc: string) {
    && |s.Placed(dc)| < c.Racks(dc) && |s.replicas| == |s.Placed(dc)|
    && Elements(s.replicas) !! Elements(s.skipped) && RacksOf(seen) <= s.Placed(dc)
    && (if s.skipped == [] then seen <= Elements(s.replicas) else c.Wanted(dc) == c.Racks(dc) + 1)
  }

  ghost predicate TokensPhase(c: Config, s: State, seen: set<Host>, dc: string) {
    TokensSane(c, s, seen, dc) && (TokensCollecting(c, s, seen, dc) || Filling(c, s, seen, dc))
  }

  lemma {:induction false} TokensIgnored(c: Config, s: State, seen: set<Host>, dc: string, h: Host)
    requires TokensPhase(c, s, seen, dc) && TakesAtMostOne(c, dc) && h.datacenter == dc && c.Factor(dc) > 0 && Ignores(c, s, h)
    ensures TokensPhase(c, s, seen + {h}, dc)
  {
    if h in s.replicas {
      assert h in Elements(s.replicas);
      assert seen + {h} == seen;
    } else {
      assert |s.replicas| >= c.Wanted(dc);
    }
  }

  lemma {:induction false} TokensSkipped(c: Config, s: State, seen: set<Host>, dc: string, h: Host)
    requires TokensPhase(c, s, seen, dc) && TakesAtMostOne(c, dc) && h.datacenter == dc && !Ignores(c, s, h) && Skips(c, s, h)
    ensures TokensPhase(c, Visit(c, s, h), seen + {h}, dc)
  {
    ElementsAppend(s.skipped, h);
    RacksUnion(seen, {h});
    RacksOfOne(h);
    assert h !in Elements(s.replicas);
    RacksNotNegative(c, s, dc, h);
    var t := Visit(c, s, h);
    assert t.skipped != [];
    assert TokensCollecting(c, t, seen + {h}, dc);
  }

  lemma RacksNotNegative(c: Config, s: State, dc: string, h: Host)
    requires h.datacenter == dc && Skips(c, s, h)
    ensures c.Racks(dc) >= 2
  {
    assert |s.Placed(dc)| > 0;
  }

  /** Taken without skipped hosts: a rack is left, or every rack has a replica, or nothing was skipped. */
  lemma {:induction false} TokensTaken(c: Config, s: State, seen: set<Host>, dc: string, h: Host)
    requires TokensPhase(c, s, seen, dc) && TakesAtMostOne(c, dc) && h.datacenter == dc && h.rack.Some?
    requires !Ignores(c, s, h) && !Skips(c, s, h)
    requires h.rack in s.Placed(dc) || |s.Placed(dc)| + 1 < c.Racks(dc)
    ensures TokensPhase(c, Visit(c, s, h), seen + {h}, dc)
  {
    var t := Take(c, s, h);
    TakeGives(c, s, h, 0);
    assert s.skipped[..0] == [];
    assert t.replicas == s.replicas + [h];
    ElementsAppend(s.replicas, h);
    RacksAppend(s.replicas, h);
    RacksUnion(seen, {h});
    RacksOfOne(h);
    if h.rack in s.Placed(dc) {
      assert t.Placed(dc) == s.Placed(dc);
      assert Filling(c, t, seen + {h}, dc);
    } else {
      RackOfSkipped(s, seen, dc, h);
      assert TokensCollecting(c, t, seen + {h}, dc);
    }
  }

  /** A host of a rack without a replica was not seen. */
  lemma RackOfSkipped(s: State, seen: set<Host>, dc: string, h: Host)
    requires Elements(s.skipped) <= seen && RacksOf(seen) <= s.Placed(dc) && h.rack !in s.Placed(dc)
    ensures h !in seen && h !in Elements(s.skipped)
  {
    assert h in seen ==> h.rack in RacksOf(seen);
  }

  /** What comes with the last rack: nothing, or the first skipped host. */
  lemma {:induction false} LastTaken(c: Config, s: State, seen: set<Host>, dc: string, h: Host) returns (some: seq<Host>)
    requires TokensSane(c, s, seen, dc) && TokensCollecting(c, s, seen, dc) && TakesAtMostOne(c, dc)
    requires h.datacenter == dc && h.rack.Some?
    requires !Ignores(c, s, h) && h.rack !in s.Placed(dc) && |s.Placed(dc)| + 1 == c.Racks(dc)
    ensures var t := Visit(c, s, h);
      && t.replicas == (s.replicas + [h]) + some && t.skipped == s.skipped && t.Count(dc) == |t.replicas|
      && t.Placed(dc) == s.Placed(dc) + {h.rack} && |t.Placed(dc)| == c.Racks(dc)
    ensures if s.skipped == [] then some == []
            else some == [s.skipped[0]] && |s.replicas| + 2 == c.Wanted(dc)
  {
    hide RacksOf, Elements, NoRepeats;
    var room := Room(c.Wanted(dc), s.Count(dc) + 1, s.skipped);
    some := s.skipped[..room];
    assert |s.Placed(dc) + {h.rack}| == |s.Placed(dc)| + 1;
    TakeGives(c, s, h, room);
  }

  /** Then all seen hosts are replicas, or there are enough. */
  lemma {:induction false} TokensCompleted(c: Config, s: State, seen: set<Host>, dc: string, h: Host)
    requires TokensSane(c, s, seen, dc) && TokensCollecting(c, s, seen, dc) && TakesAtMostOne(c, dc)
    requires h.datacenter == dc && h.rack.Some?
    requires !Ignores(c, s, h) && h.rack !in s.Placed(dc) && |s.Placed(dc)| + 1 == c.Racks(dc)
    ensures TokensPhase(c, Visit(c, s, h), seen + {h}, dc)
  {
    hide Visit, RacksOf, NoRepeats, Ignores;
    var some := LastTaken(c, s, seen, dc, h);
    RackOfSkipped(s, seen, dc, h);
    ElementsAppend(s.replicas, h);
    RacksAppend(s.replicas, h);
    if s.skipped == [] {
      assert s.replicas + [h] + [] == s.replicas + [h];
    } else {
      var x := s.skipped[0];
      assert x in Elements(s.skipped);
      SeenRack(seen, x);
      ElementsAppend(s.replicas + [h], x);
      RacksAppend(s.replicas + [h], x);
    }
  }

  lemma SeenRack(seen: set<Host>, x: Host)
    requires x in seen
    ensures x.rack in RacksOf(seen)
  {
  }

  lemma {:induction false} TokensStep(c: Config, s: State, seen: set<Host>, dc: string, h: Host)
    requires TokensPhase(c, s, seen, dc) && TakesAtMostOne(c, dc) && h.datacenter == dc && h.rack.Some? && c.Factor(dc) > 0
    requires dc in c.datacenters && RacksOf(seen + {h}) <= c.datacenters[dc].racks
    ensures TokensPhase(c, Visit(c, s, h), seen + {h}, dc)
  {
    if Ignores(c, s, h) {
      TokensIgnored(c, s, seen, dc, h);
    } else if Skips(c, s, h) {
      TokensSkipped(c, s, seen, dc, h);
    } else {
      LastRack(c, s, seen, dc, h);
      if h.rack in s.Placed(dc) || |s.Placed(dc)| + 1 < c.Racks(dc) {
        TokensTaken(c, s, seen, dc, h);
      } else {
        TokensCompleted(c, s, seen, dc, h);
      }
    }
  }

  lemma {:induction false} LastRack(c: Config, s: State, seen: set<Host>, dc: string, h: Host)
    requires TokensSane(c, s, seen, dc) && dc in c.datacenters && RacksOf(seen + {h}) <= c.datacenters[dc].racks
    ensures h.rack !in s.Placed(dc) ==> |s.Placed(dc)| + 1 <= c.Racks(dc)
  {
    RacksUnion(seen, {h});
    RacksOfOne(h);
    SubRacks(Elements(s.replicas), seen);
    if h.rack !in s.Placed(dc) {
      SubsetCardinality(s.Placed(dc) + {h.rack}, c.datacenters[dc].racks);
    }
  }

  lemma SubRacks(a: set<Host>, b: set<Host>)
    requires a <= b
    ensures RacksOf(a) <= RacksOf(b)
  {
  }

  lemma {:induction false} TokensWalk(c: Config, hosts: seq<Host>, dc: string, n: nat)
    requires n <= |hosts| && OneReplicated(c, hosts, dc) && TakesAtMostOne(c, dc) && c.Racks(dc) > 0
    ensures TokensPhase(c, Walk(c, hosts, n), Seen(hosts, n, dc), dc)
    decreases n
  {
    if n == 0 {
      assert Seen(hosts, 0, dc) == {} && RacksOf({}) == {} && Elements([]) == {};
    } else {
      hide TokensPhase, Visit, Seen, TakesAtMostOne, RacksOf;
      TokensWalk(c, hosts, dc, n - 1);
      TokensSeen(c, hosts, dc, n);
      if hosts[n - 1].datacenter == dc {
        TokensStep(c, Walk(c, hosts, n - 1), Seen(hosts, n - 1, dc), dc, hosts[n - 1]);
      } else {
        IgnoresOthers(c, Walk(c, hosts, n - 1), hosts[n - 1]);
      }
    }
  }

  lemma {:induction false} TokensSeen(c: Config, hosts: seq<Host>, dc: string, n: nat)
    requires 0 < n <= |hosts| && OneReplicated(c, hosts, dc)
    ensures var h, before := hosts[n - 1], Seen(hosts, n - 1, dc);
      && h.rack.Some?
      && Seen(hosts, n, dc) == (if h.datacenter == dc then before + {h} else before)
      && RacksOf(Seen(hosts, n, dc)) <= c.datacenters[dc].racks
  {
    assert hosts[..n] == hosts[..n - 1] + [hosts[n - 1]];
    HostsInAppend(hosts[..n - 1], hosts[n - 1], dc);
    assert Seen(hosts, n, dc) <= HostsIn(hosts, dc);
    SubRacks(Seen(hosts, n, dc), HostsIn(hosts, dc));
  }

  /** The hosts and racks that one replicated datacenter is promised. */
  ghost predicate GetsWanted(c: Config, hosts: seq<Host>, dc: string) {
    var r := Replicas(c, hosts);
    && NoRepeats(r) && Elements(r) <= HostsIn(hosts, dc) && |r| == Target(c, dc)
    && |RacksOf(Elements(r))| == Min(c.Factor(dc), c.Racks(dc))
  }

  lemma {:induction false} TokensGetWanted(c: Config, hosts: seq<Host>, dc: string)
    requires OneReplicated(c, hosts, dc) && TakesAtMostOne(c, dc) && c.Racks(dc) > 0
    ensures GetsWanted(c, hosts, dc)
  {
    TokensWalk(c, hosts, dc, |hosts|);
    var s := Walk(c, hosts, |hosts|);
    var all := HostsIn(hosts, dc);
    assert hosts[..|hosts|] == hosts;
    assert Seen(hosts, |hosts|, dc) == all;
    NoRepeatsCardinality(s.replicas);
    if all <= Elements(s.replicas) {
      SubsetCardinality(all, Elements(s.replicas));
    }
    if RacksOf(all) <= s.Placed(dc) {
      SubsetCardinality(RacksOf(all), s.Placed(dc));
    }
  }

  /** One replicated datacenter: the promise is kept with one token per host, and else unless hosts can be taken twice. */
  lemma {:induction false} OneGetsWanted(c: Config, hosts: seq<Host>, dc: string)
    requires OneReplicated(c, hosts, dc)
    requires NoRepeats(hosts) || !(Overfull(c, dc, 2) && CanSkip(c, dc, 2))
    ensures GetsWanted(c, hosts, dc)
  {
    RacksAtMostHosts(HostsIn(hosts, dc));
    if NoRepeats(hosts) {
      ExactInOneDatacenter(c, hosts, dc);
    } else if c.Wanted(dc) <= c.Racks(dc) {
      FittingGetsWanted(c, hosts, dc);
    } else {
      RacksNotEmpty(c, hosts, dc);
      TokensGetWanted(c, hosts, dc);
    }
  }

  lemma {:induction false} FittingGetsWanted(c: Config, hosts: seq<Host>, dc: string)
    requires OneReplicated(c, hosts, dc) && c.Wanted(dc) <= c.Racks(dc)
    ensures GetsWanted(c, hosts, dc)
  {
    assert forall d :: d in c.datacenters && d != dc ==> c.Factor(d) == 0;
    ExactSpread(c, hosts, dc);
    RacksAtMostHosts(HostsIn(hosts, dc));
    var r := Replicas(c, hosts);
    OnlyReplicated(c, hosts, |hosts|, dc);
    assert Elements(r) == HostsIn(r, dc);
    NoRepeatsCardinality(r);
  }

  /** Only hosts of a replicated datacenter are replicas or skipped. */
  lemma {:induction false} OnlyReplicated(c: Config, hosts: seq<Host>, n: nat, dc: string)
    requires n <= |hosts| && forall d :: d != dc ==> c.Factor(d) == 0
    ensures forall h :: h in Walk(c, hosts, n).replicas || h in Walk(c, hosts, n).skipped ==> h.datacenter == dc
    decreases n
  {
    if n > 0 {
      OnlyReplicated(c, hosts, n - 1, dc);
      if hosts[n - 1].datacenter != dc {
        IgnoresOthers(c, Walk(c, hosts, n - 1), hosts[n - 1]);
      }
    }
  }

  /** Where none is wanted, none is taken. */
  lemma {:induction false} NoneWanted(c: Config, hosts: seq<Host>, n: nat, dc: string)
    requires n <= |hosts| && c.Wanted(dc) <= 0 && forall d :: d != dc ==> c.Factor(d) == 0
    ensures Walk(c, hosts, n) == START
    decreases n
  {
    if n > 0 {
      NoneWanted(c, hosts, n - 1, dc);
    }
  }

  // ----- Exact counts everywhere -----

  /** Every datacenter gets exactly the wanted number of its own hosts, on as many racks as there can be. */
  lemma {:induction false} ExactCounts(c: Config, hosts: seq<Host>, dc: string)
    requires Describes(c, hosts) && !TakesForeign(c) && dc in c.datacenters
    requires NoRepeats(hosts) || !TakesOwnTwice(c)
    ensures var own := HostsIn(Replicas(c, hosts), dc);
      && own <= HostsIn(hosts, dc) && |own| == Target(c, dc)
      && (c.Wanted(dc) > 0 ==> |RacksOf(own)| == Min(c.Factor(dc), c.Racks(dc)))
  {
    PlacedAlone(c, hosts, |hosts|, dc);
    OwnElements(Replicas(c, hosts), dc);
    AloneIs(c, dc);
    var a := Alone(c, dc);
    assert Overfull(c, dc, 2) == Overfull(a, dc, 2) && CanSkip(c, dc, 2) == CanSkip(a, dc, 2);
    hide Walk, RacksOf, Agree;
    AgreedReplicas(c, hosts, dc);
    if c.Wanted(dc) > 0 {
      DescribesAlone(c, hosts, dc);
      OneGetsWanted(a, hosts, dc);
      NoRepeatsCardinality(Replicas(a, hosts));
    } else {
      NoneWanted(a, hosts, |hosts|, dc);
      NoHosts();
    }
  }

  lemma AgreedReplicas(c: Config, hosts: seq<Host>, dc: string)
    requires Agree(c, Walk(c, hosts, |hosts|), Walk(Alone(c, dc), hosts, |hosts|), dc)
    ensures Own(Replicas(c, hosts), dc) == Replicas(Alone(c, dc), hosts)
  {
  }

  lemma DescribesAlone(c: Config, hosts: seq<Host>, dc: string)
    requires Describes(c, hosts) && dc in c.datacenters && c.Wanted(dc) > 0
    ensures OneReplicated(Alone(c, dc), hosts, dc)
  {
    AloneIs(c, dc);
    hide RacksOf, HostsIn;
  }

  // ----- Counts that go wrong -----

  /** More replicas are counted for a complete datacenter than it has, and no skipped host can make up for that. */
  ghost predicate Short(c: Config, s: State, d: string) {
    && s.Count(d) > |HostsIn(s.replicas, d)| && d in c.datacenters
    && s.Placed(d) <= c.datacenters[d].racks && |s.Placed(d)| == c.Racks(d)
    && forall h <- s.skipped :: h.datacenter == d ==> h in s.replicas
  }

  lemma {:induction false} HostsInJoin(a: seq<Host>, b: seq<Host>, dc: string)
    ensures HostsIn(a + b, dc) == HostsIn(a, dc) + HostsIn(b, dc)
  {
  }

  lemma {:induction false} StaysShort(c: Config, s: State, d: string, h: Host)
    requires Short(c, s, d) && h.rack.Some? && (h.datacenter == d ==> h.rack in c.datacenters[d].racks)
    ensures Short(c, Visit(c, s, h), d)
  {
    SubsetCardinality(s.Placed(d), c.datacenters[d].racks);
    if !Ignores(c, s, h) && !Skips(c, s, h) {
      ShortTake(c, s, d, h);
    }
  }

  lemma {:induction false} ShortTake(c: Config, s: State, d: string, h: Host)
    requires Short(c, s, d) && h.rack.Some? && (h.datacenter == d ==> h.rack in s.Placed(d))
    ensures Short(c, Take(c, s, h), d)
  {
    var e := h.datacenter;
    var racks := s.Placed(e) + {h.rack};
    var room := if h.rack !in s.Placed(e) && |racks| == c.Racks(e) then Room(c.Wanted(e), s.Count(e) + 1, s.skipped) else 0;
    TakeGives(c, s, h, room);
    var t, some := Take(c, s, h), s.skipped[..room];
    HostsInAppend(s.replicas, h, d);
    HostsInJoin(s.replicas + [h], some, d);
    assert forall x <- some :: x in s.skipped;
    assert HostsIn(some, d) <= HostsIn(s.replicas, d);
    if e == d {
      assert racks == s.Placed(d);
    }
    assert |HostsIn(s.replicas, d) + {h}| <= |HostsIn(s.replicas, d)| + 1;
    assert forall x <- s.replicas :: x in t.replicas;
  }

  lemma {:induction false} ShortWalk(c: Config, hosts: seq<Host>, m: nat, n: nat, d: string)
    requires m <= n <= |hosts| && Describes(c, hosts) && Short(c, Walk(c, hosts, m), d)
    ensures Short(c, Walk(c, hosts, n), d)
    decreases n
  {
    hide Short, Visit, Describes;
    if m < n {
      ShortWalk(c, hosts, m, n - 1, d);
      RingHost(c, hosts, n - 1);
      StaysShort(c, Walk(c, hosts, n - 1), d, hosts[n - 1]);
    }
  }

  /** In the end the counter is at most the wanted number, so the datacenter has fewer hosts. */
  lemma {:induction false} ShortInTheEnd(c: Config, hosts: seq<Host>, m: nat, d: string)
    requires m <= |hosts| && Describes(c, hosts) && Short(c, Walk(c, hosts, m), d)
    ensures !EachGetsWanted(c, hosts)
  {
    ShortWalk(c, hosts, m, |hosts|, d);
    Counters(c, hosts, |hosts|);
    hide Walk, Describes, HostsIn;
    var s := Walk(c, hosts, |hosts|);
    assert d in s.byDc && s.Count(d) <= c.Wanted(d);
  }

  lemma {:induction false} PlacedInTable(c: Config, hosts: seq<Host>, n: nat, d: string)
    requires n <= |hosts| && Describes(c, hosts) && d in c.datacenters
    ensures Walk(c, hosts, n).Placed(d) <= c.datacenters[d].racks
    decreases n
  {
    hide Visit, Describes;
    if n > 0 {
      PlacedInTable(c, hosts, n - 1, d);
      RingHost(c, hosts, n - 1);
      VisitPlaces(c, Walk(c, hosts, n - 1), hosts[n - 1], d);
    }
  }

  lemma VisitPlaces(c: Config, s: State, h: Host, d: string)
    ensures Visit(c, s, h).Placed(d) <= s.Placed(d) + if h.datacenter == d then {h.rack} else {}
  {
  }

  /** `a` and `b` on one rack of `e`, then hosts that complete `d`, which counts `b` for itself. */
  lemma {:induction false} ForeignTaken(c: Config, hosts: seq<Host>, d: string, e: string) returns (p: seq<Host>)
    requires Describes(c, hosts) && d != e && Overfull(c, d, 1) && CanSkip(c, e, 1)
    ensures NoRepeats(p) && Elements(p) == Elements(hosts) && !EachGetsWanted(c, p)
  {
    hide Describes, NoRepeats, Elements, HostsIn, RacksOf, Walk, EachGetsWanted, Short;
    var a, b := TwoOnOneRack(c, hosts, e);
    var r := RacksLeft(c, hosts, e, a, d);
    p := ForeignArrangement(hosts, e, d, a, b, r);
    InDatacenter(hosts, e, a);
    InDatacenter(hosts, e, b);
    SkipsSecond(c, p, e, a, b);
    FirstTakes(c, hosts, e, d, a, b, r, p);
    DescribesArrangement(c, hosts, p);
    PlacedInTable(c, p, 2 + |r|, d);
    ForeignShort(c, hosts, e, d, a, b, r, Walk(c, p, 2 + |r|));
    ShortInTheEnd(c, p, 2 + |r|, d);
  }

  lemma {:induction false} ForeignArrangement(hosts: seq<Host>, dc: string, one: string, a: Host, b: Host, r: seq<Host>)
    returns (p: seq<Host>)
    requires a in HostsIn(hosts, dc) && b in HostsIn(hosts, dc) && a != b && one != dc && Elements(r) <= HostsIn(hosts, one)
    requires forall i, j :: 0 <= i < j < |r| ==> r[i].rack != r[j].rack
    ensures NoRepeats(p) && Elements(p) == Elements(hosts) && [a, b] + r <= p
  {
    OneRackEachDiffer(r);
    assert Elements([a, b]) == {a, b};
    assert a !in Elements(r) && b !in Elements(r);
    JoinNoRepeats([a, b], r);
    ElementsJoin([a, b], r);
    var first := [a, b] + r;
    assert Elements(first) <= Elements(hosts);
    var others := Enumerate(Elements(hosts) - Elements(first));
    p := first + others;
    JoinNoRepeats(first, others);
    ElementsJoin(first, others);
  }

  lemma {:induction false} ForeignShort(c: Config, hosts: seq<Host>, e: string, d: string, a: Host, b: Host, r: seq<Host>, t: State)
    requires a.datacenter == b.datacenter == e != d && d in c.datacenters && |r| == c.Racks(d)
    requires t.replicas == [a] + r + [b] && t.skipped == [b]
    requires t.Count(d) == c.Racks(d) + 1 && |t.Placed(d)| == c.Racks(d) && t.Placed(d) <= c.datacenters[d].racks
    ensures Short(c, t, d)
  {
    assert HostsIn(t.replicas, d) <= Elements(r);
    ElementsAtMost(r);
    SubsetCardinality(HostsIn(t.replicas, d), Elements(r));
  }

  lemma {:induction false} ElementsAtMost(s: seq<Host>)
    ensures |Elements(s)| <= |s|
    decreases |s|
  {
    if s == [] {
      assert Elements(s) == {};
    } else {
      var init, last := s[..|s| - 1], s[|s| - 1];
      ElementsAtMost(init);
      ElementsAppend(init, last);
      assert s == init + [last];
    }
  }

  /** Both tokens of a skipped host are counted: `d` has one host fewer than it counts. */
  lemma {:induction false} OwnTakenTwice(c: Config, hosts: seq<Host>, d: string) returns (p: seq<Host>)
    requires Describes(c, hosts) && Overfull(c, d, 2) && CanSkip(c, d, 2)
    ensures Elements(p) == Elements(hosts) && !EachGetsWanted(c, p)
  {
    hide Describes, NoRepeats, Elements, HostsIn, RacksOf, Walk, EachGetsWanted, Short;
    var a, b := TwoOnOneRack(c, hosts, d);
    var r := RacksLeft(c, hosts, d, a, d);
    p := [a, b, b] + r + hosts;
    SameHosts(hosts, d, d, a, b, r);
    InDatacenter(hosts, d, a);
    InDatacenter(hosts, d, b);
    SkipsAgain(c, p, d, a, b);
    BothTokensTaken(c, hosts, d, d, a, b, r, p);
    DescribesArrangement(c, hosts, p);
    PlacedInTable(c, p, 3 + |r|, d);
    OwnShort(c, d, a, b, r, Walk(c, p, 3 + |r|));
    ShortInTheEnd(c, p, 3 + |r|, d);
  }

  lemma {:induction false} OwnShort(c: Config, d: string, a: Host, b: Host, r: seq<Host>, t: State)
    requires d in c.datacenters && |r| + 1 == c.Racks(d)
    requires t.replicas == [a] + r + [b, b] && t.skipped == [b, b]
    requires t.Count(d) == c.Racks(d) + 2 && |t.Placed(d)| == c.Racks(d) && t.Placed(d) <= c.datacenters[d].racks
    ensures Short(c, t, d)
  {
    var few := [a] + r + [b];
    assert forall h <- t.replicas :: h in few;
    assert HostsIn(t.replicas, d) <= Elements(few);
    ElementsAtMost(few);
    SubsetCardinality(HostsIn(t.replicas, d), Elements(few));
    assert b in t.replicas;
  }

  // ----- Exactly when -----

  /**
   Hosts with one token each: some arrangement around the ring leaves a datacenter with another number of its own
   hosts than wanted exactly when a datacenter wants more replicas than it has racks and another one can skip a host.
   */
  lemma {:induction false} CountsWithOneToken(c: Config, hosts: seq<Host>)
    requires Describes(c, hosts)
    ensures TakesForeign(c) <==> exists p :: NoRepeats(p) && Elements(p) == Elements(hosts) && !EachGetsWanted(c, p)
  {
    hide NoRepeats, Describes, Elements, Replicas, RacksOf, HostsIn;
    if TakesForeign(c) {
      var d, e :| d != e && Overfull(c, d, 1) && CanSkip(c, e, 1);
      var p := ForeignTaken(c, hosts, d, e);
    } else {
      forall p | NoRepeats(p) && Elements(p) == Elements(hosts)
        ensures EachGetsWanted(c, p)
      {
        DescribesArrangement(c, hosts, p);
        forall dc | dc in c.datacenters
          ensures |HostsIn(Replicas(c, p), dc)| == Target(c, dc)
        {
          ExactCounts(c, p, dc);
        }
      }
    }
  }

  /**
   Hosts with any numbers of tokens: also when one datacenter wants two replicas more than it has racks and can skip
   a host twice, and in no other cluster.
   */
  lemma {:induction false} CountsWithTokens(c: Config, hosts: seq<Host>)
    requires Describes(c, hosts)
    ensures TakesForeign(c) || TakesOwnTwice(c) <==> exists p :: Elements(p) == Elements(hosts) && !EachGetsWanted(c, p)
  {
    hide NoRepeats, Describes, Elements, Replicas, RacksOf, HostsIn;
    if TakesForeign(c) {
      CountsWithOneToken(c, hosts);
    } else if TakesOwnTwice(c) {
      var d :| Overfull(c, d, 2) && CanSkip(c, d, 2);
      var p := OwnTakenTwice(c, hosts, d);
    } else {
      forall p | Elements(p) == Elements(hosts)
        ensures EachGetsWanted(c, p)
      {
        DescribesArrangement(c, hosts, p);
        forall dc | dc in c.datacenters
          ensures |HostsIn(Replicas(c, p), dc)| == Target(c, dc)
        {
          ExactCounts(c, p, dc);
        }
      }
    }
  }

  /** Where every count is right on every arrangement, no replica is repeated on any. */
  lemma RightCountsDoNotRepeat(c: Config)
    ensures TakesTwice(c) ==> TakesForeign(c)
    ensures SkipsTwice(c) ==> TakesForeign(c) || TakesOwnTwice(c)
  {
    if TakesTwice(c) {
      var one, two :| one != two && Overfull(c, one, 1) && Overfull(c, two, 1);
      var dc :| CanSkip(c, dc, 1);
      assert (one != dc && Overfull(c, one, 1)) || (two != dc && Overfull(c, two, 1));
    }
    if SkipsTwice(c) {
      var one :| Overfull(c, one, 2);
      var dc :| CanSkip(c, dc, 2);
      assert one != dc ==> Overfull(c, one, 1) && CanSkip(c, dc, 1);
    }
  }
}
