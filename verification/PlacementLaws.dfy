/** What the replicas chosen by NetworkTopologyStrategy satisfy. */
module PlacementLaws {
  import opened Wrappers
  import opened ReplicaPlacement

  // ----- For every ring and every replication factors -----

  /** The sum of a table of counters. */
  ghost function Total(m: map<string, nat>): nat {
    if m == map[] then 0
    else
      var k :| k in m;
      m[k] + Total(m - {k})
  }

  lemma {:induction false} TotalRemove(m: map<string, nat>, k: string)
    requires k in m
    ensures Total(m) == m[k] + Total(m - {k})
    decreases |m|
  {
    var j :| j in m && Total(m) == m[j] + Total(m - {j});
    if j != k {
      TotalRemove(m - {j}, k);
      assert m - {j} - {k} == m - {k} - {j};
      TotalRemove(m - {k}, j);
    }
  }

  lemma {:induction false} TotalUpdate(m: map<string, nat>, k: string, v: nat)
    ensures Total(m[k := v]) == Total(m) - (if k in m then m[k] else 0) + v
  {
    TotalRemove(m[k := v], k);
    assert m[k := v] - {k} == m - {k};
    if k in m {
      TotalRemove(m, k);
    } else {
      assert m - {k} == m;
    }
  }

  ghost predicate CountersHold(c: Config, s: State) {
    && |s.replicas| == Total(s.byDc)
    && forall dc :: dc in s.byDc ==> s.byDc[dc] <= c.Wanted(dc)
  }

  /** The list is as long as the counters say, and no counter exceeds `min(rf, hostLength)`. */
  lemma {:induction false} Counters(c: Config, hosts: seq<Host>, n: nat)
    requires n <= |hosts|
    ensures CountersHold(c, Walk(c, hosts, n))
    decreases n
  {
    if n > 0 {
      Counters(c, hosts, n - 1);
      var s, h := Walk(c, hosts, n - 1), hosts[n - 1];
      if !Ignores(c, s, h) && !Skips(c, s, h) {
        var t := Take(c, s, h);
        TotalUpdate(s.byDc, h.datacenter, t.byDc[h.datacenter]);
      }
    }
  }

  // ----- The cluster as the ring shows it -----

  ghost predicate NoRepeats(hosts: seq<Host>) {
    forall i, j :: 0 <= i < j < |hosts| ==> hosts[i] != hosts[j]
  }

  ghost function HostsIn(hosts: seq<Host>, dc: string): set<Host> {
    set h | h in hosts && h.datacenter == dc
  }

  ghost function RacksOf(hosts: set<Host>): set<Option<string>> {
    set h | h in hosts :: h.rack
  }

  /** The datacenter table is that of the hosts on the ring, and every host has a rack. */
  ghost predicate Describes(c: Config, hosts: seq<Host>) {
    && c.Knows(hosts)
    && (forall i :: 0 <= i < |hosts| ==> hosts[i].rack.Some?)
    && (forall dc :: dc in c.datacenters ==>
        && c.datacenters[dc].hostLength == |HostsIn(hosts, dc)|
        && c.datacenters[dc].racks == RacksOf(HostsIn(hosts, dc)))
  }

  lemma {:induction false} RacksAtMostHosts(hosts: set<Host>)
    ensures |RacksOf(hosts)| <= |hosts|
    decreases hosts
  {
    if hosts != {} {
      var h :| h in hosts;
      RacksAtMostHosts(hosts - {h});
      assert RacksOf(hosts) == RacksOf(hosts - {h}) + {h.rack};
    }
  }

  lemma SubsetCardinality<T>(a: set<T>, b: set<T>)
    requires a <= b
    ensures |a| <= |b| && (|a| == |b| ==> a == b)
  {
    assert b == a + (b - a);
    assert |b| == |a| + |b - a|;
  }

  // ----- No more replicas wanted than there are racks: any datacenters, any tokens per host -----

  ghost predicate FitsRacks(c: Config) {
    forall dc :: dc in c.datacenters ==> c.Wanted(dc) <= c.Racks(dc)
  }

  /** In one datacenter, counters, hosts and racks agree. */
  ghost predicate Agrees(c: Config, s: State, dc: string) {
    && s.Count(dc) == |HostsIn(s.replicas, dc)| == |s.Placed(dc)|
    && (s.Count(dc) == 0 || s.Count(dc) <= c.Wanted(dc))
  }

  /** Every replica so far is alone in standing for its rack. */
  ghost predicate OnePerRack(s: State) {
    && NoRepeats(s.replicas)
    && (forall h :: h in s.replicas ==> h.rack in s.Placed(h.datacenter))
    && (forall h, h' :: h in s.replicas && h' in s.replicas && h.datacenter == h'.datacenter && h.rack == h'.rack ==> h == h')
  }

  /** Within the number of racks, a host is taken only as the first of its rack, and no skipped host with it. */
  lemma {:induction false} TakesOne(c: Config, s: State, h: Host)
    requires FitsRacks(c) && h.datacenter in c.datacenters && h.rack.Some?
    requires Agrees(c, s, h.datacenter) && !Ignores(c, s, h) && !Skips(c, s, h)
    ensures h.rack !in s.Placed(h.datacenter)
    ensures var t := Take(c, s, h);
      && t.replicas == s.replicas + [h] && t.skipped == s.skipped
      && t.byDc == s.byDc[h.datacenter := s.Count(h.datacenter) + 1]
      && t.racksPlaced == s.racksPlaced[h.datacenter := s.Placed(h.datacenter) + {h.rack}]
  {
  }

  lemma {:induction false} AgreesStep(c: Config, s: State, h: Host, dc: string)
    requires FitsRacks(c) && h.datacenter in c.datacenters && h.rack.Some?
    requires Agrees(c, s, h.datacenter) && Agrees(c, s, dc)
    ensures Agrees(c, Visit(c, s, h), dc)
  {
    if !Ignores(c, s, h) && !Skips(c, s, h) {
      TakesOne(c, s, h);
      HostsInAppend(s.replicas, h, dc);
      if dc == h.datacenter {
        assert h !in HostsIn(s.replicas, dc);
      }
    }
  }

  lemma HostsInAppend(replicas: seq<Host>, h: Host, dc: string)
    ensures HostsIn(replicas + [h], dc) == if dc == h.datacenter then HostsIn(replicas, dc) + {h} else HostsIn(replicas, dc)
  {
  }

  lemma {:induction false} OnePerRackStep(c: Config, s: State, h: Host)
    requires FitsRacks(c) && h.datacenter in c.datacenters && h.rack.Some?
    requires Agrees(c, s, h.datacenter) && OnePerRack(s)
    ensures OnePerRack(Visit(c, s, h))
  {
    if !Ignores(c, s, h) && !Skips(c, s, h) {
      TakesOne(c, s, h);
    }
  }

  /** The host's rack has a replica, or its datacenter has enough. */
  ghost predicate IsCovered(c: Config, s: State, h: Host) {
    c.Factor(h.datacenter) > 0 ==>
      h.rack in s.Placed(h.datacenter) || s.Count(h.datacenter) >= c.Wanted(h.datacenter)
  }

  lemma VisitGrows(c: Config, s: State, h: Host, dc: string)
    ensures s.Count(dc) <= Visit(c, s, h).Count(dc) && s.Placed(dc) <= Visit(c, s, h).Placed(dc)
  {
  }

  lemma {:induction false} SpreadInvariant(c: Config, hosts: seq<Host>, n: nat)
    requires n <= |hosts| && Describes(c, hosts) && FitsRacks(c)
    ensures OnePerRack(Walk(c, hosts, n))
    ensures forall dc :: Agrees(c, Walk(c, hosts, n), dc)
    decreases n
  {
    if n == 0 {
      assert forall dc :: HostsIn([], dc) == {};
    } else {
      SpreadInvariant(c, hosts, n - 1);
      var s, h := Walk(c, hosts, n - 1), hosts[n - 1];
      OnePerRackStep(c, s, h);
      forall dc
        ensures Agrees(c, Visit(c, s, h), dc)
      {
        AgreesStep(c, s, h, dc);
      }
    }
  }

  lemma {:induction false} VisitedIsCovered(c: Config, s: State, h: Host)
    requires OnePerRack(s) && h.rack.Some?
    ensures IsCovered(c, Visit(c, s, h), h)
  {
  }

  lemma {:induction false} StaysCovered(c: Config, s: State, h: Host, x: Host)
    requires IsCovered(c, s, x)
    ensures IsCovered(c, Visit(c, s, h), x)
  {
    VisitGrows(c, s, h, x.datacenter);
  }

  lemma HasRack(c: Config, hosts: seq<Host>, i: nat)
    requires i < |hosts| && Describes(c, hosts)
    ensures hosts[i].rack.Some?
  {
  }

  lemma {:induction false} CoveredInvariant(c: Config, hosts: seq<Host>, n: nat, k: nat)
    requires k < n <= |hosts| && Describes(c, hosts) && FitsRacks(c)
    ensures IsCovered(c, Walk(c, hosts, n), hosts[k])
    decreases n
  {
    hide IsCovered, Describes, FitsRacks, Visit, OnePerRack, Agrees;
    if k == n - 1 {
      SpreadInvariant(c, hosts, k);
      HasRack(c, hosts, k);
      VisitedIsCovered(c, Walk(c, hosts, k), hosts[k]);
    } else {
      CoveredInvariant(c, hosts, n - 1, k);
      StaysCovered(c, Walk(c, hosts, n - 1), hosts[n - 1], hosts[k]);
    }
  }

  /** A datacenter that did not get all its replicas has a replica on every rack. */
  lemma {:induction false} ShortMeansAllRacks(c: Config, hosts: seq<Host>, dc: string)
    requires Describes(c, hosts) && FitsRacks(c) && c.Factor(dc) > 0
    requires Walk(c, hosts, |hosts|).Count(dc) < c.Wanted(dc)
    ensures RacksOf(HostsIn(hosts, dc)) <= Walk(c, hosts, |hosts|).Placed(dc)
  {
    forall h | h in HostsIn(hosts, dc)
      ensures h.rack in Walk(c, hosts, |hosts|).Placed(dc)
    {
      var k :| 0 <= k < |hosts| && hosts[k] == h;
      CoveredInvariant(c, hosts, |hosts|, k);
    }
  }

  /**
   Where no more replicas are wanted than there are racks, every token gets exactly that many distinct
   hosts in each datacenter, no two of them on the same rack, whatever the order of the ring.
   */
  lemma {:induction false} ExactSpread(c: Config, hosts: seq<Host>, dc: string)
    requires Describes(c, hosts) && FitsRacks(c) && dc in c.datacenters && c.Factor(dc) >= 0
    ensures var r := Replicas(c, hosts);
      && NoRepeats(r)
      && |HostsIn(r, dc)| == c.Wanted(dc)
      && |RacksOf(HostsIn(r, dc))| == c.Wanted(dc)
      && HostsIn(r, dc) <= HostsIn(hosts, dc)
  {
    SpreadInvariant(c, hosts, |hosts|);
    FromRing(c, hosts, |hosts|);
    var s := Walk(c, hosts, |hosts|);
    RacksAtMostHosts(HostsIn(hosts, dc));
    var chosen := HostsIn(s.replicas, dc);
    DistinctRacks(chosen);
    assert Agrees(c, s, dc);
    if c.Factor(dc) > 0 && s.Count(dc) < c.Wanted(dc) {
      ShortMeansAllRacks(c, hosts, dc);
      SubsetCardinality(RacksOf(HostsIn(hosts, dc)), s.Placed(dc));
    }
  }

  /** Hosts with pairwise different racks have as many racks. */
  lemma {:induction false} DistinctRacks(hosts: set<Host>)
    requires forall h, h' :: h in hosts && h' in hosts && h.rack == h'.rack ==> h == h'
    ensures |RacksOf(hosts)| == |hosts|
    decreases hosts
  {
    if hosts != {} {
      var h :| h in hosts;
      DistinctRacks(hosts - {h});
      assert RacksOf(hosts) == RacksOf(hosts - {h}) + {h.rack};
      assert h.rack !in RacksOf(hosts - {h});
    }
  }

  /** Only hosts of the ring are chosen or skipped. */
  lemma {:induction false} FromRing(c: Config, hosts: seq<Host>, n: nat)
    requires n <= |hosts|
    ensures forall h :: h in Walk(c, hosts, n).replicas || h in Walk(c, hosts, n).skipped ==> h in hosts[..n]
    decreases n
  {
    if n > 0 {
      FromRing(c, hosts, n - 1);
      assert hosts[..n] == hosts[..n - 1] + [hosts[n - 1]];
    }
  }

  // ----- One replicated datacenter, one token per host: any factor -----

  ghost predicate OneDatacenter(c: Config, hosts: seq<Host>, dc: string) {
    && Describes(c, hosts) && NoRepeats(hosts)
    && dc in c.datacenters && c.Factor(dc) > 0
    && forall i :: 0 <= i < |hosts| && hosts[i].datacenter != dc ==> c.Factor(hosts[i].datacenter) == 0
  }

  /** The hosts of `dc` among the first `n`. */
  ghost function Seen(hosts: seq<Host>, n: nat, dc: string): set<Host>
    requires n <= |hosts|
  {
    HostsIn(hosts[..n], dc)
  }

  ghost function Elements(hosts: seq<Host>): set<Host> {
    set h | h in hosts
  }

  /** The replicas and skipped hosts are different hosts seen so far, and the replicas' racks are the placed ones. */
  ghost predicate Sane(c: Config, s: State, seen: set<Host>, dc: string) {
    && NoRepeats(s.replicas) && NoRepeats(s.skipped)
    && Elements(s.replicas) <= seen && Elements(s.skipped) <= seen
    && s.Placed(dc) == RacksOf(Elements(s.replicas))
    && RacksOf(Elements(s.skipped)) <= s.Placed(dc)
    && s.Count(dc) == |s.replicas| <= c.Wanted(dc)
  }

  /** Some racks have no replica yet: one replica per placed rack, and nothing needed later was lost. */
  ghost predicate Collecting(c: Config, s: State, seen: set<Host>, dc: string) {
    && |s.Placed(dc)| < c.Racks(dc)
    && |s.replicas| == |s.Placed(dc)|
    && Elements(s.replicas) !! Elements(s.skipped)
    && (seen <= Elements(s.replicas) + Elements(s.skipped) || |s.replicas| + |s.skipped| >= c.Wanted(dc))
    && (RacksOf(seen) <= s.Placed(dc) || |s.replicas| >= c.Wanted(dc))
  }

  /** All racks have a replica: every host seen was taken, or there are enough. */
  ghost predicate Filling(c: Config, s: State, seen: set<Host>, dc: string) {
    && |s.Placed(dc)| == c.Racks(dc)
    && (seen <= Elements(s.replicas) || |s.replicas| >= c.Wanted(dc))
  }

  ghost predicate Phase(c: Config, s: State, seen: set<Host>, dc: string) {
    Sane(c, s, seen, dc) && (Collecting(c, s, seen, dc) || Filling(c, s, seen, dc))
  }

  lemma ElementsAppend(a: seq<Host>, h: Host)
    ensures Elements(a + [h]) == Elements(a) + {h}
    ensures NoRepeats(a) && h !in a ==> NoRepeats(a + [h])
  {
  }

  lemma {:induction false} IgnoredStep(c: Config, s: State, seen: set<Host>, dc: string, h: Host)
    requires Phase(c, s, seen, dc) && h.datacenter == dc && h !in seen
    requires c.Factor(dc) > 0 && Ignores(c, s, h)
    ensures Phase(c, s, seen + {h}, dc)
  {
    assert h !in Elements(s.replicas);
    assert |s.replicas| >= c.Wanted(dc);
  }

  lemma {:induction false} SkippedStep(c: Config, s: State, seen: set<Host>, dc: string, h: Host)
    requires Phase(c, s, seen, dc) && h.datacenter == dc && h !in seen
    requires !Ignores(c, s, h) && Skips(c, s, h)
    ensures Phase(c, Visit(c, s, h), seen + {h}, dc)
  {
    ElementsAppend(s.skipped, h);
    assert h !in Elements(s.skipped);
    assert RacksOf(seen + {h}) == RacksOf(seen) + {h.rack};
    assert RacksOf(Elements(s.skipped) + {h}) == RacksOf(Elements(s.skipped)) + {h.rack};
    var t := Visit(c, s, h);
    assert Sane(c, t, seen + {h}, dc);
    assert Collecting(c, t, seen + {h}, dc);
  }

  lemma RacksUnion(a: set<Host>, b: set<Host>)
    ensures RacksOf(a + b) == RacksOf(a) + RacksOf(b)
  {
  }

  lemma RacksOfOne(h: Host)
    ensures RacksOf({h}) == {h.rack}
  {
  }

  /** Unless it is the first of the last rack, `h` alone is taken. */
  lemma {:induction false} TakesAlone(c: Config, s: State, seen: set<Host>, dc: string, h: Host)
    requires Sane(c, s, seen, dc) && h.datacenter == dc && h !in seen && h.rack.Some? && !Ignores(c, s, h)
    requires h.rack in s.Placed(dc) || |s.Placed(dc)| + 1 < c.Racks(dc)
    ensures var t := Take(c, s, h);
      && t.replicas == s.replicas + [h] && t.skipped == s.skipped && t.Placed(dc) == s.Placed(dc) + {h.rack}
      && Elements(t.replicas) == Elements(s.replicas) + {h} && Sane(c, t, seen + {h}, dc)
  {
    var t := Take(c, s, h);
    assert s.skipped[..0] == [];
    assert t.replicas == s.replicas + [h];
    ElementsAppend(s.replicas, h);
    assert h !in Elements(s.replicas);
    RacksUnion(Elements(s.replicas), {h});
    RacksOfOne(h);
  }

  lemma {:induction false} FillingStep(c: Config, s: State, seen: set<Host>, dc: string, h: Host)
    requires Sane(c, s, seen, dc) && Filling(c, s, seen, dc) && h.datacenter == dc && h !in seen && h.rack.Some?
    requires !Ignores(c, s, h) && h.rack in s.Placed(dc)
    ensures Phase(c, Take(c, s, h), seen + {h}, dc)
  {
    TakesAlone(c, s, seen, dc, h);
    var t := Take(c, s, h);
    assert t.Placed(dc) == s.Placed(dc);
    assert Filling(c, t, seen + {h}, dc);
  }

  lemma {:induction false} CollectingStep(c: Config, s: State, seen: set<Host>, dc: string, h: Host)
    requires Sane(c, s, seen, dc) && Collecting(c, s, seen, dc) && h.datacenter == dc && h !in seen && h.rack.Some?
    requires !Ignores(c, s, h) && h.rack !in s.Placed(dc) && |s.Placed(dc)| + 1 < c.Racks(dc)
    ensures Phase(c, Take(c, s, h), seen + {h}, dc)
  {
    TakesAlone(c, s, seen, dc, h);
    RacksUnion(seen, {h});
    RacksOfOne(h);
    assert h !in Elements(s.skipped);
    assert Collecting(c, Take(c, s, h), seen + {h}, dc);
  }

  /** With the last rack, skipped hosts are taken up to the number wanted. */
  lemma {:induction false} TakesSkipped(c: Config, s: State, seen: set<Host>, dc: string, h: Host)
    requires Sane(c, s, seen, dc) && Collecting(c, s, seen, dc) && h.datacenter == dc && h !in seen && h.rack.Some?
    requires !Ignores(c, s, h) && h.rack !in s.Placed(dc) && |s.Placed(dc)| + 1 == c.Racks(dc)
    ensures var t := Take(c, s, h);
      var some := s.skipped[..Room(c.Wanted(dc), |s.replicas| + 1, s.skipped)];
      && t.replicas == (s.replicas + [h]) + some && t.skipped == s.skipped && t.Count(dc) == |t.replicas|
      && Elements(t.replicas) == (Elements(s.replicas) + {h}) + Elements(some)
      && t.Placed(dc) == s.Placed(dc) + {h.rack}
      && Elements(some) <= Elements(s.skipped)
  {
    var some := s.skipped[..Room(c.Wanted(dc), |s.replicas| + 1, s.skipped)];
    ElementsAppend(s.replicas, h);
    ElementsJoin(s.replicas + [h], some);
  }

  lemma ElementsJoin(a: seq<Host>, b: seq<Host>)
    ensures Elements(a + b) == Elements(a) + Elements(b)
  {
  }

  lemma {:induction false} CompletedStep(c: Config, s: State, seen: set<Host>, dc: string, h: Host)
    requires Sane(c, s, seen, dc) && Collecting(c, s, seen, dc) && h.datacenter == dc && h !in seen && h.rack.Some?
    requires !Ignores(c, s, h) && h.rack !in s.Placed(dc) && |s.Placed(dc)| + 1 == c.Racks(dc)
    ensures Phase(c, Take(c, s, h), seen + {h}, dc)
  {
    TakesSkipped(c, s, seen, dc, h);
    var room := Room(c.Wanted(dc), |s.replicas| + 1, s.skipped);
    TakenDiffer(c, s, seen, dc, h, room);
    TakenRacks(c, s, seen, dc, h, room);
    CompletedFills(c, s, Take(c, s, h), seen, dc, h, room);
  }

  lemma {:induction false} TakenDiffer(c: Config, s: State, seen: set<Host>, dc: string, h: Host, room: nat)
    requires Sane(c, s, seen, dc) && Collecting(c, s, seen, dc) && h !in seen && room <= |s.skipped|
    ensures NoRepeats((s.replicas + [h]) + s.skipped[..room])
  {
    var some := s.skipped[..room];
    assert h !in Elements(s.replicas) && h !in Elements(s.skipped);
    assert Elements(some) <= Elements(s.skipped);
    ElementsAppend(s.replicas, h);
    JoinNoRepeats(s.replicas + [h], some);
  }

  lemma {:induction false} TakenRacks(c: Config, s: State, seen: set<Host>, dc: string, h: Host, room: nat)
    requires Sane(c, s, seen, dc) && room <= |s.skipped|
    ensures RacksOf((Elements(s.replicas) + {h}) + Elements(s.skipped[..room])) == s.Placed(dc) + {h.rack}
  {
    var some := s.skipped[..room];
    RacksUnion(Elements(s.replicas) + {h}, Elements(some));
    RacksUnion(Elements(s.replicas), {h});
    RacksOfOne(h);
    assert RacksOf(Elements(some)) <= RacksOf(Elements(s.skipped));
  }

  lemma {:induction false} CompletedFills(c: Config, s: State, t: State, seen: set<Host>, dc: string, h: Host, room: nat)
    requires Collecting(c, s, seen, dc) && |s.Placed(dc)| + 1 == c.Racks(dc) && h.rack !in s.Placed(dc)
    requires room == Room(c.Wanted(dc), |s.replicas| + 1, s.skipped) && |s.replicas| < c.Wanted(dc)
    requires |t.replicas| == |s.replicas| + 1 + room && t.Placed(dc) == s.Placed(dc) + {h.rack}
    requires Elements(t.replicas) == (Elements(s.replicas) + {h}) + Elements(s.skipped[..room])
    ensures Filling(c, t, seen + {h}, dc)
  {
    assert room == |s.skipped| ==> s.skipped[..room] == s.skipped;
  }

  lemma JoinNoRepeats(a: seq<Host>, b: seq<Host>)
    requires NoRepeats(a) && NoRepeats(b) && Elements(a) !! Elements(b)
    ensures NoRepeats(a + b)
  {
    forall i, j | 0 <= i < j < |a + b|
      ensures (a + b)[i] != (a + b)[j]
    {
      if i < |a| <= j {
        assert a[i] in Elements(a) && b[j - |a|] in Elements(b);
      }
    }
  }

  lemma {:induction false} PhaseStep(c: Config, s: State, seen: set<Host>, dc: string, h: Host)
    requires Phase(c, s, seen, dc) && h.datacenter == dc && h !in seen && h.rack.Some? && c.Factor(dc) > 0
    requires dc in c.datacenters && RacksOf(seen + {h}) <= c.datacenters[dc].racks
    ensures Phase(c, Visit(c, s, h), seen + {h}, dc)
  {
    if Ignores(c, s, h) {
      IgnoredStep(c, s, seen, dc, h);
    } else if Skips(c, s, h) {
      SkippedStep(c, s, seen, dc, h);
    } else {
      RacksUnion(seen, {h});
      RacksOfOne(h);
      SubsetCardinality(s.Placed(dc), c.datacenters[dc].racks);
      if Filling(c, s, seen, dc) {
        FillingStep(c, s, seen, dc, h);
      } else if |s.Placed(dc)| + 1 < c.Racks(dc) {
        CollectingStep(c, s, seen, dc, h);
      } else {
        CompletedStep(c, s, seen, dc, h);
      }
    }
  }

  lemma {:induction false} PhaseInvariant(c: Config, hosts: seq<Host>, dc: string, n: nat)
    requires n <= |hosts| && OneDatacenter(c, hosts, dc)
    ensures Phase(c, Walk(c, hosts, n), Seen(hosts, n, dc), dc)
    decreases n
  {
    if n == 0 {
      assert Seen(hosts, 0, dc) == {} && RacksOf({}) == {} && Elements([]) == {};
    } else {
      PhaseInvariant(c, hosts, dc, n - 1);
      SeenStep(c, hosts, dc, n);
      if hosts[n - 1].datacenter == dc {
        PhaseStep(c, Walk(c, hosts, n - 1), Seen(hosts, n - 1, dc), dc, hosts[n - 1]);
      } else {
        IgnoresOthers(c, Walk(c, hosts, n - 1), hosts[n - 1]);
      }
    }
  }

  lemma IgnoresOthers(c: Config, s: State, h: Host)
    requires c.Factor(h.datacenter) == 0
    ensures Visit(c, s, h) == s
  {
  }

  lemma {:induction false} SeenStep(c: Config, hosts: seq<Host>, dc: string, n: nat)
    requires 0 < n <= |hosts| && OneDatacenter(c, hosts, dc)
    ensures var h, before := hosts[n - 1], Seen(hosts, n - 1, dc);
      && h !in before
      && Seen(hosts, n, dc) == (if h.datacenter == dc then before + {h} else before)
      && RacksOf(Seen(hosts, n, dc)) <= c.datacenters[dc].racks
  {
    assert hosts[..n] == hosts[..n - 1] + [hosts[n - 1]];
    HostsInAppend(hosts[..n - 1], hosts[n - 1], dc);
    assert Seen(hosts, n, dc) <= HostsIn(hosts, dc);
    assert RacksOf(Seen(hosts, n, dc)) <= RacksOf(HostsIn(hosts, dc));
  }

  lemma {:induction false} NoRepeatsCardinality(a: seq<Host>)
    requires NoRepeats(a)
    ensures |Elements(a)| == |a|
    decreases |a|
  {
    if a != [] {
      var init, last := a[..|a| - 1], a[|a| - 1];
      NoRepeatsCardinality(init);
      ElementsAppend(init, last);
      assert a == init + [last];
      assert last !in init;
    }
  }

  function Min(a: int, b: int): int {
    if a < b then a else b
  }

  /**
   With one replicated datacenter and one token per host, any factor gives exactly
   min(rf, hosts) distinct hosts of that datacenter, on min(rf, racks) racks.
   */
  lemma {:induction false} ExactInOneDatacenter(c: Config, hosts: seq<Host>, dc: string)
    requires OneDatacenter(c, hosts, dc)
    ensures var r := Replicas(c, hosts);
      && NoRepeats(r) && Elements(r) <= HostsIn(hosts, dc)
      && |r| == Min(c.Factor(dc), |HostsIn(hosts, dc)|)
      && |RacksOf(Elements(r))| == Min(c.Factor(dc), |RacksOf(HostsIn(hosts, dc))|)
  {
    PhaseInvariant(c, hosts, dc, |hosts|);
    var s := Walk(c, hosts, |hosts|);
    var all := HostsIn(hosts, dc);
    assert hosts[..|hosts|] == hosts;
    NoRepeatsCardinality(s.replicas);
    RacksAtMostHosts(all);
    RacksAtMostHosts(Elements(s.replicas));
    if all <= Elements(s.replicas) {
      SubsetCardinality(all, Elements(s.replicas));
    }
    if RacksOf(all) <= s.Placed(dc) {
      SubsetCardinality(RacksOf(all), s.Placed(dc));
    }
  }

  // ----- Outside these cases: skipped hosts are shared between datacenters -----

  ghost predicate TwoDatacenters(c: Config, one: string, two: string, a: Host, b: Host, x: Host, d: Host, y: Host) {
    && one != two && a != b && x != y
    && a.datacenter == b.datacenter == d.datacenter == one && x.datacenter == y.datacenter == two
    && a.rack.Some? && d.rack.Some? && x.rack.Some? && a.rack == b.rack != d.rack && x.rack == y.rack
    && c.factors == map[one := 3, two := 2]
    && c.datacenters == map[one := Datacenter(3, {a.rack, d.rack}), two := Datacenter(2, {x.rack})]
  }

  /**
   An example where both happen that PlacementRepeats and PlacementCounts give the exact conditions of: a host
   is chosen twice, and a datacenter loses a replica to a skipped host of the other one, as `y` does here.
   */
  lemma SkippedHostsAreShared(c: Config, one: string, two: string, a: Host, b: Host, x: Host, d: Host, y: Host)
    requires TwoDatacenters(c, one, two, a, b, x, d, y)
    ensures Describes(c, [a, b, x, d, y])
    ensures Replicas(c, [a, b, x, d, y]) == [a, x, b, d, b]
  {
    var hosts := [a, b, x, d, y];
    SharedTopology(c, one, two, a, b, x, d, y);
    var s1 := State([a], map[one := 1], map[one := {a.rack}], []);
    assert Walk(c, hosts, 0) == START;
    TakeIs(c, START, a, {a.rack}, 0, s1);
    assert Walk(c, hosts, 1) == s1;
    var s2 := s1.(skipped := [b]);
    assert Visit(c, s1, b) == s2;
    assert Walk(c, hosts, 2) == s2;
    var s3 := State([a, x, b], map[one := 1, two := 2], map[one := {a.rack}, two := {x.rack}], [b]);
    TakeIs(c, s2, x, {x.rack}, 1, s3);
    assert Walk(c, hosts, 3) == s3;
    SharedEnd(c, one, two, a, b, x, d, y, s3);
  }

  lemma SharedTopology(c: Config, one: string, two: string, a: Host, b: Host, x: Host, d: Host, y: Host)
    requires TwoDatacenters(c, one, two, a, b, x, d, y)
    ensures Describes(c, [a, b, x, d, y])
    ensures c.Racks(one) == 2 && c.Racks(two) == 1 && c.Wanted(one) == 3 && c.Wanted(two) == 2
  {
    var hosts := [a, b, x, d, y];
    assert HostsIn(hosts, one) == {a, b, d} && HostsIn(hosts, two) == {x, y};
    assert RacksOf({a, b, d}) == {a.rack, d.rack} && RacksOf({x, y}) == {x.rack};
    assert c.datacenters.Keys == {one, two};
    assert c.Knows(hosts);
  }

  lemma SharedEnd(c: Config, one: string, two: string, a: Host, b: Host, x: Host, d: Host, y: Host, s3: State)
    requires TwoDatacenters(c, one, two, a, b, x, d, y)
    requires c.Racks(one) == 2 && c.Racks(two) == 1 && c.Wanted(one) == 3 && c.Wanted(two) == 2
    requires s3 == State([a, x, b], map[one := 1, two := 2], map[one := {a.rack}, two := {x.rack}], [b])
    requires Walk(c, [a, b, x, d, y], 3) == s3
    ensures Replicas(c, [a, b, x, d, y]) == [a, x, b, d, b]
  {
    var hosts := [a, b, x, d, y];
    var s4 := State([a, x, b, d, b], map[one := 3, two := 2], map[one := {a.rack, d.rack}, two := {x.rack}], [b]);
    TakeIs(c, s3, d, {a.rack, d.rack}, 1, s4);
    assert Walk(c, hosts, 4) == s4;
    assert Visit(c, s4, y) == s4;
    assert Walk(c, hosts, 5) == s4;
  }

  lemma TakeIs(c: Config, s: State, h: Host, racks: set<Option<string>>, room: nat, t: State)
    requires !Ignores(c, s, h) && !Skips(c, s, h) && h.rack.Some?
    requires racks == s.Placed(h.datacenter) + {h.rack}
    requires room == if h.rack !in s.Placed(h.datacenter) && |racks| == c.Racks(h.datacenter)
                     then Room(c.Wanted(h.datacenter), s.Count(h.datacenter) + 1, s.skipped) else 0
    requires t == State(s.replicas + [h] + s.skipped[..room], s.byDc[h.datacenter := s.Count(h.datacenter) + 1 + room],
                        s.racksPlaced[h.datacenter := racks], s.skipped)
    ensures Visit(c, s, h) == t
  {
  }

  // ----- SimpleStrategy -----

  /** The replicas are distinct owners, in ring order, and every owner is among them if there is room. */
  lemma {:induction false} SimplePlacement(hosts: seq<Host>, rf: int)
    requires hosts != []
    ensures var r := FirstDistinct(hosts, rf);
      && NoRepeats(r) && Elements(r) <= Elements(hosts)
      && |r| == Min(if rf < 1 then 1 else rf, |Elements(hosts)|)
      && r[0] == hosts[0]
  {
    DistinctOwners(hosts, |hosts|);
    assert hosts[..|hosts|] == hosts;
    NoRepeatsCardinality(Distinct(hosts, |hosts|));
    DistinctGrows(hosts, 1, |hosts|);
    assert Distinct(hosts, 0) == [];
  }

  lemma {:induction false} DistinctOwners(hosts: seq<Host>, n: nat)
    requires n <= |hosts|
    ensures NoRepeats(Distinct(hosts, n)) && Elements(Distinct(hosts, n)) == Elements(hosts[..n])
    decreases n
  {
    if n > 0 {
      DistinctOwners(hosts, n - 1);
      assert hosts[..n] == hosts[..n - 1] + [hosts[n - 1]];
      ElementsAppend(hosts[..n - 1], hosts[n - 1]);
      ElementsAppend(Distinct(hosts, n - 1), hosts[n - 1]);
    }
  }
}
