/**
 When NetworkTopologyStrategy chooses a host twice. The skipped hosts of all datacenters are kept in one list,
 so the question is about the cluster as a whole: exactly which clusters have an arrangement of their hosts around
 the ring that repeats a replica.
 */
module PlacementRepeats {
  import opened Wrappers
  import opened ReplicaPlacement
  import opened PlacementLaws
  import opened Seqs

  // ----- What a caller can check of a cluster -----

  /** At least `n` more replicas are wanted than there are racks. */
  predicate Overfull(c: Config, dc: string, n: nat) {
    dc in c.datacenters && c.Wanted(dc) >= c.Racks(dc) + n
  }

  /** Some rack has two hosts, and after one of them `n` more replicas are wanted and racks are left. */
  predicate CanSkip(c: Config, dc: string, n: nat) {
    dc in c.datacenters && c.Wanted(dc) > n && 1 < c.Racks(dc) < c.datacenters[dc].hostLength
  }

  /** Two datacenters take skipped hosts, and there can be one. */
  ghost predicate TakesTwice(c: Config) {
    && (exists one, two :: one != two && Overfull(c, one, 1) && Overfull(c, two, 1))
    && (exists dc :: CanSkip(c, dc, 1))
  }

  /** A datacenter takes two skipped hosts, and a host with two tokens can be skipped twice. */
  ghost predicate SkipsTwice(c: Config) {
    (exists dc :: Overfull(c, dc, 2)) && (exists dc :: CanSkip(c, dc, 2))
  }

  // ----- No repeats -----

  lemma {:induction false} SharedRack(hosts: set<Host>, g: Host, h: Host)
    requires g in hosts && h in hosts && g != h && g.rack == h.rack
    ensures |RacksOf(hosts)| < |hosts|
  {
    assert RacksOf(hosts) == RacksOf(hosts - {h});
    RacksAtMostHosts(hosts - {h});
  }

  /** Every placed rack has a replica, and the counter is at least the number of placed racks. */
  ghost predicate Witnessed(s: State) {
    && (forall dc, rack :: rack in s.Placed(dc) ==> exists g :: g in s.replicas && g.datacenter == dc && g.rack == rack)
    && (forall dc :: |s.Placed(dc)| <= s.Count(dc))
  }

  lemma {:induction false} WitnessedStep(c: Config, s: State, h: Host)
    requires Witnessed(s)
    ensures Witnessed(Visit(c, s, h))
  {
    var t := Visit(c, s, h);
    if Ignores(c, s, h) || Skips(c, s, h) {
      assert forall dc :: t.Placed(dc) == s.Placed(dc) && t.Count(dc) == s.Count(dc);
      assert t.replicas == s.replicas;
    } else {
      WitnessedTake(c, s, h);
    }
  }

  lemma {:induction false} WitnessedTake(c: Config, s: State, h: Host)
    requires Witnessed(s)
    ensures Witnessed(Take(c, s, h))
  {
    var t := Take(c, s, h);
    assert h in t.replicas && s.replicas <= t.replicas;
    forall dc, rack | rack in t.Placed(dc)
      ensures exists g :: g in t.replicas && g.datacenter == dc && g.rack == rack
    {
      if rack in s.Placed(dc) {
        var g :| g in s.replicas && g.datacenter == dc && g.rack == rack;
        assert g in t.replicas;
      }
    }
    forall dc
      ensures |t.Placed(dc)| <= t.Count(dc)
    {
      assert |s.Placed(dc) + {h.rack}| <= |s.Placed(dc)| + 1;
    }
  }

  lemma {:induction false} AlwaysWitnessed(c: Config, hosts: seq<Host>, n: nat)
    requires n <= |hosts|
    ensures Witnessed(Walk(c, hosts, n))
    decreases n
  {
    if n > 0 {
      AlwaysWitnessed(c, hosts, n - 1);
      WitnessedStep(c, Walk(c, hosts, n - 1), hosts[n - 1]);
    }
  }

  /** The n-th host can be added to the skipped ones only where that many can be skipped. */
  lemma {:induction false} SkippedCanSkip(c: Config, hosts: seq<Host>, n: nat)
    requires n < |hosts| && Describes(c, hosts)
    ensures var s, h := Walk(c, hosts, n), hosts[n];
      |Visit(c, s, h).skipped| > |s.skipped| ==> CanSkip(c, h.datacenter, |s.skipped| + 1)
  {
    var s, h := Walk(c, hosts, n), hosts[n];
    if |Visit(c, s, h).skipped| > |s.skipped| {
      AlwaysWitnessed(c, hosts, n);
      FromRing(c, hosts, n);
      var g :| g in s.replicas && g.datacenter == h.datacenter && g.rack == h.rack;
      assert g in hosts[..n];
      SharedRack(HostsIn(hosts, h.datacenter), g, h);
    }
  }

  lemma {:induction false} FewSkipped(c: Config, hosts: seq<Host>, n: nat, k: nat)
    requires n <= |hosts| && Describes(c, hosts) && k > 0 && forall dc :: !CanSkip(c, dc, k)
    ensures |Walk(c, hosts, n).skipped| < k
    decreases n
  {
    if n > 0 {
      FewSkipped(c, hosts, n - 1, k);
      SkippedCanSkip(c, hosts, n - 1);
      assert !CanSkip(c, hosts[n - 1].datacenter, k);
    }
  }

  /** Without skipped hosts, a host is taken only when it is not yet a replica. */
  lemma {:induction false} NothingSkipped(c: Config, hosts: seq<Host>, n: nat)
    requires n <= |hosts| && Describes(c, hosts) && forall dc :: !CanSkip(c, dc, 1)
    ensures NoRepeats(Walk(c, hosts, n).replicas)
    decreases n
  {
    if n > 0 {
      NothingSkipped(c, hosts, n - 1);
      FewSkipped(c, hosts, n - 1, 1);
      var s, h := Walk(c, hosts, n - 1), hosts[n - 1];
      if !Ignores(c, s, h) && !Skips(c, s, h) {
        ElementsAppend(s.replicas, h);
        assert Take(c, s, h).replicas == s.replicas + [h];
      }
    }
  }

  /**
   What holds while only `d` can take skipped hosts: until its racks are complete, no replica is among the
   skipped hosts, and the counter of every other datacenter is the number of its racks taken so far. The
   replicas of another datacenter can be more than its counter, since `d` may take its skipped hosts.
   */
  ghost predicate Tidy(c: Config, s: State, d: string) {
    && NoRepeats(s.replicas)
    && (forall h :: h in s.skipped ==> h.rack in s.Placed(h.datacenter))
    && (forall dc :: dc in c.datacenters ==> s.Placed(dc) <= c.datacenters[dc].racks)
    && (forall dc :: dc in c.datacenters && (dc != d || |s.Placed(dc)| < c.Racks(dc)) ==> s.Count(dc) == |s.Placed(dc)|)
    && (d in c.datacenters && |s.Placed(d)| < c.Racks(d) ==> Elements(s.skipped) !! Elements(s.replicas))
  }

  /** The skipped hosts that `d` will take are different. */
  ghost predicate TakesDifferent(c: Config, s: State, d: string) {
    NoRepeats(s.skipped[..Room(c.Wanted(d), c.Racks(d), s.skipped)])
  }

  ghost predicate OnlyOverfull(c: Config, d: string) {
    forall dc :: dc != d ==> !Overfull(c, dc, 1)
  }

  lemma {:induction false} TidySkip(c: Config, s: State, d: string, h: Host)
    requires Tidy(c, s, d) && !Ignores(c, s, h) && Skips(c, s, h)
    ensures Tidy(c, Visit(c, s, h), d)
  {
    ElementsAppend(s.skipped, h);
  }

  /** With a rack that has a replica, only `d` takes a host, and only after its racks are complete. */
  lemma {:induction false} TidyFill(c: Config, s: State, d: string, h: Host)
    requires Tidy(c, s, d) && OnlyOverfull(c, d) && h.datacenter in c.datacenters && h.rack.Some?
    requires !Ignores(c, s, h) && !Skips(c, s, h) && h.rack in s.Placed(h.datacenter)
    ensures Tidy(c, Visit(c, s, h), d)
  {
    SubsetCardinality(s.Placed(h.datacenter), c.datacenters[h.datacenter].racks);
    assert !(h.datacenter != d) by {
      assert h.datacenter != d ==> !Overfull(c, h.datacenter, 1);
    }
    var t := Take(c, s, h);
    assert s.skipped[..0] == [];
    assert t.replicas == s.replicas + [h];
    ElementsAppend(s.replicas, h);
    assert s.Placed(d) + {h.rack} == s.Placed(d);
    assert t.Placed(d) == s.Placed(d);
  }

  /** The first of its rack, and not the last rack of `d`: taken alone. */
  lemma {:induction false} TidyTakeAlone(c: Config, s: State, d: string, h: Host)
    requires Tidy(c, s, d) && OnlyOverfull(c, d) && h.datacenter in c.datacenters && h.rack.Some?
    requires h.rack in c.datacenters[h.datacenter].racks
    requires !Ignores(c, s, h) && h.rack !in s.Placed(h.datacenter)
    requires |s.Placed(h.datacenter)| + 1 < c.Racks(h.datacenter) || h.datacenter != d
    ensures Tidy(c, Visit(c, s, h), d)
  {
    var dc := h.datacenter;
    var t := Take(c, s, h);
    OneMoreRack(c, s, d, h);
    assert dc != d ==> !Overfull(c, dc, 1);
    assert s.skipped[..0] == [];
    assert t.replicas == s.replicas + [h];
    ElementsAppend(s.replicas, h);
    assert t.Count(dc) == s.Count(dc) + 1 && t.Placed(dc) == s.Placed(dc) + {h.rack};
  }

  lemma {:induction false} OneMoreRack(c: Config, s: State, d: string, h: Host)
    requires Tidy(c, s, d) && h.datacenter in c.datacenters
    requires h.rack in c.datacenters[h.datacenter].racks && !Ignores(c, s, h) && h.rack !in s.Placed(h.datacenter)
    ensures var dc := h.datacenter;
      && s.Count(dc) == |s.Placed(dc)| < c.Racks(dc) && |s.Placed(dc) + {h.rack}| == |s.Placed(dc)| + 1
      && s.Placed(dc) + {h.rack} <= c.datacenters[dc].racks
      && h !in s.skipped && h !in s.replicas
  {
    var dc := h.datacenter;
    SubsetCardinality(s.Placed(dc) + {h.rack}, c.datacenters[dc].racks);
  }

  /** The first of the last rack of `d`: the skipped hosts come with it. */
  lemma {:induction false} TidyTakeLast(c: Config, s: State, d: string, h: Host)
    requires Tidy(c, s, d) && h.datacenter in c.datacenters && h.rack.Some? && h.datacenter == d
    requires h.rack in c.datacenters[d].racks && TakesDifferent(c, s, d)
    requires !Ignores(c, s, h) && h.rack !in s.Placed(d) && |s.Placed(d)| + 1 == c.Racks(d)
    ensures Tidy(c, Visit(c, s, h), d)
  {
    var t := Take(c, s, h);
    OneMoreRack(c, s, d, h);
    ElementsAppend(s.replicas, h);
    var some := s.skipped[..Room(c.Wanted(d), c.Racks(d), s.skipped)];
    assert t.replicas == (s.replicas + [h]) + some;
    assert Elements(some) <= Elements(s.skipped);
    JoinNoRepeats(s.replicas + [h], some);
    assert t.Placed(d) == s.Placed(d) + {h.rack};
  }

  lemma {:induction false} TidyStep(c: Config, s: State, d: string, h: Host)
    requires Tidy(c, s, d) && OnlyOverfull(c, d) && h.datacenter in c.datacenters && h.rack.Some?
    requires h.rack in c.datacenters[h.datacenter].racks && TakesDifferent(c, s, d)
    ensures Tidy(c, Visit(c, s, h), d)
  {
    hide Tidy, OnlyOverfull, TakesDifferent, Take;
    if Ignores(c, s, h) {
    } else if Skips(c, s, h) {
      TidySkip(c, s, d, h);
    } else if h.rack in s.Placed(h.datacenter) {
      TidyFill(c, s, d, h);
    } else {
      OneMoreRack(c, s, d, h);
      if |s.Placed(h.datacenter)| + 1 < c.Racks(h.datacenter) || h.datacenter != d {
        TidyTakeAlone(c, s, d, h);
      } else {
        TidyTakeLast(c, s, d, h);
      }
    }
  }

  lemma {:induction false} RingHost(c: Config, hosts: seq<Host>, i: nat)
    requires i < |hosts| && Describes(c, hosts)
    ensures var h := hosts[i];
      h.datacenter in c.datacenters && h.rack.Some? && h.rack in c.datacenters[h.datacenter].racks
  {
    assert hosts[i] in HostsIn(hosts, hosts[i].datacenter);
  }

  /** A host with one token is skipped at most once. */
  lemma {:induction false} SkippedOnce(c: Config, hosts: seq<Host>, n: nat)
    requires n <= |hosts| && NoRepeats(hosts)
    ensures NoRepeats(Walk(c, hosts, n).skipped)
    decreases n
  {
    if n > 0 {
      SkippedOnce(c, hosts, n - 1);
      FromRing(c, hosts, n - 1);
      ElementsAppend(Walk(c, hosts, n - 1).skipped, hosts[n - 1]);
      assert hosts[n - 1] !in hosts[..n - 1];
    }
  }

  lemma {:induction false} TidyWalk(c: Config, hosts: seq<Host>, n: nat, d: string)
    requires n <= |hosts| && Describes(c, hosts) && OnlyOverfull(c, d)
    requires NoRepeats(hosts) || !Overfull(c, d, 2) || forall dc :: !CanSkip(c, dc, 2)
    ensures Tidy(c, Walk(c, hosts, n), d)
    decreases n
  {
    hide Tidy, OnlyOverfull, TakesDifferent, Visit, Describes, NoRepeats;
    if n == 0 {
      TidyStart(c, d);
    } else {
      TidyWalk(c, hosts, n - 1, d);
      RingHost(c, hosts, n - 1);
      WillTakeDifferent(c, hosts, n - 1, d);
      TidyStep(c, Walk(c, hosts, n - 1), d, hosts[n - 1]);
    }
  }

  lemma TidyStart(c: Config, d: string)
    ensures Tidy(c, START, d)
  {
  }

  lemma {:induction false} WillTakeDifferent(c: Config, hosts: seq<Host>, n: nat, d: string)
    requires n <= |hosts| && Describes(c, hosts)
    requires NoRepeats(hosts) || !Overfull(c, d, 2) || forall dc :: !CanSkip(c, dc, 2)
    ensures TakesDifferent(c, Walk(c, hosts, n), d)
  {
    if NoRepeats(hosts) {
      SkippedOnce(c, hosts, n);
    } else if Overfull(c, d, 2) {
      FewSkipped(c, hosts, n, 2);
    }
  }

  // ----- Repeats -----

  lemma {:induction false} ReplicasGrow(c: Config, hosts: seq<Host>, m: nat, n: nat)
    requires m <= n <= |hosts|
    ensures Walk(c, hosts, m).replicas <= Walk(c, hosts, n).replicas
    decreases n
  {
    if m < n {
      ReplicasGrow(c, hosts, m, n - 1);
    }
  }

  /** Positions `k` to `m` of the ring hold one host of each rack of `dc` that has no replica yet. */
  ghost predicate Completes(c: Config, hosts: seq<Host>, k: nat, m: nat, dc: string)
    requires k <= m <= |hosts|
  {
    var s := Walk(c, hosts, k);
    && Overfull(c, dc, 1) && s.Count(dc) == |s.Placed(dc)| && |s.Placed(dc)| + (m - k) == c.Racks(dc)
    && (forall i :: k <= i < m ==>
        hosts[i].datacenter == dc && hosts[i].rack.Some? && hosts[i] !in hosts[..k] && hosts[i].rack !in s.Placed(dc))
    && (forall i, j :: k <= i < j < m ==> hosts[i].rack != hosts[j].rack)
  }

  /** The state after `i - k` of these hosts, when the last one is still to come. */
  ghost predicate Completing(s: State, t: State, taken: seq<Host>, dc: string) {
    && t.replicas == s.replicas + taken && t.skipped == s.skipped
    && t.Count(dc) == s.Count(dc) + |taken| && t.Placed(dc) == s.Placed(dc) + RacksOf(Elements(taken))
    && |t.Placed(dc)| == |s.Placed(dc)| + |taken|
    && (forall other :: other != dc ==> t.Count(other) == s.Count(other) && t.Placed(other) == s.Placed(other))
  }

  /** The next of these hosts is neither ignored nor skipped. */
  lemma {:induction false} NotTaken(c: Config, hosts: seq<Host>, k: nat, m: nat, dc: string, i: nat)
    requires k <= i < m <= |hosts| && Completes(c, hosts, k, m, dc)
    requires Completing(Walk(c, hosts, k), Walk(c, hosts, i), hosts[k..i], dc)
    ensures var t, h := Walk(c, hosts, i), hosts[i];
      && !Ignores(c, t, h) && !Skips(c, t, h) && h.rack !in t.Placed(dc) && h.datacenter == dc && h.rack.Some?
      && t.Count(dc) == |t.Placed(dc)| && |t.Placed(dc)| + (m - i) == c.Racks(dc)
      && hosts[k..i + 1] == hosts[k..i] + [h] && Walk(c, hosts, i + 1) == Visit(c, t, h)
  {
    hide Visit, Walk, RacksOf, Elements;
    FromRing(c, hosts, k);
    var t, h := Walk(c, hosts, i), hosts[i];
    RackIsNew(hosts, k, i);
    WalkStep(c, hosts, i);
    assert h !in hosts[k..i];
    assert h !in t.replicas;
  }

  lemma WalkStep(c: Config, hosts: seq<Host>, i: nat)
    requires i < |hosts|
    ensures Walk(c, hosts, i + 1) == Visit(c, Walk(c, hosts, i), hosts[i])
  {
    hide Visit;
  }

  lemma {:induction false} RackIsNew(hosts: seq<Host>, k: nat, i: nat)
    requires k <= i < |hosts| && forall j :: k <= j < i ==> hosts[j].rack != hosts[i].rack
    ensures hosts[i].rack !in RacksOf(Elements(hosts[k..i])) && hosts[i] !in hosts[k..i]
  {
    assert forall g :: g in hosts[k..i] ==> g.rack != hosts[i].rack;
  }

  /** A host that is taken alone. */
  lemma {:induction false} TakenAlone(c: Config, t: State, h: Host)
    requires h.rack.Some? && !Ignores(c, t, h) && !Skips(c, t, h)
    requires h.rack !in t.Placed(h.datacenter) && |t.Placed(h.datacenter)| + 1 < c.Racks(h.datacenter)
    ensures var u := Visit(c, t, h);
      && u.replicas == t.replicas + [h] && u.skipped == t.skipped
      && u.Count(h.datacenter) == t.Count(h.datacenter) + 1 && u.Placed(h.datacenter) == t.Placed(h.datacenter) + {h.rack}
      && (forall other :: other != h.datacenter ==> u.Count(other) == t.Count(other) && u.Placed(other) == t.Placed(other))
  {
    assert t.skipped[..0] == [];
  }

  lemma {:induction false} RacksAppend(a: seq<Host>, h: Host)
    ensures RacksOf(Elements(a + [h])) == RacksOf(Elements(a)) + {h.rack}
  {
    ElementsAppend(a, h);
    RacksUnion(Elements(a), {h});
    RacksOfOne(h);
  }

  lemma {:induction false} CompletingStep(c: Config, s: State, t: State, taken: seq<Host>, dc: string, h: Host)
    requires Completing(s, t, taken, dc) && h.datacenter == dc && h.rack.Some? && h.rack !in t.Placed(dc)
    requires !Ignores(c, t, h) && !Skips(c, t, h) && |t.Placed(dc)| + 1 < c.Racks(dc)
    ensures Completing(s, Visit(c, t, h), taken + [h], dc)
  {
    hide Visit, Ignores, Skips, RacksOf, Elements;
    var u := Visit(c, t, h);
    TakenAlone(c, t, h);
    RacksAppend(taken, h);
    var before, racks := s.Placed(dc), RacksOf(Elements(taken));
    OneMore(before, racks, h.rack, t.Placed(dc));
    Assoc(s.replicas, taken, [h]);
    assert u.replicas == s.replicas + (taken + [h]);
  }

  lemma OneMore(a: set<Option<string>>, b: set<Option<string>>, x: Option<string>, all: set<Option<string>>)
    requires all == a + b && x !in all
    ensures all + {x} == a + (b + {x}) && |all + {x}| == |all| + 1
  {
  }

  lemma CompletingStart(s: State, dc: string)
    ensures Completing(s, s, [], dc)
  {
    assert Elements([]) == {} && RacksOf({}) == {};
    assert s.Placed(dc) + {} == s.Placed(dc);
  }

  lemma {:induction false} CompletingWalk(c: Config, hosts: seq<Host>, k: nat, m: nat, dc: string, i: nat)
    requires k <= i < m <= |hosts| && Completes(c, hosts, k, m, dc)
    ensures Completing(Walk(c, hosts, k), Walk(c, hosts, i), hosts[k..i], dc)
    decreases i
  {
    hide Completing, Visit, Completes, Walk, Ignores, Skips;
    if i == k {
      assert hosts[k..k] == [];
      CompletingStart(Walk(c, hosts, k), dc);
    } else {
      CompletingWalk(c, hosts, k, m, dc, i - 1);
      NotTaken(c, hosts, k, m, dc, i - 1);
      CompletingStep(c, Walk(c, hosts, k), Walk(c, hosts, i - 1), hosts[k..i - 1], dc, hosts[i - 1]);
    }
  }

  lemma {:induction false} CompletedStep(c: Config, s: State, t: State, taken: seq<Host>, dc: string, h: Host)
    requires Completing(s, t, taken, dc) && h.datacenter == dc && h.rack.Some? && h.rack !in t.Placed(dc)
    requires !Ignores(c, t, h) && !Skips(c, t, h) && |t.Placed(dc)| + 1 == c.Racks(dc) == t.Count(dc) + 1
    ensures var u := Visit(c, t, h);
      && u.replicas == s.replicas + (taken + [h]) + s.skipped[..Room(c.Wanted(dc), c.Racks(dc), s.skipped)]
      && u.skipped == s.skipped
      && u.Count(dc) == c.Racks(dc) + Room(c.Wanted(dc), c.Racks(dc), s.skipped) && |u.Placed(dc)| == c.Racks(dc)
      && (forall other :: other != dc ==> u.Count(other) == s.Count(other) && u.Placed(other) == s.Placed(other))
  {
  }

  /** With the last of them, the skipped hosts are taken, and they stay skipped for the other datacenters. */
  lemma {:induction false} Completed(c: Config, hosts: seq<Host>, k: nat, m: nat, dc: string)
    requires k < m <= |hosts| && Completes(c, hosts, k, m, dc)
    ensures var s, t := Walk(c, hosts, k), Walk(c, hosts, m);
      && t.replicas == s.replicas + hosts[k..m] + s.skipped[..Room(c.Wanted(dc), c.Racks(dc), s.skipped)]
      && t.skipped == s.skipped
      && t.Count(dc) == c.Racks(dc) + Room(c.Wanted(dc), c.Racks(dc), s.skipped) && |t.Placed(dc)| == c.Racks(dc)
      && (forall other :: other != dc ==> t.Count(other) == s.Count(other) && t.Placed(other) == s.Placed(other))
  {
    hide Completing, Visit, Completes, Walk, Ignores, Skips;
    CompletingWalk(c, hosts, k, m, dc, m - 1);
    NotTaken(c, hosts, k, m, dc, m - 1);
    CompletedStep(c, Walk(c, hosts, k), Walk(c, hosts, m - 1), hosts[k..m - 1], dc, hosts[m - 1]);
  }

  /** One host for each of some racks. */
  lemma {:induction false} Representatives(hosts: set<Host>, racks: set<Option<string>>) returns (r: seq<Host>)
    requires racks <= RacksOf(hosts)
    ensures |r| == |racks| && Elements(r) <= hosts && RacksOf(Elements(r)) <= racks
    ensures forall i, j :: 0 <= i < j < |r| ==> r[i].rack != r[j].rack
    decreases racks
  {
    hide RacksOf, Elements, NoRepeats;
    r := [];
    NoHosts();
    if racks != {} {
      var rack :| rack in racks;
      var h := OnRack(hosts, rack);
      var others := Representatives(hosts, racks - {rack});
      r := others + [h];
      ElementsAppend(others, h);
      RacksAppend(others, h);
      NotAmong(others, racks - {rack}, rack);
    }
  }

  lemma NoHosts()
    ensures Elements([]) == {} && RacksOf({}) == {}
  {
  }

  lemma OnRack(hosts: set<Host>, rack: Option<string>) returns (h: Host)
    requires rack in RacksOf(hosts)
    ensures h in hosts && h.rack == rack
  {
    h :| h in hosts && h.rack == rack;
  }

  lemma NotAmong(hosts: seq<Host>, racks: set<Option<string>>, rack: Option<string>)
    requires RacksOf(Elements(hosts)) <= racks && rack !in racks
    ensures forall i :: 0 <= i < |hosts| ==> hosts[i].rack != rack
  {
    hide RacksOf, Elements;
    forall i | 0 <= i < |hosts|
      ensures hosts[i].rack != rack
    {
      RackAmong(hosts, i);
    }
  }

  lemma RackAmong(hosts: seq<Host>, i: nat)
    requires i < |hosts|
    ensures hosts[i].rack in RacksOf(Elements(hosts))
  {
    assert hosts[i] in Elements(hosts);
  }

  lemma {:induction false} Enumerate(hosts: set<Host>) returns (r: seq<Host>)
    ensures NoRepeats(r) && Elements(r) == hosts
    decreases hosts
  {
    r := [];
    if hosts != {} {
      var h :| h in hosts;
      var others := Enumerate(hosts - {h});
      r := others + [h];
      ElementsAppend(others, h);
      assert h !in Elements(others);
    }
  }

  /** The tables do not depend on the arrangement. */
  lemma {:induction false} DescribesArrangement(c: Config, hosts: seq<Host>, p: seq<Host>)
    requires Describes(c, hosts) && Elements(p) == Elements(hosts)
    ensures Describes(c, p)
  {
    forall i | 0 <= i < |p|
      ensures p[i].datacenter in c.datacenters && p[i].rack.Some?
    {
      assert p[i] in Elements(hosts);
      var j :| 0 <= j < |hosts| && hosts[j] == p[i];
    }
    forall dc
      ensures HostsIn(p, dc) == HostsIn(hosts, dc)
    {
      forall h
        ensures h in p <==> h in hosts
      {
        assert h in p <==> h in Elements(p);
        assert h in hosts <==> h in Elements(hosts);
      }
    }
  }

  /** Two hosts of one rack. */
  lemma {:induction false} TwoOnOneRack(c: Config, hosts: seq<Host>, dc: string) returns (a: Host, b: Host)
    requires Describes(c, hosts) && CanSkip(c, dc, 1)
    ensures a in HostsIn(hosts, dc) && b in HostsIn(hosts, dc) && a != b && a.rack == b.rack && a.rack.Some?
  {
    var all := HostsIn(hosts, dc);
    if forall h, h' :: h in all && h' in all && h.rack == h'.rack ==> h == h' {
      DistinctRacks(all);
    }
    a, b :| a in all && b in all && a != b && a.rack == b.rack;
    var i :| 0 <= i < |hosts| && hosts[i] == a;
  }

  ghost function SkippedState(dc: string, a: Host, skipped: seq<Host>): State {
    State([a], map[dc := 1], map[dc := {a.rack}], skipped)
  }

  lemma {:induction false} SkipsSecond(c: Config, p: seq<Host>, dc: string, a: Host, b: Host)
    requires |p| >= 2 && p[0] == a && p[1] == b && CanSkip(c, dc, 1)
    requires a.datacenter == b.datacenter == dc && a != b && a.rack == b.rack && a.rack.Some?
    ensures Walk(c, p, 2) == SkippedState(dc, a, [b])
  {
    assert Walk(c, p, 0) == START;
    assert START.skipped[..0] == [];
    assert Walk(c, p, 1) == SkippedState(dc, a, []);
    assert Walk(c, p, 2) == Visit(c, SkippedState(dc, a, []), b);
  }

  lemma {:induction false} SkipsAgain(c: Config, p: seq<Host>, dc: string, a: Host, b: Host)
    requires |p| >= 3 && p[0] == a && p[1] == p[2] == b && CanSkip(c, dc, 2)
    requires a.datacenter == b.datacenter == dc && a != b && a.rack == b.rack && a.rack.Some?
    ensures Walk(c, p, 3) == SkippedState(dc, a, [b, b])
  {
    SkipsSecond(c, p, dc, a, b);
    assert Walk(c, p, 3) == Visit(c, SkippedState(dc, a, [b]), b);
  }

  /** Hosts of `one`, one for each rack without a replica after `a`. */
  lemma {:induction false} RacksLeft(c: Config, hosts: seq<Host>, dc: string, a: Host, one: string) returns (r: seq<Host>)
    requires Describes(c, hosts) && a in HostsIn(hosts, dc) && CanSkip(c, dc, 1) && Overfull(c, one, 1)
    ensures var placed := if one == dc then {a.rack} else {};
      && r != [] && |placed| + |r| == c.Racks(one) && Elements(r) <= HostsIn(hosts, one)
      && (forall i :: 0 <= i < |r| ==> r[i].rack !in placed)
      && (forall i, j :: 0 <= i < j < |r| ==> r[i].rack != r[j].rack)
  {
    var placed := if one == dc then {a.rack} else {};
    var racks := RacksOf(HostsIn(hosts, one));
    assert placed <= racks;
    assert |racks - placed| == |racks| - |placed|;
    r := Representatives(HostsIn(hosts, one), racks - placed);
    RacksNotEmpty(c, hosts, one);
    forall i | 0 <= i < |r|
      ensures r[i].rack !in placed
    {
      assert r[i] in Elements(r);
      assert r[i].rack in RacksOf(Elements(r));
    }
  }

  lemma {:induction false} RacksNotEmpty(c: Config, hosts: seq<Host>, dc: string)
    requires Describes(c, hosts) && Overfull(c, dc, 1)
    ensures c.Racks(dc) > 0
  {
    var all := HostsIn(hosts, dc);
    assert |all| > 0;
    var h :| h in all;
    assert h.rack in RacksOf(all);
  }

  lemma {:induction false} OneRackEachDiffer(r: seq<Host>)
    requires forall i, j :: 0 <= i < j < |r| ==> r[i].rack != r[j].rack
    ensures NoRepeats(r)
  {
  }

  /** `a` and `b` on one rack, then hosts that complete `one`, then hosts that complete `two`, then the others. */
  lemma {:induction false} TakenByBoth(c: Config, hosts: seq<Host>, dc: string, one: string, two: string) returns (p: seq<Host>)
    requires Describes(c, hosts) && CanSkip(c, dc, 1)
    requires one != two && two != dc && Overfull(c, one, 1) && Overfull(c, two, 1)
    ensures NoRepeats(p) && Elements(p) == Elements(hosts) && !NoRepeats(Replicas(c, p))
  {
    hide Describes, NoRepeats, Elements, HostsIn, RacksOf, Walk, Replicas;
    var a, b := TwoOnOneRack(c, hosts, dc);
    var r := RacksLeft(c, hosts, dc, a, one);
    var q := RacksLeft(c, hosts, dc, a, two);
    p := Arrangement(hosts, dc, one, two, a, b, r, q);
    InDatacenter(hosts, dc, a);
    InDatacenter(hosts, dc, b);
    SkipsSecond(c, p, dc, a, b);
    FirstTakes(c, hosts, dc, one, a, b, r, p);
    SecondTakes(c, hosts, dc, one, two, a, b, r, q, p);
    StillRepeats(c, p, 2 + |r| + |q|);
  }

  lemma {:induction false} FirstTakes(c: Config, hosts: seq<Host>, dc: string, one: string, a: Host, b: Host,
                                      r: seq<Host>, p: seq<Host>)
    requires Describes(c, hosts) && Overfull(c, one, 1) && NoRepeats(p) && [a, b] + r <= p
    requires Elements(r) <= HostsIn(hosts, one) && Walk(c, p, 2) == SkippedState(dc, a, [b])
    requires var placed := if one == dc then {a.rack} else {};
      && r != [] && |placed| + |r| == c.Racks(one) && (forall i :: 0 <= i < |r| ==> r[i].rack !in placed)
      && (forall i, j :: 0 <= i < j < |r| ==> r[i].rack != r[j].rack)
    ensures var t := Walk(c, p, 2 + |r|);
      && t.replicas == [a] + r + [b] && t.skipped == [b]
      && t.Count(one) == c.Racks(one) + 1 && |t.Placed(one)| == c.Racks(one)
      && (forall other :: other != dc && other != one ==> t.Count(other) == 0 && t.Placed(other) == {})
  {
    hide Describes, Elements, HostsIn, RacksOf, Walk, Completes;
    var k := 2 + |r|;
    SegmentAt(p, [a, b], r);
    HaveRacks(c, hosts);
    SegmentCompletes(c, hosts, p, 2, r, one);
    Completed(c, p, 2, k, one);
    assert [b][..1] == [b];
  }

  lemma {:induction false} SecondTakes(c: Config, hosts: seq<Host>, dc: string, one: string, two: string, a: Host, b: Host,
                                       r: seq<Host>, q: seq<Host>, p: seq<Host>)
    requires Describes(c, hosts) && Overfull(c, two, 1) && NoRepeats(p) && ([a, b] + r) + q <= p
    requires Elements(q) <= HostsIn(hosts, two) && q != [] && |q| == c.Racks(two)
    requires forall i, j :: 0 <= i < j < |q| ==> q[i].rack != q[j].rack
    requires var t := Walk(c, p, 2 + |r|);
      && t.replicas == [a] + r + [b] && t.skipped == [b] && t.Count(two) == 0 && t.Placed(two) == {}
    ensures !NoRepeats(Walk(c, p, 2 + |r| + |q|).replicas)
  {
    hide Describes, Elements, HostsIn, RacksOf, Walk, Completes;
    var k, m := 2 + |r|, 2 + |r| + |q|;
    SegmentAt(p, [a, b] + r, q);
    HaveRacks(c, hosts);
    SegmentCompletes(c, hosts, p, k, q, two);
    Completed(c, p, k, m, two);
    assert [b][..1] == [b];
    assert Walk(c, p, m).replicas == ([a] + r) + [b] + q + [b];
    TwiceRepeats([a] + r, q, b);
  }

  /** A segment of a ring without repeats, and no earlier host in it. */
  lemma {:induction false} SegmentAt(p: seq<Host>, before: seq<Host>, r: seq<Host>)
    requires NoRepeats(p) && before + r <= p
    ensures |before| + |r| <= |p| && p[|before|..|before| + |r|] == r
    ensures forall i :: 0 <= i < |r| ==> r[i] !in p[..|before|]
  {
    assert p[|before|..|before| + |r|] == (before + r)[|before|..] == r;
    assert forall i :: 0 <= i < |r| ==> r[i] == p[|before| + i];
  }

  lemma TwiceRepeats(x: seq<Host>, y: seq<Host>, b: Host)
    ensures !NoRepeats(x + [b] + y + [b])
  {
    var all := x + [b] + y + [b];
    assert all[|x|] == b && all[|all| - 1] == b;
  }

  lemma {:induction false} Arrangement(hosts: seq<Host>, dc: string, one: string, two: string, a: Host, b: Host,
                                       r: seq<Host>, q: seq<Host>) returns (p: seq<Host>)
    requires a in HostsIn(hosts, dc) && b in HostsIn(hosts, dc) && a != b && a.rack == b.rack
    requires one != two && two != dc && Elements(r) <= HostsIn(hosts, one) && Elements(q) <= HostsIn(hosts, two)
    requires one == dc ==> forall i :: 0 <= i < |r| ==> r[i].rack != a.rack
    requires forall i, j :: 0 <= i < j < |r| ==> r[i].rack != r[j].rack
    requires forall i, j :: 0 <= i < j < |q| ==> q[i].rack != q[j].rack
    ensures NoRepeats(p) && Elements(p) == Elements(hosts) && [a, b] + r + q <= p
  {
    OneRackEachDiffer(r);
    OneRackEachDiffer(q);
    assert Elements([a, b]) == {a, b};
    assert a !in Elements(r) && b !in Elements(r);
    JoinNoRepeats([a, b], r);
    ElementsJoin([a, b], r);
    assert Elements([a, b] + r) !! Elements(q);
    JoinNoRepeats([a, b] + r, q);
    ElementsJoin([a, b] + r, q);
    var first := [a, b] + r + q;
    assert Elements(first) <= Elements(hosts);
    var others := Enumerate(Elements(hosts) - Elements(first));
    p := first + others;
    JoinNoRepeats(first, others);
    ElementsJoin(first, others);
  }

  /** `r` stands at position `k`, and holds a host of each rack of `dc` that is left. */
  lemma {:induction false} SegmentCompletes(c: Config, hosts: seq<Host>, p: seq<Host>, k: nat, r: seq<Host>, dc: string)
    requires k + |r| <= |p| && p[k..k + |r|] == r && Overfull(c, dc, 1)
    requires forall i :: 0 <= i < |hosts| ==> hosts[i].rack.Some?
    requires Elements(r) <= HostsIn(hosts, dc) && forall i :: 0 <= i < |r| ==> r[i] !in p[..k]
    requires forall i, j :: 0 <= i < j < |r| ==> r[i].rack != r[j].rack
    requires var s := Walk(c, p, k);
      && s.Count(dc) == |s.Placed(dc)| && |s.Placed(dc)| + |r| == c.Racks(dc)
      && forall i :: 0 <= i < |r| ==> r[i].rack !in s.Placed(dc)
    ensures Completes(c, p, k, k + |r|, dc)
  {
    hide Walk;
    forall i | k <= i < k + |r|
      ensures p[i] == r[i - k] && p[i].datacenter == dc && p[i].rack.Some?
    {
      assert p[i] == r[i - k] && r[i - k] in Elements(r);
    }
  }

  /** `a`, then both tokens of `b`, then hosts that complete `one`, which takes two skipped hosts. */
  lemma {:induction false} TakenTwice(c: Config, hosts: seq<Host>, dc: string, one: string) returns (p: seq<Host>)
    requires Describes(c, hosts) && CanSkip(c, dc, 2) && Overfull(c, one, 2)
    ensures Elements(p) == Elements(hosts) && !NoRepeats(Replicas(c, p))
  {
    hide Describes, NoRepeats, Elements, HostsIn, RacksOf, Walk, Replicas;
    var a, b := TwoOnOneRack(c, hosts, dc);
    var r := RacksLeft(c, hosts, dc, a, one);
    p := [a, b, b] + r + hosts;
    SameHosts(hosts, dc, one, a, b, r);
    InDatacenter(hosts, dc, a);
    InDatacenter(hosts, dc, b);
    SkipsAgain(c, p, dc, a, b);
    BothTokensTaken(c, hosts, dc, one, a, b, r, p);
    StillRepeats(c, p, 3 + |r|);
  }

  lemma InDatacenter(hosts: seq<Host>, dc: string, h: Host)
    requires h in HostsIn(hosts, dc)
    ensures h.datacenter == dc
  {
  }

  lemma SameHosts(hosts: seq<Host>, dc: string, one: string, a: Host, b: Host, r: seq<Host>)
    requires a in HostsIn(hosts, dc) && b in HostsIn(hosts, dc) && Elements(r) <= HostsIn(hosts, one)
    ensures Elements([a, b, b] + r + hosts) == Elements(hosts)
  {
    ElementsJoin([a, b, b] + r, hosts);
    ElementsJoin([a, b, b], r);
    assert Elements([a, b, b]) == {a, b};
  }

  lemma {:induction false} BothTokensTaken(c: Config, hosts: seq<Host>, dc: string, one: string, a: Host, b: Host,
                                           r: seq<Host>, p: seq<Host>)
    requires Describes(c, hosts) && CanSkip(c, dc, 2) && Overfull(c, one, 2) && p == [a, b, b] + r + hosts
    requires a in HostsIn(hosts, dc) && b in HostsIn(hosts, dc) && a.rack == b.rack && Elements(r) <= HostsIn(hosts, one)
    requires Walk(c, p, 3) == SkippedState(dc, a, [b, b])
    requires var placed := if one == dc then {a.rack} else {};
      && r != [] && |placed| + |r| == c.Racks(one) && (forall i :: 0 <= i < |r| ==> r[i].rack !in placed)
      && (forall i, j :: 0 <= i < j < |r| ==> r[i].rack != r[j].rack)
    ensures !NoRepeats(Walk(c, p, 3 + |r|).replicas)
    ensures var t := Walk(c, p, 3 + |r|);
      && t.replicas == [a] + r + [b, b] && t.skipped == [b, b]
      && t.Count(one) == c.Racks(one) + 2 && |t.Placed(one)| == c.Racks(one)
  {
    hide Describes, NoRepeats, Elements, HostsIn, RacksOf, Walk, Completes;
    var m := 3 + |r|;
    DropPrefix([a, b, b], r + hosts);
    Assoc([a, b, b], r, hosts);
    assert p[..3] == [a, b, b];
    assert p[3..m] == r;
    NotBefore(hosts, dc, one, a, b, r);
    HaveRacks(c, hosts);
    SegmentCompletes(c, hosts, p, 3, r, one);
    Completed(c, p, 3, m, one);
    assert [b, b][..2] == [b, b];
    assert Walk(c, p, m).replicas == [a] + r + [b, b];
    assert [a] + r + [b, b] == ([a] + r) + [b] + [] + [b];
    TwiceRepeats([a] + r, [], b);
  }

  lemma HaveRacks(c: Config, hosts: seq<Host>)
    requires Describes(c, hosts)
    ensures forall i :: 0 <= i < |hosts| ==> hosts[i].rack.Some?
  {
  }

  lemma {:induction false} NotBefore(hosts: seq<Host>, dc: string, one: string, a: Host, b: Host, r: seq<Host>)
    requires a in HostsIn(hosts, dc) && b in HostsIn(hosts, dc) && a.rack == b.rack && Elements(r) <= HostsIn(hosts, one)
    requires one == dc ==> forall i :: 0 <= i < |r| ==> r[i].rack != a.rack
    ensures forall i :: 0 <= i < |r| ==> r[i] !in [a, b, b]
  {
    forall i | 0 <= i < |r|
      ensures r[i] != a && r[i] != b
    {
      assert r[i] in Elements(r);
    }
  }

  /** Replicas are never taken away. */
  lemma {:induction false} StillRepeats(c: Config, hosts: seq<Host>, m: nat)
    requires m <= |hosts| && !NoRepeats(Walk(c, hosts, m).replicas)
    ensures !NoRepeats(Replicas(c, hosts))
  {
    hide Walk;
    ReplicasGrow(c, hosts, m, |hosts|);
  }

  // ----- Exactly when -----

  lemma {:induction false} AtMostOneOverfull(c: Config) returns (d: string)
    requires !(exists one, two :: one != two && Overfull(c, one, 1) && Overfull(c, two, 1))
    ensures OnlyOverfull(c, d)
  {
    d := "";
    if one :| Overfull(c, one, 1) {
      d := one;
    }
  }

  /**
   Hosts with one token each: some arrangement around the ring makes a host a replica twice exactly when two
   datacenters want more replicas than they have racks and some datacenter can skip a host.
   */
  lemma {:induction false} RepeatsWithOneToken(c: Config, hosts: seq<Host>)
    requires Describes(c, hosts)
    ensures TakesTwice(c) <==> exists p :: NoRepeats(p) && Elements(p) == Elements(hosts) && !NoRepeats(Replicas(c, p))
  {
    hide NoRepeats, Describes, Walk, Elements;
    if TakesTwice(c) {
      var one, two :| one != two && Overfull(c, one, 1) && Overfull(c, two, 1);
      var dc :| CanSkip(c, dc, 1);
      var p := TakenByBoth(c, hosts, dc, if two == dc then two else one, if two == dc then one else two);
    } else {
      forall p | NoRepeats(p) && Elements(p) == Elements(hosts)
        ensures NoRepeats(Replicas(c, p))
      {
        DescribesArrangement(c, hosts, p);
        if exists dc :: CanSkip(c, dc, 1) {
          var d := AtMostOneOverfull(c);
          TidyWalk(c, p, |p|, d);
        } else {
          NothingSkipped(c, p, |p|);
        }
      }
    }
  }

  /**
   Hosts with any numbers of tokens: a repeat is also possible exactly when one datacenter wants two replicas more
   than it has racks and some datacenter can skip twice, since a host can be skipped with each of its tokens.
   */
  lemma {:induction false} RepeatsWithTokens(c: Config, hosts: seq<Host>)
    requires Describes(c, hosts)
    ensures TakesTwice(c) || SkipsTwice(c) <==> exists p :: Elements(p) == Elements(hosts) && !NoRepeats(Replicas(c, p))
  {
    hide NoRepeats, Describes, Walk, Elements;
    if TakesTwice(c) {
      RepeatsWithOneToken(c, hosts);
    } else if SkipsTwice(c) {
      var one :| Overfull(c, one, 2);
      var dc :| CanSkip(c, dc, 2);
      var p := TakenTwice(c, hosts, dc, one);
    } else {
      forall p | Elements(p) == Elements(hosts)
        ensures NoRepeats(Replicas(c, p))
      {
        DescribesArrangement(c, hosts, p);
        if exists dc :: CanSkip(c, dc, 1) {
          var d := AtMostOneOverfull(c);
          TidyWalk(c, p, |p|, d);
        } else {
          NothingSkipped(c, p, |p|);
        }
      }
    }
  }
}
