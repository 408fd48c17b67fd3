/** The plan of the token-aware policy, one host at a time (`TokenAwareIterator` in lib/policies/load-balancing.js). */
module TokenAware {
  import opened HostLists
  import opened Seqs
  import opened Wrappers

  function NotAt(addresses: set<string>): Host -> bool {
    (h: Host) => h.address !in addresses
  }

  function Addresses(s: seq<Host>): set<string> {
    set h | h in s :: h.address
  }

  /** Local replicas from a random one on, then what the child policy yields besides them. */
  function Plan(local: seq<Host>, start: nat, child: seq<Host>): seq<Host> {
    (if local == [] then [] else Rotation(local, start)) + Keep(child, NotAt(Addresses(local)))
  }

  class TokenAwareIterator {
    var localReplicas: seq<Host>
    var replicaIndex: nat
    var replicaMap: set<string>
    var startIndex: nat
    var childHosts: seq<Host>
    var childIndex: nat

    ghost predicate Valid()
      reads this
    {
      replicaIndex <= |localReplicas| && childIndex <= |childHosts| && replicaMap == Addresses(localReplicas)
    }

    /** The hosts that are still to come. */
    ghost function Remaining(): seq<Host>
      requires Valid()
      reads this
    {
      (if localReplicas == [] then [] else Rotation(localReplicas, startIndex)[replicaIndex..])
      + Keep(childHosts[childIndex..], NotAt(replicaMap))
    }

    constructor (replicas: seq<Host>, isLocal: Host -> bool, childHosts: seq<Host>)
      ensures Valid()
      ensures localReplicas == Keep(replicas, isLocal) && Remaining() == Plan(localReplicas, startIndex, childHosts)
    {
      localReplicas, replicaMap := [], {};
      replicaIndex, childIndex, startIndex := 0, 0, 0;
      this.childHosts := childHosts;
      new;
      hide Rotation, Keep, Addresses;
      assert replicas[..0] == [];
      NothingLocal(isLocal);
      for i := 0 to |replicas|
        invariant localReplicas == Keep(replicas[..i], isLocal) && replicaMap == Addresses(localReplicas)
        invariant replicaIndex == childIndex == startIndex == 0 && this.childHosts == childHosts
      {
        var host := replicas[i];
        KeepOne(replicas[..i], host, isLocal);
        assert replicas[..i + 1] == replicas[..i] + [host];
        if !isLocal(host) {
          continue;
        }
        AddressAdded(localReplicas, host);
        replicaMap := replicaMap + {host.address};
        localReplicas := localReplicas + [host];
      }
      assert replicas[..|replicas|] == replicas;
      if localReplicas != [] {
        var random: nat :| random < |localReplicas|;
        startIndex := random;
        assert Rotation(localReplicas, startIndex)[0..] == Rotation(localReplicas, startIndex);
      }
      assert childHosts[0..] == childHosts;
    }

    /** Each call takes the first of the remaining hosts. */
    method ComputeNext() returns (item: Option<Host>)
      requires Valid()
      modifies this`replicaIndex, this`childIndex
      ensures Valid()
      ensures old(Remaining()) == (if item.Some? then [item.value] else []) + Remaining()
      ensures item.None? ==> Remaining() == []
    {
      hide Rotation, Keep;
      if replicaIndex < |localReplicas| {
        RotationAt(localReplicas, startIndex, replicaIndex);
        var host := localReplicas[(startIndex + replicaIndex) % |localReplicas|];
        HeadTail(Rotation(localReplicas, startIndex), replicaIndex, Keep(childHosts[childIndex..], NotAt(replicaMap)));
        replicaIndex := replicaIndex + 1;
        return Some(host);
      }
      ReplicasDone();
      while childIndex < |childHosts|
        invariant Valid() && replicaIndex == |localReplicas|
        invariant old(Remaining()) == Keep(childHosts[childIndex..], NotAt(replicaMap))
      {
        var host := childHosts[childIndex];
        KeepFirst(childHosts, childIndex, NotAt(replicaMap));
        childIndex := childIndex + 1;
        if host.address in replicaMap {
          // already yielded as a local replica
          continue;
        }
        ReplicasDone();
        return Some(host);
      }
      ReplicasDone();
      KeepNone(childHosts, NotAt(replicaMap));
      item := None;
    }

    lemma ReplicasDone()
      requires Valid() && replicaIndex == |localReplicas|
      ensures Remaining() == Keep(childHosts[childIndex..], NotAt(replicaMap))
    {
      if localReplicas != [] {
        RotationAt(localReplicas, startIndex, 0);
      }
    }
  }

  lemma NothingLocal(p: Host -> bool)
    ensures Keep([], p) == [] && Addresses([]) == {}
  {
  }

  lemma AddressAdded(s: seq<Host>, h: Host)
    ensures Addresses(s + [h]) == Addresses(s) + {h.address}
  {
  }

  lemma HeadTail(s: seq<Host>, i: nat, rest: seq<Host>)
    requires i < |s|
    ensures s[i..] + rest == [s[i]] + (s[i + 1..] + rest)
  {
  }

  lemma KeepFirst(s: seq<Host>, i: nat, p: Host -> bool)
    requires i < |s|
    ensures Keep(s[i..], p) == (if p(s[i]) then [s[i]] else []) + Keep(s[i + 1..], p)
  {
    assert s[i..][1..] == s[i + 1..];
  }

  lemma KeepNone(s: seq<Host>, p: Host -> bool)
    ensures Keep(s[|s|..], p) == []
  {
  }

  /** Distinct replicas, and a child plan without repetitions, give a plan without repetitions that misses no host of either. */
  lemma {:induction false} PlanIsDistinct(local: seq<Host>, start: nat, child: seq<Host>)
    requires Distinct(local) && Distinct(child)
    ensures var plan := Plan(local, start, child);
      && Distinct(plan)
      && forall h: Host :: h in plan <==> h in local || (h in child && h.address !in Addresses(local))
  {
    var plan := Plan(local, start, child);
    if local != [] {
      RotationSame(local, start);
    }
    var first := if local == [] then [] else Rotation(local, start);
    assert multiset(first) == multiset(local);
    forall h: Host
      ensures multiset(plan)[h] == if h in local || (h in child && h.address !in Addresses(local)) then 1 else 0
    {
      DistinctCounts(local, h);
      DistinctCounts(child, h);
      KeepCount(child, NotAt(Addresses(local)), h);
    }
    CountsDistinct(plan);
    forall h: Host
      ensures h in plan <==> multiset(plan)[h] > 0
    {
    }
  }

  /** The local replicas come first, around their list from the random one on, and then hosts in the child's order. */
  lemma {:induction false} PlanInOrder(local: seq<Host>, start: nat, child: seq<Host>)
    ensures var plan := Plan(local, start, child);
      && |plan| >= |local|
      && (forall i :: 0 <= i < |local| ==> plan[i] == local[(i + start) % |local|])
      && forall i, j :: |local| <= i < j < |plan| ==> Before(child, plan[i], plan[j])
  {
    hide Keep, Rotation, Addresses;
    var plan, rest := Plan(local, start, child), Keep(child, NotAt(Addresses(local)));
    if local != [] {
      RotationAt(local, start, 0);
    }
    forall i | 0 <= i < |local|
      ensures plan[i] == local[(i + start) % |local|]
    {
      RotationAt(local, start, i);
    }
    forall i, j | |local| <= i < j < |plan|
      ensures Before(child, plan[i], plan[j])
    {
      KeptBefore(child, NotAt(Addresses(local)), i - |local|, j - |local|);
      assert plan[i] == rest[i - |local|] && plan[j] == rest[j - |local|];
    }
  }

  lemma KeptBefore(s: seq<Host>, p: Host -> bool, i: nat, j: nat)
    requires i < j < |Keep(s, p)|
    ensures Before(s, Keep(s, p)[i], Keep(s, p)[j])
  {
    hide Keep;
    var a, b := KeepInOrder(s, p, i, j);
  }

  /** One host stands before the other in a list. */
  ghost predicate Before(s: seq<Host>, g: Host, h: Host) {
    exists a, b :: 0 <= a < b < |s| && s[a] == g && s[b] == h
  }
}
