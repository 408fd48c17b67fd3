/** Query plans of the default load-balancing policy (lib/policies/load-balancing.js, `shuffleArray` in lib/utils.js). */
module QueryPlan {
  import opened HostLists
  import opened Seqs
  import opened Wrappers

  const MAX_INDEX := 0x7FFF_FFFF
  const MIN_SAFE_INTEGER := -0x1F_FFFF_FFFF_FFFF

  // ----- Arrays of replicas, in place -----

  method Swap(a: array<Host>, i: nat, j: nat)
    requires i < a.Length && j < a.Length
    modifies a
    ensures a[i] == old(a[j]) && a[j] == old(a[i])
    ensures forall k :: 0 <= k < a.Length && k != i && k != j ==> a[k] == old(a[k])
    ensures multiset(a[..]) == multiset(old(a[..]))
  {
    var temp := a[i];
    a[i] := a[j];
    a[j] := temp;
  }

  /** The random number drawn for each index i: from 0 up to i. */
  ghost predicate Draws(draws: nat -> nat) {
    forall i: nat :: draws(i) <= i
  }

  function Swapped(s: seq<Host>, i: nat, j: nat): (r: seq<Host>)
    requires i < |s| && j < |s|
    ensures |r| == |s|
  {
    s[i := s[j]][j := s[i]]
  }

  /** The swaps at the indexes below n, from the last one down. */
  function Shuffled(s: seq<Host>, n: nat, draws: nat -> nat): (r: seq<Host>)
    requires n <= |s| && forall i: nat :: draws(i) <= i
    ensures |r| == |s|
    decreases n
  {
    if n <= 1 then s else Shuffled(Swapped(s, n - 1, draws(n - 1)), n - 1, draws)
  }

  /** Fisher-Yates. */
  method ShuffleArray(arr: array<Host>, draws: nat -> nat)
    requires Draws(draws)
    modifies arr
    ensures arr[..] == Shuffled(old(arr[..]), arr.Length, draws)
  {
    var i := arr.Length - 1;
    while i > 0
      invariant -1 <= i < arr.Length
      invariant Shuffled(arr[..], i + 1, draws) == Shuffled(old(arr[..]), arr.Length, draws)
    {
      var j := draws(i);
      ghost var before := arr[..];
      Swap(arr, i, j);
      assert arr[..] == Swapped(before, i, j);
      i := i - 1;
    }
  }

  lemma SwappedKeeps(s: seq<Host>, i: nat, j: nat)
    requires i < |s| && j < |s|
    ensures multiset(Swapped(s, i, j)) == multiset(s)
  {
  }

  /** Whatever the random numbers are, nothing is lost. */
  lemma {:induction false} ShuffleKeeps(s: seq<Host>, n: nat, draws: nat -> nat)
    requires n <= |s| && Draws(draws)
    ensures multiset(Shuffled(s, n, draws)) == multiset(s)
    decreases n
  {
    if n > 1 {
      SwappedKeeps(s, n - 1, draws(n - 1));
      ShuffleKeeps(Swapped(s, n - 1, draws(n - 1)), n - 1, draws);
    }
  }

  function With(draws: nat -> nat, at: nat, j: nat): nat -> nat {
    (i: nat) => if i == at then j else draws(i)
  }

  /** Draws from n on do not matter for the indexes below n. */
  lemma {:induction false} DrawsBelow(s: seq<Host>, n: nat, draws: nat -> nat, at: nat, j: nat)
    requires n <= |s| && n <= at && j <= at && Draws(draws)
    ensures Draws(With(draws, at, j)) && Shuffled(s, n, With(draws, at, j)) == Shuffled(s, n, draws)
    decreases n
  {
    if n > 1 {
      DrawsBelow(Swapped(s, n - 1, draws(n - 1)), n - 1, draws, at, j);
    }
  }

  /** Two lists with the same elements up to n that agree from there on. */
  ghost predicate AlikeUpTo(s: seq<Host>, t: seq<Host>, n: nat) {
    n <= |s| == |t| && multiset(s[..n]) == multiset(t[..n]) && forall k :: n <= k < |s| ==> s[k] == t[k]
  }

  lemma OneMoreAlike(s: seq<Host>, t: seq<Host>, n: nat, j: nat)
    requires AlikeUpTo(s, t, n) && j < n && s[j] == t[n - 1]
    ensures AlikeUpTo(Swapped(s, n - 1, j), t, n - 1)
  {
    var u := Swapped(s, n - 1, j);
    PrefixSwapped(s, n, j);
    WithoutLast(u, n);
    WithoutLast(t, n);
    TakeAway(multiset(u[..n - 1]), multiset(t[..n - 1]), t[n - 1]);
    assert forall k :: n <= k < |s| ==> u[k] == s[k];
  }

  lemma TakeAway(a: multiset<Host>, b: multiset<Host>, h: Host)
    requires a + multiset{h} == b + multiset{h}
    ensures a == b
  {
    assert a == a + multiset{h} - multiset{h} && b == b + multiset{h} - multiset{h};
  }

  lemma NothingLeft(s: seq<Host>, t: seq<Host>)
    requires AlikeUpTo(s, t, 0)
    ensures s == t
  {
    assert forall k :: 0 <= k < |s| ==> s[k] == t[k];
  }

  lemma DrawStep(s: seq<Host>, n: nat, j: nat, draws: nat -> nat)
    requires 0 < n <= |s| && j < n && Draws(draws)
    ensures var w := With(draws, n - 1, j);
      Draws(w) && Shuffled(s, n, w) == if n == 1 then s else Shuffled(Swapped(s, n - 1, j), n - 1, draws)
  {
    DrawsBelow(Swapped(s, n - 1, j), n - 1, draws, n - 1, j);
  }

  /** No order is out of reach: some random numbers lead to every arrangement of the elements. */
  lemma {:induction false} ShuffleReachesAll(s: seq<Host>, t: seq<Host>, n: nat) returns (draws: nat -> nat)
    requires AlikeUpTo(s, t, n)
    ensures Draws(draws) && Shuffled(s, n, draws) == t
    decreases n
  {
    draws := (i: nat) => 0;
    if n == 0 {
      NothingLeft(s, t);
    } else {
      var j := PlaceOf(s, t, n);
      OneMoreAlike(s, t, n, j);
      hide AlikeUpTo, With;
      var rest := ShuffleReachesAll(Swapped(s, n - 1, j), t, n - 1);
      DrawStep(s, n, j, rest);
      draws := With(rest, n - 1, j);
    }
  }

  /** The swaps below n leave the elements from n on where they are. */
  lemma {:induction false} ShuffleLeaves(s: seq<Host>, n: nat, draws: nat -> nat)
    requires n <= |s| && Draws(draws)
    ensures forall k :: n <= k < |s| ==> Shuffled(s, n, draws)[k] == s[k]
    decreases n
  {
    if n > 1 {
      ShuffleLeaves(Swapped(s, n - 1, draws(n - 1)), n - 1, draws);
    }
  }

  /** Different random numbers lead to different arrangements, and so all arrangements are equally likely. */
  lemma {:induction false} ShuffleIsFair(s: seq<Host>, n: nat, draws: nat -> nat, others: nat -> nat)
    requires n <= |s| && Distinct(s) && Draws(draws) && Draws(others)
    requires Shuffled(s, n, draws) == Shuffled(s, n, others)
    ensures forall i: nat :: 1 <= i < n ==> draws(i) == others(i)
    decreases n
  {
    if n > 1 {
      var i, j := draws(n - 1), others(n - 1);
      ShuffleLeaves(Swapped(s, n - 1, i), n - 1, draws);
      ShuffleLeaves(Swapped(s, n - 1, j), n - 1, others);
      assert Shuffled(s, n, draws)[n - 1] == s[i] && Shuffled(s, n, others)[n - 1] == s[j];
      ShuffleIsFair(Swapped(s, n - 1, i), n - 1, draws, others);
    }
  }

  lemma PlaceOf(s: seq<Host>, t: seq<Host>, n: nat) returns (j: nat)
    requires 0 < n <= |s| == |t| && multiset(s[..n]) == multiset(t[..n])
    ensures j < n && s[j] == t[n - 1]
  {
    assert t[n - 1] in t[..n];
    assert t[n - 1] in multiset(s[..n]);
    j :| j < n && s[..n][j] == t[n - 1];
  }

  lemma PrefixSwapped(s: seq<Host>, n: nat, j: nat)
    requires 0 < n <= |s| && j < n
    ensures multiset(Swapped(s, n - 1, j)[..n]) == multiset(s[..n])
  {
    assert Swapped(s, n - 1, j)[..n] == Swapped(s[..n], n - 1, j);
    SwappedKeeps(s[..n], n - 1, j);
  }

  lemma WithoutLast(s: seq<Host>, n: nat)
    requires 0 < n <= |s|
    ensures multiset(s[..n]) == multiset(s[..n - 1]) + multiset{s[n - 1]}
  {
    assert s[..n] == s[..n - 1] + [s[n - 1]];
  }

  function Unhealthy(s: seq<Host>, n: nat): nat
    requires n <= |s|
  {
    if n == 0 then 0 else Unhealthy(s, n - 1) + (if s[n - 1].healthy then 0 else 1)
  }

  lemma {:induction false} UnhealthySame(s: seq<Host>, t: seq<Host>, n: nat)
    requires n <= |s| && n <= |t| && forall k :: 0 <= k < n ==> s[k] == t[k]
    ensures Unhealthy(s, n) == Unhealthy(t, n)
    decreases n
  {
    if n > 0 {
      UnhealthySame(s, t, n - 1);
    }
  }

  lemma {:induction false} NoneUnhealthy(s: seq<Host>, n: nat)
    requires n <= |s| && Unhealthy(s, n) == 0
    ensures forall k :: 0 <= k < n ==> s[k].healthy
    decreases n
  {
    if n > 0 {
      NoneUnhealthy(s, n - 1);
    }
  }

  function IsUnhealthy(): Host -> bool {
    (h: Host) => !h.healthy
  }

  lemma {:induction false} UnhealthyKept(s: seq<Host>, n: nat)
    requires n <= |s|
    ensures Unhealthy(s, n) == |Keep(s[..n], IsUnhealthy())|
    decreases n
  {
    if n > 0 {
      UnhealthyKept(s, n - 1);
      KeepOne(s[..n - 1], s[n - 1], IsUnhealthy());
      assert s[..n] == s[..n - 1] + [s[n - 1]];
    }
  }

  lemma {:induction false} UnhealthyOfMultiset(s: seq<Host>, t: seq<Host>)
    requires multiset(s) == multiset(t)
    ensures Unhealthy(s, |s|) == Unhealthy(t, |t|)
  {
    var a, b := Keep(s, IsUnhealthy()), Keep(t, IsUnhealthy());
    forall h: Host
      ensures multiset(a)[h] == multiset(b)[h]
    {
      KeepCount(s, IsUnhealthy(), h);
      KeepCount(t, IsUnhealthy(), h);
    }
    SameLength(a, b);
    UnhealthyKept(s, |s|);
    UnhealthyKept(t, |t|);
    assert s[..|s|] == s && t[..|t|] == t;
  }

  /** All healthy hosts before all unhealthy ones. */
  predicate Parted(s: seq<Host>, healthy: nat) {
    healthy <= |s| && forall k :: 0 <= k < |s| ==> (s[k].healthy <==> k < healthy)
  }

  method SendUnhealthyToTheBack(replicas: array<Host>, unhealthyReplicas: nat)
    requires unhealthyReplicas == Unhealthy(replicas[..], replicas.Length)
    modifies replicas
    ensures multiset(replicas[..]) == multiset(old(replicas[..]))
    ensures unhealthyReplicas <= replicas.Length && Parted(replicas[..], replicas.Length - unhealthyReplicas)
  {
    var counter := 0;
    var i := replicas.Length - 1;
    while i >= 0 && counter < unhealthyReplicas
      invariant -1 <= i && 0 <= counter <= unhealthyReplicas && i + counter < replicas.Length
      invariant forall k :: replicas.Length - counter <= k < replicas.Length ==> !replicas[k].healthy
      invariant forall k :: i < k < replicas.Length - counter ==> replicas[k].healthy
      invariant Unhealthy(replicas[..], i + 1) == unhealthyReplicas - counter
      invariant multiset(replicas[..]) == multiset(old(replicas[..]))
      decreases i
    {
      if replicas[i].healthy {
        i := i - 1;
        continue;
      }
      var targetIndex := replicas.Length - 1 - counter;
      ghost var before := replicas[..];
      if targetIndex != i {
        Swap(replicas, targetIndex, i);
      }
      UnhealthySame(before, replicas[..], i);
      counter := counter + 1;
      i := i - 1;
    }
    if counter == unhealthyReplicas {
      NoneUnhealthy(replicas[..], i + 1);
    }
  }

  // ----- The policy -----

  /** The accepted hosts of a data center. */
  function Local(dc: string): Host -> bool {
    (h: Host) => h.accepted && h.datacenter == dc
  }

  function LocalAndUp(dc: string): Host -> bool {
    (h: Host) => h.accepted && h.datacenter == dc && h.isUp
  }

  /** Up, and not among the replicas that precede. */
  function CanBeYield(replicas: seq<Host>): Host -> bool {
    (h: Host) => h !in replicas && h.isUp
  }

  function Other(p: Host): Host -> bool {
    (h: Host) => h != p
  }

  predicate NewlyUp(h: Host) {
    h.newlyUp.Some? && h.newlyUp.value > MIN_SAFE_INTEGER
  }

  ghost predicate SomeNewlyUp(s: seq<Host>) {
    exists h <- s :: NewlyUp(h)
  }

  /** Newly up, no host has been up for a shorter time, and none before it as short. */
  ghost predicate IsNewest(h: Host, hosts: seq<Host>) {
    NewlyUp(h) && exists i :: IsNewestAt(h, hosts, i)
  }

  ghost predicate IsNewestAt(h: Host, hosts: seq<Host>, i: nat)
    requires NewlyUp(h)
  {
    && i < |hosts| && hosts[i] == h
    && (forall j :: 0 <= j < i && hosts[j].newlyUp.Some? ==> hosts[j].newlyUp.value < h.newlyUp.value)
    && (forall j :: i < j < |hosts| && hosts[j].newlyUp.Some? ==> hosts[j].newlyUp.value <= h.newlyUp.value)
  }

  /** A host newer than the newest, or newly up where none was, is the newest; any other one changes nothing. */
  lemma NewestOf(hosts: seq<Host>, newest: Option<Host>, h: Host)
    requires newest.None? <==> !SomeNewlyUp(hosts)
    requires newest.Some? ==> IsNewest(newest.value, hosts)
    ensures h.newlyUp.Some? && h.newlyUp.value > (if newest.Some? then newest.value.newlyUp.value else MIN_SAFE_INTEGER) ==>
      IsNewest(h, hosts + [h])
    ensures newest.Some? && !(h.newlyUp.Some? && h.newlyUp.value > newest.value.newlyUp.value) ==>
      IsNewest(newest.value, hosts + [h])
  {
    var all := hosts + [h];
    if newest.Some? {
      var i :| IsNewestAt(newest.value, hosts, i);
      if h.newlyUp.Some? && h.newlyUp.value > newest.value.newlyUp.value {
        assert IsNewestAt(h, all, |hosts|);
      } else {
        assert IsNewestAt(newest.value, all, i);
      }
    } else if h.newlyUp.Some? && h.newlyUp.value > MIN_SAFE_INTEGER {
      forall j | 0 <= j < |hosts|
        ensures !NewlyUp(hosts[j])
      {
        assert hosts[j] in hosts;
      }
      assert IsNewestAt(h, all, |hosts|);
    }
  }

  /** The local hosts that are up and not among the replicas, from the current index on. */
  function LocalHosts(hosts: seq<Host>, dc: string, start: nat, replicas: seq<Host>): seq<Host> {
    var local := Keep(hosts, Local(dc));
    if local == [] then [] else Keep(Rotation(local, start), CanBeYield(replicas))
  }

  /** What the plan for a token is: its replicas in their order, and then the other local hosts. */
  ghost predicate TokenPlan(plan: seq<Host>, hosts: seq<Host>, dc: string, start: nat, replicas: seq<Host>,
                            draws: nat -> nat, dice: bool)
    requires Draws(draws)
  {
    var local := Keep(replicas, LocalAndUp(dc));
    && |local| <= |plan| && Ordered(plan[..|local|], local, draws, dice)
    && plan[|local|..] == LocalHosts(hosts, dc, start, plan[..|local|])
  }

  /** The less busy of the first two goes first. */
  function LessBusyFirst(s: seq<Host>): (r: seq<Host>)
    requires |s| >= 2
    ensures |r| == |s|
  {
    if s[1].inFlight < s[0].inFlight then Swapped(s, 0, 1) else s
  }

  /**
   Three replicas or more are rearranged after the draws: the unhealthy ones go to the back when they are no
   majority, or else the newest of the newly UP ones does if it is one of the first two and the dice says so.
   */
  ghost predicate Rearranged(r: seq<Host>, drawn: seq<Host>, local: seq<Host>, dice: bool)
    requires |drawn| == |local| >= 3
  {
    var n, u := |local|, Unhealthy(local, |local|);
    if !SomeNewlyUp(local) then
      if 0 < u < n / 2 + 1 then multiset(r) == multiset(drawn) && u <= |r| && Parted(r, |r| - u) else r == drawn
    else exists h <- local :: IsNewest(h, local) && r == NewestBack(drawn, h, dice)
  }

  function NewestBack(drawn: seq<Host>, newest: Host, dice: bool): (r: seq<Host>)
    requires |drawn| >= 3
    ensures |r| == |drawn|
  {
    if dice && newest == drawn[0] then Swapped(drawn, |drawn| - 1, 0)
    else if dice && newest == drawn[1] then Swapped(drawn, |drawn| - 1, 1)
    else drawn
  }

  /** The order of the replicas: as drawn, and rearranged if they are three or more. */
  ghost predicate Ordered(ordered: seq<Host>, local: seq<Host>, draws: nat -> nat, dice: bool)
    requires Draws(draws)
  {
    var drawn := Shuffled(local, |local|, draws);
    if |local| < 3 then ordered == drawn
    else exists r: seq<Host> :: |r| == |local| && Rearranged(r, drawn, local, dice) && ordered == LessBusyFirst(r)
  }

  class DefaultLoadBalancingPolicy {
    const localDc: string
    var hosts: seq<Host>
    var filteredHosts: Option<seq<Host>>
    var index: nat
    var preferredHost: Option<Host>

    ghost predicate Valid()
      reads this
    {
      index < MAX_INDEX && (filteredHosts.Some? ==> filteredHosts.value == Keep(hosts, Local(localDc)))
    }

    constructor (localDc: string, hosts: seq<Host>)
      ensures Valid() && this.localDc == localDc && this.hosts == hosts && index == 0
    {
      this.localDc, this.hosts, filteredHosts, index, preferredHost := localDc, hosts, None, 0, None;
    }

    /** Hosts added or removed. */
    method OnHostsChanged(hosts: seq<Host>)
      requires Valid()
      modifies this
      ensures Valid() && this.hosts == hosts && index == old(index)
    {
      this.hosts := hosts;
      filteredHosts := None;
    }

    method GetFilteredLocalHosts() returns (r: seq<Host>)
      requires Valid()
      modifies this`filteredHosts
      ensures Valid() && r == Keep(hosts, Local(localDc))
    {
      if filteredHosts.None? {
        filteredHosts := Some(Keep(hosts, Local(localDc)));
      }
      r := filteredHosts.value;
    }

    method GetIndex() returns (result: nat)
      requires Valid()
      modifies this`index
      ensures Valid() && result == old(index) && index == (if result + 1 == MAX_INDEX then 0 else result + 1)
    {
      result := index;
      index := index + 1;
      if index == MAX_INDEX {
        index := 0;
      }
    }

    method GetLocalHosts(localReplicas: seq<Host>) returns (plan: seq<Host>)
      requires Valid()
      modifies this`filteredHosts, this`index
      ensures Valid() && plan == LocalHosts(hosts, localDc, old(index), localReplicas)
      ensures index == (if old(index) + 1 == MAX_INDEX then 0 else old(index) + 1)
    {
      var local := GetFilteredLocalHosts();
      var initialIndex := GetIndex();
      plan := YieldFrom(local, initialIndex, localReplicas);
    }

    static method YieldFrom(local: seq<Host>, initialIndex: nat, localReplicas: seq<Host>) returns (plan: seq<Host>)
      ensures plan == if local == [] then [] else Keep(Rotation(local, initialIndex), CanBeYield(localReplicas))
    {
      hide Keep, Rotation;
      plan := [];
      if local == [] {
        return;
      }
      ghost var rotation := Rotation(local, initialIndex);
      RotationAt(local, initialIndex, 0);
      assert rotation[..0] == [];
      KeepNothing(CanBeYield(localReplicas));
      for i := 0 to |local|
        invariant plan == Keep(rotation[..i], CanBeYield(localReplicas))
      {
        RotationAt(local, initialIndex, i);
        var h := local[(i + initialIndex) % |local|];
        KeepOne(rotation[..i], h, CanBeYield(localReplicas));
        assert rotation[..i + 1] == rotation[..i] + [h];
        if h !in localReplicas && h.isUp {
          plan := plan + [h];
        }
      }
      assert rotation[..|local|] == rotation;
    }

    /** Filter by data center, predicate and UP replicas, with the checks made in the same iteration. */
    method FilterReplicas(replicas: seq<Host>) returns (filtered: seq<Host>, newlyUpReplica: Option<Host>, unhealthy: nat)
      ensures filtered == Keep(replicas, LocalAndUp(localDc))
      ensures newlyUpReplica.None? ==> unhealthy == Unhealthy(filtered, |filtered|)
      ensures newlyUpReplica.None? <==> !SomeNewlyUp(filtered)
      ensures newlyUpReplica.Some? ==> newlyUpReplica.value in filtered && IsNewest(newlyUpReplica.value, filtered)
    {
      assert replicas[..0] == [];
      KeepNothing(LocalAndUp(localDc));
      assert !SomeNewlyUp([]) && Unhealthy([], 0) == 0;
      hide Keep, SomeNewlyUp, Unhealthy, LocalAndUp, IsNewest;
      filtered, newlyUpReplica, unhealthy := [], None, 0;
      var timestamp := MIN_SAFE_INTEGER;
      for i := 0 to |replicas|
        invariant filtered == Keep(replicas[..i], LocalAndUp(localDc))
        invariant newlyUpReplica.None? ==> unhealthy == Unhealthy(filtered, |filtered|) && timestamp == MIN_SAFE_INTEGER
        invariant newlyUpReplica.None? <==> !SomeNewlyUp(filtered)
        invariant newlyUpReplica.Some? ==> newlyUpReplica.value in filtered && timestamp > MIN_SAFE_INTEGER
        invariant newlyUpReplica.Some? ==> newlyUpReplica.value.newlyUp == Some(timestamp) && IsNewest(newlyUpReplica.value, filtered)
      {
        var h := replicas[i];
        KeepLocal(replicas, i, localDc);
        if !h.accepted || h.datacenter != localDc || !h.isUp {
          continue;
        }
        NewestOf(filtered, newlyUpReplica, h);
        if h.newlyUp.Some? && h.newlyUp.value > timestamp {
          newlyUpReplica, timestamp := Some(h), h.newlyUp.value;
        }
        if newlyUpReplica.None? && !h.healthy {
          unhealthy := unhealthy + 1;
        }
        Grown(filtered, h);
        filtered := filtered + [h];
      }
      assert replicas[..|replicas|] == replicas;
    }

    /** The replicas in the order of the plan. */
    method OrderReplicas(replicas: seq<Host>, draws: nat -> nat, dice: bool) returns (ordered: seq<Host>)
      requires Draws(draws)
      ensures Ordered(ordered, Keep(replicas, LocalAndUp(localDc)), draws, dice)
    {
      hide Keep, Unhealthy, SomeNewlyUp, IsNewest, NewestBack;
      var filtered, newlyUpReplica, unhealthyReplicas := FilterReplicas(replicas);
      var a := new Host[|filtered|](i requires 0 <= i < |filtered| => filtered[i]);
      assert a[..] == filtered;
      ShuffleArray(a, draws);
      ShuffleKeeps(filtered, |filtered|, draws);
      if a.Length < 3 {
        // two replicas stay as the draws left them
        return a[..];
      }
      ghost var drawn := a[..];
      UnhealthyOfMultiset(filtered, drawn);
      ghost var r := Reorder(a, newlyUpReplica, unhealthyReplicas, dice);
      ordered := a[..];
      assert Rearranged(r, drawn, filtered, dice);
    }

    /**
     `dice` says whether a newly UP replica in front is sent to the back, three times out of four.
     `rearranged` is the order before the first two are compared.
     */
    static method Reorder(a: array<Host>, newlyUpReplica: Option<Host>, unhealthyReplicas: nat, dice: bool)
      returns (ghost rearranged: seq<Host>)
      requires a.Length >= 3 && (newlyUpReplica.None? ==> unhealthyReplicas == Unhealthy(a[..], a.Length))
      modifies a
      ensures |rearranged| == a.Length && a[..] == LessBusyFirst(rearranged)
      ensures newlyUpReplica.Some? ==> rearranged == NewestBack(old(a[..]), newlyUpReplica.value, dice)
      ensures newlyUpReplica.None? ==>
        if 0 < unhealthyReplicas < a.Length / 2 + 1
        then multiset(rearranged) == multiset(old(a[..]))
             && unhealthyReplicas <= a.Length && Parted(rearranged, a.Length - unhealthyReplicas)
        else rearranged == old(a[..])
    {
      ghost var drawn := a[..];
      if newlyUpReplica.None? {
        if unhealthyReplicas > 0 && unhealthyReplicas < a.Length / 2 + 1 {
          // parts the array only when healthy hosts are in the majority
          SendUnhealthyToTheBack(a, unhealthyReplicas);
        }
      } else {
        if (newlyUpReplica.value == a[0] || newlyUpReplica.value == a[1]) && dice {
          // the last replica takes its place
          var index := if newlyUpReplica.value == a[0] then 0 else 1;
          Swap(a, a.Length - 1, index);
          assert a[..] == Swapped(drawn, a.Length - 1, index);
        }
      }
      rearranged := a[..];
      if a[1].inFlight < a[0].inFlight {
        // the less busy of the first two goes first
        Swap(a, 0, 1);
        assert a[..] == Swapped(rearranged, 0, 1);
      }
    }

    method GetReplicasAndLocalHosts(replicas: Option<seq<Host>>, draws: nat -> nat, dice: bool) returns (plan: seq<Host>)
      requires Valid() && Draws(draws)
      modifies this`filteredHosts, this`index
      ensures Valid()
      ensures replicas.None? ==> plan == LocalHosts(hosts, localDc, old(index), [])
      ensures replicas.Some? ==> TokenPlan(plan, hosts, localDc, old(index), replicas.value, draws, dice)
    {
      if replicas.None? {
        plan := GetLocalHosts([]);
        return;
      }
      hide Keep, LocalHosts, Ordered;
      var ordered := OrderReplicas(replicas.value, draws, dice);
      var rest := GetLocalHosts(ordered);
      plan := ordered + rest;
      DropPrefix(ordered, rest);
      OrderedKeeps(ordered, Keep(replicas.value, LocalAndUp(localDc)), draws, dice);
    }

    /** The preferred host, if any, comes first and only there. */
    method NewQueryPlan(replicas: Option<seq<Host>>, preferred: Option<Host>, draws: nat -> nat, dice: bool)
      returns (plan: seq<Host>, iterable: seq<Host>)
      requires Valid() && Draws(draws)
      modifies this`filteredHosts, this`index, this`preferredHost
      ensures Valid()
      ensures replicas.None? ==> iterable == LocalHosts(hosts, localDc, old(index), [])
      ensures replicas.Some? ==> TokenPlan(iterable, hosts, localDc, old(index), replicas.value, draws, dice)
      ensures plan == if preferred.None? then iterable else [preferred.value] + Keep(iterable, Other(preferred.value))
      ensures preferredHost == if preferred.None? then old(preferredHost) else preferred
    {
      plan := GetReplicasAndLocalHosts(replicas, draws, dice);
      iterable := plan;
      if preferred.Some? {
        preferredHost := preferred;
        plan := GetPreferredHostFirst(preferred.value, iterable);
      }
    }

    static method GetPreferredHostFirst(p: Host, iterable: seq<Host>) returns (plan: seq<Host>)
      ensures plan == [p] + Keep(iterable, Other(p))
    {
      hide Keep;
      plan := [p];
      assert iterable[..0] == [];
      KeepNothing(Other(p));
      for i := 0 to |iterable|
        invariant plan == [p] + Keep(iterable[..i], Other(p))
      {
        KeepOne(iterable[..i], iterable[i], Other(p));
        assert iterable[..i + 1] == iterable[..i] + [iterable[i]];
        if iterable[i] != p {
          plan := plan + [iterable[i]];
        }
      }
      assert iterable[..|iterable|] == iterable;
    }
  }

  lemma LessBusyKeeps(r: seq<Host>)
    requires |r| >= 2
    ensures multiset(LessBusyFirst(r)) == multiset(r)
  {
    if r[1].inFlight < r[0].inFlight {
      SwappedKeeps(r, 0, 1);
    }
  }

  lemma RearrangedKeeps(r: seq<Host>, drawn: seq<Host>, local: seq<Host>, dice: bool)
    requires |drawn| == |local| >= 3 && Rearranged(r, drawn, local, dice)
    ensures multiset(r) == multiset(drawn)
  {
    if SomeNewlyUp(local) {
      SwappedKeeps(drawn, |drawn| - 1, 0);
      SwappedKeeps(drawn, |drawn| - 1, 1);
    }
  }

  /** Ordering loses and adds nothing. */
  lemma OrderedKeeps(ordered: seq<Host>, local: seq<Host>, draws: nat -> nat, dice: bool)
    requires Draws(draws) && Ordered(ordered, local, draws, dice)
    ensures multiset(ordered) == multiset(local) && |ordered| == |local|
  {
    hide Rearranged, LessBusyFirst, Shuffled;
    ShuffleKeeps(local, |local|, draws);
    if |local| >= 3 {
      var drawn := Shuffled(local, |local|, draws);
      var r: seq<Host> :| |r| == |local| && Rearranged(r, drawn, local, dice) && ordered == LessBusyFirst(r);
      RearrangedKeeps(r, drawn, local, dice);
      LessBusyKeeps(r);
    }
    SameLength(ordered, local);
  }

  /**
   Of three replicas or more, the less busy of the first two comes first. Without newly UP ones, where the
   unhealthy are no majority, they come last and the first two are healthy. The newest of the newly UP ones
   comes last if the draws put it among the first two and the dice says so.
   */
  lemma OrderMeans(ordered: seq<Host>, local: seq<Host>, draws: nat -> nat, dice: bool)
    requires Draws(draws) && Ordered(ordered, local, draws, dice) && |local| >= 3
    ensures |ordered| == |local| && ordered[0].inFlight <= ordered[1].inFlight
    ensures var u := Unhealthy(local, |local|);
      !SomeNewlyUp(local) && 0 < u < |local| / 2 + 1 ==>
        u + 2 <= |local| && Parted(ordered, |local| - u) && ordered[0].healthy && ordered[1].healthy
    ensures SomeNewlyUp(local) ==>
      exists h <- local :: IsNewest(h, local)
        && (dice && h in Shuffled(local, |local|, draws)[..2] ==> ordered[|local| - 1] == h)
  {
    hide Shuffled, SomeNewlyUp, IsNewest, Unhealthy, NewestBack, LessBusyFirst, Rearranged, Parted;
    OrderedKeeps(ordered, local, draws, dice);
    var n, drawn := |local|, Shuffled(local, |local|, draws);
    var r: seq<Host> :| |r| == n && Rearranged(r, drawn, local, dice) && ordered == LessBusyFirst(r);
    FrontOnly(r);
    assert ordered[n - 1] == r[n - 1];
    if SomeNewlyUp(local) {
      NewestFrom(r, drawn, local, dice);
    } else {
      UnhealthyBack(r, drawn, local, dice);
    }
  }

  lemma UnhealthyBack(r: seq<Host>, drawn: seq<Host>, local: seq<Host>, dice: bool)
    requires |r| == |drawn| == |local| >= 3 && Rearranged(r, drawn, local, dice) && !SomeNewlyUp(local)
    ensures var u, s := Unhealthy(local, |local|), LessBusyFirst(r);
      0 < u < |local| / 2 + 1 ==> u + 2 <= |local| && Parted(s, |local| - u) && s[0].healthy && s[1].healthy
  {
    hide SomeNewlyUp, Unhealthy, LessBusyFirst, IsNewest;
    var u := Unhealthy(local, |local|);
    if 0 < u < |local| / 2 + 1 {
      PartedFront(r, |local| - u);
    }
  }

  lemma NewestFrom(r: seq<Host>, drawn: seq<Host>, local: seq<Host>, dice: bool)
    requires |r| == |drawn| == |local| >= 3 && Rearranged(r, drawn, local, dice) && SomeNewlyUp(local)
    ensures exists h <- local :: IsNewest(h, local) && (dice && h in drawn[..2] ==> r[|local| - 1] == h)
  {
    hide SomeNewlyUp, Unhealthy, NewestBack, IsNewest;
    var h :| h in local && IsNewest(h, local) && r == NewestBack(drawn, h, dice);
    NewestLast(drawn, h, dice);
  }

  lemma FrontOnly(r: seq<Host>)
    requires |r| >= 3
    ensures var s := LessBusyFirst(r);
      s[0].inFlight <= s[1].inFlight && forall k :: 2 <= k < |r| ==> s[k] == r[k]
  {
  }

  lemma PartedFront(r: seq<Host>, healthy: nat)
    requires 2 <= healthy <= |r| && Parted(r, healthy)
    ensures Parted(LessBusyFirst(r), healthy)
  {
  }

  lemma NewestLast(drawn: seq<Host>, h: Host, dice: bool)
    requires |drawn| >= 3
    ensures dice && h in drawn[..2] ==> NewestBack(drawn, h, dice)[|drawn| - 1] == h
  {
    assert drawn[..2] == [drawn[0], drawn[1]];
  }

  lemma KeepLocal(replicas: seq<Host>, i: nat, dc: string)
    requires i < |replicas|
    ensures Keep(replicas[..i + 1], LocalAndUp(dc)) == Keep(replicas[..i], LocalAndUp(dc))
      + (if replicas[i].accepted && replicas[i].datacenter == dc && replicas[i].isUp then [replicas[i]] else [])
  {
    KeepOne(replicas[..i], replicas[i], LocalAndUp(dc));
    assert replicas[..i + 1] == replicas[..i] + [replicas[i]];
  }

  lemma KeepNothing(p: Host -> bool)
    ensures Keep([], p) == []
  {
  }

  lemma Grown(s: seq<Host>, h: Host)
    ensures SomeNewlyUp(s + [h]) <==> NewlyUp(h) || SomeNewlyUp(s)
    ensures Unhealthy(s + [h], |s| + 1) == Unhealthy(s, |s|) + (if h.healthy then 0 else 1)
  {
    UnhealthySame(s, s + [h], |s|);
    if NewlyUp(h) {
      assert h in s + [h];
    }
    if SomeNewlyUp(s) {
      var g :| g in s && NewlyUp(g);
      assert g in s + [h];
    }
  }

  lemma SameLength(s: seq<Host>, t: seq<Host>)
    requires multiset(s) == multiset(t)
    ensures |s| == |t|
  {
    assert |multiset(s)| == |s| && |multiset(t)| == |t|;
  }

  // ----- What a plan holds -----

  lemma {:induction false} LocalHostsCount(hosts: seq<Host>, dc: string, start: nat, replicas: seq<Host>, h: Host)
    ensures multiset(LocalHosts(hosts, dc, start, replicas))[h]
         == if LocalAndUp(dc)(h) && h !in replicas then multiset(hosts)[h] else 0
  {
    var local := Keep(hosts, Local(dc));
    KeepCount(hosts, Local(dc), h);
    if local != [] {
      RotationSame(local, start);
      KeepCount(Rotation(local, start), CanBeYield(replicas), h);
    }
  }

  /** Without a token: every local host that is up, once. */
  lemma {:induction false} LocalPlan(hosts: seq<Host>, dc: string, start: nat)
    requires Distinct(hosts)
    ensures var plan := LocalHosts(hosts, dc, start, []);
      Distinct(plan) && forall h: Host :: h in plan <==> h in hosts && h.accepted && h.datacenter == dc && h.isUp
  {
    var plan := LocalHosts(hosts, dc, start, []);
    forall h: Host
      ensures multiset(plan)[h] == if h in hosts && LocalAndUp(dc)(h) then 1 else 0
    {
      LocalHostsCount(hosts, dc, start, [], h);
      DistinctCounts(hosts, h);
    }
    CountsDistinct(plan);
    MemberCounts(plan);
  }

  lemma MemberCounts(s: seq<Host>)
    ensures forall h: Host :: h in s <==> multiset(s)[h] > 0
  {
  }

  lemma {:induction false} ReplicaPlanCounts(plan: seq<Host>, hosts: seq<Host>, dc: string, start: nat, replicas: seq<Host>,
                                             draws: nat -> nat, dice: bool, h: Host)
    requires Draws(draws) && TokenPlan(plan, hosts, dc, start, replicas, draws, dice)
    requires Distinct(hosts) && Distinct(replicas)
    ensures var n := |Keep(replicas, LocalAndUp(dc))|;
      && multiset(plan[..n])[h] == (if h in replicas && LocalAndUp(dc)(h) then 1 else 0)
      && multiset(plan)[h] == (if (h in replicas || h in hosts) && LocalAndUp(dc)(h) then 1 else 0)
  {
    hide Keep, Ordered, LocalHosts, LocalAndUp, Distinct;
    var local := Keep(replicas, LocalAndUp(dc));
    var first, rest := plan[..|local|], plan[|local|..];
    OrderedKeeps(first, local, draws, dice);
    assert plan == first + rest;
    MemberCounts(first);
    KeepCount(replicas, LocalAndUp(dc), h);
    DistinctCounts(replicas, h);
    LocalHostsCount(hosts, dc, start, first, h);
    DistinctCounts(hosts, h);
  }

  /** For a token: every replica that is local, accepted and up, once, and then every other such host, once. */
  lemma {:induction false} ReplicaPlan(plan: seq<Host>, hosts: seq<Host>, dc: string, start: nat, replicas: seq<Host>,
                                       draws: nat -> nat, dice: bool) returns (n: nat)
    requires Draws(draws) && TokenPlan(plan, hosts, dc, start, replicas, draws, dice)
    requires Distinct(hosts) && Distinct(replicas)
    ensures Distinct(plan) && n <= |plan|
    ensures forall h: Host :: h in plan <==> (h in replicas || h in hosts) && h.accepted && h.datacenter == dc && h.isUp
    ensures forall h: Host :: h in plan[..n] <==> h in replicas && h.accepted && h.datacenter == dc && h.isUp
  {
    n := |Keep(replicas, LocalAndUp(dc))|;
    forall h: Host
      ensures multiset(plan[..n])[h] == if h in replicas && h.accepted && h.datacenter == dc && h.isUp then 1 else 0
      ensures multiset(plan)[h]
           == if (h in replicas || h in hosts) && h.accepted && h.datacenter == dc && h.isUp then 1 else 0
    {
      ReplicaPlanCounts(plan, hosts, dc, start, replicas, draws, dice, h);
    }
    hide TokenPlan, Keep, Distinct;
    CountsDistinct(plan);
    MemberCounts(plan);
    MemberCounts(plan[..n]);
  }

  // ----- The order of the local hosts -----

  /**
   `local` are the accepted hosts of the datacenter as they are listed. A plan yields them in that order, around
   the list from the place the index gives.
   */
  lemma {:induction false} PlanGoesAround(hosts: seq<Host>, dc: string, start: nat, replicas: seq<Host>, i: nat, j: nat)
    returns (a: nat, b: nat)
    requires i < j < |LocalHosts(hosts, dc, start, replicas)|
    ensures var plan, local := LocalHosts(hosts, dc, start, replicas), Keep(hosts, Local(dc));
      a < b < |local| && plan[i] == local[(a + start) % |local|] && plan[j] == local[(b + start) % |local|]
  {
    var local := Keep(hosts, Local(dc));
    RotationAt(local, start, 0);
    a, b := KeepInOrder(Rotation(local, start), CanBeYield(replicas), i, j);
    RotationAt(local, start, a);
    RotationAt(local, start, b);
  }

  /** When all local hosts are up, the plan without a token is the whole list from the place the index gives. */
  lemma {:induction false} PlanFromIndex(hosts: seq<Host>, dc: string, start: nat, k: nat)
    requires var local := Keep(hosts, Local(dc));
      k < |local| && forall h <- local :: h.isUp
    ensures var plan, local := LocalHosts(hosts, dc, start, []), Keep(hosts, Local(dc));
      |plan| == |local| && plan[k] == local[(k + start) % |local|]
  {
    var local := Keep(hosts, Local(dc));
    var rotation := Rotation(local, start);
    RotationAt(local, start, k);
    KeepAll(rotation, CanBeYield([]));
  }

  lemma {:induction false} KeepAll(s: seq<Host>, p: Host -> bool)
    requires forall h <- s :: p(h)
    ensures Keep(s, p) == s
    decreases |s|
  {
    if s != [] {
      KeepAll(s[1..], p);
    }
  }

  lemma {:induction false} StartsWith(hosts: seq<Host>, dc: string, at: nat, k: nat)
    requires Distinct(hosts)
    requires var local := Keep(hosts, Local(dc));
      k < |local| && forall h <- local :: h.isUp
    ensures var plan, local := LocalHosts(hosts, dc, at, []), Keep(hosts, Local(dc));
      |plan| == |local| && (plan[0] == local[k] <==> at % |local| == k)
  {
    var local := Keep(hosts, Local(dc));
    DistinctKept(hosts, Local(dc));
    PlanFromIndex(hosts, dc, at, 0);
    hide LocalHosts, Keep;
    assert local[(0 + at) % |local|] == local[at % |local|];
  }

  lemma OneInRow(start: nat, n: nat, k: nat) returns (d: nat)
    requires k < n
    ensures start <= d < start + n
    ensures forall at: nat :: start <= at < start + n ==> (at % n == k <==> at == d)
  {
    var r := start % n;
    d := if k >= r then start + k - r else start + k + n - r;
    forall at: nat | start <= at < start + n
      ensures at % n == k <==> at == d
    {
      RotatedIndex(at - start, start, n);
    }
  }

  /** Round robin: of as many plans in a row as there are local hosts, all up, exactly one starts with each of them. */
  lemma {:induction false} EachStartsOnce(hosts: seq<Host>, dc: string, start: nat, k: nat) returns (d: nat)
    requires Distinct(hosts)
    requires var local := Keep(hosts, Local(dc));
      k < |local| && forall h <- local :: h.isUp
    ensures var local := Keep(hosts, Local(dc));
      && start <= d < start + |local|
      && forall at: nat :: start <= at < start + |local| ==>
           && |LocalHosts(hosts, dc, at, [])| == |local|
           && (LocalHosts(hosts, dc, at, [])[0] == local[k] <==> at == d)
  {
    hide LocalHosts, Keep, Local, Distinct;
    var n := |Keep(hosts, Local(dc))|;
    d := OneInRow(start, n, k);
    forall at: nat | start <= at < start + n
      ensures |LocalHosts(hosts, dc, at, [])| == n
      ensures LocalHosts(hosts, dc, at, [])[0] == Keep(hosts, Local(dc))[k] <==> at == d
    {
      StartsWith(hosts, dc, at, k);
    }
  }

  lemma {:induction false} DistinctKept(s: seq<Host>, p: Host -> bool)
    requires Distinct(s)
    ensures Distinct(Keep(s, p))
  {
    forall h: Host
      ensures multiset(Keep(s, p))[h] <= 1
    {
      KeepCount(s, p, h);
      DistinctCounts(s, h);
    }
    CountsDistinct(Keep(s, p));
  }

  /** A preferred host put first keeps the plan free of repetitions. */
  lemma {:induction false} PreferredPlan(iterable: seq<Host>, p: Host)
    requires Distinct(iterable)
    ensures var plan := [p] + Keep(iterable, Other(p));
      Distinct(plan) && forall h: Host :: h in plan <==> h == p || h in iterable
  {
    var others := Keep(iterable, Other(p));
    var plan := [p] + others;
    MemberCounts(iterable);
    forall h: Host
      ensures multiset(plan)[h] == if h == p || h in iterable then 1 else 0
    {
      KeepCount(iterable, Other(p), h);
      DistinctCounts(iterable, h);
    }
    CountsDistinct(plan);
    MemberCounts(plan);
  }
}
