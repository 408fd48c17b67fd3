/**
 Replica placement (lib/metadata/schema-parser.js): the hosts that hold each token under
 SimpleStrategy and under the rack-aware NetworkTopologyStrategy.

 Both mappers walk the ring clockwise from a token with nested loops. The loops are proved
 against `Walk` and `Distinct`; what the chosen hosts satisfy is proved in PlacementLaws.
 */
module ReplicaPlacement {
  import opened Wrappers

  /** `rack` is None when the source's value is null, undefined or empty. */
  datatype Host = Host(address: string, datacenter: string, rack: Option<string>)

  datatype Datacenter = Datacenter(hostLength: nat, racks: set<Option<string>>)

  /** The cluster and the replication factors; a factor that does not parse as a number is 0. */
  datatype Config = Config(factors: map<string, int>, datacenters: map<string, Datacenter>) {
    function Factor(dc: string): int {
      if dc in factors then factors[dc] else 0
    }

    function Racks(dc: string): nat {
      if dc in datacenters then |datacenters[dc].racks| else 0
    }

    /** The number of replicas wanted in a datacenter: `Math.min(rf, hostLength)`. */
    function Wanted(dc: string): int {
      if dc !in datacenters then 0
      else if Factor(dc) < datacenters[dc].hostLength then Factor(dc) else datacenters[dc].hostLength
    }

    predicate Knows(hosts: seq<Host>) {
      forall i :: 0 <= i < |hosts| ==> hosts[i].datacenter in datacenters
    }
  }

  /** The variables of one token's walk. */
  datatype State = State(
    replicas: seq<Host>, byDc: map<string, nat>, racksPlaced: map<string, set<Option<string>>>, skipped: seq<Host>)
  {
    function Count(dc: string): nat {
      if dc in byDc then byDc[dc] else 0
    }

    function Placed(dc: string): set<Option<string>> {
      if dc in racksPlaced then racksPlaced[dc] else {}
    }
  }

  const START := State([], map[], map[], [])

  /** True when `h` waits until the other racks of its datacenter have a replica. */
  predicate Skips(c: Config, s: State, h: Host) {
    h.rack.Some? && h.rack in s.Placed(h.datacenter) && |s.Placed(h.datacenter)| < c.Racks(h.datacenter)
  }

  predicate Ignores(c: Config, s: State, h: Host) {
    h in s.replicas || c.Factor(h.datacenter) == 0 || s.Count(h.datacenter) >= c.Wanted(h.datacenter)
  }

  /** The number of skipped hosts that `addSkippedHosts` takes. */
  function Room(wanted: int, count: nat, skipped: seq<Host>): nat {
    if wanted - count <= 0 then 0 else if wanted - count < |skipped| then wanted - count else |skipped|
  }

  /** `h` is taken, and with it the skipped hosts if its rack is the last one of the datacenter. */
  function Take(c: Config, s: State, h: Host): State {
    var dc := h.datacenter;
    var count := s.Count(dc) + 1;
    var racks := if h.rack.Some? then s.Placed(dc) + {h.rack} else s.Placed(dc);
    var completes := h.rack.Some? && h.rack !in s.Placed(dc) && |racks| == c.Racks(dc);
    var room := if completes then Room(c.Wanted(dc), count, s.skipped) else 0;
    State(s.replicas + [h] + s.skipped[..room], s.byDc[dc := count + room], s.racksPlaced[dc := racks], s.skipped)
  }

  /** One step of the inner loop, without its early exit. */
  function Visit(c: Config, s: State, h: Host): State {
    if Ignores(c, s, h) then s
    else if Skips(c, s, h) then
      if |s.skipped| < c.Wanted(h.datacenter) - s.Count(h.datacenter) then s.(skipped := s.skipped + [h]) else s
    else Take(c, s, h)
  }

  /** The first `n` steps. */
  function Walk(c: Config, hosts: seq<Host>, n: nat): State
    requires n <= |hosts|
  {
    if n == 0 then START else Visit(c, Walk(c, hosts, n - 1), hosts[n - 1])
  }

  predicate IsDoneForToken(c: Config, byDc: map<string, nat>) {
    forall dc :: dc in c.factors && dc in c.datacenters && c.Wanted(dc) > 0 ==> dc in byDc && byDc[dc] >= c.Wanted(dc)
  }

  /** The index `nextReplicaIndex` of the source. */
  function Wrap(index: nat, length: nat): (r: nat)
    requires 0 < length && index < 2 * length
    ensures r == if index >= length then index - length else index
  {
    if index >= length then index % length else index
  }

  /** All the owners, clockwise from position `i`. */
  function Clockwise(owners: seq<Host>, i: nat): (r: seq<Host>)
    requires i < |owners|
    ensures |r| == |owners| && forall j :: 0 <= j < |r| ==> r[j] == owners[Wrap(i + j, |owners|)]
  {
    seq(|owners|, j requires 0 <= j < |owners| => owners[Wrap(i + j, |owners|)])
  }

  lemma ClockwiseRotates(owners: seq<Host>, i: nat)
    requires i < |owners|
    ensures Clockwise(owners, i) == owners[i..] + owners[..i]
  {
    forall j | 0 <= j < |owners|
      ensures Clockwise(owners, i)[j] == (owners[i..] + owners[..i])[j]
    {
    }
  }

  /** The hosts one token is placed on. */
  function Replicas(c: Config, hosts: seq<Host>): seq<Host> {
    Walk(c, hosts, |hosts|).replicas
  }

  /** `replicas[ring[0]] = answers[0]; replicas[ring[1]] = answers[1]; ...` */
  function Table<K(==)>(ring: seq<K>, answers: seq<seq<Host>>, n: nat): map<K, seq<Host>>
    requires n <= |ring| == |answers|
  {
    if n == 0 then map[] else Table(ring, answers, n - 1)[ring[n - 1] := answers[n - 1]]
  }

  /** A token finds its own answer, and that of its last occurrence if it occurs again. */
  lemma {:induction false} TableLookup<K>(ring: seq<K>, answers: seq<seq<Host>>, n: nat, i: nat)
    requires i < n <= |ring| == |answers|
    requires forall k :: i < k < n ==> ring[k] != ring[i]
    ensures ring[i] in Table(ring, answers, n) && Table(ring, answers, n)[ring[i]] == answers[i]
    decreases n
  {
    if i < n - 1 {
      TableLookup(ring, answers, n - 1, i);
    }
  }

  function NetworkAnswers(c: Config, owners: seq<Host>): (r: seq<seq<Host>>)
    ensures |r| == |owners|
    ensures forall i :: 0 <= i < |r| ==> r[i] == Replicas(c, Clockwise(owners, i))
  {
    seq(|owners|, i requires 0 <= i < |owners| => Replicas(c, Clockwise(owners, i)))
  }

  function SimpleAnswers(replicationFactor: int, owners: seq<Host>): (r: seq<seq<Host>>)
    ensures |r| == |owners|
    ensures forall i :: 0 <= i < |r| ==> r[i] == FirstDistinct(Clockwise(owners, i), replicationFactor)
  {
    seq(|owners|, i requires 0 <= i < |owners| => FirstDistinct(Clockwise(owners, i), replicationFactor))
  }

  // ----- The source's loops -----

  method AddSkippedHosts(wanted: int, count: nat, tokenReplicas: seq<Host>, skipped: seq<Host>)
    returns (replicas: seq<Host>, added: nat)
    ensures added == Room(wanted, count, skipped) && replicas == tokenReplicas + skipped[..added]
  {
    replicas, added := tokenReplicas, 0;
    while added < wanted - count && added < |skipped|
      invariant 0 <= added <= |skipped| && (added <= wanted - count || added == 0)
      invariant replicas == tokenReplicas + skipped[..added]
    {
      replicas := replicas + [skipped[added]];
      added := added + 1;
    }
  }

  /** Once every datacenter has its replicas, no host changes anything. */
  lemma DoneVisitsNothing(c: Config, s: State, h: Host)
    requires h.datacenter in c.datacenters && IsDoneForToken(c, s.byDc)
    ensures Visit(c, s, h) == s
  {
    var dc := h.datacenter;
    assert c.Factor(dc) != 0 ==> dc in c.factors;
  }

  /** Stopping early gives the list that walking the full ring gives. */
  lemma {:induction false} EarlyExit(c: Config, hosts: seq<Host>, j: nat, n: nat)
    requires j <= n <= |hosts| && c.Knows(hosts) && IsDoneForToken(c, Walk(c, hosts, j).byDc)
    ensures Walk(c, hosts, n) == Walk(c, hosts, j)
    decreases n
  {
    if j < n {
      EarlyExit(c, hosts, j, n - 1);
      DoneVisitsNothing(c, Walk(c, hosts, n - 1), hosts[n - 1]);
    }
  }

  method TokenNetworkStrategy<K(==)>(c: Config, ring: seq<K>, primaryReplicas: map<K, Host>)
    returns (replicas: map<K, seq<Host>>)
    requires forall i :: 0 <= i < |ring| ==> ring[i] in primaryReplicas
    requires c.Knows(Owners(ring, primaryReplicas))
    ensures replicas == Table(ring, NetworkAnswers(c, Owners(ring, primaryReplicas)), |ring|)
  {
    replicas := map[];
    ghost var answers := NetworkAnswers(c, Owners(ring, primaryReplicas));
    for i := 0 to |ring|
      invariant replicas == Table(ring, answers, i)
    {
      var tokenReplicas := ReplicasFrom(c, ring, primaryReplicas, i);
      replicas := replicas[ring[i] := tokenReplicas];
    }
  }

  function Owners<K(==)>(ring: seq<K>, primaryReplicas: map<K, Host>): (r: seq<Host>)
    requires forall i :: 0 <= i < |ring| ==> ring[i] in primaryReplicas
    ensures |r| == |ring| && forall i :: 0 <= i < |ring| ==> r[i] == primaryReplicas[ring[i]]
  {
    seq(|ring|, i requires 0 <= i < |ring| => primaryReplicas[ring[i]])
  }

  /** The inner loop of the source, for the token at position `i`. */
  method ReplicasFrom<K(==)>(c: Config, ring: seq<K>, primaryReplicas: map<K, Host>, i: nat)
    returns (tokenReplicas: seq<Host>)
    requires forall k :: 0 <= k < |ring| ==> ring[k] in primaryReplicas
    requires c.Knows(Owners(ring, primaryReplicas)) && i < |ring|
    ensures tokenReplicas == Replicas(c, Clockwise(Owners(ring, primaryReplicas), i))
  {
    ghost var hosts := Clockwise(Owners(ring, primaryReplicas), i);
    var s := START;
    var j := 0;
    while j < |ring|
      invariant 0 <= j <= |ring| && s == Walk(c, hosts, j)
    {
      var nextReplicaIndex := Wrap(i + j, |ring|);
      var h := primaryReplicas[ring[nextReplicaIndex]];
      assert h == hosts[j];
      var placed;
      s, placed := VisitHost(c, s, h);
      j := j + 1;
      if placed && IsDoneForToken(c, s.byDc) {
        EarlyExit(c, hosts, j, |ring|);
        return s.replicas;
      }
    }
    tokenReplicas := s.replicas;
  }

  /** The body of the inner loop; `placed` is false where the source continues with the next host. */
  method VisitHost(c: Config, s: State, h: Host) returns (s': State, placed: bool)
    ensures s' == Visit(c, s, h) && placed == (!Ignores(c, s, h) && !Skips(c, s, h))
  {
    var tokenReplicas, replicasByDc, racksPlaced, skippedHosts := s.replicas, s.byDc, s.racksPlaced, s.skipped;
    var dc := h.datacenter;
    if h in tokenReplicas || c.Factor(dc) == 0 {
      return s, false;
    }
    var dcRf := c.Wanted(dc);
    var dcReplicas := if dc in replicasByDc then replicasByDc[dc] else 0;
    // the datacenter has its replicas
    if dcReplicas >= dcRf {
      return s, false;
    }
    var racksPlacedInDc := if dc in racksPlaced then racksPlaced[dc] else {};
    if h.rack.Some? && h.rack in racksPlacedInDc && |racksPlacedInDc| < c.Racks(dc) {
      // its rack waits for the others
      if |skippedHosts| < dcRf - dcReplicas {
        skippedHosts := skippedHosts + [h];
      }
      return s.(skipped := skippedHosts), false;
    }
    dcReplicas := dcReplicas + 1;
    tokenReplicas := tokenReplicas + [h];
    var added := h.rack.Some? && h.rack !in racksPlacedInDc;
    if h.rack.Some? {
      racksPlacedInDc := racksPlacedInDc + {h.rack};
    }
    var n := 0;
    if added && |racksPlacedInDc| == c.Racks(dc) {
      // the last rack of the datacenter: the skipped hosts follow
      tokenReplicas, n := AddSkippedHosts(dcRf, dcReplicas, tokenReplicas, skippedHosts);
    }
    assert s.skipped[..0] == [];
    s' := State(tokenReplicas, replicasByDc[dc := dcReplicas + n], racksPlaced[dc := racksPlacedInDc], skippedHosts);
    placed := true;
  }

  // ----- SimpleStrategy -----

  /** The first `n` hosts without repeats, keeping first occurrences in order. */
  function Distinct(hosts: seq<Host>, n: nat): seq<Host>
    requires n <= |hosts|
  {
    if n == 0 then []
    else
      var before := Distinct(hosts, n - 1);
      if hosts[n - 1] in before then before else before + [hosts[n - 1]]
  }

  /** The first `count` of all of them, and never less than one. */
  function FirstDistinct(hosts: seq<Host>, count: int): seq<Host> {
    var d := Distinct(hosts, |hosts|);
    if count >= |d| then d else if count < 1 then d[..if |d| > 0 then 1 else 0] else d[..count]
  }

  lemma {:induction false} DistinctGrows(hosts: seq<Host>, j: nat, n: nat)
    requires j <= n <= |hosts|
    ensures Distinct(hosts, j) <= Distinct(hosts, n)
    decreases n
  {
    if j < n {
      DistinctGrows(hosts, j, n - 1);
    }
  }

  method TokenSimpleStrategy<K(==)>(replicationFactor: int, ring: seq<K>, primaryReplicas: map<K, Host>)
    returns (replicas: map<K, seq<Host>>)
    requires forall i :: 0 <= i < |ring| ==> ring[i] in primaryReplicas
    ensures replicas == Table(ring, SimpleAnswers(replicationFactor, Owners(ring, primaryReplicas)), |ring|)
  {
    replicas := map[];
    var rf := if replicationFactor < |ring| then replicationFactor else |ring|;
    ghost var answers := SimpleAnswers(replicationFactor, Owners(ring, primaryReplicas));
    for i := 0 to |ring|
      invariant replicas == Table(ring, answers, i)
    {
      var tokenReplicas := SimpleReplicasFrom(rf, ring, primaryReplicas, i);
      DistinctLength(Clockwise(Owners(ring, primaryReplicas), i), |ring|);
      replicas := replicas[ring[i] := tokenReplicas];
    }
  }

  lemma {:induction false} DistinctLength(hosts: seq<Host>, n: nat)
    requires n <= |hosts|
    ensures |Distinct(hosts, n)| <= n && (n > 0 ==> |Distinct(hosts, n)| >= 1)
    decreases n
  {
    if n > 0 {
      DistinctLength(hosts, n - 1);
    }
  }

  method SimpleReplicasFrom<K(==)>(rf: int, ring: seq<K>, primaryReplicas: map<K, Host>, i: nat)
    returns (tokenReplicas: seq<Host>)
    requires forall k :: 0 <= k < |ring| ==> ring[k] in primaryReplicas
    requires i < |ring| && rf <= |ring|
    ensures tokenReplicas == FirstDistinct(Clockwise(Owners(ring, primaryReplicas), i), rf)
  {
    ghost var hosts := Clockwise(Owners(ring, primaryReplicas), i);
    tokenReplicas := [primaryReplicas[ring[i]]];
    assert Distinct(hosts, 0) == [];
    var j := 1;
    while j < |ring| && |tokenReplicas| < rf
      invariant 1 <= j <= |ring| && tokenReplicas == Distinct(hosts, j)
      invariant |tokenReplicas| >= 1 && (|tokenReplicas| <= rf || |tokenReplicas| == 1)
    {
      var nextReplicaIndex := Wrap(i + j, |ring|);
      var nextReplica := primaryReplicas[ring[nextReplicaIndex]];
      assert nextReplica == hosts[j];
      // a host is met once for each of its tokens
      if nextReplica !in tokenReplicas {
        tokenReplicas := tokenReplicas + [nextReplica];
      }
      j := j + 1;
    }
    EnoughDistinct(hosts, j, rf);
  }

  lemma {:induction false} EnoughDistinct(hosts: seq<Host>, j: nat, rf: int)
    requires 1 <= j <= |hosts| && (j == |hosts| || |Distinct(hosts, j)| >= rf)
    requires rf <= |hosts| && (|Distinct(hosts, j)| <= rf || |Distinct(hosts, j)| == 1)
    ensures Distinct(hosts, j) == FirstDistinct(hosts, rf)
  {
    DistinctGrows(hosts, j, |hosts|);
    DistinctLength(hosts, j);
  }
}
