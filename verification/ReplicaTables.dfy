/** What is in the replica tables that `getReplicas` looks tokens up in, said of the members the ring is built from. */
module ReplicaTables {
  import opened TokenRanges
  import opened TokenRing
  import opened ReplicaPlacement
  import opened PlacementLaws
  import opened ClusterMetadata

  // ----- The ring and its owners -----

  /** Member `k` claims the token. */
  ghost predicate Claims(hosts: seq<Member>, k: nat, t: Token) {
    k < |hosts| && hosts[k].tokens.Some? && t in hosts[k].tokens.value
  }

  /** The claim that counts: no member after it claims the token. */
  ghost predicate ClaimsLast(hosts: seq<Member>, n: nat, k: nat, t: Token) {
    k < n && Claims(hosts, k, t) && forall l :: k < l < n ==> !Claims(hosts, l, t)
  }

  lemma {:induction false} LastClaimOwns(hosts: seq<Member>, n: nat, t: Token)
    requires n <= |hosts|
    ensures t in TokensOf(hosts, n) <==> exists k :: 0 <= k < n && Claims(hosts, k, t)
    ensures t in OwnersOf(hosts, n) <==> exists k :: 0 <= k < n && Claims(hosts, k, t)
    ensures forall k :: 0 <= k < n && ClaimsLast(hosts, n, k, t) ==>
      t in OwnersOf(hosts, n) && OwnersOf(hosts, n)[t] == hosts[k].host
    decreases n
  {
    if n > 0 {
      LastClaimOwns(hosts, n - 1, t);
      assert Claims(hosts, n - 1, t) <==> hosts[n - 1].tokens.Some? && t in hosts[n - 1].tokens.value;
      forall k | 0 <= k < n && ClaimsLast(hosts, n, k, t)
        ensures t in OwnersOf(hosts, n) && OwnersOf(hosts, n)[t] == hosts[k].host
      {
        if k < n - 1 {
          assert ClaimsLast(hosts, n - 1, k, t);
          assert !Claims(hosts, n - 1, t);
        }
      }
    }
  }

  /** What `buildTokens` leaves behind. */
  ghost predicate BuiltFrom(m: Metadata, hosts: seq<Member>)
    reads m
  {
    && m.Built() && multiset(m.ring.value) == multiset(TokensOf(hosts, |hosts|))
    && m.primaryReplicas == OwnersOf(hosts, |hosts|) && m.datacenters == DatacentersOf(hosts, |hosts|)
  }

  /** The ring holds the claimed tokens, and a token's owner is the last member that claims it. */
  lemma {:induction false} RingOfMembers(m: Metadata, hosts: seq<Member>, t: Token)
    requires BuiltFrom(m, hosts)
    ensures t in m.ring.value <==> exists k :: 0 <= k < |hosts| && Claims(hosts, k, t)
    ensures t in m.primaryReplicas <==> t in m.ring.value
    ensures forall k :: 0 <= k < |hosts| && ClaimsLast(hosts, |hosts|, k, t) ==>
      t in m.primaryReplicas && m.primaryReplicas[t] == hosts[k].host
  {
    LastClaimOwns(hosts, |hosts|, t);
    assert t in m.ring.value <==> t in multiset(m.ring.value);
    assert t in TokensOf(hosts, |hosts|) <==> t in multiset(TokensOf(hosts, |hosts|));
  }

  // ----- SimpleStrategy and no strategy -----

  /** The owner of the token `p` places clockwise from position `i`. */
  ghost function OwnerAfter(ring: seq<Token>, owners: map<Token, Host>, i: nat, p: nat): Host
    requires i < |ring| && forall k :: 0 <= k < |ring| ==> ring[k] in owners
  {
    owners[ring[(i + p) % |ring|]]
  }

  /** Every host stands where the owners met before it, clockwise from position `i`, stand in front of it. */
  ghost predicate InOrderOfMeeting(ring: seq<Token>, owners: map<Token, Host>, i: nat, r: seq<Host>)
    requires i < |ring| && forall k :: 0 <= k < |ring| ==> ring[k] in owners
  {
    forall j :: 0 <= j < |r| ==> StandsAsMet(ring, owners, i, r, j)
  }

  ghost predicate StandsAsMet(ring: seq<Token>, owners: map<Token, Host>, i: nat, r: seq<Host>, j: nat)
    requires i < |ring| && j < |r| && forall k :: 0 <= k < |ring| ==> ring[k] in owners
  {
    exists p :: FirstMetAt(ring, owners, i, r, j, p)
  }

  /** The owner `p` places further is the one listed `j`-th, and all owners met before are listed before it. */
  ghost predicate FirstMetAt(ring: seq<Token>, owners: map<Token, Host>, i: nat, r: seq<Host>, j: nat, p: nat)
    requires i < |ring| && j < |r| && forall k :: 0 <= k < |ring| ==> ring[k] in owners
  {
    p < |ring| && OwnerAfter(ring, owners, i, p) == r[j] && forall q :: 0 <= q < p ==> OwnerAfter(ring, owners, i, q) in r[..j]
  }

  lemma {:induction false} FirstMet(hosts: seq<Host>, n: nat, j: nat) returns (p: nat)
    requires n <= |hosts| && j < |Distinct(hosts, n)|
    ensures p < n && hosts[p] == Distinct(hosts, n)[j]
    ensures forall q :: 0 <= q < p ==> hosts[q] in Distinct(hosts, n)[..j]
    decreases n
  {
    var before, now := Distinct(hosts, n - 1), Distinct(hosts, n);
    if j < |before| {
      p := FirstMet(hosts, n - 1, j);
      assert now[..j] == before[..j];
    } else {
      p := n - 1;
      assert now[..j] == before;
      forall q | 0 <= q < p
        ensures hosts[q] in before
      {
        MetIsDistinct(hosts, n - 1, q);
      }
    }
  }

  lemma {:induction false} MetIsDistinct(hosts: seq<Host>, n: nat, q: nat)
    requires q < n <= |hosts|
    ensures hosts[q] in Distinct(hosts, n)
    decreases n
  {
    if q < n - 1 {
      MetIsDistinct(hosts, n - 1, q);
    }
  }

  lemma AroundIs(ring: seq<Token>, owners: map<Token, Host>, i: nat, p: nat)
    requires i < |ring| && p < |ring| && forall k :: 0 <= k < |ring| ==> ring[k] in owners
    ensures Clockwise(Owners(ring, owners), i)[p] == OwnerAfter(ring, owners, i, p)
  {
    if i + p >= |ring| {
      assert Wrap(i + p, |ring|) == (i + p) % |ring|;
    }
  }

  lemma {:induction false} DistinctInOrder(ring: seq<Token>, owners: map<Token, Host>, i: nat, r: seq<Host>)
    requires i < |ring| && forall k :: 0 <= k < |ring| ==> ring[k] in owners
    requires r <= Distinct(Clockwise(Owners(ring, owners), i), |ring|)
    ensures InOrderOfMeeting(ring, owners, i, r)
  {
    hide Distinct, Clockwise, Owners, OwnerAfter;
    var around := Clockwise(Owners(ring, owners), i);
    forall j | 0 <= j < |r|
      ensures StandsAsMet(ring, owners, i, r, j)
    {
      var p := FirstMet(around, |ring|, j);
      assert r[..j] == Distinct(around, |ring|)[..j];
      AroundIs(ring, owners, i, p);
      forall q | 0 <= q < p
        ensures OwnerAfter(ring, owners, i, q) in r[..j]
      {
        AroundIs(ring, owners, i, q);
      }
      assert FirstMetAt(ring, owners, i, r, j, p);
    }
  }

  ghost function Owning(owners: map<Token, Host>): set<Host> {
    set t | t in owners :: owners[t]
  }

  /** The owners met around the ring are all the owners. */
  lemma {:induction false} AllOwnersMet(ring: seq<Token>, owners: map<Token, Host>, i: nat)
    requires i < |ring| && forall k :: 0 <= k < |ring| ==> ring[k] in owners
    requires forall t :: t in owners ==> t in ring
    ensures Elements(Clockwise(Owners(ring, owners), i)) == Owning(owners)
  {
    var each := Owners(ring, owners);
    var around := Clockwise(each, i);
    ClockwiseRotates(each, i);
    assert each == each[..i] + each[i..];
    forall h | h in Owning(owners)
      ensures h in around
    {
      var t :| t in owners && owners[t] == h;
      var p :| 0 <= p < |ring| && ring[p] == t;
      assert each[p] == h;
      assert h in each;
    }
    forall h | h in around
      ensures h in Owning(owners)
    {
      assert h in each;
      var p :| 0 <= p < |each| && each[p] == h;
      var t := ring[p];
      assert t in owners && owners[t] == each[p];
      assert owners[t] in Owning(owners);
    }
  }

  /**
   The table of a keyspace under SimpleStrategy with a factor over one: the entry of a token holds as many
   different owners as the factor says and the cluster has, in the order they are met clockwise, the
   token's own owner first. `i` is the last place of the token if it is on the ring more than once.
   */
  lemma {:induction false} SimpleTable(m: Metadata, hosts: seq<Member>, k: Keyspace, i: nat)
    requires BuiltFrom(m, hosts) && k.replicas.None? && k.strategy.Simple? && k.strategy.replicationFactor > 1
    requires i < |m.ring.value| && forall l :: i < l < |m.ring.value| ==> m.ring.value[l] != m.ring.value[i]
    ensures var t := m.ring.value[i];
      var r := if t in m.TableOf(k) then m.TableOf(k)[t] else [];
      && t in m.TableOf(k)
      && NoRepeats(r) && |r| == Min(k.strategy.replicationFactor, |Owning(m.primaryReplicas)|)
      && r != [] && r[0] == m.primaryReplicas[t]
      && InOrderOfMeeting(m.ring.value, m.primaryReplicas, i, r)
  {
    var ring, owners, rf := m.ring.value, m.primaryReplicas, k.strategy.replicationFactor;
    var each := Owners(ring, owners);
    var around := Clockwise(each, i);
    forall t | t in owners
      ensures t in ring
    {
      RingOfMembers(m, hosts, t);
    }
    AllOwnersMet(ring, owners, i);
    TableLookup(ring, SimpleAnswers(rf, each), |ring|, i);
    SimplePlacement(around, rf);
    AroundIs(ring, owners, i, 0);
    DistinctInOrder(ring, owners, i, FirstDistinct(around, rf));
  }

  /** With a factor of one or less, or another strategy, the entry of a token holds its owner alone. */
  lemma {:induction false} OwnerTable(m: Metadata, k: Keyspace, t: Token)
    requires m.Built() && k.replicas.None?
    requires k.strategy.NoStrategy? || (k.strategy.Simple? && k.strategy.replicationFactor <= 1)
    ensures t in m.TableOf(k) <==> t in m.primaryReplicas
    ensures t in m.TableOf(k) ==> m.TableOf(k)[t] == [m.primaryReplicas[t]]
  {
  }

  /** Every ring token has an entry, and nothing else has. */
  lemma {:induction false} TableKeys(ring: seq<Token>, answers: seq<seq<Host>>, n: nat, t: Token)
    requires n <= |ring| == |answers|
    ensures t in Table(ring, answers, n) <==> t in ring[..n]
    decreases n
  {
    if n > 0 {
      TableKeys(ring, answers, n - 1, t);
      assert ring[..n] == ring[..n - 1] + [ring[n - 1]];
    }
  }

  lemma {:induction false} TableHoldsRing(m: Metadata, hosts: seq<Member>, k: Keyspace, t: Token)
    requires BuiltFrom(m, hosts) && k.replicas.None?
    ensures t in m.TableOf(k) <==> t in m.ring.value
  {
    var ring := m.ring.value;
    RingOfMembers(m, hosts, t);
    assert ring[..|ring|] == ring;
    match k.strategy
    case Simple(rf) =>
      if rf > 1 {
        TableKeys(ring, SimpleAnswers(rf, Owners(ring, m.primaryReplicas)), |ring|, t);
      }
    case Network(factors) =>
      TableKeys(ring, NetworkAnswers(Config(factors, m.datacenters), Owners(ring, m.primaryReplicas)), |ring|, t);
    case NoStrategy =>
  }

  // ----- NetworkTopologyStrategy -----

  /** The same of NetworkTopologyStrategy, where no more replicas are wanted than there are racks. */
  lemma {:induction false} NetworkTable(m: Metadata, hosts: seq<Member>, k: Keyspace, i: nat, dc: string)
    requires BuiltFrom(m, hosts) && DistinctMembers(hosts) && forall l :: 0 <= l < |hosts| ==> hosts[l].host.rack.Some?
    requires k.replicas.None? && k.strategy.Network? && i < |m.ring.value|
    requires dc in k.strategy.factors && k.strategy.factors[dc] >= 0
    requires dc in m.datacenters && FitsRacks(Config(k.strategy.factors, m.datacenters))
    ensures var t := m.ring.value[i];
      var r := if t in m.TableOf(k) then m.TableOf(k)[t] else [];
      var wanted := Min(k.strategy.factors[dc], |ListedIn(hosts, |hosts|, dc)|);
      && t in m.TableOf(k) && NoRepeats(r)
      && |HostsIn(r, dc)| == wanted && |RacksOf(HostsIn(r, dc))| == wanted
      && HostsIn(r, dc) <= ListedIn(hosts, |hosts|, dc)
  {
    hide FitsRacks, DistinctMembers, DatacentersOf, OwnersOf, TokensOf, ListedIn, Listed, RacksOf;
    DatacentersCount(hosts, |hosts|, dc);
    BuiltReplicasSpread(hosts, m.ring.value, k.strategy.factors, i, dc);
  }
}
