/**
 The cluster's token map (lib/metadata/index.js): built from the hosts, then asked for the
 replicas of a token and for the ranges a host replicates.
 */
module ClusterMetadata {
  import opened Wrappers
  import opened TokenRanges
  import opened TokenRing
  import opened ReplicaPlacement
  import opened PlacementLaws

  /** A host and its tokens, if they are known. */
  datatype Member = Member(host: Host, tokens: Option<seq<Token>>)

  // ----- What `buildTokens` computes -----

  /** The tokens of the first `n` hosts, in the order they are inserted. */
  function TokensOf(hosts: seq<Member>, n: nat): seq<Token>
    requires n <= |hosts|
  {
    if n == 0 then []
    else if hosts[n - 1].tokens.None? then TokensOf(hosts, n - 1)
    else TokensOf(hosts, n - 1) + hosts[n - 1].tokens.value
  }

  /** Each token's host; a token claimed again goes to the later host. */
  function OwnersOf(hosts: seq<Member>, n: nat): map<Token, Host>
    requires n <= |hosts|
  {
    if n == 0 then map[]
    else if hosts[n - 1].tokens.None? then OwnersOf(hosts, n - 1)
    else OwnersOf(hosts, n - 1) + AllTo(hosts[n - 1].tokens.value, hosts[n - 1].host)
  }

  function AllTo(tokens: seq<Token>, host: Host): map<Token, Host> {
    map t | t in tokens :: host
  }

  lemma AllToStep(primaries: map<Token, Host>, tokens: seq<Token>, host: Host, k: nat)
    requires k < |tokens|
    ensures (primaries + AllTo(tokens[..k], host))[tokens[k] := host] == primaries + AllTo(tokens[..k + 1], host)
  {
    assert tokens[..k + 1] == tokens[..k] + [tokens[k]];
    assert AllTo(tokens[..k + 1], host) == AllTo(tokens[..k], host)[tokens[k] := host];
  }

  function DatacentersOf(hosts: seq<Member>, n: nat): map<string, Datacenter>
    requires n <= |hosts|
  {
    if n == 0 then map[]
    else if hosts[n - 1].tokens.None? then DatacentersOf(hosts, n - 1)
    else Count(DatacentersOf(hosts, n - 1), hosts[n - 1].host)
  }

  /** One more host in its datacenter, with its rack. */
  function Count(datacenters: map<string, Datacenter>, h: Host): map<string, Datacenter> {
    var dc := if h.datacenter in datacenters then datacenters[h.datacenter] else Datacenter(0, {});
    datacenters[h.datacenter := Datacenter(dc.hostLength + 1, dc.racks + {h.rack})]
  }

  lemma {:induction false} OwnersCover(hosts: seq<Member>, n: nat, ring: seq<Token>)
    requires n <= |hosts| && multiset(ring) == multiset(TokensOf(hosts, n))
    ensures forall i :: 0 <= i < |ring| ==> ring[i] in OwnersOf(hosts, n)
    ensures forall t :: t in OwnersOf(hosts, n) ==> OwnersOf(hosts, n)[t].datacenter in DatacentersOf(hosts, n)
  {
    forall i | 0 <= i < |ring|
      ensures ring[i] in OwnersOf(hosts, n)
    {
      assert ring[i] in multiset(ring);
      HasOwner(hosts, n, ring[i]);
    }
    forall t | t in OwnersOf(hosts, n)
      ensures OwnersOf(hosts, n)[t].datacenter in DatacentersOf(hosts, n)
    {
      HasOwner(hosts, n, t);
    }
  }

  /** The tokens inserted are the tokens that have an owner, and the owner's datacenter is known. */
  lemma {:induction false} HasOwner(hosts: seq<Member>, n: nat, t: Token)
    requires n <= |hosts|
    ensures t in TokensOf(hosts, n) <==> t in OwnersOf(hosts, n)
    ensures t in OwnersOf(hosts, n) ==> OwnersOf(hosts, n)[t].datacenter in DatacentersOf(hosts, n)
    decreases n
  {
    if n > 0 {
      HasOwner(hosts, n - 1, t);
    }
  }

  // ----- Keyspaces -----

  /** The mapper chosen by `getTokenToReplicaMapper`; SimpleStrategy with a factor of one or less has none. */
  datatype Strategy = Simple(replicationFactor: int) | Network(factors: map<string, int>) | NoStrategy

  class Keyspace {
    const strategy: Strategy
    var replicas: Option<map<Token, seq<Host>>>

    constructor (strategy: Strategy)
      ensures this.strategy == strategy && replicas == None
    {
      this.strategy, replicas := strategy, None;
    }
  }

  /** The replicas of every ring token under a strategy. */
  function ReplicasFor(strategy: Strategy, ring: seq<Token>, owners: map<Token, Host>, datacenters: map<string, Datacenter>)
    : map<Token, seq<Host>>
    requires forall i :: 0 <= i < |ring| ==> ring[i] in owners
  {
    match strategy
    case Simple(rf) =>
      if rf > 1 then Table(ring, SimpleAnswers(rf, Owners(ring, owners)), |ring|) else map t | t in owners :: [owners[t]]
    case Network(factors) =>
      Table(ring, NetworkAnswers(Config(factors, datacenters), Owners(ring, owners)), |ring|)
    case NoStrategy => map t | t in owners :: [owners[t]]
  }

  // ----- The object -----

  lemma NextIndex(i: nat, n: nat)
    requires i < n
    ensures (i + 1) % n == if i + 1 == n then 0 else i + 1
  {
  }

  lemma RangeAt(ring: seq<Token>, min: Token, i: nat)
    requires i < |ring|
    ensures var all := RingRanges(ring, min);
      && |all| == |ring| && (|ring| == 1 ==> all == [TokenRange(min, min)])
      && (|ring| != 1 ==> all[i] == TokenRange(ring[i], ring[(i + 1) % |ring|]))
  {
    NextIndex(i, |ring|);
  }

  lemma NoRanges(min: Token)
    ensures RingRanges([], min) == []
  {
  }

  lemma PlaceInside(ring: seq<Token>, token: Token, i: nat)
    requires (i < |ring| && ring[i] == token) || IsPlaceOf(ring, token, i)
    ensures i <= |ring|
  {
  }

  /** A found position serves the token, and so does the place where the token belongs, around the ring. */
  lemma PlaceServes(ring: seq<Token>, token: Token, i: nat)
    requires Sorted(ring) && ring != []
    requires (i < |ring| && ring[i] == token) || IsPlaceOf(ring, token, i)
    ensures var j := if i < |ring| then i else 0;
      Serves(ring, token, ring[j]) && (StrictlySorted(ring) ==> IsOwnerIndex(ring, token, j))
  {
  }

  class Metadata {
    const minToken: Token
    var ring: Option<seq<Token>>
    var primaryReplicas: map<Token, Host>
    var tokenRanges: seq<TokenRange>
    var datacenters: map<string, Datacenter>
    var keyspaces: map<string, Keyspace>

    constructor (minToken: Token)
      ensures this.minToken == minToken && ring == None && keyspaces == map[]
    {
      this.minToken := minToken;
      ring, primaryReplicas, tokenRanges, datacenters, keyspaces := None, map[], [], map[], map[];
    }

    /** The ring is sorted and every token on it has a host in a known datacenter. */
    ghost predicate Built()
      reads this
    {
      && ring.Some? && Sorted(ring.value)
      && (forall i :: 0 <= i < |ring.value| ==> ring.value[i] in primaryReplicas)
      && (forall t :: t in primaryReplicas ==> primaryReplicas[t].datacenter in datacenters)
      && tokenRanges == RingRanges(ring.value, minToken)
    }

    method BuildTokens(hosts: seq<Member>)
      modifies this`ring, this`primaryReplicas, this`tokenRanges, this`datacenters
      ensures Built()
      ensures multiset(ring.value) == multiset(TokensOf(hosts, |hosts|))
      ensures primaryReplicas == OwnersOf(hosts, |hosts|)
      ensures datacenters == DatacentersOf(hosts, |hosts|)
    {
      var allSorted, primaries, dcs := CollectTokens(hosts);
      OwnersCover(hosts, |hosts|, allSorted);
      primaryReplicas, ring, datacenters := primaries, Some(allSorted), dcs;
      tokenRanges := BuildRanges(allSorted);
    }

    /** The pass over the hosts. */
    method CollectTokens(hosts: seq<Member>)
      returns (allSorted: seq<Token>, primaries: map<Token, Host>, dcs: map<string, Datacenter>)
      ensures Sorted(allSorted) && multiset(allSorted) == multiset(TokensOf(hosts, |hosts|))
      ensures primaries == OwnersOf(hosts, |hosts|) && dcs == DatacentersOf(hosts, |hosts|)
    {
      allSorted, primaries, dcs := [], map[], map[];
      for n := 0 to |hosts|
        invariant Sorted(allSorted) && multiset(allSorted) == multiset(TokensOf(hosts, n))
        invariant primaries == OwnersOf(hosts, n) && dcs == DatacentersOf(hosts, n)
      {
        var m := hosts[n];
        if m.tokens.Some? {
          allSorted, primaries := InsertTokens(allSorted, primaries, m.host, m.tokens.value);
          dcs := Count(dcs, m.host);
        }
      }
    }

    method InsertTokens(sorted: seq<Token>, primaries: map<Token, Host>, host: Host, tokens: seq<Token>)
      returns (sorted': seq<Token>, primaries': map<Token, Host>)
      requires Sorted(sorted)
      ensures Sorted(sorted') && multiset(sorted') == multiset(sorted) + multiset(tokens)
      ensures primaries' == primaries + AllTo(tokens, host)
    {
      sorted', primaries' := sorted, primaries;
      for k := 0 to |tokens|
        invariant Sorted(sorted') && multiset(sorted') == multiset(sorted) + multiset(tokens[..k])
        invariant primaries' == primaries + AllTo(tokens[..k], host)
      {
        AllToStep(primaries, tokens, host, k);
        assert tokens[..k + 1] == tokens[..k] + [tokens[k]];
        sorted' := InsertSorted(sorted', tokens[k]);
        primaries' := primaries'[tokens[k] := host];
      }
      assert tokens[..|tokens|] == tokens;
    }

    method BuildRanges(ring: seq<Token>) returns (ranges: seq<TokenRange>)
      ensures ranges == RingRanges(ring, minToken)
    {
      hide RingRanges;
      ranges := [];
      ghost var all := RingRanges(ring, minToken);
      if |ring| == 0 {
        NoRanges(minToken);
      } else {
        RangeAt(ring, minToken, 0);
      }
      if |ring| == 1 {
        // one token: its range is the whole ring
        return [TokenRange(minToken, minToken)];
      }
      for i := 0 to |ring|
        invariant ranges == all[..i]
      {
        var start := ring[i];
        RangeAt(ring, minToken, i);
        NextIndex(i, |ring|);
        var end := ring[(i + 1) % |ring|];
        assert all[..i + 1] == all[..i] + [all[i]];
        ranges := ranges + [TokenRange(start, end)];
      }
      assert all[..|ring|] == all;
    }

    /** The replica table of a keyspace: the cached one, or else computed now and cached. */
    ghost function TableOf(k: Keyspace): map<Token, seq<Host>>
      requires Built()
      reads this, k
    {
      if k.replicas.Some? then k.replicas.value
      else ReplicasFor(k.strategy, ring.value, primaryReplicas, datacenters)
    }

    method GetKeyspaceReplicas(k: Keyspace) returns (r: map<Token, seq<Host>>)
      requires Built()
      modifies k
      ensures r == old(TableOf(k)) && k.replicas == Some(r)
    {
      if k.replicas.None? {
        var table;
        match k.strategy {
          case Simple(rf) =>
            if rf > 1 {
              table := TokenSimpleStrategy(rf, ring.value, primaryReplicas);
            } else {
              table := map t | t in primaryReplicas :: [primaryReplicas[t]];
            }
          case Network(factors) =>
            table := TokenNetworkStrategy(Config(factors, datacenters), ring.value, primaryReplicas);
          case NoStrategy =>
            table := map t | t in primaryReplicas :: [primaryReplicas[t]];
        }
        k.replicas := Some(table);
      }
      r := k.replicas.value;
    }

    /** The ring position whose replicas serve `token`. */
    method OwnerIndex(token: Token) returns (i: nat)
      requires Built() && ring.value != []
      ensures i < |ring.value|
      ensures StrictlySorted(ring.value) ==> IsOwnerIndex(ring.value, token, i)
      ensures Serves(ring.value, token, ring.value[i])
    {
      hide Serves, IsOwnerIndex, IsPlaceOf, StrictlySorted, RingRanges, Sorted;
      var r := BinarySearch(ring.value, token);
      if r < 0 {
        r := -r - 1;
      }
      assert r <= |ring.value| by {
        PlaceInside(ring.value, token, r);
      }
      PlaceServes(ring.value, token, r);
      if r >= |ring.value| {
        // past the last token, the first one owns it
        r := r % |ring.value|;
      }
      i := r;
    }

    /**
     The replicas of a token in a keyspace, or the token's owner if no keyspace is named.
     None stands for `null` and for entries that do not exist.
     */
    method GetReplicas(keyspaceName: Option<string>, token: Token) returns (r: Option<seq<Host>>)
      requires ring.Some? ==> Built()
      modifies set name | name in keyspaces :: keyspaces[name]
      ensures ring.None? || (keyspaceName.Some? && keyspaceName.value !in keyspaces) ==> r == None
      ensures Built() && ring.value != [] && (keyspaceName.Some? ==> keyspaceName.value in keyspaces) ==>
        exists i :: 0 <= i < |ring.value|
          && (StrictlySorted(ring.value) ==> IsOwnerIndex(ring.value, token, i)) && Serves(ring.value, token, ring.value[i])
          && r == match keyspaceName {
                    case None => Some([primaryReplicas[ring.value[i]]])
                    case Some(name) =>
                      var table := old(TableOf(keyspaces[name]));
                      if ring.value[i] in table then Some(table[ring.value[i]]) else None
                  }
    {
      if ring.None? || (keyspaceName.Some? && keyspaceName.value !in keyspaces) || |ring.value| == 0 {
        return None;
      }
      var i := OwnerIndex(token);
      var closestToken := ring.value[i];
      if keyspaceName.None? {
        return Some([primaryReplicas[closestToken]]);
      }
      var replicas := GetKeyspaceReplicas(keyspaces[keyspaceName.value]);
      r := if closestToken in replicas then Some(replicas[closestToken]) else None;
    }

    /**
     The ranges whose end token is replicated on `host`. The value is None where the ring or the keyspace is not
     known; the method throws without a keyspace, and where a range's end has no entry.
     */
    method GetTokenRangesForHost(keyspaceName: Option<string>, host: Host) returns (r: Outcome<Option<seq<TokenRange>>>)
      requires ring.Some? ==> Built()
      modifies set name | name in keyspaces :: keyspaces[name]
      ensures ring.None? || (keyspaceName.Some? && keyspaceName.value !in keyspaces) ==> r == Returns(None)
      ensures Built() && (keyspaceName.Some? ==> keyspaceName.value in keyspaces) ==>
        if |ring.value| == 1 then r == Returns(Some(tokenRanges))
        else if keyspaceName.None? then r.Fails?
        else
          var table := old(TableOf(keyspaces[keyspaceName.value]));
          if forall x :: x in tokenRanges ==> x.end in table
          then r.Returns? && r.value.Some?
               && forall x :: x in r.value.value <==> x in tokenRanges && x.end in table && host in table[x.end]
          else r.Fails?
    {
      if ring.None? || (keyspaceName.Some? && keyspaceName.value !in keyspaces) {
        return Returns(None);
      }
      if |ring.value| == 1 {
        return Returns(Some(tokenRanges));
      }
      if keyspaceName.None? {
        return Fails;
      }
      var replicas := GetKeyspaceReplicas(keyspaces[keyspaceName.value]);
      r := RangesServedBy(replicas, host);
    }

    method RangesServedBy(replicas: map<Token, seq<Host>>, host: Host) returns (r: Outcome<Option<seq<TokenRange>>>)
      ensures if forall x :: x in tokenRanges ==> x.end in replicas
        then r.Returns? && r.value.Some?
             && forall x :: x in r.value.value <==> x in tokenRanges && x.end in replicas && host in replicas[x.end]
        else r.Fails?
    {
      var found := [];
      for i := 0 to |tokenRanges|
        invariant forall x :: x in tokenRanges[..i] ==> x.end in replicas
        invariant forall x :: x in found <==> x in tokenRanges[..i] && x.end in replicas && host in replicas[x.end]
      {
        assert tokenRanges[..i + 1] == tokenRanges[..i] + [tokenRanges[i]];
        if tokenRanges[i].end !in replicas {
          return Fails;
        }
        if host in replicas[tokenRanges[i].end] {
          found := found + [tokenRanges[i]];
        }
      }
      assert tokenRanges[..|tokenRanges|] == tokenRanges;
      r := Returns(Some(found));
    }
  }

  // ----- What the pieces mean together -----

  ghost predicate NoRepeatedTokens(tokens: seq<Token>) {
    forall i, j :: 0 <= i < j < |tokens| ==> tokens[i] != tokens[j]
  }

  ghost predicate Disjoint(a: seq<Token>, b: seq<Token>) {
    forall t :: t in a ==> t !in b
  }

  /** Different hosts, each known by at least one token, and no token claimed twice. */
  ghost predicate DistinctMembers(hosts: seq<Member>) {
    && (forall i, j :: 0 <= i < j < |hosts| ==> hosts[i].host != hosts[j].host)
    && (forall i :: 0 <= i < |hosts| && hosts[i].tokens.Some? ==>
        hosts[i].tokens.value != [] && NoRepeatedTokens(hosts[i].tokens.value))
    && (forall i, j :: 0 <= i < j < |hosts| && hosts[i].tokens.Some? && hosts[j].tokens.Some? ==>
        Disjoint(hosts[i].tokens.value, hosts[j].tokens.value))
  }

  lemma {:induction false} TokensComeFromMembers(hosts: seq<Member>, n: nat, t: Token) returns (i: nat)
    requires n <= |hosts| && t in TokensOf(hosts, n)
    ensures i < n && hosts[i].tokens.Some? && t in hosts[i].tokens.value
    decreases n
  {
    if hosts[n - 1].tokens.Some? && t in hosts[n - 1].tokens.value {
      i := n - 1;
    } else {
      i := TokensComeFromMembers(hosts, n - 1, t);
    }
  }

  lemma {:induction false} TokensDistinct(hosts: seq<Member>, n: nat)
    requires n <= |hosts| && DistinctMembers(hosts)
    ensures NoRepeatedTokens(TokensOf(hosts, n))
    decreases n
  {
    if n > 0 && hosts[n - 1].tokens.Some? {
      TokensDistinct(hosts, n - 1);
      var before, own := TokensOf(hosts, n - 1), hosts[n - 1].tokens.value;
      forall i, j | 0 <= i < |before| && 0 <= j < |own|
        ensures before[i] != own[j]
      {
        var k := TokensComeFromMembers(hosts, n - 1, before[i]);
        assert Disjoint(hosts[k].tokens.value, own);
      }
    } else if n > 0 {
      TokensDistinct(hosts, n - 1);
    }
  }

  lemma {:induction false} CountsAtMostOnce(tokens: seq<Token>, t: Token)
    requires NoRepeatedTokens(tokens)
    ensures multiset(tokens)[t] <= 1
    decreases |tokens|
  {
    if tokens != [] {
      CountsAtMostOnce(tokens[1..], t);
      assert tokens == [tokens[0]] + tokens[1..];
      assert tokens[0] == t ==> t !in tokens[1..];
    }
  }

  /** Sorting tokens that do not repeat gives a strictly sorted ring. */
  lemma {:induction false} StrictRing(ring: seq<Token>, tokens: seq<Token>)
    requires Sorted(ring) && NoRepeatedTokens(tokens) && multiset(ring) == multiset(tokens)
    ensures StrictlySorted(ring)
  {
    forall i, j | 0 <= i < j < |ring|
      ensures ring[i] < ring[j]
    {
      CountsAtMostOnce(tokens, ring[i]);
      var first, rest := ring[..j], ring[j..];
      assert ring == first + rest;
      assert ring[i] in first && first[i] == ring[i] && rest[0] == ring[j];
    }
  }

  /**
   On every ring of two or more tokens that partitions the token space, a host is among the replicas of a token
   exactly when the token lies in a range reported for the host.
   */
  lemma {:induction false} RangesForHostAgree(ring: seq<Token>, min: Token, table: map<Token, seq<Host>>,
                                              host: Host, token: Token, t: Token)
    requires Sorted(ring) && Splits(ring, min) && AtLeast(ring, min) && min <= token && |ring| >= 2
    requires Serves(ring, token, t)
    requires forall i :: 0 <= i < |ring| ==> ring[i] in table
    ensures host in table[t] <==>
      exists x :: x in RingRanges(ring, min) && x.end in table && host in table[x.end] && x.Contains(min, token)
  {
    var ranges := RingRanges(ring, min);
    var owner := OwnerExists(ring, token);
    var before := if owner == 0 then |ring| - 1 else owner - 1;
    RangeEndsAtOwner(ring, min, token, owner, before);
    OneServes(ring, token, t, ring[owner]);
    assert ranges[before] in ranges && ranges[before].end == t;
    forall x | x in ranges && x.Contains(min, token)
      ensures x == ranges[before]
    {
      var i :| 0 <= i < |ranges| && ranges[i] == x;
      RangeEndsAtOwner(ring, min, token, owner, i);
    }
  }

  /** The hosts with tokens among the first `n`. */
  ghost function Listed(hosts: seq<Member>, n: nat): set<Host>
    requires n <= |hosts|
  {
    set i | 0 <= i < n && hosts[i].tokens.Some? :: hosts[i].host
  }

  ghost function ListedIn(hosts: seq<Member>, n: nat, dc: string): set<Host>
    requires n <= |hosts|
  {
    set h | h in Listed(hosts, n) && h.datacenter == dc
  }

  /** The datacenter table counts the listed hosts and collects their racks. */
  lemma {:induction false} DatacentersCount(hosts: seq<Member>, n: nat, dc: string)
    requires n <= |hosts| && DistinctMembers(hosts)
    ensures dc in DatacentersOf(hosts, n) ==>
      DatacentersOf(hosts, n)[dc] == Datacenter(|ListedIn(hosts, n, dc)|, RacksOf(ListedIn(hosts, n, dc)))
    ensures dc !in DatacentersOf(hosts, n) ==> ListedIn(hosts, n, dc) == {}
    decreases n
  {
    if n > 0 {
      DatacentersCount(hosts, n - 1, dc);
      ListedStep(hosts, n, dc);
      RacksUnion(ListedIn(hosts, n - 1, dc), {hosts[n - 1].host});
      RacksOfOne(hosts[n - 1].host);
    }
  }

  lemma {:induction false} ListedStep(hosts: seq<Member>, n: nat, dc: string)
    requires 0 < n <= |hosts| && DistinctMembers(hosts)
    ensures var m, before := hosts[n - 1], ListedIn(hosts, n - 1, dc);
      && m.host !in before
      && ListedIn(hosts, n, dc) == if m.tokens.Some? && m.host.datacenter == dc then before + {m.host} else before
  {
    var m := hosts[n - 1];
    assert Listed(hosts, n) == if m.tokens.Some? then Listed(hosts, n - 1) + {m.host} else Listed(hosts, n - 1);
  }

  lemma {:induction false} OwnerKept(hosts: seq<Member>, n: nat, k: nat, t: Token)
    requires k < n <= |hosts| && DistinctMembers(hosts) && hosts[k].tokens.Some? && t in hosts[k].tokens.value
    ensures t in OwnersOf(hosts, n) && OwnersOf(hosts, n)[t] == hosts[k].host
    decreases n
  {
    if k < n - 1 {
      OwnerKept(hosts, n - 1, k, t);
      assert hosts[n - 1].tokens.Some? ==> Disjoint(hosts[k].tokens.value, hosts[n - 1].tokens.value);
    }
  }

  lemma {:induction false} OwnerIsListed(hosts: seq<Member>, n: nat, t: Token) returns (k: nat)
    requires n <= |hosts| && t in OwnersOf(hosts, n)
    ensures k < n && hosts[k].tokens.Some? && hosts[k].host == OwnersOf(hosts, n)[t]
    decreases n
  {
    if hosts[n - 1].tokens.Some? && t in hosts[n - 1].tokens.value {
      k := n - 1;
    } else {
      k := OwnerIsListed(hosts, n - 1, t);
    }
  }

  /** Every owner met around the ring is a listed host. */
  lemma {:induction false} MetIsListed(hosts: seq<Member>, ring: seq<Token>, i: nat, j: nat) returns (k: nat)
    requires i < |ring| && j < |ring| && forall p :: 0 <= p < |ring| ==> ring[p] in OwnersOf(hosts, |hosts|)
    ensures k < |hosts| && hosts[k].tokens.Some?
    ensures hosts[k].host == Clockwise(Owners(ring, OwnersOf(hosts, |hosts|)), i)[j]
  {
    k := OwnerIsListed(hosts, |hosts|, ring[Wrap(i + j, |ring|)]);
  }

  /** Every listed host is met around the ring. */
  lemma {:induction false} ListedIsMet(hosts: seq<Member>, ring: seq<Token>, i: nat, k: nat)
    requires DistinctMembers(hosts) && i < |ring| && multiset(ring) == multiset(TokensOf(hosts, |hosts|))
    requires forall p :: 0 <= p < |ring| ==> ring[p] in OwnersOf(hosts, |hosts|)
    requires k < |hosts| && hosts[k].tokens.Some?
    ensures hosts[k].host in Clockwise(Owners(ring, OwnersOf(hosts, |hosts|)), i)
  {
    var owners := Owners(ring, OwnersOf(hosts, |hosts|));
    var t := hosts[k].tokens.value[0];
    OwnerKept(hosts, |hosts|, k, t);
    HasOwner(hosts, |hosts|, t);
    assert t in multiset(ring);
    var p :| 0 <= p < |ring| && ring[p] == t;
    assert owners[p] == hosts[k].host;
    ClockwiseRotates(owners, i);
    assert owners == owners[..i] + owners[i..];
  }

  /** The owners met clockwise from any position are the listed hosts. */
  lemma {:induction false} OwnersOnRing(hosts: seq<Member>, ring: seq<Token>, i: nat, dc: string)
    requires DistinctMembers(hosts) && i < |ring| && multiset(ring) == multiset(TokensOf(hosts, |hosts|))
    requires forall k :: 0 <= k < |ring| ==> ring[k] in OwnersOf(hosts, |hosts|)
    ensures HostsIn(Clockwise(Owners(ring, OwnersOf(hosts, |hosts|)), i), dc) == ListedIn(hosts, |hosts|, dc)
  {
    var around := Clockwise(Owners(ring, OwnersOf(hosts, |hosts|)), i);
    forall h | h in Listed(hosts, |hosts|)
      ensures h in around
    {
      var k :| 0 <= k < |hosts| && hosts[k].tokens.Some? && hosts[k].host == h;
      ListedIsMet(hosts, ring, i, k);
    }
    forall h | h in around
      ensures h in Listed(hosts, |hosts|)
    {
      var j :| 0 <= j < |around| && around[j] == h;
      var k := MetIsListed(hosts, ring, i, j);
    }
  }

  /** The built datacenter table describes the ring as the placement laws need it. */
  lemma {:induction false} BuiltDescribes(hosts: seq<Member>, ring: seq<Token>, factors: map<string, int>, i: nat)
    requires DistinctMembers(hosts) && i < |ring| && multiset(ring) == multiset(TokensOf(hosts, |hosts|))
    requires forall k :: 0 <= k < |hosts| ==> hosts[k].host.rack.Some?
    ensures forall k :: 0 <= k < |ring| ==> ring[k] in OwnersOf(hosts, |hosts|)
    ensures Describes(Config(factors, DatacentersOf(hosts, |hosts|)),
                      Clockwise(Owners(ring, OwnersOf(hosts, |hosts|)), i))
  {
    OwnersCover(hosts, |hosts|, ring);
    var owners := OwnersOf(hosts, |hosts|);
    var around := Clockwise(Owners(ring, owners), i);
    forall j | 0 <= j < |around|
      ensures around[j].rack.Some? && around[j].datacenter in DatacentersOf(hosts, |hosts|)
    {
      var k := MetIsListed(hosts, ring, i, j);
      DatacentersCount(hosts, |hosts|, around[j].datacenter);
      assert around[j] in ListedIn(hosts, |hosts|, around[j].datacenter);
    }
    forall dc | dc in DatacentersOf(hosts, |hosts|)
      ensures DatacentersOf(hosts, |hosts|)[dc] == Datacenter(|HostsIn(around, dc)|, RacksOf(HostsIn(around, dc)))
    {
      DatacentersCount(hosts, |hosts|, dc);
      OwnersOnRing(hosts, ring, i, dc);
    }
  }

  /**
   From members to replicas: under NetworkTopologyStrategy, where no more replicas are wanted than there
   are racks, the table entry of every token holds exactly that many hosts of each datacenter, each on a
   rack of its own.
   */
  lemma {:induction false} BuiltReplicasSpread(hosts: seq<Member>, ring: seq<Token>, factors: map<string, int>, i: nat, dc: string)
    requires DistinctMembers(hosts) && Sorted(ring) && i < |ring| && multiset(ring) == multiset(TokensOf(hosts, |hosts|))
    requires forall k :: 0 <= k < |hosts| ==> hosts[k].host.rack.Some?
    requires FitsRacks(Config(factors, DatacentersOf(hosts, |hosts|)))
    requires dc in DatacentersOf(hosts, |hosts|) && dc in factors && factors[dc] >= 0
    ensures forall k :: 0 <= k < |ring| ==> ring[k] in OwnersOf(hosts, |hosts|)
    ensures var table := ReplicasFor(Network(factors), ring, OwnersOf(hosts, |hosts|), DatacentersOf(hosts, |hosts|));
      && ring[i] in table && NoRepeats(table[ring[i]])
      && |HostsIn(table[ring[i]], dc)| == Config(factors, DatacentersOf(hosts, |hosts|)).Wanted(dc)
      && |RacksOf(HostsIn(table[ring[i]], dc))| == Config(factors, DatacentersOf(hosts, |hosts|)).Wanted(dc)
      && HostsIn(table[ring[i]], dc) <= ListedIn(hosts, |hosts|, dc)
  {
    BuiltDescribes(hosts, ring, factors, i);
    OwnersOnRing(hosts, ring, i, dc);
    var c := Config(factors, DatacentersOf(hosts, |hosts|));
    var owners := Owners(ring, OwnersOf(hosts, |hosts|));
    TokensDistinct(hosts, |hosts|);
    StrictRing(ring, TokensOf(hosts, |hosts|));
    TableLookup(ring, NetworkAnswers(c, owners), |ring|, i);
    ExactSpread(c, Clockwise(owners, i), dc);
  }
}
