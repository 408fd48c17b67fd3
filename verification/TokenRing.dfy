/** Sorted insertion and lookup (lib/utils.js), and what a sorted ring means for its ranges. */
module TokenRing {
  import opened TokenRanges

  ghost predicate Sorted(ring: seq<Token>) {
    forall i, j :: 0 <= i < j < |ring| ==> ring[i] <= ring[j]
  }

  ghost predicate StrictlySorted(ring: seq<Token>) {
    forall i, j :: 0 <= i < j < |ring| ==> ring[i] < ring[j]
  }

  /** `p` is where `key` belongs: everything before it is smaller, everything from it on is not. */
  ghost predicate IsPlaceOf(arr: seq<Token>, key: Token, p: nat) {
    && p <= |arr|
    && (forall i :: 0 <= i < p ==> arr[i] < key)
    && (forall i :: p <= i < |arr| ==> key < arr[i])
  }

  /** A position of `key`, or the bitwise complement (-p - 1) of the place where it belongs. */
  method BinarySearch(arr: seq<Token>, key: Token) returns (r: int)
    requires Sorted(arr)
    ensures r >= 0 ==> r < |arr| && arr[r] == key
    ensures r < 0 ==> IsPlaceOf(arr, key, -r - 1)
  {
    var low, high := 0, |arr| - 1;
    while low <= high
      invariant 0 <= low <= high + 1 <= |arr|
      invariant forall i :: 0 <= i < low ==> arr[i] < key
      invariant forall i :: high < i < |arr| ==> key < arr[i]
    {
      var mid := (low + high) / 2;
      if arr[mid] < key {
        low := mid + 1;
      } else if arr[mid] > key {
        high := mid - 1;
      } else {
        return mid;
      }
    }
    return -low - 1;
  }

  method InsertSorted(arr: seq<Token>, item: Token) returns (r: seq<Token>)
    requires Sorted(arr)
    ensures Sorted(r) && multiset(r) == multiset(arr) + multiset{item}
  {
    if |arr| == 0 {
      return [item];
    }
    var position := BinarySearch(arr, item);
    if position < 0 {
      position := -position - 1;
    }
    assert 0 <= position <= |arr|;
    assert (forall i :: 0 <= i < position ==> arr[i] <= item) && (forall i :: position <= i < |arr| ==> item <= arr[i]);
    r := arr[..position] + [item] + arr[position..];
    hide Sorted;
    StaysSorted(arr, position, item);
    SameTokens(arr, position, item);
  }

  lemma StaysSorted(arr: seq<Token>, p: nat, item: Token)
    requires p <= |arr| && Sorted(arr)
    requires (forall i :: 0 <= i < p ==> arr[i] <= item) && (forall i :: p <= i < |arr| ==> item <= arr[i])
    ensures Sorted(arr[..p] + [item] + arr[p..])
  {
    var r := arr[..p] + [item] + arr[p..];
    forall i, j | 0 <= i < j < |r|
      ensures r[i] <= r[j]
    {
      var a := if i < p then arr[i] else if i == p then item else arr[i - 1];
      var b := if j < p then arr[j] else if j == p then item else arr[j - 1];
      assert r[i] == a && r[j] == b;
    }
  }

  lemma SameTokens(arr: seq<Token>, p: nat, item: Token)
    requires p <= |arr|
    ensures multiset(arr[..p] + [item] + arr[p..]) == multiset(arr) + multiset{item}
  {
    assert arr == arr[..p] + arr[p..];
  }

  // ----- Ranges of a ring -----

  /** The ranges that end at each token's successor; the whole ring if there is one token. */
  function RingRanges(ring: seq<Token>, min: Token): (r: seq<TokenRange>)
    ensures |r| == |ring|
  {
    if |ring| == 1 then [TokenRange(min, min)]
    else seq(|ring|, i requires 0 <= i < |ring| => TokenRange(ring[i], ring[if i + 1 == |ring| then 0 else i + 1]))
  }

  /** The position that `getReplicas` looks replicas up at: the first ring token not before `token`, around the ring. */
  ghost predicate IsOwnerIndex(ring: seq<Token>, token: Token, p: nat) {
    && p < |ring|
    && if token <= ring[|ring| - 1]
       then ring[p] >= token && forall i :: 0 <= i < p ==> ring[i] < token
       else p == 0
  }

  /** The ring token that serves `token`, also where tokens are repeated: the first not before it, around the ring. */
  ghost predicate Serves(ring: seq<Token>, token: Token, t: Token) {
    && t in ring
    && if exists x :: x in ring && token <= x then token <= t && forall x :: x in ring && token <= x ==> t <= x
       else forall x :: x in ring ==> t <= x
  }

  ghost predicate AtLeast(ring: seq<Token>, min: Token) {
    forall i :: 0 <= i < |ring| ==> min <= ring[i]
  }

  /** Every token is in exactly one range. */
  ghost predicate Partition(ranges: seq<TokenRange>, min: Token) {
    forall token {:trigger AtMostOne(ranges, min, token)} :: min <= token ==>
      SomeContains(ranges, min, token) && AtMostOne(ranges, min, token)
  }

  /** What goes wrong on a ring with repeated tokens: they are all the same, or the minimum is repeated. */
  predicate Splits(ring: seq<Token>, min: Token) {
    |ring| == 1 || (|ring| >= 2 && ring[0] < ring[|ring| - 1] && ring[1] != min)
  }

  /** The number of tokens of a sorted ring that are smaller than `token`. */
  lemma {:induction false} PlaceExists(ring: seq<Token>, token: Token) returns (p: nat)
    requires Sorted(ring)
    ensures p <= |ring| && (forall i :: 0 <= i < p ==> ring[i] < token) && (forall i :: p <= i < |ring| ==> token <= ring[i])
  {
    p := 0;
    while p < |ring| && ring[p] < token
      invariant p <= |ring| && forall i :: 0 <= i < p ==> ring[i] < token
    {
      p := p + 1;
    }
  }

  /** On a ring that splits, the range that holds a token is the one just before the token's place. */
  lemma {:induction false} OneRangeHolds(ring: seq<Token>, min: Token, token: Token, p: nat, i: nat)
    requires Sorted(ring) && AtLeast(ring, min) && min <= token && |ring| >= 2 && Splits(ring, min) && i < |ring|
    requires p <= |ring| && (forall k :: 0 <= k < p ==> ring[k] < token) && (forall k :: p <= k < |ring| ==> token <= ring[k])
    ensures RingRanges(ring, min)[i].Contains(min, token) <==> i == (if p == 0 then |ring| - 1 else p - 1)
  {
    var next := if i + 1 == |ring| then 0 else i + 1;
    assert RingRanges(ring, min)[i] == TokenRange(ring[i], ring[next]);
  }

  lemma {:induction false} SplitRingPartitions(ring: seq<Token>, min: Token)
    requires Sorted(ring) && AtLeast(ring, min) && Splits(ring, min)
    ensures Partition(RingRanges(ring, min), min)
  {
    var ranges := RingRanges(ring, min);
    forall token | min <= token
      ensures SomeContains(ranges, min, token) && AtMostOne(ranges, min, token)
    {
      if |ring| == 1 {
        assert ranges[0].Contains(min, token);
      } else {
        var p := PlaceExists(ring, token);
        forall i | 0 <= i < |ranges|
          ensures ranges[i].Contains(min, token) <==> i == (if p == 0 then |ring| - 1 else p - 1)
        {
          OneRangeHolds(ring, min, token, p, i);
        }
        assert ranges[if p == 0 then |ring| - 1 else p - 1].Contains(min, token);
      }
    }
  }

  /** The ranges of a sorted ring partition the token space exactly when the ring splits it. */
  lemma {:induction false} PartitionExactly(ring: seq<Token>, min: Token)
    requires Sorted(ring) && AtLeast(ring, min)
    ensures Partition(RingRanges(ring, min), min) <==> Splits(ring, min)
  {
    if Splits(ring, min) {
      SplitRingPartitions(ring, min);
    } else {
      RepeatsDoNotPartition(ring, min);
      var atMostOne := AtMostOne(RingRanges(ring, min), min, min);
    }
  }

  lemma {:induction false} RepeatsDoNotPartition(ring: seq<Token>, min: Token)
    requires Sorted(ring) && AtLeast(ring, min) && !Splits(ring, min)
    ensures !SomeContains(RingRanges(ring, min), min, min) || !AtMostOne(RingRanges(ring, min), min, min)
  {
    var ranges := RingRanges(ring, min);
    if |ring| >= 2 && ring[1] == min {
      // the first range is the whole ring, and the last one ends at the minimum
      assert ring[0] == min;
      assert ranges[0].Contains(min, min) && ranges[|ring| - 1].Contains(min, min);
    } else {
      // every range starts and ends at the one token
      forall i | 0 <= i < |ranges|
        ensures ranges[i].IsEmpty(min)
      {
        assert ring[0] <= ring[i] <= ring[|ring| - 1];
        assert ring[0] <= ring[if i + 1 == |ring| then 0 else i + 1] <= ring[|ring| - 1];
        assert ring[0] <= ring[1] <= ring[|ring| - 1];
      }
    }
  }

  /** Different tokens always split. */
  lemma StrictRingSplits(ring: seq<Token>, min: Token)
    requires StrictlySorted(ring) && AtLeast(ring, min) && ring != []
    ensures Sorted(ring) && Splits(ring, min)
  {
    assert |ring| >= 2 ==> ring[0] < ring[1] && ring[0] < ring[|ring| - 1];
  }

  /**
   On every ring of two or more tokens that partitions the token space, the range that holds a token is the one
   that ends at the first position whose token serves it, also around the end of the ring and at the minimum token.
   */
  lemma {:induction false} RangeEndsAtOwner(ring: seq<Token>, min: Token, token: Token, p: nat, i: nat)
    requires Sorted(ring) && Splits(ring, min) && AtLeast(ring, min) && min <= token && |ring| >= 2
    requires IsOwnerIndex(ring, token, p) && i < |ring|
    ensures RingRanges(ring, min)[i].Contains(min, token) <==> p == if i + 1 == |ring| then 0 else i + 1
    ensures Serves(ring, token, ring[p])
  {
    var place := if token <= ring[|ring| - 1] then p else |ring|;
    OneRangeHolds(ring, min, token, place, i);
    forall x | x in ring && token <= x
      ensures token <= ring[|ring| - 1]
    {
    }
    if token <= ring[|ring| - 1] {
      assert ring[|ring| - 1] in ring;
    }
  }

  lemma OneServes(ring: seq<Token>, token: Token, t: Token, u: Token)
    requires Serves(ring, token, t) && Serves(ring, token, u)
    ensures t == u
  {
  }

  /** Every token has an owner. */
  lemma {:induction false} OwnerExists(ring: seq<Token>, token: Token) returns (p: nat)
    requires Sorted(ring) && ring != []
    ensures IsOwnerIndex(ring, token, p)
  {
    p := PlaceExists(ring, token);
    if p == |ring| {
      p := 0;
    }
  }
}
