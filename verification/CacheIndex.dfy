/**
 What the cache index means over whole runs: any sequence of requests on an empty tree
 invokes the value handler once per distinct key, in order of first use, and every
 request is answered with the item of its key.
 */
module CacheIndex {
  import opened Wrappers
  import opened CacheSpec
  import RadixTree

  /** The index and the number of handler calls after a run. */
  datatype Run<V> = Run(index: Index<V>, calls: nat)

  ghost function Serve<V>(keys: seq<Key>, supply: nat -> V): Run<V> {
    if keys == [] then Run(Index(map[], 0), 0)
    else
      var before := Serve(keys[..|keys| - 1], supply);
      var key := keys[|keys| - 1];
      Run(Step(before.index, key, supply(before.calls)),
          before.calls + if Creates(before.index, key) then 1 else 0)
  }

  ghost function AnswerAt<V>(keys: seq<Key>, supply: nat -> V, i: nat): Option<V>
    requires i < |keys|
  {
    var before := Serve(keys[..i], supply);
    Answer(before.index, keys[i], supply(before.calls))
  }

  /** The reference: distinct keys numbered in order of first use. */
  ghost function FirstUse(keys: seq<Key>): map<Key, nat> {
    if keys == [] then map[]
    else
      var before := FirstUse(keys[..|keys| - 1]);
      var key := keys[|keys| - 1];
      if key in before then before else before[key := |before|]
  }

  /** The requests that gave a value to a node that was already joining two branches. */
  ghost function Fills(keys: seq<Key>): nat {
    if keys == [] then 0
    else
      var before := FirstUse(keys[..|keys| - 1]);
      var key := keys[|keys| - 1];
      Fills(keys[..|keys| - 1]) + if key !in before && BranchPoint(before.Keys, key) then 1 else 0
  }

  ghost predicate NonEmpty(keys: seq<Key>) {
    forall i :: 0 <= i < |keys| ==> keys[i] != []
  }

  lemma {:induction false} RunMeaning<V>(keys: seq<Key>, supply: nat -> V)
    requires NonEmpty(keys)
    ensures var r := Serve(keys, supply);
      && r.index.bindings == (map k | k in FirstUse(keys) :: supply(FirstUse(keys)[k]))
      && r.calls == |FirstUse(keys)|
      && r.index.length + Fills(keys) == |FirstUse(keys)|
  {
    if keys != [] {
      var init := keys[..|keys| - 1];
      RunMeaning(init, supply);
      assert Serve(init, supply).index.bindings.Keys == FirstUse(init).Keys;
    }
  }

  /** A key keeps its number for the rest of the run. */
  lemma {:induction false} FirstUseStable(keys: seq<Key>, i: nat)
    requires i <= |keys|
    ensures forall k :: k in FirstUse(keys[..i]) ==> k in FirstUse(keys) && FirstUse(keys)[k] == FirstUse(keys[..i])[k]
  {
    if i == |keys| {
      assert keys[..i] == keys;
    } else {
      FirstUseStable(keys[..|keys| - 1], i);
      assert keys[..|keys| - 1][..i] == keys[..i];
    }
  }

  lemma {:induction false} FirstUseNumbers(keys: seq<Key>)
    ensures forall k :: k in FirstUse(keys) <==> k in keys
    ensures forall k :: k in FirstUse(keys) ==> FirstUse(keys)[k] < |FirstUse(keys)|
    ensures forall k, k' :: k in FirstUse(keys) && k' in FirstUse(keys) && FirstUse(keys)[k] == FirstUse(keys)[k'] ==> k == k'
  {
    if keys != [] {
      FirstUseNumbers(keys[..|keys| - 1]);
      assert keys == keys[..|keys| - 1] + [keys[|keys| - 1]];
    }
  }

  /** Every request of every run is answered with the item created at the first use of its key. */
  lemma AnswersAreFirstItems<V>(keys: seq<Key>, supply: nat -> V, i: nat)
    requires NonEmpty(keys) && i < |keys|
    ensures keys[i] in FirstUse(keys) && AnswerAt(keys, supply, i) == Some(supply(FirstUse(keys)[keys[i]]))
  {
    RunMeaning(keys[..i], supply);
    FirstUseStable(keys, i + 1);
    assert keys[..i + 1][..i] == keys[..i];
    FirstUseStable(keys[..i + 1], i);
  }

  ghost predicate Injective<V(!new)>(supply: nat -> V) {
    forall a, b :: supply(a) == supply(b) ==> a == b
  }

  /** If the handler returns a new item each time, two requests share an item exactly when their keys are equal. */
  lemma SharedExactlyWhenEqual<V(!new)>(keys: seq<Key>, supply: nat -> V, i: nat, j: nat)
    requires NonEmpty(keys) && i < |keys| && j < |keys| && Injective(supply)
    ensures AnswerAt(keys, supply, i) == AnswerAt(keys, supply, j) <==> keys[i] == keys[j]
  {
    AnswersAreFirstItems(keys, supply, i);
    AnswersAreFirstItems(keys, supply, j);
    FirstUseNumbers(keys);
  }

  /** `length` never counts more than the stored keys, and counts them all until a key fills a joining node. */
  lemma {:induction false} LengthCountsKeys<V>(keys: seq<Key>, supply: nat -> V)
    requires NonEmpty(keys)
    ensures var r := Serve(keys, supply);
      && r.index.length <= |r.index.bindings|
      && (r.index.length == |r.index.bindings| <==> Fills(keys) == 0)
  {
    RunMeaning(keys, supply);
    assert Serve(keys, supply).index.bindings.Keys == FirstUse(keys).Keys;
  }

  /** The undercount is real: `length` stays at 2 after a third key is stored at the joining node. */
  lemma LengthMissesFilledNode<V>(supply: nat -> V)
    ensures var r := Serve([["a", "b"], ["a", "c"], ["a"]], supply);
      r.index.length == 2 && |r.index.bindings| == 3
  {
    var ab: Key, ac: Key, a: Key := ["a", "b"], ["a", "c"], ["a"];
    var keys := [ab, ac, a];
    RunMeaning(keys, supply);
    assert keys[..2] == [ab, ac] && [ab, ac][..1] == [ab] && [ab][..0] == [];
    assert ab[1][0] != ac[1][0];
    assert FirstUse([ab]) == map[ab := 0];
    assert FirstUse([ab, ac]) == map[ab := 0, ac := 1];
    TwoKeysPart(ab, ac, a);
    assert Fills([ab]) == 0;
    assert Fills([ab, ac]) == 0;
    assert Fills(keys) == 1;
    assert Serve(keys, supply).index.bindings.Keys == FirstUse(keys).Keys;
  }

  lemma TwoKeysPart(ab: Key, ac: Key, a: Key)
    requires |ab| == |ac| == 2 && a == [ab[0]] == [ac[0]] && ab[1] != ac[1]
    ensures BranchPoint((map[ab := 0, ac := 1]).Keys, a)
    ensures !BranchPoint((map[ab := 0]).Keys, ac)
    ensures !BranchPoint({}, ab)
  {
    var keys := (map[ab := 0, ac := 1]).Keys;
    assert ab in keys && ac in keys && a < ab && a < ac && ab[|a|] != ac[|a|];
  }

  /** The heap tree takes any sequence of requests through exactly this run. */
  method ServeAll<V>(keys: seq<Key>, supply: nat -> V) returns (answers: seq<Option<V>>, tree: RadixTree.Tree<V>)
    ensures |answers| == |keys| && forall i :: 0 <= i < |keys| ==> answers[i] == AnswerAt(keys, supply, i)
    ensures tree.Valid() && tree.Abstract() == Serve(keys, supply).index
  {
    tree := new RadixTree.Tree();
    var handler := new RadixTree.ValueHandler(supply);
    answers := [];
    for n := 0 to |keys|
      invariant tree.Valid() && fresh(tree) && fresh(tree.nodes) && fresh(handler) && handler.supply == supply
      invariant Run(tree.Abstract(), handler.calls) == Serve(keys[..n], supply)
      invariant |answers| == n && forall i :: 0 <= i < n ==> answers[i] == AnswerAt(keys, supply, i)
    {
      assert keys[..n + 1][..n] == keys[..n];
      var answer := tree.GetOrCreate(keys[n], handler);
      answers := answers + [answer];
    }
    assert keys[..|keys|] == keys;
  }
}
