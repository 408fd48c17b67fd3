/**
 The query cache as the mapper uses it: requests are flattened to keys (ShapeKeys) and
 looked up in the index (CacheIndex). With a handler that returns a new item each time,
 two requests of a run share a cached query exactly when they have the same shape.
 */
module CacheSharing {
  import opened Wrappers
  import opened CacheSpec
  import opened CacheIndex
  import opened ShapeKeys

  function SelectKeys(shapes: seq<SelectShape>): (keys: seq<Key>)
    ensures |keys| == |shapes| && forall i :: 0 <= i < |keys| ==> keys[i] == GetSelectKey(shapes[i])
  {
    seq(|shapes|, i requires 0 <= i < |shapes| => GetSelectKey(shapes[i]))
  }

  function InsertKeys(shapes: seq<InsertShape>): (keys: seq<Key>)
    ensures |keys| == |shapes| && forall i :: 0 <= i < |keys| ==> keys[i] == GetInsertKey(shapes[i])
  {
    seq(|shapes|, i requires 0 <= i < |shapes| => GetInsertKey(shapes[i]))
  }

  function RemoveKeys(shapes: seq<RemoveShape>): (keys: seq<Key>)
    ensures |keys| == |shapes| && forall i :: 0 <= i < |keys| ==> keys[i] == GetRemoveKey(shapes[i])
  {
    seq(|shapes|, i requires 0 <= i < |shapes| => GetRemoveKey(shapes[i]))
  }

  /** In any run of SELECT requests, items are shared by equal shapes only. */
  lemma SelectItemsFollowShapes<V(!new)>(names: iset<string>, shapes: seq<SelectShape>, supply: nat -> V, i: nat, j: nat)
    requires SelectNames(names) && forall k :: 0 <= k < |shapes| ==> SelectOver(names, shapes[k])
    requires i < |shapes| && j < |shapes| && Injective(supply)
    ensures AnswerAt(SelectKeys(shapes), supply, i) == AnswerAt(SelectKeys(shapes), supply, j) <==> shapes[i] == shapes[j]
  {
    SharedExactlyWhenEqual(SelectKeys(shapes), supply, i, j);
    SelectKeyInjective(names, shapes[i], shapes[j]);
  }

  lemma InsertItemsFollowShapes<V(!new)>(names: iset<string>, shapes: seq<InsertShape>, supply: nat -> V, i: nat, j: nat)
    requires InsertNames(names) && forall k :: 0 <= k < |shapes| ==> InsertOver(names, shapes[k])
    requires i < |shapes| && j < |shapes| && Injective(supply)
    ensures AnswerAt(InsertKeys(shapes), supply, i) == AnswerAt(InsertKeys(shapes), supply, j) <==> shapes[i] == shapes[j]
  {
    SharedExactlyWhenEqual(InsertKeys(shapes), supply, i, j);
    InsertKeyInjective(names, shapes[i], shapes[j]);
  }

  lemma RemoveKeyNotEmpty(names: iset<string>, s: RemoveShape)
    requires RemoveOver(names, s)
    ensures GetRemoveKey(s) != []
  {
  }

  /**
   A DELETE request is answered with a query built for a different shape in some run exactly
   when its shape is ambiguous.
   */
  lemma RemoveItemsConfused<V(!new)>(names: iset<string>, s: RemoveShape, supply: nat -> V)
    requires RemoveNames(names) && RemoveOver(names, s) && Injective(supply)
    ensures Ambiguous(s) <==>
      exists t :: RemoveOver(names, t) && t != s
               && AnswerAt(RemoveKeys([t, s]), supply, 1) == AnswerAt(RemoveKeys([t, s]), supply, 0)
  {
    hide RemoveOver, Ambiguous, GetRemoveKey, AnswerAt, RemoveNames;
    RemoveKeyCollides(names, s);
    forall t | RemoveOver(names, t)
      ensures AnswerAt(RemoveKeys([t, s]), supply, 1) == AnswerAt(RemoveKeys([t, s]), supply, 0) <==> GetRemoveKey(t) == GetRemoveKey(s)
    {
      RemoveKeyNotEmpty(names, t);
      RemoveKeyNotEmpty(names, s);
      SharedExactlyWhenEqual(RemoveKeys([t, s]), supply, 1, 0);
    }
    if Ambiguous(s) {
      var t :| RemoveOver(names, t) && t != s && GetRemoveKey(t) == GetRemoveKey(s);
      assert AnswerAt(RemoveKeys([t, s]), supply, 1) == AnswerAt(RemoveKeys([t, s]), supply, 0);
    }
  }
}
