/**
 The radix tree that indexes the mapper's query cache (lib/mapping/tree.js).

 `Tree.GetOrCreate` walks and restructures heap nodes in place. It is proved to
 be one step of `Step`, a transition of a plain finite map from keys to items
 plus the `length` counter. What `Step` then means over whole runs is proved
 in module CacheIndex.
 */
module CacheSpec {
  import opened Wrappers

  type Key = seq<string>

  /** What a tree stands for: the stored items by key, and the public counter. */
  datatype Index<V> = Index(bindings: map<Key, V>, length: nat)

  /**
   True where the stored keys part ways at `p`: a radix tree then already holds a
   node at `p`, whether or not `p` itself is stored. The root always exists.
   */
  ghost predicate BranchPoint(keys: set<Key>, p: Key) {
    if p == [] then keys != {}
    else exists a, b :: a in keys && b in keys && p < a && p < b && a[|p|] != b[|p|]
  }

  /** True when a request for `key` invokes the value handler. */
  ghost predicate Creates<V>(s: Index<V>, key: Key) {
    key !in s.bindings && (key != [] || s.bindings != map[])
  }

  /** One request: the next index, given the item a handler call would produce. */
  ghost function Step<V>(s: Index<V>, key: Key, item: V): Index<V> {
    if !Creates(s, key) then s
    else Index(s.bindings[key := item], s.length + if BranchPoint(s.bindings.Keys, key) then 0 else 1)
  }

  /** What the request returns. */
  ghost function Answer<V>(s: Index<V>, key: Key, item: V): Option<V> {
    if key in s.bindings then Some(s.bindings[key])
    else if Creates(s, key) then Some(item)
    else None
  }
}

module RadixTree {
  import opened Wrappers
  import opened CacheSpec

  /**
   The caller's `valueHandler`. Its k-th invocation produces `supply(k)`; nothing is
   assumed about `supply`, and `calls` makes the number of invocations observable.
   */
  class ValueHandler<V> {
    const supply: nat -> V
    var calls: nat

    constructor (supply: nat -> V)
      ensures this.supply == supply && calls == 0
    {
      this.supply := supply;
      calls := 0;
    }

    method Call() returns (item: V)
      modifies this
      ensures item == supply(old(calls)) && calls == old(calls) + 1
    {
      item := supply(calls);
      calls := calls + 1;
    }
  }

  class Node<V> {
    var key: Key
    var value: Option<V>
    var edges: seq<Node<V>>
    ghost var path: Key  // the keys from the root down to and including this node

    constructor (key: Key, value: Option<V>, edges: seq<Node<V>>, ghost path: Key)
      ensures this.key == key && this.value == value && this.edges == edges && this.path == path
    {
      this.key, this.value, this.edges, this.path := key, value, edges, path;
    }

    /**
     Compares this node's key from position 1 on with `key` from `at` on; `i` is the first
     position that differs or has no counterpart, or the length of the node's key.
     */
    method Follow(key: Key, at: nat) returns (i: nat)
      requires this.key != [] && at <= |key|
      ensures 1 <= i <= |this.key| && at + i - 1 <= |key| && this.key[1..i] == key[at..at + i - 1]
      ensures i < |this.key| && at + i - 1 < |key| ==> this.key[i] != key[at + i - 1]
    {
      i := 1;
      while i < |this.key|
        invariant 1 <= i <= |this.key| && at + i - 1 <= |key| && this.key[1..i] == key[at..at + i - 1]
      {
        if at + i - 1 == |key| || this.key[i] != key[at + i - 1] {
          break;
        }
        assert this.key[1..i + 1] == this.key[1..i] + [key[at + i - 1]] == key[at..at + i];
        i := i + 1;
      }
    }

    /** The first edge whose key starts with `part`. */
    method FindEdge(part: string) returns (next: Node?<V>)
      requires forall e :: e in edges ==> e.key != []
      ensures next != null ==> next in edges && next.key != [] && next.key[0] == part
      ensures next == null ==> forall e :: e in edges && e.key != [] ==> e.key[0] != part
    {
      for k := 0 to |edges|
        invariant forall j :: 0 <= j < k ==> edges[j].key != [] && edges[j].key[0] != part
      {
        if edges[k].key[0] == part {
          return edges[k];
        }
      }
      next := null;
    }

    ghost function Fields(): View<V>
      reads this
    {
      View(key, value, edges, path)
    }
  }

  /** The fields of one node, and the fields of every node of a tree, at one moment. */
  datatype View<V> = View(key: Key, value: Option<V>, edges: seq<Node<V>>, path: Key)
  type Graph<V> = map<Node<V>, View<V>>

  // ----- The shape of a tree, stated flat over its nodes -----

  ghost predicate Linked<V>(root: Node<V>, g: Graph<V>) {
    && root in g && g[root].key == [] && g[root].path == []
    && forall n, i {:trigger g[n].edges[i]} :: n in g && 0 <= i < |g[n].edges| ==> ChildOf(g, n, g[n].edges[i])
  }

  ghost predicate ChildOf<V>(g: Graph<V>, n: Node<V>, e: Node<V>)
    requires n in g
  {
    e in g && g[e].key != [] && g[e].path == g[n].path + g[e].key
  }

  /** Sibling edges differ in their first element. */
  ghost predicate SiblingsDiffer<V>(g: Graph<V>) {
    forall n, i, j {:trigger g[n].edges[i], g[n].edges[j]} ::
      n in g && 0 <= i < j < |g[n].edges| ==> Differ(g, g[n].edges[i], g[n].edges[j])
  }

  ghost predicate Differ<V>(g: Graph<V>, e: Node<V>, e': Node<V>) {
    e in g && e' in g && g[e].key != [] && g[e'].key != [] && g[e].key[0] != g[e'].key[0]
  }

  /** No two nodes have the same root-to-node path. */
  ghost predicate DistinctPaths<V>(g: Graph<V>) {
    forall n, m {:trigger SamePath(g, n, m)} :: n in g && m in g && SamePath(g, n, m) ==> n == m
  }

  ghost predicate SamePath<V>(g: Graph<V>, n: Node<V>, m: Node<V>)
    requires n in g && m in g
  {
    g[n].path == g[m].path
  }

  ghost predicate LeadsTo<V>(g: Graph<V>, n: Node<V>, k: Key)
    requires n in g
  {
    exists e :: e in g[n].edges && e in g && g[e].path <= k
  }

  /** From every node an edge leads towards every node whose path extends its own. */
  ghost predicate Radix<V>(g: Graph<V>) {
    forall n, m {:trigger LeadsTo(g, n, g[m].path)} ::
      n in g && m in g && g[n].path < g[m].path ==> LeadsTo(g, n, g[m].path)
  }

  /** The stored keys are exactly the paths of the nodes that carry a value. */
  ghost predicate Represents<V>(g: Graph<V>, bindings: map<Key, V>) {
    && (forall n {:trigger Recorded(g, n, bindings)} :: n in g ==> Recorded(g, n, bindings))
    && (forall k {:trigger Stored(g, k)} :: k in bindings ==> Stored(g, k))
  }

  ghost predicate Recorded<V>(g: Graph<V>, n: Node<V>, bindings: map<Key, V>)
    requires n in g
  {
    g[n].value.Some? ==> g[n].path in bindings && bindings[g[n].path] == g[n].value.value
  }

  ghost predicate Stored<V>(g: Graph<V>, k: Key) {
    exists n :: n in g && Holds(g, n, k)
  }

  ghost predicate Holds<V>(g: Graph<V>, n: Node<V>, k: Key) {
    n in g && g[n].path == k && g[n].value.Some?
  }

  /** Apart from the root and `open`, a node without a value has at least two edges. */
  ghost predicate Branching<V>(root: Node<V>, g: Graph<V>, open: Node<V>) {
    forall n {:trigger Joins(g, n)} :: n in g && n != root && n != open ==> Joins(g, n)
  }

  ghost predicate Joins<V>(g: Graph<V>, n: Node<V>)
    requires n in g
  {
    g[n].value.None? ==> |g[n].edges| >= 2
  }

  ghost predicate WellShaped<V>(root: Node<V>, g: Graph<V>, bindings: map<Key, V>) {
    && Linked(root, g)
    && SiblingsDiffer(g)
    && DistinctPaths(g)
    && Radix(g)
    && Represents(g, bindings)
  }

  // ----- What a walk knows about the paths it has not visited -----

  /** Edge `e` of `p` is the only way from `p` to paths that continue with `e`'s first element. */
  lemma OnlyWay<V>(root: Node<V>, g: Graph<V>, p: Node<V>, e: Node<V>, m: Node<V>)
    requires Linked(root, g) && SiblingsDiffer(g) && Radix(g)
    requires p in g && m in g && e in g[p].edges && e in g && g[e].key != []
    requires g[p].path < g[m].path && g[m].path[|g[p].path|] == g[e].key[0]
    ensures g[e].path <= g[m].path
  {
    assert LeadsTo(g, p, g[m].path);
    var e' :| e' in g[p].edges && e' in g && g[e'].path <= g[m].path;
    var i :| 0 <= i < |g[p].edges| && g[p].edges[i] == e';
    var j :| 0 <= j < |g[p].edges| && g[p].edges[j] == e;
    assert ChildOf(g, p, e') && ChildOf(g, p, e);
    assert g[e'].path[|g[p].path|] == g[e'].key[0];
  }

  /** No edge of `n` continues with the next element of `key`: no path reaches `key` or beyond. */
  lemma NoWay<V>(root: Node<V>, g: Graph<V>, n: Node<V>, key: Key, m: Node<V>)
    requires Linked(root, g) && Radix(g)
    requires n in g && m in g && g[n].path < key
    requires forall e :: e in g[n].edges && ChildOf(g, n, e) ==> g[e].key[0] != key[|g[n].path|]
    ensures !(key <= g[m].path)
  {
    if g[n].path < g[m].path {
      assert LeadsTo(g, n, g[m].path);
    }
  }

  /** Following one node's key up to position `i` extends the matched prefix by `i` elements. */
  lemma PrefixGrows(key: Key, nodeKey: Key, at: nat, i: nat)
    requires 1 <= i <= |nodeKey| && at + i <= |key|
    requires nodeKey[0] == key[at] && nodeKey[1..i] == key[at + 1..at + i]
    ensures (key[..at] + nodeKey)[..at + i] == key[..at + i]
  {
    assert (key[..at] + nodeKey)[..at + i] == key[..at] + ([nodeKey[0]] + nodeKey[1..i]);
    assert key[..at + i] == key[..at] + ([key[at]] + key[at + 1..at + i]);
  }

  /** Below a node that has a value or edges there is a node with a value. */
  lemma {:induction false} ValuedBelow<V>(root: Node<V>, g: Graph<V>, n: Node<V>, bound: nat) returns (m: Node<V>)
    requires Linked(root, g) && Branching(root, g, root)
    requires n in g && (n != root || g[n].edges != [])
    requires forall x :: x in g ==> |g[x].path| <= bound
    ensures m in g && Holds(g, m, g[m].path) && g[n].path <= g[m].path
    decreases bound - |g[n].path|
  {
    if g[n].value.Some? {
      m := n;
    } else {
      assert n != root ==> Joins(g, n);
      var e := g[n].edges[0];
      assert ChildOf(g, n, g[n].edges[0]);
      m := ValuedBelow(root, g, e, bound);
    }
  }

  lemma {:induction false} LongestPath<V>(g: Graph<V>, nodes: set<Node<V>>) returns (bound: nat)
    requires nodes <= g.Keys
    ensures forall x :: x in nodes ==> |g[x].path| <= bound
    decreases nodes
  {
    if nodes == {} {
      bound := 0;
    } else {
      var x :| x in nodes;
      var rest := LongestPath(g, nodes - {x});
      bound := if |g[x].path| > rest then |g[x].path| else rest;
    }
  }

  // ----- The three ways a request changes the nodes -----

  /** `node`'s key is cut at `index`; `branch` takes over the rest of it, its value and its edges. */
  ghost function Split<V>(g: Graph<V>, node: Node<V>, index: nat, branch: Node<V>, value: Option<V>): Graph<V>
    requires node in g && 1 <= index < |g[node].key| <= |g[node].path|
  {
    var v := g[node];
    g[branch := View(v.key[index..], v.value, v.edges, v.path)]
     [node := View(v.key[..index], value, [branch], v.path[..|v.path| - |v.key| + index])]
  }

  ghost function Push<V>(g: Graph<V>, node: Node<V>, leaf: Node<V>, key: Key, item: V): Graph<V>
    requires node in g && g[node].path <= key
  {
    g[leaf := View(key[|g[node].path|..], Some(item), [], key)]
     [node := g[node].(edges := g[node].edges + [leaf])]
  }

  ghost function Fill<V>(g: Graph<V>, node: Node<V>, item: V): Graph<V>
    requires node in g
  {
    g[node := g[node].(value := Some(item))]
  }

  /** The preconditions of a split, and what they say of the path at which the node is cut. */
  ghost predicate Splits<V>(root: Node<V>, g: Graph<V>, parent: Node<V>, node: Node<V>, index: nat, branch: Node<V>) {
    && Linked(root, g) && SiblingsDiffer(g) && DistinctPaths(g) && Radix(g)
    && parent in g && node in g && node in g[parent].edges && branch !in g
    && 1 <= index < |g[node].key|
  }

  lemma CutPath<V>(root: Node<V>, g: Graph<V>, parent: Node<V>, node: Node<V>, index: nat, branch: Node<V>)
    requires Splits(root, g, parent, node, index, branch)
    ensures ChildOf(g, parent, node) && node != root
    ensures forall m :: m in g && g[node].path[..|g[node].path| - |g[node].key| + index] <= g[m].path ==>
              g[node].path <= g[m].path
  {
    var i :| 0 <= i < |g[parent].edges| && g[parent].edges[i] == node;
    assert ChildOf(g, parent, g[parent].edges[i]);
    var cut := |g[node].path| - |g[node].key| + index;
    forall m | m in g && g[node].path[..cut] <= g[m].path
      ensures g[node].path <= g[m].path
    {
      assert g[m].path[|g[parent].path|] == g[node].path[|g[parent].path|] == g[node].key[0];
      OnlyWay(root, g, parent, node, m);
    }
  }

  lemma SplitLinked<V>(root: Node<V>, g: Graph<V>, parent: Node<V>, node: Node<V>, index: nat, branch: Node<V>, value: Option<V>)
    requires Splits(root, g, parent, node, index, branch)
    ensures g[node].path == g[parent].path + g[node].key
    ensures Linked(root, Split(g, node, index, branch, value))
    ensures SiblingsDiffer(Split(g, node, index, branch, value))
  {
    CutPath(root, g, parent, node, index, branch);
    var g' := Split(g, node, index, branch, value);
    forall n, i | n in g' && 0 <= i < |g'[n].edges|
      ensures ChildOf(g', n, g'[n].edges[i])
    {
      if n == branch {
        assert ChildOf(g, node, g[node].edges[i]);
        if g[node].edges[i] == node { assert false; }
      } else if n != node {
        assert ChildOf(g, n, g[n].edges[i]);
        if g[n].edges[i] == node {
          assert g[n].path == g[node].path[..|g[node].path| - |g[node].key|];
          assert g[parent].path == g[node].path[..|g[node].path| - |g[node].key|];
          assert SamePath(g, n, parent);
        }
      }
    }
    forall n, i, j | n in g' && 0 <= i < j < |g'[n].edges|
      ensures Differ(g', g'[n].edges[i], g'[n].edges[j])
    {
      var o: Node<V> := if n == branch then node else n;
      assert Differ(g, g[o].edges[i], g[o].edges[j]);
    }
  }

  lemma SplitDistinct<V>(root: Node<V>, g: Graph<V>, parent: Node<V>, node: Node<V>, index: nat, branch: Node<V>, value: Option<V>)
    requires Splits(root, g, parent, node, index, branch)
    ensures g[node].path == g[parent].path + g[node].key
    ensures DistinctPaths(Split(g, node, index, branch, value))
  {
    CutPath(root, g, parent, node, index, branch);
    var g' := Split(g, node, index, branch, value);
    forall n, m | n in g' && m in g' && SamePath(g', n, m)
      ensures n == m
    {
      var o: Node<V> := if n == branch then node else n;
      var t: Node<V> := if m == branch then node else m;
      if n == node {
        assert g[node].path <= g[t].path ==> |g'[n].path| < |g'[m].path| || m == node;
      } else if m != node {
        assert SamePath(g, o, t);
      }
    }
  }

  /** An edge that runs past the cut of `node` is `node`. */
  lemma EdgeAcrossCut<V>(root: Node<V>, g: Graph<V>, parent: Node<V>, node: Node<V>, index: nat, branch: Node<V>,
                         n: Node<V>, e: Node<V>)
    requires Splits(root, g, parent, node, index, branch)
    requires g[node].path == g[parent].path + g[node].key
    requires n in g && e in g[n].edges && e in g && g[e].path <= g[node].path
    requires g[n].path < g[node].path[..|g[parent].path| + index] < g[e].path
    ensures e == node
  {
    CutPath(root, g, parent, node, index, branch);
    assert g[node].path == g[e].path;
    assert SamePath(g, e, node);
  }

  lemma SplitLeadsTo<V>(root: Node<V>, g: Graph<V>, parent: Node<V>, node: Node<V>, index: nat, branch: Node<V>,
                        value: Option<V>, n: Node<V>, m: Node<V>)
    requires Splits(root, g, parent, node, index, branch)
    requires g[node].path == g[parent].path + g[node].key
    requires n in g && m in g && n != node && g[n].path < g[m].path
    requires m == node ==> g[n].path < g[node].path[..|g[parent].path| + index]
    ensures LeadsTo(Split(g, node, index, branch, value), n, Split(g, node, index, branch, value)[m].path)
  {
    var g' := Split(g, node, index, branch, value);
    assert LeadsTo(g, n, g[m].path);
    var e: Node<V> :| e in g[n].edges && e in g && g[e].path <= g[m].path;
    assert e in g'[n].edges && g'[e].path <= g[e].path;
    if m == node && !(g[e].path <= g'[m].path) {
      EdgeAcrossCut(root, g, parent, node, index, branch, n, e);
    }
    assert g'[e].path <= g'[m].path;
  }

  lemma SplitRadix<V>(root: Node<V>, g: Graph<V>, parent: Node<V>, node: Node<V>, index: nat, branch: Node<V>, value: Option<V>)
    requires Splits(root, g, parent, node, index, branch)
    requires g[node].path == g[parent].path + g[node].key
    ensures Radix(Split(g, node, index, branch, value))
  {
    CutPath(root, g, parent, node, index, branch);
    var g' := Split(g, node, index, branch, value);
    forall n, m | n in g' && m in g' && g'[n].path < g'[m].path
      ensures LeadsTo(g', n, g'[m].path)
    {
      var t: Node<V> := if m == branch then node else m;
      if n == node {
        assert branch in g'[n].edges;
      } else if n == branch {
        assert LeadsTo(g, node, g[t].path);
        var e: Node<V> :| e in g[node].edges && e in g && g[e].path <= g[t].path;
        var i :| 0 <= i < |g[node].edges| && g[node].edges[i] == e;
        assert ChildOf(g, node, g[node].edges[i]);
        assert e in g'[n].edges && g'[e].path <= g'[m].path;
      } else if m == branch {
        SplitLeadsTo(root, g, parent, node, index, branch, value, n, node);
        assert g'[node].path <= g'[branch].path;
        SplitTowardsBranch(root, g, parent, node, index, branch, value, n);
      } else {
        SplitLeadsTo(root, g, parent, node, index, branch, value, n, m);
      }
    }
  }

  lemma SplitTowardsBranch<V>(root: Node<V>, g: Graph<V>, parent: Node<V>, node: Node<V>, index: nat, branch: Node<V>,
                              value: Option<V>, n: Node<V>)
    requires Splits(root, g, parent, node, index, branch)
    requires n in g && n != node && g[n].path < g[node].path
    ensures LeadsTo(Split(g, node, index, branch, value), n, g[node].path)
  {
    var g' := Split(g, node, index, branch, value);
    assert LeadsTo(g, n, g[node].path);
    var e: Node<V> :| e in g[n].edges && e in g && g[e].path <= g[node].path;
    assert e in g'[n].edges && g'[e].path <= g[e].path;
  }

  lemma SplitRepresents<V>(root: Node<V>, g: Graph<V>, parent: Node<V>, node: Node<V>, index: nat, branch: Node<V>,
                           value: Option<V>, bindings: map<Key, V>)
    requires Splits(root, g, parent, node, index, branch) && Represents(g, bindings)
    requires g[node].path == g[parent].path + g[node].key
    ensures
      var g' := Split(g, node, index, branch, value);
      var cut := g'[node].path;
      && cut !in bindings && cut != [] && !BranchPoint(bindings.Keys, cut)
      && Represents(g', if value.Some? then bindings[cut := value.value] else bindings)
  {
    CutPath(root, g, parent, node, index, branch);
    var g' := Split(g, node, index, branch, value);
    var cut := g'[node].path;
    var after := if value.Some? then bindings[cut := value.value] else bindings;
    forall k | k in bindings && cut <= k
      ensures g[node].path <= k
    {
      assert Stored(g, k);
      var n :| n in g && Holds(g, n, k);
    }
    forall k | k in after
      ensures Stored(g', k)
    {
      if k == cut {
        assert Holds(g', node, k);
      } else {
        assert Stored(g, k);
        var n :| n in g && Holds(g, n, k);
        assert Holds(g', if n == node then branch else n, k);
      }
    }
    forall n | n in g'
      ensures Recorded(g', n, after)
    {
      if n != node {
        var o: Node<V> := if n == branch then node else n;
        assert Recorded(g, o, bindings);
      }
    }
  }

  lemma SplitShape<V>(root: Node<V>, g: Graph<V>, parent: Node<V>, node: Node<V>, index: nat, branch: Node<V>,
                      value: Option<V>, bindings: map<Key, V>)
    requires Splits(root, g, parent, node, index, branch)
    requires Represents(g, bindings) && Branching(root, g, root)
    ensures ChildOf(g, parent, node)
    ensures
      var g' := Split(g, node, index, branch, value);
      var cut := g'[node].path;
      && cut !in bindings && cut != [] && !BranchPoint(bindings.Keys, cut)
      && WellShaped(root, g', if value.Some? then bindings[cut := value.value] else bindings)
      && Branching(root, g', node)
  {
    CutPath(root, g, parent, node, index, branch);
    SplitLinked(root, g, parent, node, index, branch, value);
    SplitDistinct(root, g, parent, node, index, branch, value);
    SplitRadix(root, g, parent, node, index, branch, value);
    SplitRepresents(root, g, parent, node, index, branch, value, bindings);
    var g' := Split(g, node, index, branch, value);
    forall n | n in g' && n != root && n != node
      ensures Joins(g', n)
    {
      assert Joins(g, if n == branch then node else n);
    }
  }

  /** Nothing is stored at or below `key`, where a new leaf goes under `node`. */
  ghost predicate Pushes<V>(root: Node<V>, g: Graph<V>, node: Node<V>, leaf: Node<V>, key: Key) {
    && Linked(root, g) && SiblingsDiffer(g) && DistinctPaths(g) && Radix(g)
    && node in g && leaf !in g && g[node].path < key
    && (forall e :: e in g[node].edges && ChildOf(g, node, e) ==> g[e].key[0] != key[|g[node].path|])
  }

  lemma PushShape<V>(root: Node<V>, g: Graph<V>, node: Node<V>, leaf: Node<V>, key: Key, item: V)
    requires Pushes(root, g, node, leaf, key)
    ensures Linked(root, Push(g, node, leaf, key, item)) && SiblingsDiffer(Push(g, node, leaf, key, item))
  {
    var g' := Push(g, node, leaf, key, item);
    forall n, i | n in g' && 0 <= i < |g'[n].edges|
      ensures ChildOf(g', n, g'[n].edges[i])
    {
      if n != leaf && i < |g[n].edges| {
        assert ChildOf(g, n, g[n].edges[i]);
      }
    }
    forall n, i, j | n in g' && 0 <= i < j < |g'[n].edges|
      ensures Differ(g', g'[n].edges[i], g'[n].edges[j])
    {
      assert ChildOf(g, n, g[n].edges[i]);
      if j < |g[n].edges| {
        assert Differ(g, g[n].edges[i], g[n].edges[j]);
      }
    }
  }

  lemma PushPaths<V>(root: Node<V>, g: Graph<V>, node: Node<V>, leaf: Node<V>, key: Key, item: V)
    requires Pushes(root, g, node, leaf, key)
    ensures DistinctPaths(Push(g, node, leaf, key, item)) && Radix(Push(g, node, leaf, key, item))
    ensures forall m :: m in g ==> !(key <= g[m].path)
  {
    var g' := Push(g, node, leaf, key, item);
    forall m | m in g
      ensures !(key <= g[m].path)
    {
      NoWay(root, g, node, key, m);
    }
    forall n, m | n in g' && m in g' && SamePath(g', n, m)
      ensures n == m
    {
      if n != leaf && m != leaf {
        assert SamePath(g, n, m);
      }
    }
    forall n, m | n in g' && m in g' && g'[n].path < g'[m].path
      ensures LeadsTo(g', n, g'[m].path)
    {
      if m == leaf {
        PushLeadsTo(root, g, node, leaf, key, item, n);
      } else {
        assert LeadsTo(g, n, g[m].path);
        var e: Node<V> :| e in g[n].edges && e in g && g[e].path <= g[m].path;
        assert e in g'[n].edges && g'[e].path <= g'[m].path;
      }
    }
  }

  lemma PushLeadsTo<V>(root: Node<V>, g: Graph<V>, node: Node<V>, leaf: Node<V>, key: Key, item: V, n: Node<V>)
    requires Pushes(root, g, node, leaf, key)
    requires n in g && g[n].path < key
    ensures LeadsTo(Push(g, node, leaf, key, item), n, key)
  {
    var g' := Push(g, node, leaf, key, item);
    if |g[n].path| == |g[node].path| {
      assert g[n].path == key[..|g[n].path|] == g[node].path;
      assert SamePath(g, n, node);
      assert leaf in g'[n].edges;
    } else if |g[n].path| < |g[node].path| {
      assert g[n].path == g[node].path[..|g[n].path|];
      assert LeadsTo(g, n, g[node].path);
      var e: Node<V> :| e in g[n].edges && e in g && g[e].path <= g[node].path;
      assert e in g'[n].edges && g'[e].path <= key;
    } else {
      assert g[node].path == g[n].path[..|g[node].path|];
      NoWay(root, g, node, g[n].path, n);
    }
  }

  lemma PushRepresents<V>(root: Node<V>, g: Graph<V>, node: Node<V>, leaf: Node<V>, key: Key, item: V, bindings: map<Key, V>)
    requires Pushes(root, g, node, leaf, key) && Represents(g, bindings)
    ensures key !in bindings && key != [] && !BranchPoint(bindings.Keys, key)
    ensures Represents(Push(g, node, leaf, key, item), bindings[key := item])
  {
    PushPaths(root, g, node, leaf, key, item);
    var g' := Push(g, node, leaf, key, item);
    forall k | k in bindings
      ensures !(key <= k)
    {
      assert Stored(g, k);
      var n :| n in g && Holds(g, n, k);
    }
    var after := bindings[key := item];
    forall k | k in after
      ensures Stored(g', k)
    {
      if k == key {
        assert Holds(g', leaf, k);
      } else {
        assert Stored(g, k);
        var n :| n in g && Holds(g, n, k);
        assert Holds(g', n, k);
      }
    }
    forall n | n in g'
      ensures Recorded(g', n, after)
    {
      if n != leaf {
        assert Recorded(g, n, bindings);
      }
    }
  }

  lemma FillShape<V>(root: Node<V>, g: Graph<V>, node: Node<V>, item: V, bindings: map<Key, V>)
    requires WellShaped(root, g, bindings) && node in g
    ensures WellShaped(root, Fill(g, node, item), bindings[g[node].path := item])
    ensures Branching(root, g, root) ==> Branching(root, Fill(g, node, item), root)
  {
    var g' := Fill(g, node, item);
    forall n | n in g' && n != root && Branching(root, g, root)
      ensures Joins(g', n)
    {
      assert Joins(g, n);
    }
    var after := bindings[g[node].path := item];
    forall n, i | n in g' && 0 <= i < |g'[n].edges|
      ensures ChildOf(g', n, g'[n].edges[i])
    {
      assert ChildOf(g, n, g[n].edges[i]);
    }
    forall n, i, j | n in g' && 0 <= i < j < |g'[n].edges|
      ensures Differ(g', g'[n].edges[i], g'[n].edges[j])
    {
      assert Differ(g, g[n].edges[i], g[n].edges[j]);
    }
    forall n, m | n in g' && m in g' && SamePath(g', n, m)
      ensures n == m
    {
      assert SamePath(g, n, m);
    }
    forall n, m | n in g' && m in g' && g'[n].path < g'[m].path
      ensures LeadsTo(g', n, g'[m].path)
    {
      assert LeadsTo(g, n, g[m].path);
      var e: Node<V> :| e in g[n].edges && e in g && g[e].path <= g[m].path;
      assert e in g'[n].edges && g'[e].path <= g'[m].path;
    }
    forall k | k in after
      ensures Stored(g', k)
    {
      if k == g[node].path {
        assert Holds(g', node, k);
      } else {
        assert Stored(g, k);
        var n :| n in g && Holds(g, n, k);
        assert Holds(g', n, k);
      }
    }
    forall n | n in g'
      ensures Recorded(g', n, after)
    {
      if n != node {
        assert Recorded(g, n, bindings);
        var same := SamePath(g, n, node);
      }
    }
  }

  lemma PushAll<V>(root: Node<V>, g: Graph<V>, node: Node<V>, leaf: Node<V>, key: Key, item: V, bindings: map<Key, V>)
    requires Pushes(root, g, node, leaf, key) && Represents(g, bindings) && Branching(root, g, node)
    requires Branching(root, g, root) || g[node].edges != []
    ensures key !in bindings && key != [] && !BranchPoint(bindings.Keys, key)
    ensures WellShaped(root, Push(g, node, leaf, key, item), bindings[key := item])
    ensures Branching(root, Push(g, node, leaf, key, item), root)
  {
    PushShape(root, g, node, leaf, key, item);
    PushPaths(root, g, node, leaf, key, item);
    PushRepresents(root, g, node, leaf, key, item, bindings);
    var g' := Push(g, node, leaf, key, item);
    forall n | n in g' && n != root
      ensures Joins(g', n)
    {
      if n != leaf {
        var joins := Joins(g, n);
      }
    }
  }

  /** A node without a value is not stored, and is a branch point unless it is a bare root. */
  lemma UnvaluedNode<V>(root: Node<V>, g: Graph<V>, node: Node<V>, bindings: map<Key, V>)
    requires WellShaped(root, g, bindings) && Branching(root, g, root)
    requires node in g && g[node].value.None?
    ensures g[node].path !in bindings
    ensures g[node].edges != [] ==> BranchPoint(bindings.Keys, g[node].path) && bindings != map[]
    ensures g[node].edges == [] ==> node == root && bindings == map[]
  {
    if g[node].path in bindings {
      assert Stored(g, g[node].path);
      var n :| n in g && Holds(g, n, g[node].path);
      assert SamePath(g, n, node);
    }
    assert node != root ==> Joins(g, node);
    if g[node].edges == [] {
      forall n | n in g
        ensures n == root
      {
        var same := SamePath(g, n, root);
        if !same {
          var towards := LeadsTo(g, root, g[n].path);
        }
      }
      forall k | k in bindings
        ensures g[root].value.Some?
      {
        assert Stored(g, k);
      }
    } else {
      var bound := LongestPath(g, g.Keys);
      var a := EdgeKey(root, g, node, 0, bound, bindings);
      if node != root {
        assert Differ(g, g[node].edges[0], g[node].edges[1]);
        var b := EdgeKey(root, g, node, 1, bound, bindings);
        assert a in bindings.Keys && b in bindings.Keys;
      }
    }
  }

  /**
   A reachable tree is canonical: it has a node exactly at the root, at the stored keys and
   at the points where stored keys part ways, so its shape depends on the stored keys alone.
   */
  lemma Canonical<V>(root: Node<V>, g: Graph<V>, bindings: map<Key, V>, p: Key)
    requires WellShaped(root, g, bindings) && Branching(root, g, root)
    ensures (exists n :: n in g && g[n].path == p) <==> p == [] || p in bindings || BranchPoint(bindings.Keys, p)
  {
    assert g[root].path == [] && (p in bindings ==> Stored(g, p));
    if n :| n in g && g[n].path == p {
      if g[n].value.None? {
        UnvaluedNode(root, g, n, bindings);
      } else {
        assert Recorded(g, n, bindings);
      }
    } else if BranchPoint(bindings.Keys, p) {
      var a, b :| a in bindings.Keys && b in bindings.Keys && p < a && p < b && a[|p|] != b[|p|];
      assert Stored(g, a) && Stored(g, b);
      var m :| m in g && Holds(g, m, a);
      var m' :| m' in g && Holds(g, m', b);
      var n := NodeAtFork(root, g, root, p, m, m');
    }
  }

  /** The two ways down to paths that part at `p` share a node at `p`. */
  lemma {:induction false} NodeAtFork<V>(root: Node<V>, g: Graph<V>, n: Node<V>, p: Key, m: Node<V>, m': Node<V>)
    returns (at: Node<V>)
    requires Linked(root, g) && SiblingsDiffer(g) && Radix(g)
    requires n in g && m in g && m' in g && g[n].path <= p < g[m].path && p < g[m'].path
    requires g[m].path[|p|] != g[m'].path[|p|]
    ensures at in g && g[at].path == p
    decreases |p| - |g[n].path|
  {
    if g[n].path == p {
      at := n;
    } else {
      assert LeadsTo(g, n, g[m].path);
      var e: Node<V> :| e in g[n].edges && e in g && g[e].path <= g[m].path;
      var i :| 0 <= i < |g[n].edges| && g[n].edges[i] == e;
      assert ChildOf(g, n, g[n].edges[i]);
      assert g[e].path[|g[n].path|] == g[e].key[0];
      OnlyWay(root, g, n, e, m');
      at := NodeAtFork(root, g, e, p, m, m');
    }
  }

  /** A key stored below the i-th edge of `node`. */
  lemma EdgeKey<V>(root: Node<V>, g: Graph<V>, node: Node<V>, i: nat, bound: nat, bindings: map<Key, V>) returns (a: Key)
    requires WellShaped(root, g, bindings) && Branching(root, g, root)
    requires node in g && i < |g[node].edges|
    requires forall x :: x in g ==> |g[x].path| <= bound
    ensures ChildOf(g, node, g[node].edges[i])
    ensures a in bindings && g[node].path < a && a[|g[node].path|] == g[g[node].edges[i]].key[0]
  {
    var e := g[node].edges[i];
    assert ChildOf(g, node, g[node].edges[i]);
    var m := ValuedBelow(root, g, e, bound);
    a := g[m].path;
    assert Recorded(g, m, bindings);
    assert g[e].path[|g[node].path|] == g[e].key[0];
  }

  // ----- The tree -----

  class Tree<V> {
    const root: Node<V>
    var length: nat
    ghost var nodes: set<Node<V>>
    ghost var bindings: map<Key, V>

    ghost function Graph(): Graph<V>
      reads this, nodes
    {
      map n | n in nodes :: n.Fields()
    }

    ghost predicate WellShapedExcept(open: Node<V>)
      reads this, nodes
    {
      WellShaped(root, Graph(), bindings) && Branching(root, Graph(), open)
    }

    ghost predicate Valid()
      reads this, nodes
    {
      WellShapedExcept(root)
    }

    ghost function Abstract(): Index<V>
      reads this
    {
      Index(bindings, length)
    }

    constructor ()
      ensures Valid() && fresh(nodes) && Abstract() == Index(map[], 0)
    {
      root := new Node([], None, [], []);
      length, bindings := 0, map[];
      new;
      nodes := {root};
    }

    /**
     Cuts `node`'s key at `index`: a new node takes over the rest of the key, the value
     and the edges, and becomes the only edge of `node`.
     */
    method CreateBranch(node: Node<V>, index: nat, useNewValue: bool, handler: ValueHandler<V>)
      returns (branch: Node<V>)
      requires node in nodes && 1 <= index < |node.key| <= |node.path|
      modifies this`length, this`nodes, this`bindings, node, handler
      ensures fresh(branch) && nodes == old(nodes) + {branch}
      ensures branch.Fields() == View(old(node.key)[index..], old(node.value), old(node.edges), old(node.path))
      ensures node.key == old(node.key)[..index] && node.edges == [branch]
      ensures node.path == old(node.path)[..|old(node.path)| - |old(node.key)| + index]
      ensures node.value ==
        if useNewValue then Some(handler.supply(old(handler.calls))) else None
      ensures handler.calls == old(handler.calls) + (if useNewValue then 1 else 0)
      ensures length == old(length) + (if useNewValue then 1 else 0)
      ensures bindings ==
        if node.value.Some? then old(bindings)[node.path := node.value.value] else old(bindings)
    {
      branch := new Node(node.key[index..], node.value, node.edges, node.path);
      node.path := node.path[..|node.path| - |node.key| + index];
      node.key := node.key[..index];
      node.edges := [branch];
      nodes := nodes + {branch};
      if useNewValue {
        var item := handler.Call();
        node.value := Some(item);
        OnItemAdded();
        bindings := bindings[node.path := item];
      } else {
        node.value := None;
      }
    }

    method OnItemAdded()
      modifies this`length
      ensures length == old(length) + 1
    {
      length := length + 1;
    }

    /**
     The loop of `GetOrCreate` up to the point where it leaves the tree or the key ends:
     `at` elements of `key` match the path to position `i` of the key of `node`.
     */
    method Descend(key: Key) returns (node: Node<V>, i: nat, at: nat, ghost parent: Node<V>)
      requires Valid()
      ensures node in nodes && i <= |node.key| <= |node.path| && at == |node.path| - |node.key| + i <= |key|
      ensures node.path[..at] == key[..at]
      ensures i < |node.key| ==>
        && 1 <= i && parent in nodes && node in parent.edges
        && (at < |key| ==> node.key[i] != key[at])
      ensures i == |node.key| && at < |key| ==>
        forall e :: e in node.edges && e.key != [] ==> e.key[0] != key[at]
    {
      node, i, at, parent := root, 0, 0, root;
      ghost var g := Graph();
      while true
        invariant node in nodes && i == |node.key| <= |node.path| && at == |node.path| <= |key|
        invariant node.path == key[..at]
        decreases |key| - at
      {
        if at == |key| {
          return;
        }
        forall e | e in node.edges
          ensures ChildOf(g, node, e)
        {
          var k :| 0 <= k < |node.edges| && node.edges[k] == e;
          assert ChildOf(g, node, g[node].edges[k]);
        }
        var nextNode := node.FindEdge(key[at]);
        if nextNode == null {
          // the key goes on where the node ends
          return;
        }
        parent, node := node, nextNode;
        i := node.Follow(key, at + 1);
        at := at + i;
        PrefixGrows(key, node.key, |parent.path|, i);
        if i < |node.key| {
          // the key leaves the node in the middle
          return;
        }
      }
    }

    /**
     Gets the existing item for `key` or stores the one that `handler` provides: one `Step`
     of the index this tree stands for, whatever its nodes look like.
     */
    method GetOrCreate(key: Key, handler: ValueHandler<V>) returns (result: Option<V>)
      requires Valid()
      modifies this`length, this`nodes, this`bindings, nodes, handler
      ensures Valid() && fresh(nodes - old(nodes))
      ensures Abstract() == Step(old(Abstract()), key, handler.supply(old(handler.calls)))
      ensures result == Answer(old(Abstract()), key, handler.supply(old(handler.calls)))
      ensures handler.calls == old(handler.calls) + (if Creates(old(Abstract()), key) then 1 else 0)
    {
      var node, i, at, parent := Descend(key);
      if i < |node.key| {
        result := BranchOut(node, i, key, at, handler, parent);
      } else if at == |key| {
        result := ValueAt(node, key, handler);
      } else {
        result := AddLeaf(node, key, at, handler);
      }
    }

    /** `CreateBranch`, with what the cut means for the shape of the tree and the stored keys. */
    method CutNode(node: Node<V>, i: nat, useNewValue: bool, handler: ValueHandler<V>, ghost parent: Node<V>)
      requires Valid() && node in nodes && parent in nodes && node in parent.edges
      requires 1 <= i < |node.key| <= |node.path|
      modifies this`length, this`nodes, this`bindings, node, handler
      ensures WellShapedExcept(node) && node in nodes && fresh(nodes - old(nodes))
      ensures |node.edges| == 1 && node.edges[0].key == old(node.key)[i..]
      ensures useNewValue ==> Valid()
      ensures node.path == old(node.path)[..|old(node.path)| - |old(node.key)| + i]
      ensures node.path !in old(bindings) && node.path != [] && !BranchPoint(old(bindings).Keys, node.path)
      ensures node.value ==
        if useNewValue then Some(handler.supply(old(handler.calls))) else None
      ensures handler.calls == old(handler.calls) + (if useNewValue then 1 else 0)
      ensures length == old(length) + (if useNewValue then 1 else 0)
      ensures bindings ==
        if node.value.Some? then old(bindings)[node.path := node.value.value] else old(bindings)
    {
      ghost var g := Graph();
      var newBranch := CreateBranch(node, i, useNewValue, handler);
      assert Graph() == Split(g, node, i, newBranch, node.value);
      SplitShape(root, g, parent, node, i, newBranch, node.value, old(bindings));
      assert Graph()[node].path == node.path;
      assert Graph()[newBranch].key == newBranch.key;
    }

    /** `key` leaves the tree at position `i` of the key of `node`: cut there, then end or add a leaf there. */
    method BranchOut(node: Node<V>, i: nat, key: Key, at: nat, handler: ValueHandler<V>, ghost parent: Node<V>)
      returns (result: Option<V>)
      requires Valid() && node in nodes && parent in nodes && node in parent.edges
      requires 1 <= i < |node.key| <= |node.path| && at == |node.path| - |node.key| + i <= |key|
      requires node.path[..at] == key[..at] && (at < |key| ==> node.key[i] != key[at])
      modifies this`length, this`nodes, this`bindings, node, handler
      ensures Valid() && fresh(nodes - old(nodes))
      ensures Abstract() == Step(old(Abstract()), key, handler.supply(old(handler.calls)))
      ensures result == Answer(old(Abstract()), key, handler.supply(old(handler.calls)))
      ensures handler.calls == old(handler.calls) + (if Creates(old(Abstract()), key) then 1 else 0)
    {
      CutNode(node, i, at == |key|, handler, parent);
      if at == |key| {
        assert key[..at] == key;
        result := node.value;
      } else {
        result := AddLeaf(node, key, at, handler);
      }
    }

    /** The value of the node that `key` ends at, provided now if that node only joins branches. */
    method ValueAt(node: Node<V>, key: Key, handler: ValueHandler<V>) returns (result: Option<V>)
      requires Valid() && node in nodes && node.path == key
      modifies this`bindings, node, handler
      ensures Valid()
      ensures Abstract() == Step(old(Abstract()), key, handler.supply(old(handler.calls)))
      ensures result == Answer(old(Abstract()), key, handler.supply(old(handler.calls)))
      ensures handler.calls == old(handler.calls) + (if Creates(old(Abstract()), key) then 1 else 0)
    {
      if node.value.None? {
        UnvaluedNode(root, Graph(), node, bindings);
        if |node.edges| > 0 {
          FillShape(root, Graph(), node, handler.supply(handler.calls), bindings);
          FillNode(node, handler);
        }
      } else {
        assert Recorded(Graph(), node, bindings);
      }
      result := node.value;
    }

    method FillNode(node: Node<V>, handler: ValueHandler<V>)
      requires node in nodes
      modifies this`bindings, node`value, handler
      ensures handler.calls == old(handler.calls) + 1 && node.value == Some(handler.supply(old(handler.calls)))
      ensures Graph() == Fill(old(Graph()), node, node.value.value)
      ensures bindings == old(bindings)[node.path := node.value.value]
    {
      var item := handler.Call();
      node.value := Some(item);
      bindings := bindings[node.path := item];
    }

    method AddLeaf(node: Node<V>, key: Key, at: nat, handler: ValueHandler<V>) returns (result: Option<V>)
      requires WellShapedExcept(node) && node in nodes
      requires at < |key| && node.path == key[..at]
      requires forall e :: e in node.edges && e.key != [] ==> e.key[0] != key[at]
      requires Valid() || node.edges != []
      modifies this`length, this`nodes, this`bindings, node, handler
      ensures Valid() && nodes > old(nodes) && fresh(nodes - old(nodes))
      ensures key !in old(bindings) && key != [] && !BranchPoint(old(bindings).Keys, key)
      ensures result == Some(handler.supply(old(handler.calls))) && handler.calls == old(handler.calls) + 1
      ensures bindings == old(bindings)[key := handler.supply(old(handler.calls))] && length == old(length) + 1
    {
      ghost var g := Graph();
      var item := handler.Call();
      var leaf := new Node(key[at..], Some(item), [], key);
      node.edges := node.edges + [leaf];
      nodes := nodes + {leaf};
      OnItemAdded();
      bindings := bindings[key := item];
      result := Some(item);
      assert Graph() == Push(g, node, leaf, key, item);
      PushAll(root, g, node, leaf, key, item, old(bindings));
    }
  }
}
