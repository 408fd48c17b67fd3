/** Hosts as a query plan sees them, and facts about lists of them. */
module HostLists {
  import opened Seqs
  import opened Wrappers

  /** A snapshot of a host; `upSince` is set when it came up within the last minute. */
  datatype Host = Host(address: string, datacenter: string, accepted: bool, isUp: bool, healthy: bool, inFlight: nat,
                       newlyUp: Option<int>)

  predicate Distinct(s: seq<Host>) {
    forall i, j :: 0 <= i < j < |s| ==> s[i] != s[j]
  }

  /** The elements that satisfy a condition, in order. */
  function Keep(s: seq<Host>, p: Host -> bool): (r: seq<Host>)
    ensures forall h <- r :: h in s && p(h)
  {
    if s == [] then [] else (if p(s[0]) then [s[0]] else []) + Keep(s[1..], p)
  }

  lemma {:induction false} KeepAppend(a: seq<Host>, b: seq<Host>, p: Host -> bool)
    ensures Keep(a + b, p) == Keep(a, p) + Keep(b, p)
    decreases |a|
  {
    if a == [] {
      assert a + b == b;
    } else {
      assert (a + b)[1..] == a[1..] + b;
      KeepAppend(a[1..], b, p);
      Assoc(if p(a[0]) then [a[0]] else [], Keep(a[1..], p), Keep(b, p));
    }
  }

  lemma KeepOne(s: seq<Host>, h: Host, p: Host -> bool)
    ensures Keep(s + [h], p) == Keep(s, p) + (if p(h) then [h] else [])
  {
    KeepAppend(s, [h], p);
    assert [h][1..] == [];
  }

  /** Every element that satisfies the condition stays as often as it was. */
  lemma {:induction false} KeepCount(s: seq<Host>, p: Host -> bool, h: Host)
    ensures multiset(Keep(s, p))[h] == if p(h) then multiset(s)[h] else 0
    decreases |s|
  {
    if s != [] {
      KeepCount(s[1..], p, h);
      assert s == [s[0]] + s[1..];
    }
  }

  /** The elements kept stand in the order they had. */
  lemma {:induction false} KeepInOrder(s: seq<Host>, p: Host -> bool, i: nat, j: nat) returns (a: nat, b: nat)
    requires i < j < |Keep(s, p)|
    ensures a < b < |s| && s[a] == Keep(s, p)[i] && s[b] == Keep(s, p)[j]
    decreases |s|
  {
    if !p(s[0]) {
      a, b := KeepInOrder(s[1..], p, i, j);
      a, b := a + 1, b + 1;
    } else if i == 0 {
      var h := Keep(s[1..], p)[j - 1];
      assert h in Keep(s[1..], p);
      a := 0;
      b :| 0 < b < |s| && s[b] == h;
    } else {
      a, b := KeepInOrder(s[1..], p, i - 1, j - 1);
      a, b := a + 1, b + 1;
    }
  }

  /** The elements from an index on, and then those before it. */
  function Rotation(s: seq<Host>, start: nat): (r: seq<Host>)
    requires s != []
  {
    var k := start % |s|;
    s[k..] + s[..k]
  }

  lemma RotationAt(s: seq<Host>, start: nat, i: nat)
    requires i < |s|
    ensures |Rotation(s, start)| == |s| && Rotation(s, start)[i] == s[(i + start) % |s|]
  {
    RotatedIndex(i, start, |s|);
  }

  lemma RotatedIndex(i: nat, start: nat, n: nat)
    requires i < n
    ensures var k := start % n;
      (i + start) % n == if i + k < n then i + k else i + k - n
  {
    var k, q := start % n, start / n;
    assert start == n * q + k;
    ModOf(i + k, n, q);
    SmallMod(i + k, n);
  }

  lemma SmallMod(x: nat, n: nat)
    requires x < 2 * n
    ensures x % n == if x < n then x else x - n
  {
    if x >= n {
      ModOf(x - n, n, 1);
    }
  }

  lemma ModOf(x: nat, n: nat, q: int)
    requires n > 0 && x + n * q >= 0
    ensures (x + n * q) % n == x % n
  {
    var y := x + n * q;
    assert n * (y / n - q - x / n) == x % n - y % n;
    var d := y / n - q - x / n;
    if d >= 1 {
      MulUp(n, 1, d);
    } else if d <= -1 {
      MulUp(n, d, -1);
    }
  }

  lemma MulUp(n: nat, a: int, b: int)
    requires a <= b
    ensures n * a <= n * b
  {
  }

  lemma RotationSame(s: seq<Host>, start: nat)
    requires s != []
    ensures multiset(Rotation(s, start)) == multiset(s)
  {
    var k := start % |s|;
    assert s == s[..k] + s[k..];
  }

  lemma {:induction false} DistinctCounts(s: seq<Host>, h: Host)
    requires Distinct(s)
    ensures multiset(s)[h] == if h in s then 1 else 0
    decreases |s|
  {
    if s != [] {
      var rest := s[1..];
      assert s == [s[0]] + rest;
      DistinctCounts(rest, h);
      if h in rest {
        var j :| 0 <= j < |rest| && rest[j] == h;
        assert s[j + 1] == h;
      }
    }
  }

  lemma CountsTwice(s: seq<Host>, i: nat, j: nat)
    requires i < j < |s| && s[i] == s[j]
    ensures multiset(s)[s[i]] >= 2
  {
    var a, b := s[..j], s[j..];
    assert s == a + b && a[i] in a && b[0] == s[j];
  }

  lemma {:induction false} CountsDistinct(s: seq<Host>)
    requires forall h: Host :: multiset(s)[h] <= 1
    ensures Distinct(s)
  {
    forall i, j | 0 <= i < j < |s|
      ensures s[i] != s[j]
    {
      if s[i] == s[j] {
        CountsTwice(s, i, j);
      }
    }
  }
}
