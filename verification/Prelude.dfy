/** Small generic vocabulary shared by every module. */
module Prelude {
  datatype Option<+T> = None | Some(value: T)

  type Pid = string

  const WORD := 0x1_0000_0000_0000_0000 // number of values of a 64-bit unsigned integer

  function Min(a: int, b: int): int {
    if a < b then a else b
  }

  function Max(a: int, b: int): int {
    if a > b then a else b
  }

  function RemoveAt<T>(l: seq<T>, i: nat): (r: seq<T>)
    requires i < |l|
    ensures |r| == |l| - 1
  {
    l[..i] + l[i + 1..]
  }

  /** The first place of x in a list. */
  function IndexOf<T(==)>(l: seq<T>, x: T): (r: Option<nat>)
    ensures match r
            case Some(i) => i < |l| && l[i] == x && forall j :: 0 <= j < i ==> l[j] != x
            case None => x !in l
  {
    if l == [] then None
    else if l[0] == x then Some(0)
    else
      match IndexOf(l[1..], x)
      case Some(i) => Some(i + 1)
      case None => None
  }

  ghost predicate Distinct<T>(s: seq<T>) {
    forall i, j :: 0 <= i < j < |s| ==> s[i] != s[j]
  }

  lemma SubsetSize<T>(a: set<T>, b: set<T>)
    requires a <= b
    ensures |a| <= |b|
  {
    assert b == a + (b - a);
  }

  /** A map that pairs two finite sets one to one makes them equally large. */
  lemma {:induction false} BijectionSize<A, B>(a: set<A>, b: set<B>, f: map<A, B>)
    requires f.Keys == a && f.Values == b
    requires forall x, y :: x in a && y in a && x != y ==> f[x] != f[y]
    ensures |a| == |b|
  {
    if a == {} {
      assert b == {};
    } else {
      var x :| x in a;
      var g := f - {x};
      assert g.Keys == a - {x};
      forall y | y in b - {f[x]}
        ensures y in g.Values
      {
        var z :| z in f && f[z] == y;
        assert z in g && g[z] == y;
      }
      assert g.Values == b - {f[x]};
      BijectionSize(a - {x}, b - {f[x]}, g);
    }
  }

  /** The sum of the values of a finite map. */
  ghost function Sum<K>(m: map<K, int>): int {
    if m == map[] then 0
    else
      var k :| k in m;
      m[k] + Sum(m - {k})
  }

  /** The sum does not depend on the order in which the keys are taken. */
  lemma {:induction false} SumRemove<K>(m: map<K, int>, k: K)
    requires k in m
    ensures Sum(m) == m[k] + Sum(m - {k})
    decreases |m|
  {
    var c :| c in m && Sum(m) == m[c] + Sum(m - {c});
    if c != k {
      SumRemove(m - {c}, k);
      SumRemove(m - {k}, c);
      assert m - {c} - {k} == m - {k} - {c};
    }
  }

  lemma SumUpdate<K>(m: map<K, int>, k: K, v: int)
    ensures Sum(m[k := v]) == Sum(m) + v - (if k in m then m[k] else 0)
  {
    SumRemove(m[k := v], k);
    assert m[k := v] - {k} == m - {k};
    if k in m {
      SumRemove(m, k);
    } else {
      assert m - {k} == m;
    }
  }
}
