/** LRU (internal/algorithms/lru.go) under the memory manager: the resident set is always a prefix
    of the recency order of the accesses, so more frames never cost more faults. */
module LruStack {
  import opened Prelude
  import opened Frames
  import opened MemoryModel
  import opened Coherence

  // ---- The policy ----

  /** The first of the least recently accessed evictable frames among the first n listed. */
  function LruUpTo(frames: seq<Frame>, ids: seq<nat>, n: nat): (r: Option<nat>)
    requires InRange(frames, ids) && n <= |ids|
    ensures match r
            case Some(v) =>
              && v in ids && frames[v].Evictable()
              && forall k :: 0 <= k < n && frames[ids[k]].Evictable()
                             ==> frames[v].lastAccess <= frames[ids[k]].lastAccess
            case None => forall k :: 0 <= k < n ==> !frames[ids[k]].Evictable()
  {
    if n == 0 then None
    else
      var i, best := ids[n - 1], LruUpTo(frames, ids, n - 1);
      if frames[i].Evictable() && (best.None? || frames[i].lastAccess < frames[best.value].lastAccess)
      then Some(i) else best
  }

  function LruVictim(frames: seq<Frame>, ids: seq<nat>): (r: Option<nat>)
    requires InRange(frames, ids)
    ensures match r
            case Some(v) =>
              && v in ids && frames[v].Evictable()
              && forall i :: i in ids && frames[i].Evictable() ==> frames[v].lastAccess <= frames[i].lastAccess
            case None => forall i :: i in ids ==> !frames[i].Evictable()
  {
    LruUpTo(frames, ids, |ids|)
  }

  ghost function LruPolicy(): (p: Policy<()>)
    ensures Lawful(p)
  {
    Policy(
      (s, fs, ids, now) => Selection(if InRange(fs, ids) then LruVictim(fs, ids) else None, s, fs),
      (s, i, f: Frame, write, now) => (s, f.Access(write, now)),
      (s, i, f: Frame, now) => (s, f.Access(false, now)),
      (s, i, f) => (s, f),
      s => None,
      s => s)
  }

  // ---- The reference: recency order ----

  type Key = (Pid, nat)

  function Find(s: seq<Key>, k: Key): (x: nat)
    ensures x <= |s|
    ensures x < |s| ==> s[x] == k
    ensures k in s <==> x < |s|
    ensures forall j :: 0 <= j < x ==> s[j] != k
  {
    if s == [] || s[0] == k then 0 else 1 + Find(s[1..], k)
  }

  function Touch(s: seq<Key>, k: Key): seq<Key> {
    var x := Find(s, k);
    [k] + s[..x] + (if x < |s| then s[x + 1..] else [])
  }

  datatype Request = Request(pid: Pid, page: nat, write: bool)
  {
    function Key(): Key {
      (pid, page)
    }
  }

  /** The pages of a trace, most recently accessed first, each once. */
  function Recency(trace: seq<Request>): seq<Key> {
    if trace == [] then [] else Touch(Recency(trace[..|trace| - 1]), trace[|trace| - 1].Key())
  }

  function Top(s: seq<Key>, n: nat): seq<Key> {
    if |s| <= n then s else s[..n]
  }

  // ---- The stack on its own: a finite map from resident keys to stamps ----

  ghost predicate Ordered(st: map<Key, int>, s: seq<Key>) {
    && Distinct(s)
    && st.Keys == (set k | k in s)
    && forall i, j :: 0 <= i < j < |s| ==> st[s[i]] > st[s[j]]
  }

  ghost predicate Stack(st: map<Key, int>, rec: seq<Key>, n: nat, last: int) {
    && Distinct(rec)
    && Ordered(st, Top(rec, n))
    && forall k :: k in st ==> st[k] <= last
  }

  lemma TouchDistinct(s: seq<Key>, k: Key)
    requires Distinct(s)
    ensures Distinct(Touch(s, k))
    ensures |Touch(s, k)| == if k in s then |s| else |s| + 1
  {
  }

  lemma RemovedAt(s: seq<Key>, x: nat, i: nat)
    requires x < |s| && i < |s| - 1
    ensures RemoveAt(s, x)[i] == s[if i < x then i else i + 1]
  {
  }

  lemma RemovedKeys(s: seq<Key>, x: nat, y: Key)
    requires x < |s| && Distinct(s)
    ensures y in RemoveAt(s, x) <==> y in s && y != s[x]
  {
    var t := RemoveAt(s, x);
    if y in s && y != s[x] {
      var i :| 0 <= i < |s| && s[i] == y;
      RemovedAt(s, x, if i < x then i else i - 1);
    }
    if y in t {
      var i :| 0 <= i < |t| && t[i] == y;
      RemovedAt(s, x, i);
    }
  }

  lemma OrderedDrop(st: map<Key, int>, s: seq<Key>, x: nat)
    requires Ordered(st, s) && x < |s|
    ensures Ordered(st - {s[x]}, RemoveAt(s, x))
  {
    var t := RemoveAt(s, x);
    forall y ensures y in t <==> y in st - {s[x]} {
      RemovedKeys(s, x, y);
    }
    hide RemoveAt;
    forall i, j | 0 <= i < j < |t| ensures t[i] != t[j] && st[t[i]] > st[t[j]] {
      RemovedAt(s, x, i);
      RemovedAt(s, x, j);
    }
  }

  lemma OrderedPrepend(st: map<Key, int>, s: seq<Key>, k: Key, now: int)
    requires Ordered(st, s) && k !in st && forall y :: y in st ==> st[y] < now
    ensures Ordered(st[k := now], [k] + s)
  {
    var t := [k] + s;
    forall y | y in st[k := now].Keys ensures y in t {
      if y != k {
        var i :| 0 <= i < |s| && s[i] == y;
        assert t[i + 1] == y;
      }
    }
  }

  lemma FoundInTop(s: seq<Key>, n: nat, k: Key)
    requires k in Top(s, n)
    ensures var x := Find(s, k); x < |Top(s, n)| && Top(s, n)[x] == k
  {
    var j :| 0 <= j < |Top(s, n)| && Top(s, n)[j] == k;
    assert s[j] == k;
    assert Find(s, k) <= j;
  }

  /** What becomes of the first n keys when k is touched. */
  lemma TopTouchInside(s: seq<Key>, n: nat, k: Key)
    requires k in Top(s, n)
    ensures var x := Find(s, k);
            && x < |Top(s, n)| && Top(s, n)[x] == k
            && Top(Touch(s, k), n) == [k] + RemoveAt(Top(s, n), x)
  {
    FoundInTop(s, n, k);
    var x := Find(s, k);
    assert Touch(s, k) == [k] + s[..x] + s[x + 1..];
    hide Find, Touch;
    TopMoved(s, n, x, k);
  }

  lemma TopMoved(s: seq<Key>, n: nat, x: nat, k: Key)
    requires x < |Top(s, n)|
    ensures Top([k] + s[..x] + s[x + 1..], n) == [k] + RemoveAt(Top(s, n), x)
  {
    var m := |Top(s, n)|;
    FrontOfMoved(s, x, m, k);
    assert s[..m] == Top(s, n);
  }

  /** Moving an element of the first m to the front changes the order of the first m only. */
  lemma FrontOfMoved(s: seq<Key>, x: nat, m: nat, k: Key)
    requires x < m <= |s|
    ensures ([k] + s[..x] + s[x + 1..])[..m] == [k] + s[..m][..x] + s[..m][x + 1..]
  {
    assert s[..x] == s[..m][..x];
  }

  lemma TopTouchOutside(s: seq<Key>, n: nat, k: Key)
    requires k !in Top(s, n)
    ensures |s| < n ==> Touch(s, k) == [k] + s
    ensures 0 < n <= |s| ==> Top(Touch(s, k), n) == [k] + Top(s, n)[..n - 1]
  {
  }

  /** A hit moves the key to the front; the resident set stays. */
  lemma StackHit(st: map<Key, int>, rec: seq<Key>, n: nat, last: int, k: Key, now: int)
    requires Stack(st, rec, n, last) && k in st && last < now
    ensures Stack(st[k := now], Touch(rec, k), n, now)
  {
    var a := Top(rec, n);
    TouchDistinct(rec, k);
    TopTouchInside(rec, n, k);
    hide Touch, Distinct, Top;
    OrderedDrop(st, a, Find(rec, k));
    OrderedPrepend(st - {k}, RemoveAt(a, Find(rec, k)), k, now);
    assert (st - {k})[k := now] == st[k := now];
  }

  /** A miss with room adds the key in front. */
  lemma StackGrow(st: map<Key, int>, rec: seq<Key>, n: nat, last: int, k: Key, now: int)
    requires Stack(st, rec, n, last) && k !in st && |st| < n && last < now
    ensures Stack(st[k := now], Touch(rec, k), n, now)
  {
    StackSize(st, Top(rec, n));
    TopTouchOutside(rec, n, k);
    TouchDistinct(rec, k);
    hide Distinct, Touch;
    OrderedPrepend(st, rec, k, now);
  }

  /** A miss without room replaces the least recent key. */
  lemma StackReplace(st: map<Key, int>, rec: seq<Key>, n: nat, last: int, k: Key, victim: Key, now: int)
    requires Stack(st, rec, n, last) && k !in st && |st| == n > 0 && last < now
    requires victim in st && forall y :: y in st ==> st[victim] <= st[y]
    ensures Stack((st - {victim})[k := now], Touch(rec, k), n, now)
  {
    var a := Top(rec, n);
    StackSize(st, a);
    TouchDistinct(rec, k);
    TopTouchOutside(rec, n, k);
    assert victim == a[n - 1];
    assert a[..n - 1] == RemoveAt(a, n - 1);
    hide Touch, Distinct, Top;
    OrderedDrop(st, a, n - 1);
    OrderedPrepend(st - {victim}, RemoveAt(a, n - 1), k, now);
  }

  lemma {:induction false} StackSize(st: map<Key, int>, s: seq<Key>)
    requires Ordered(st, s)
    ensures |st| == |s|
  {
    DistinctSize(s);
    assert |st| == |st.Keys|;
  }

  lemma {:induction false} DistinctSize(s: seq<Key>)
    requires Distinct(s)
    ensures |set k | k in s| == |s|
  {
    if s != [] {
      var t, e := s[..|s| - 1], s[|s| - 1];
      DistinctSize(t);
      assert (set k | k in s) == (set k | k in t) + {e};
    }
  }
}
