/** The order of ARC's lists: what a hit does to it, and which pages it therefore keeps. */
module ArcOrder {
  import opened Prelude
  import opened Frames
  import opened Arc

  ghost predicate InList(l: seq<Entry>, page: nat) {
    exists i :: 0 <= i < |l| && l[i].pageId == page
  }

  ghost predicate Remembered(s: Lists, page: nat) {
    InList(s.b1, page) || InList(s.b2, page)
  }

  // ---- Where a page goes ----

  /** Adapting demotes from the back only, and the most recently demoted entries are remembered first: each
      resident list with its ghosts behind it loses nothing but its end. */
  lemma AdaptedKeepsOrder(s: Lists)
    requires Adaptable(s)
    ensures var r := Adapted(s);
            && r.t1 <= s.t1 && r.t2 <= s.t2
            && r.t1 + r.b1 <= s.t1 + s.b1 && r.t2 + r.b2 <= s.t2 + s.b2
            && |r.t1| == Min(|s.t1|, s.p) && |r.t2| == Min(|s.t2|, s.c - |r.t1|)
            && |r.b1| == Min(|s.t1| + |s.b1| - |r.t1|, s.c) && |r.b2| == Min(|s.t2| + |s.b2| - |r.t2|, s.c)
            && r.p == s.p && r.c == s.c && r.index == s.index
  {
    var r := Adapted(s);
    CutKeepsOrder(s.t1, s.b1, |r.t1|, s.c);
    CutKeepsOrder(s.t2, s.b2, |r.t2|, s.c);
  }

  lemma CutKeepsOrder(l: seq<Entry>, ghosts: seq<Entry>, n: nat, c: nat)
    requires n <= |l|
    ensures l[..n] <= l && l[..n] + Take(l[n..] + ghosts, c) <= l + ghosts
  {
    assert l + ghosts == l[..n] + (l[n..] + ghosts);
  }

  /** A page found in T1 or T2 goes to the front of T2; everything else stays, and in its order. */
  lemma HitGoesToFront(s: Lists, page: nat)
    requires Bounded(s) && (InList(s.t1, page) || InList(s.t2, page))
    ensures var r := OnAccess(s, page);
            && r.t2 != [] && r.t2[0].pageId == page
            && r.b1 == s.b1 && r.b2 == s.b2 && r.p == s.p && r.c == s.c
            && if InList(s.t1, page)
               then r.t2[1..] == s.t2 && TakenOut(s.t1, r.t2[0], r.t1)
               else r.t1 == s.t1 && TakenOut(s.t2, r.t2[0], r.t2[1..])
  {
    var r, i, j := OnAccess(s, page), FindPage(s.t1, page), FindPage(s.t2, page);
    if i.Some? {
      assert r.t2 == [s.t1[i.value]] + s.t2;
      assert At(s.t1, i.value, r.t2[0], r.t1);
    } else {
      assert r.t2 == [s.t2[j.value]] + RemoveAt(s.t2, j.value);
      assert At(s.t2, j.value, r.t2[0], r.t2[1..]);
    }
  }

  ghost predicate At(l: seq<Entry>, i: nat, e: Entry, r: seq<Entry>) {
    i < |l| && l[i] == e && r == l[..i] + l[i + 1..] && forall j :: 0 <= j < i ==> l[j].pageId != e.pageId
  }

  /** The first entry of its page has left the list. */
  ghost predicate TakenOut(l: seq<Entry>, e: Entry, r: seq<Entry>) {
    exists i :: At(l, i, e, r)
  }

  /** How far a ghost hit moves the target: by the ratio of the ghosts' lengths, the longer over the shorter and
      rounded down, if it is the longer list that was hit, and else by one. */
  ghost predicate Move(hit: nat, other: nat, d: int) {
    if hit >= other > 0 then d * other <= hit < (d + 1) * other else d == 1
  }

  lemma RatioIsMove(a: nat, b: nat)
    ensures Move(a, b, Ratio(a, b))
  {
    if a >= b > 0 {
      assert a == a / b * b + a % b;
    }
  }

  /** The lists adapt around a returning entry without changing their order. */
  ghost predicate Returned(s: Lists, page: nat, p: int, r: Lists) {
    && r.t2 != [] && r.t2[0].pageId == page && r.p == p
    && r.t1 <= s.t1 && r.t2[1..] <= s.t2
    && |r.t1| == Min(|s.t1|, p) && |r.t2| == 1 + Min(|s.t2|, s.c - |r.t1|)
  }

  lemma GhostReturns(s: Lists, q: Lists, e: Entry)
    requires Adaptable(q) && q.t1 == s.t1 && q.t2 == s.t2 && q.c == s.c
    ensures Returned(s, e.pageId, q.p, ToT2(Adapted(q), e))
  {
    AdaptedKeepsOrder(q);
    hide Adapted;
    var r := ToT2(Adapted(q), e);
    assert r.t2 == [e] + Adapted(q).t2;
    assert r.t2[1..] == Adapted(q).t2;
  }

  /** A page that only B1 and perhaps B2 remember goes to the front of T2 as well, and the target moves towards
      T1. */
  lemma B1GoesToFront(s: Lists, page: nat)
    requires Bounded(s) && !InList(s.t1, page) && !InList(s.t2, page) && InList(s.b1, page)
    ensures var r := OnAccess(s, page);
            && Returned(s, page, r.p, r) && (s.p < s.c ==> r.p > s.p)
            && exists d :: Move(|s.b1|, |s.b2|, d) && r.p == Min(s.p + d, s.c)
  {
    var i := FindPage(s.b1, page);
    RatioIsMove(|s.b1|, |s.b2|);
    hide Ratio, Move, RemoveAt, Returned, Adapted;
    var q := s.(p := Min(s.p + Ratio(|s.b1|, |s.b2|), s.c), b1 := RemoveAt(s.b1, i.value));
    GhostReturns(s, q, s.b1[i.value]);
    assert OnAccess(s, page) == ToT2(Adapted(q), s.b1[i.value]);
    hide OnAccess, ToT2;
    ReturnedTarget(s, page, q.p, ToT2(Adapted(q), s.b1[i.value]));
  }

  /** And so does a page that B2 alone remembers; the target moves away from T1. */
  lemma B2GoesToFront(s: Lists, page: nat)
    requires Bounded(s) && !InList(s.t1, page) && !InList(s.t2, page) && !InList(s.b1, page) && InList(s.b2, page)
    ensures var r := OnAccess(s, page);
            && Returned(s, page, r.p, r) && (s.p > 0 ==> r.p < s.p)
            && exists d :: Move(|s.b2|, |s.b1|, d) && r.p == Max(s.p - d, 0)
  {
    var j := FindPage(s.b2, page);
    RatioIsMove(|s.b2|, |s.b1|);
    hide Ratio, Move, RemoveAt, Returned, Adapted;
    var q := s.(p := Max(s.p - Ratio(|s.b2|, |s.b1|), 0), b2 := RemoveAt(s.b2, j.value));
    GhostReturns(s, q, s.b2[j.value]);
    assert OnAccess(s, page) == ToT2(Adapted(q), s.b2[j.value]);
    hide OnAccess, ToT2;
    ReturnedTarget(s, page, q.p, ToT2(Adapted(q), s.b2[j.value]));
  }

  lemma ReturnedTarget(s: Lists, page: nat, p: int, r: Lists)
    requires Returned(s, page, p, r)
    ensures r.p == p
  {
  }

  /** A page that no list knows enters T1 in front; it is remembered at once if T1 has no room. */
  ghost predicate EntersT1(s: Lists, page: nat, r: Lists) {
    && (r.t1 + r.b1 != [] ==> (r.t1 + r.b1)[0].pageId == page && (r.t1 + r.b1)[1..] <= s.t1 + s.b1)
    && r.t2 <= s.t2 && r.t2 + r.b2 <= s.t2 + s.b2 && r.p == s.p
    && |r.t1| == Min(|s.t1| + 1, s.p) && |r.t2| == Min(|s.t2|, s.c - |r.t1|)
    && |r.b1| == Min(|s.t1| + |s.b1| + 1 - |r.t1|, s.c)
  }

  lemma FreshEntersT1(s: Lists, page: nat)
    requires Bounded(s)
    ensures EntersT1(s, page, Adapted(Fresh(s, page)))
  {
    var q := Fresh(s, page);
    AdaptedKeepsOrder(q);
    var r := Adapted(q);
    hide Adapted;
    var all := q.t1 + q.b1;
    assert all == [q.t1[0]] + (s.t1 + s.b1);
    if r.t1 + r.b1 != [] {
      assert (r.t1 + r.b1)[0] == all[0];
      assert (r.t1 + r.b1)[1..] <= all[1..];
    }
  }

  lemma NewPageEntersT1(s: Lists, page: nat)
    requires Bounded(s) && !InList(s.t1, page) && !InList(s.t2, page)
    requires !Remembered(s, page)
    ensures EntersT1(s, page, OnAccess(s, page))
  {
    hide Adapted, EntersT1;
    FreshEntersT1(s, page);
  }

  /** A fault for a remembered page puts it at the front of T2 and leaves everything else alone but the ghost
      that remembered it; a fault for another page is that of a new one. */
  lemma FaultGoesToFront(s: Lists, page: nat)
    requires Bounded(s)
    ensures var r := OnFault(s, page);
            if Remembered(s, page) then
              && r.t2 != [] && r.t2[0].pageId == page && r.t2[1..] == s.t2 && r.t1 == s.t1 && r.p == s.p
              && if InList(s.b1, page) then TakenOut(s.b1, r.t2[0], r.b1) && r.b2 == s.b2
                 else TakenOut(s.b2, r.t2[0], r.b2) && r.b1 == s.b1
            else EntersT1(s, page, r)
  {
    var r, i, j := OnFault(s, page), FindPage(s.b1, page), FindPage(s.b2, page);
    hide Adapted, EntersT1;
    FreshEntersT1(s, page);
    if i.Some? {
      assert r.t2 == [s.b1[i.value]] + s.t2;
      assert At(s.b1, i.value, r.t2[0], r.b1);
    } else if j.Some? {
      assert r.t2 == [s.b2[j.value]] + s.t2;
      assert At(s.b2, j.value, r.t2[0], r.b2);
    }
  }

  // ---- Whom that spares ----

  /** The resident entries in the order in which they are given up, last first. */
  function Queue(s: Lists): seq<Entry> {
    s.t2 + s.t1
  }

  ghost predicate Named(frames: seq<Frame>, page: nat) {
    exists f :: 0 <= f < |frames| && frames[f].Evictable() && frames[f].pageId == page
  }

  /** Some entry of another page comes later in the queue than all of this page's, and a frame of it can be
      evicted. */
  ghost predicate Covered(s: Lists, frames: seq<Frame>, page: nat) {
    exists k :: 0 <= k < |Queue(s)| && Queue(s)[k].pageId != page && Named(frames, Queue(s)[k].pageId)
                && forall j :: k < j < |Queue(s)| ==> Queue(s)[j].pageId != page
  }

  ghost predicate Spared(s: Lists, frames: seq<Frame>, page: nat)
    requires Bounded(s)
  {
    match Select(s, frames).1
    case Some(v) => v < |frames| && frames[v].pageId != page
    case None => true
  }

  /** The last entry of the queue that names an evictable frame gives it up. */
  lemma LastNamedGoes(s: Lists, frames: seq<Frame>, k: nat)
    requires Bounded(s) && k < |Queue(s)| && Named(frames, Queue(s)[k].pageId)
    requires forall j :: k < j < |Queue(s)| ==> !Named(frames, Queue(s)[j].pageId)
    ensures var victim := Select(s, frames).1;
            victim.Some? && victim.value < |frames| && frames[victim.value].pageId == Queue(s)[k].pageId
  {
    var n := |s.t2|;
    var i1, i2 := BackMost(s.t1, frames, |s.t1|), BackMost(s.t2, frames, n);
    assert forall j :: 0 <= j < |s.t1| ==> Queue(s)[n + j] == s.t1[j];
    hide ToB1, ToB2, Forget, FirstEvictable;
    if i1.Some? {
      assert Named(frames, Queue(s)[n + i1.value].pageId);
      assert n + i1.value == k;
    } else {
      assert forall j :: 0 <= j < n ==> Queue(s)[j] == s.t2[j];
      assert k < n;
      assert i2.value == k;
    }
  }

  lemma {:induction false} LastNamed(l: seq<Entry>, frames: seq<Frame>, k: nat) returns (i: nat)
    requires k < |l| && Named(frames, l[k].pageId)
    ensures k <= i < |l| && Named(frames, l[i].pageId)
    ensures forall j :: i < j < |l| ==> !Named(frames, l[j].pageId)
    decreases |l| - k
  {
    i := k;
    if exists j :: k < j < |l| && Named(frames, l[j].pageId) {
      var j :| k < j < |l| && Named(frames, l[j].pageId);
      i := LastNamed(l, frames, j);
    }
  }

  /** A page of the queue with an evictable frame is spared exactly if it is covered. */
  lemma SparedIffCovered(s: Lists, frames: seq<Frame>, page: nat)
    requires Bounded(s) && InList(Queue(s), page) && Named(frames, page)
    ensures Spared(s, frames, page) <==> Covered(s, frames, page)
  {
    var q := Queue(s);
    var x :| 0 <= x < |q| && q[x].pageId == page;
    var i := LastNamed(q, frames, x);
    hide Select, Named, Queue;
    LastNamedGoes(s, frames, i);
    if Covered(s, frames, page) {
      var k :| 0 <= k < |q| && q[k].pageId != page && Named(frames, q[k].pageId)
               && forall j :: k < j < |q| ==> q[j].pageId != page;
      assert k <= i;
      assert q[i].pageId != page;
    }
  }

  /** At most one entry of T1 and T2 is the page's. */
  ghost predicate Once(s: Lists, page: nat) {
    forall i, j :: 0 <= i < j < |Queue(s)| ==> Queue(s)[i].pageId != page || Queue(s)[j].pageId != page
  }

  lemma OnceTakenOut(l: seq<Entry>, page: nat, e: Entry, r: seq<Entry>)
    requires TakenOut(l, e, r) && e.pageId == page
    requires forall i, j :: 0 <= i < j < |l| ==> l[i].pageId != page || l[j].pageId != page
    ensures !InList(r, page)
  {
    var i: nat :| At(l, i, e, r);
    assert forall j :: 0 <= j < |r| ==> r[j] == l[if j < i then j else j + 1];
  }

  lemma OnceInBoth(s: Lists, page: nat)
    requires Once(s, page)
    ensures forall i, j :: 0 <= i < j < |s.t1| ==> s.t1[i].pageId != page || s.t1[j].pageId != page
    ensures forall i, j :: 0 <= i < j < |s.t2| ==> s.t2[i].pageId != page || s.t2[j].pageId != page
    ensures !InList(s.t1, page) || !InList(s.t2, page)
  {
    var q, n := Queue(s), |s.t2|;
    assert forall i :: 0 <= i < n ==> q[i] == s.t2[i];
    assert forall i :: 0 <= i < |s.t1| ==> q[n + i] == s.t1[i];
    hide Queue;
    forall i, j | 0 <= i < n && 0 <= j < |s.t1| ensures s.t2[i].pageId != page || s.t1[j].pageId != page {
      assert q[i] == s.t2[i] && q[n + j] == s.t1[j];
    }
    forall i, j | 0 <= i < j < |s.t1| ensures s.t1[i].pageId != page || s.t1[j].pageId != page {
      assert q[n + i] == s.t1[i] && q[n + j] == s.t1[j];
    }
    forall i, j | 0 <= i < j < |s.t2| ensures s.t2[i].pageId != page || s.t2[j].pageId != page {
      assert q[i] == s.t2[i] && q[j] == s.t2[j];
    }
  }

  lemma InQueue(s: Lists, page: nat)
    ensures InList(Queue(s), page) <==> InList(s.t1, page) || InList(s.t2, page)
  {
    var q, n := Queue(s), |s.t2|;
    assert forall i :: 0 <= i < n ==> q[i] == s.t2[i];
    assert forall i :: 0 <= i < |s.t1| ==> q[n + i] == s.t1[i];
  }

  lemma FirstOfQueue(r: Lists, page: nat)
    requires r.t2 != [] && r.t2[0].pageId == page && !InList(r.t2[1..], page) && !InList(r.t1, page)
    ensures var q := Queue(r);
            q != [] && q[0].pageId == page && forall j :: 1 <= j < |q| ==> q[j].pageId != page
  {
    var q := Queue(r);
    assert q == [r.t2[0]] + (r.t2[1..] + r.t1);
    forall j | 1 <= j < |q| ensures q[j].pageId != page {
      assert q[j] == if j < |r.t2| then r.t2[1..][j - 1] else r.t1[j - |r.t2|];
    }
  }

  lemma PrefixHasNot(a: seq<Entry>, l: seq<Entry>, page: nat)
    requires a <= l && !InList(l, page)
    ensures !InList(a, page)
  {
  }

  /** After an access a page that some list knew, and T1 and T2 held once at most, is the first of the queue and
      nowhere else in it. */
  lemma AccessedIsFirst(s: Lists, page: nat)
    requires Bounded(s) && Once(s, page) && (InList(Queue(s), page) || Remembered(s, page))
    ensures var q := Queue(OnAccess(s, page));
            q != [] && q[0].pageId == page && forall j :: 1 <= j < |q| ==> q[j].pageId != page
  {
    var r := OnAccess(s, page);
    InQueue(s, page);
    OnceInBoth(s, page);
    hide OnAccess, Queue, Once;
    if InList(s.t1, page) {
      HitGoesToFront(s, page);
      OnceTakenOut(s.t1, page, r.t2[0], r.t1);
    } else if InList(s.t2, page) {
      HitGoesToFront(s, page);
      OnceTakenOut(s.t2, page, r.t2[0], r.t2[1..]);
    } else {
      if InList(s.b1, page) {
        B1GoesToFront(s, page);
      } else {
        B2GoesToFront(s, page);
      }
      PrefixHasNot(r.t1, s.t1, page);
      PrefixHasNot(r.t2[1..], s.t2, page);
    }
    hide InList, TakenOut;
    FirstOfQueue(r, page);
  }

  lemma AccessBounded(s: Lists, page: nat)
    requires Bounded(s)
    ensures Bounded(OnAccess(s, page))
  {
    var j1, j2 := FindPage(s.b1, page), FindPage(s.b2, page);
    hide Adapted;
    if j1.Some? {
      AdaptBounded(s.(p := Min(s.p + Ratio(|s.b1|, |s.b2|), s.c), b1 := RemoveAt(s.b1, j1.value)));
    } else if j2.Some? {
      AdaptBounded(s.(p := Max(s.p - Ratio(|s.b2|, |s.b1|), 0), b2 := RemoveAt(s.b2, j2.value)));
    } else {
      AdaptBounded(Fresh(s, page));
    }
  }

  ghost predicate OtherNamed(s: Lists, frames: seq<Frame>, page: nat) {
    exists k :: 0 <= k < |Queue(s)| && Queue(s)[k].pageId != page && Named(frames, Queue(s)[k].pageId)
  }

  /** A page just hit, or just come back from a ghost list, is spared while any other entry of T1 or T2 names an
      evictable frame; with no such entry it goes, if its frame can. */
  lemma JustAccessedIsSpared(s: Lists, page: nat, frames: seq<Frame>)
    requires Bounded(s) && Once(s, page) && (InList(Queue(s), page) || Remembered(s, page))
    ensures var r := OnAccess(s, page);
            && Bounded(r)
            && (OtherNamed(r, frames, page) ==> Spared(r, frames, page))
            && (Named(frames, page) ==> (Spared(r, frames, page) <==> OtherNamed(r, frames, page)))
  {
    var r := OnAccess(s, page);
    AccessBounded(s, page);
    AccessedIsFirst(s, page);
    hide OnAccess, Select, Named, Bounded;
    if OtherNamed(r, frames, page) {
      var k :| 0 <= k < |Queue(r)| && Queue(r)[k].pageId != page && Named(frames, Queue(r)[k].pageId);
      var i := LastNamed(Queue(r), frames, k);
      LastNamedGoes(r, frames, i);
    } else if Named(frames, page) {
      LastNamedGoes(r, frames, 0);
    }
  }

  // ---- What becomes of a victim ----

  ghost predicate InFront(l: seq<Entry>, page: nat, r: seq<Entry>) {
    r != [] && r[0].pageId == page && r[1..] <= l
  }

  lemma TakeInFront(e: Entry, l: seq<Entry>, c: nat)
    requires c > 0
    ensures InFront(l, e.pageId, Take([e] + l, c))
  {
    var r := Take([e] + l, c);
    assert r <= [e] + l && ([e] + l)[1..] == l;
  }

  /** The victim's page is the latest ghost: in B2 if T2 gave it up, else in B1. */
  lemma VictimIsRemembered(s: Lists, frames: seq<Frame>, v: nat)
    requires Bounded(s) && s.c > 0 && Select(s, frames).1 == Some(v)
    ensures var r := Select(s, frames).0;
            && v < |frames| && Bounded(r) && r.p == s.p && r.c == s.c
            && if |r.t2| < |s.t2| then InFront(s.b2, frames[v].pageId, r.b2) && r.b1 == s.b1 && r.t1 == s.t1
               else InFront(s.b1, frames[v].pageId, r.b1) && r.b2 == s.b2
  {
    var i1, i2 := BackMost(s.t1, frames, |s.t1|), BackMost(s.t2, frames, |s.t2|);
    if i1.Some? {
      TakeInFront(s.t1[i1.value], s.b1, s.c);
    } else if i2.Some? {
      TakeInFront(s.t2[i2.value], s.b2, s.c);
    } else {
      TakeInFront(Entry(frames[v].pageId, s.index + 1), s.b1, s.c);
      assert FindPage(s.t2, frames[v].pageId).None?;
    }
    hide Take;
  }

  /** So a page that is evicted and faults again is remembered, and goes to the front of T2. */
  lemma VictimComesBack(s: Lists, frames: seq<Frame>, v: nat)
    requires Bounded(s) && s.c > 0 && Select(s, frames).1 == Some(v)
    ensures var r := Select(s, frames).0;
            && v < |frames| && Bounded(r)
            && var back := OnFault(r, frames[v].pageId);
               back.t2 != [] && back.t2[0].pageId == frames[v].pageId && back.t2[1..] == r.t2 && back.t1 == r.t1
  {
    VictimIsRemembered(s, frames, v);
    hide Select, OnFault;
    FaultGoesToFront(Select(s, frames).0, frames[v].pageId);
  }

  function InFrame(page: nat): Frame {
    NEW_FRAME.(pageId := page, free := false)
  }

  /** Not so for a new page: it enters T1, which is drained first, and goes before page 2 of T2. */
  lemma NewPageIsNotSpared()
    ensures var s := Lists([], [Entry(2, 1)], [], [], 1, 2, 1);
            var r, frames := OnAccess(s, 1), [InFrame(1), InFrame(2)];
            && Invariant(s) && Bounded(r) && OtherNamed(r, frames, 1) && !Spared(r, frames, 1)
  {
    var s := Lists([], [Entry(2, 1)], [], [], 1, 2, 1);
    var r, frames := OnAccess(s, 1), [InFrame(1), InFrame(2)];
    BagOne(Entry(2, 1));
    assert r.t1 == [Entry(1, 2)] && r.t2 == [Entry(2, 1)];
    assert frames[0].pageId == 1 && frames[1].pageId == 2;
    assert Queue(r)[0] == Entry(2, 1) && Queue(r)[1] == Entry(1, 2);
    assert Named(frames, Queue(r)[0].pageId) && Named(frames, Queue(r)[1].pageId);
    hide Select, Named, OnAccess;
    LastNamedGoes(r, frames, 1);
  }

  /** Nor for a page that T1 holds twice, as after two faults for it: only one of its entries moves to T2. */
  lemma TwiceHeldIsNotSpared()
    ensures var s := Lists([Entry(1, 3), Entry(1, 2)], [Entry(2, 1)], [], [], 2, 3, 3);
            var r, frames := OnAccess(s, 1), [InFrame(1), InFrame(2)];
            && Invariant(s) && Bounded(r) && OtherNamed(r, frames, 1) && !Spared(r, frames, 1)
  {
    var s := Lists([Entry(1, 3), Entry(1, 2)], [Entry(2, 1)], [], [], 2, 3, 3);
    var r, frames := OnAccess(s, 1), [InFrame(1), InFrame(2)];
    BagOne(Entry(2, 1));
    BagPush(Entry(1, 3), [Entry(1, 2)]);
    BagOne(Entry(1, 2));
    assert r.t1 == [Entry(1, 2)] && r.t2 == [Entry(1, 3), Entry(2, 1)];
    assert frames[0].pageId == 1 && frames[1].pageId == 2;
    assert Queue(r)[1] == Entry(2, 1) && Queue(r)[2] == Entry(1, 2);
    assert Named(frames, Queue(r)[1].pageId) && Named(frames, Queue(r)[2].pageId);
    hide Select, Named, OnAccess;
    LastNamedGoes(r, frames, 2);
  }
}
