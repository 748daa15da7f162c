/** ARC (internal/algorithms/arc.go): two resident lists T1 and T2 with their ghosts B1 and B2, the target p
    for T1, and size counters beside the lists. The front of a list is index 0. */
module Arc {
  import opened Prelude
  import opened Frames

  datatype Entry = Entry(pageId: nat, key: int)

  /** The lists without their counters. */
  datatype Lists = Lists(t1: seq<Entry>, t2: seq<Entry>, b1: seq<Entry>, b2: seq<Entry>, p: int, c: int, index: int)

  // ---- List edits ----

  /** The first entry of a page, from the front. */
  function FindPage(l: seq<Entry>, page: nat): (r: Option<nat>)
    ensures match r
            case Some(i) => i < |l| && l[i].pageId == page && forall j :: 0 <= j < i ==> l[j].pageId != page
            case None => forall j :: 0 <= j < |l| ==> l[j].pageId != page
  {
    var pages := seq(|l|, i requires 0 <= i < |l| => l[i].pageId);
    assert forall j :: 0 <= j < |l| ==> pages[j] == l[j].pageId;
    IndexOf(pages, page)
  }

  function DropPage(l: seq<Entry>, page: nat): (r: seq<Entry>)
    ensures |r| <= |l|
  {
    match FindPage(l, page)
    case Some(i) => RemoveAt(l, i)
    case None => l
  }

  function Take(l: seq<Entry>, n: int): (r: seq<Entry>)
    requires n >= 0
    ensures |r| <= n
  {
    if |l| > n then l[..n] else l
  }

  // ---- Victims ----

  /** The first evictable frame that holds the page. */
  function FirstNamed(frames: seq<Frame>, page: nat): (r: Option<nat>)
    ensures match r
            case Some(f) => f < |frames| && frames[f].Evictable() && frames[f].pageId == page
                            && forall k :: 0 <= k < f ==> !(frames[k].Evictable() && frames[k].pageId == page)
            case None => forall k :: 0 <= k < |frames| ==> !(frames[k].Evictable() && frames[k].pageId == page)
  {
    NamedFrom(frames, page, 0)
  }

  function NamedFrom(frames: seq<Frame>, page: nat, i: nat): (r: Option<nat>)
    requires i <= |frames|
    ensures match r
            case Some(f) => i <= f < |frames| && frames[f].Evictable() && frames[f].pageId == page
                            && forall k :: i <= k < f ==> !(frames[k].Evictable() && frames[k].pageId == page)
            case None => forall k :: i <= k < |frames| ==> !(frames[k].Evictable() && frames[k].pageId == page)
    decreases |frames| - i
  {
    if i == |frames| then None
    else if frames[i].Evictable() && frames[i].pageId == page then Some(i)
    else NamedFrom(frames, page, i + 1)
  }

  /** The entry nearest the back that names an evictable frame, among the first n. */
  function BackMost(l: seq<Entry>, frames: seq<Frame>, n: nat): (r: Option<nat>)
    requires n <= |l|
    ensures match r
            case Some(i) => i < n && FirstNamed(frames, l[i].pageId).Some?
                            && forall j :: i < j < n ==> FirstNamed(frames, l[j].pageId).None?
            case None => forall j :: 0 <= j < n ==> FirstNamed(frames, l[j].pageId).None?
  {
    if n == 0 then None
    else if FirstNamed(frames, l[n - 1].pageId).Some? then Some(n - 1)
    else BackMost(l, frames, n - 1)
  }

  // ---- The operations ----

  /** The bounds that hold in every run. */
  ghost predicate Bounded(s: Lists) {
    && 0 <= s.p <= s.c
    && |s.t1| <= s.p
    && |s.b1| <= s.c && |s.b2| <= s.c
  }

  /** What adapt needs: everything but |T1| <= p. */
  ghost predicate Adaptable(s: Lists) {
    0 <= s.p <= s.c && |s.b1| <= s.c && |s.b2| <= s.c
  }

  /** adapt in closed form: T1 is cut to p, then T2 to what is left of c; what is cut off moves, in order,
      to the fronts of the ghosts, which keep their first c entries. */
  function Adapted(s: Lists): Lists
    requires Adaptable(s)
  {
    var n1 := if |s.t1| > s.p then s.p else |s.t1|;
    var n2 := if n1 + |s.t2| > s.c then s.c - n1 else |s.t2|;
    s.(t1 := s.t1[..n1], b1 := Take(s.t1[n1..] + s.b1, s.c),
       t2 := s.t2[..n2], b2 := Take(s.t2[n2..] + s.b2, s.c))
  }

  lemma AdaptBounded(s: Lists)
    requires Adaptable(s)
    ensures Bounded(Adapted(s)) && |Adapted(s).t1| + |Adapted(s).t2| <= s.c
  {
  }

  function Ratio(a: int, b: int): (r: int)
    requires a >= 0 && b >= 0
    ensures r >= 1
  {
    if a >= b && b > 0 then a / b else 1
  }

  function ToT2(s: Lists, e: Entry): Lists {
    s.(t2 := [e] + s.t2)
  }

  function Fresh(s: Lists, page: nat): Lists {
    s.(t1 := [Entry(page, s.index + 1)] + s.t1, index := s.index + 1)
  }

  function OnAccess(s: Lists, page: nat): Lists
    requires Bounded(s)
  {
    hide Ratio, Adapted;
    match FindPage(s.t1, page)
    case Some(i) => ToT2(s.(t1 := RemoveAt(s.t1, i)), s.t1[i])
    case None =>
      match FindPage(s.t2, page)
      case Some(i) => ToT2(s.(t2 := RemoveAt(s.t2, i)), s.t2[i])
      case None =>
        match FindPage(s.b1, page)
        case Some(i) =>
          ToT2(Adapted(s.(p := Min(s.p + Ratio(|s.b1|, |s.b2|), s.c), b1 := RemoveAt(s.b1, i))), s.b1[i])
        case None =>
          match FindPage(s.b2, page)
          case Some(i) =>
            ToT2(Adapted(s.(p := Max(s.p - Ratio(|s.b2|, |s.b1|), 0), b2 := RemoveAt(s.b2, i))), s.b2[i])
          case None => Adapted(Fresh(s, page))
  }

  function OnFault(s: Lists, page: nat): Lists
    requires Bounded(s)
  {
    match FindPage(s.b1, page)
    case Some(i) => ToT2(s.(b1 := RemoveAt(s.b1, i)), s.b1[i])
    case None =>
      match FindPage(s.b2, page)
      case Some(i) => ToT2(s.(b2 := RemoveAt(s.b2, i)), s.b2[i])
      case None => Adapted(Fresh(s, page))
  }

  /** moveToB1 and moveToB2: an evicted entry becomes a ghost. */
  function ToB1(s: Lists, i: nat): Lists
    requires i < |s.t1| && s.c >= 0
  {
    s.(t1 := RemoveAt(s.t1, i), b1 := Take([s.t1[i]] + s.b1, s.c))
  }

  function ToB2(s: Lists, i: nat): Lists
    requires i < |s.t2| && s.c >= 0
  {
    s.(t2 := RemoveAt(s.t2, i), b2 := Take([s.t2[i]] + s.b2, s.c))
  }

  /** A page that no entry named is evicted: a stale entry of it may go, and B1 learns of it. */
  function Forget(s: Lists, page: nat): Lists
    requires s.c >= 0
  {
    s.(t1 := DropPage(s.t1, page), t2 := DropPage(s.t2, page), index := s.index + 1,
       b1 := Take([Entry(page, s.index + 1)] + s.b1, s.c))
  }

  /** SelectVictim: T1 from the back, then T2 from the back, then any evictable frame. */
  function Select(s: Lists, frames: seq<Frame>): (Lists, Option<nat>)
    requires Bounded(s)
  {
    match BackMost(s.t1, frames, |s.t1|)
    case Some(i) => (ToB1(s, i), FirstNamed(frames, s.t1[i].pageId))
    case None =>
      match BackMost(s.t2, frames, |s.t2|)
      case Some(i) => (ToB2(s, i), FirstNamed(frames, s.t2[i].pageId))
      case None =>
        match FirstEvictable(frames, 0)
        case None => (s, None)
        case Some(f) => (Forget(s, frames[f].pageId), Some(f))
  }

  function New(c: nat): Lists {
    Lists([], [], [], [], 0, c, 0)
  }

  // ---- Every key is in one place only ----

  function Bag(l: seq<Entry>): multiset<int> {
    if l == [] then multiset{} else multiset{l[0].key} + Bag(l[1..])
  }

  lemma {:induction false} BagConcat(a: seq<Entry>, b: seq<Entry>)
    ensures Bag(a + b) == Bag(a) + Bag(b)
  {
    if a == [] {
      assert a + b == b;
    } else {
      assert (a + b)[1..] == a[1..] + b;
      BagConcat(a[1..], b);
    }
  }

  lemma {:induction false} BagSplit(l: seq<Entry>, n: nat)
    requires n <= |l|
    ensures Bag(l) == Bag(l[..n]) + Bag(l[n..])
  {
    assert l == l[..n] + l[n..];
    BagConcat(l[..n], l[n..]);
  }

  lemma BagOne(e: Entry)
    ensures Bag([e]) == multiset{e.key}
  {
    assert [e][1..] == [];
  }

  lemma {:induction false} BagPush(e: Entry, l: seq<Entry>)
    ensures Bag([e] + l) == multiset{e.key} + Bag(l)
  {
    BagConcat([e], l);
    BagOne(e);
  }

  lemma {:induction false} BagRemove(l: seq<Entry>, i: nat)
    requires i < |l|
    ensures Bag(l) == Bag(RemoveAt(l, i)) + multiset{l[i].key}
  {
    hide Bag;
    var head, e, rest := l[..i], l[i], l[i + 1..];
    assert l[i..] == [e] + rest;
    BagSplit(l, i);
    BagPush(e, rest);
    BagConcat(head, rest);
    RemoveAtIs(l, i);
  }

  lemma RemoveAtIs(l: seq<Entry>, i: nat)
    requires i < |l|
    ensures RemoveAt(l, i) == l[..i] + l[i + 1..]
  {
  }

  lemma BagTake(l: seq<Entry>, n: nat)
    ensures Bag(Take(l, n)) <= Bag(l)
  {
    if |l| > n {
      BagSplit(l, n);
    }
  }

  ghost function Keys(s: Lists): multiset<int> {
    Bag(s.t1) + Bag(s.t2) + Bag(s.b1) + Bag(s.b2)
  }

  /** No key twice, and none from the future. */
  ghost predicate Keyed(s: Lists) {
    forall k :: Keys(s)[k] <= 1 && (k in Keys(s) ==> k <= s.index)
  }

  ghost predicate Invariant(s: Lists) {
    Bounded(s) && Keyed(s)
  }

  /** Entries only move or vanish. */
  lemma FewerKeys(s: Lists, r: Lists)
    requires Keyed(s) && Keys(r) <= Keys(s) && r.index >= s.index
    ensures Keyed(r)
  {
  }

  lemma AdaptKeys(s: Lists)
    requires Adaptable(s)
    ensures Keys(Adapted(s)) <= Keys(s) && Adapted(s).index == s.index
  {
    var r := Adapted(s);
    var n1, n2 := |r.t1|, |r.t2|;
    BagSplit(s.t1, n1);
    BagSplit(s.t2, n2);
    BagConcat(s.t1[n1..], s.b1);
    BagConcat(s.t2[n2..], s.b2);
    BagTake(s.t1[n1..] + s.b1, s.c);
    BagTake(s.t2[n2..] + s.b2, s.c);
  }

  lemma FreshKeys(s: Lists, page: nat)
    requires Keyed(s)
    ensures Keyed(Fresh(s, page))
  {
    hide Bag;
    BagPush(Entry(page, s.index + 1), s.t1);
    assert s.index + 1 !in Keys(s);
    assert Keys(Fresh(s, page)) == Keys(s) + multiset{s.index + 1};
    OneMoreKey(s, Fresh(s, page));
  }

  lemma OneMoreKey(s: Lists, r: Lists)
    requires Keyed(s) && r.index == s.index + 1 && Keys(r) <= Keys(s) + multiset{r.index}
    ensures Keyed(r)
  {
    assert r.index !in Keys(s);
    forall k ensures Keys(r)[k] <= 1 && (k in Keys(r) ==> k <= r.index) {
      assert Keys(r)[k] <= (Keys(s) + multiset{r.index})[k];
    }
  }

  /** A ghost comes back: the lists adapt and the entry joins T2. */
  lemma GhostHit(s: Lists, r: Lists, e: Entry)
    requires Keyed(s) && Adaptable(r) && r.index == s.index && Keys(r) + multiset{e.key} == Keys(s)
    ensures Invariant(ToT2(Adapted(r), e))
  {
    AdaptBounded(r);
    AdaptKeys(r);
    BagPush(e, Adapted(r).t2);
    hide Adapted, Bag;
    FewerKeys(s, ToT2(Adapted(r), e));
  }

  lemma AccessInvariant(s: Lists, page: nat)
    requires Invariant(s)
    ensures Invariant(OnAccess(s, page))
  {
    var i1, i2, j1, j2 := FindPage(s.t1, page), FindPage(s.t2, page), FindPage(s.b1, page), FindPage(s.b2, page);
    hide Adapted, Bag;
    if i1.Some? {
      BagRemove(s.t1, i1.value);
      BagPush(s.t1[i1.value], s.t2);
      FewerKeys(s, OnAccess(s, page));
    } else if i2.Some? {
      BagRemove(s.t2, i2.value);
      BagPush(s.t2[i2.value], RemoveAt(s.t2, i2.value));
      FewerKeys(s, OnAccess(s, page));
    } else if j1.Some? {
      BagRemove(s.b1, j1.value);
      GhostHit(s, s.(p := Min(s.p + Ratio(|s.b1|, |s.b2|), s.c), b1 := RemoveAt(s.b1, j1.value)), s.b1[j1.value]);
    } else if j2.Some? {
      BagRemove(s.b2, j2.value);
      GhostHit(s, s.(p := Max(s.p - Ratio(|s.b2|, |s.b1|), 0), b2 := RemoveAt(s.b2, j2.value)), s.b2[j2.value]);
    } else {
      FreshKeys(s, page);
      AdaptBounded(Fresh(s, page));
      AdaptKeys(Fresh(s, page));
      FewerKeys(Fresh(s, page), OnAccess(s, page));
    }
  }

  lemma FaultInvariant(s: Lists, page: nat)
    requires Invariant(s)
    ensures Invariant(OnFault(s, page))
  {
    var j1, j2 := FindPage(s.b1, page), FindPage(s.b2, page);
    hide Adapted, Bag;
    if j1.Some? {
      BagRemove(s.b1, j1.value);
      BagPush(s.b1[j1.value], s.t2);
      FewerKeys(s, OnFault(s, page));
    } else if j2.Some? {
      BagRemove(s.b2, j2.value);
      BagPush(s.b2[j2.value], s.t2);
      FewerKeys(s, OnFault(s, page));
    } else {
      FreshKeys(s, page);
      AdaptBounded(Fresh(s, page));
      AdaptKeys(Fresh(s, page));
      FewerKeys(Fresh(s, page), OnFault(s, page));
    }
  }

  lemma BagDrop(l: seq<Entry>, page: nat)
    ensures Bag(DropPage(l, page)) <= Bag(l)
  {
    var i := FindPage(l, page);
    if i.Some? {
      BagRemove(l, i.value);
    }
  }

  lemma ToB1Invariant(s: Lists, i: nat)
    requires Invariant(s) && i < |s.t1|
    ensures Invariant(ToB1(s, i))
  {
    hide Bag;
    BagRemove(s.t1, i);
    BagPush(s.t1[i], s.b1);
    BagTake([s.t1[i]] + s.b1, s.c);
    FewerKeys(s, ToB1(s, i));
  }

  lemma ToB2Invariant(s: Lists, i: nat)
    requires Invariant(s) && i < |s.t2|
    ensures Invariant(ToB2(s, i))
  {
    hide Bag;
    BagRemove(s.t2, i);
    BagPush(s.t2[i], s.b2);
    BagTake([s.t2[i]] + s.b2, s.c);
    FewerKeys(s, ToB2(s, i));
  }

  lemma ForgetInvariant(s: Lists, page: nat)
    requires Invariant(s)
    ensures Invariant(Forget(s, page))
  {
    var e := Entry(page, s.index + 1);
    hide Bag, DropPage;
    BagDrop(s.t1, page);
    BagDrop(s.t2, page);
    BagPush(e, s.b1);
    BagTake([e] + s.b1, s.c);
    OneMoreKey(s, Forget(s, page));
  }

  lemma SelectInvariant(s: Lists, frames: seq<Frame>)
    requires Invariant(s)
    ensures Invariant(Select(s, frames).0)
  {
    var i1, i2 := BackMost(s.t1, frames, |s.t1|), BackMost(s.t2, frames, |s.t2|);
    hide Invariant, ToB1, ToB2, Forget;
    if i1.Some? {
      ToB1Invariant(s, i1.value);
    } else if i2.Some? {
      ToB2Invariant(s, i2.value);
    } else if FirstEvictable(frames, 0).Some? {
      ForgetInvariant(s, frames[FirstEvictable(frames, 0).value].pageId);
    }
  }

  /** The frame it answers: evictable, and none only if nothing is. */
  lemma SelectContract(s: Lists, frames: seq<Frame>)
    requires Bounded(s)
    ensures VictimContract(frames, Select(s, frames).1)
  {
  }

  /** T1 is drained before T2, and both before pages that neither list knows. */
  lemma SelectPrefersT1(s: Lists, frames: seq<Frame>, i: nat)
    requires Bounded(s) && i < |s.t1| && FirstNamed(frames, s.t1[i].pageId).Some?
    ensures var (r, victim) := Select(s, frames);
            && r.t2 == s.t2 && r.b2 == s.b2 && |r.t1| == |s.t1| - 1
            && victim.Some? && exists k :: i <= k < |s.t1| && frames[victim.value].pageId == s.t1[k].pageId
  {
    assert BackMost(s.t1, frames, |s.t1|).Some?;
  }

  // ---- Whole runs ----

  datatype Op = Access(page: nat) | Fault(page: nat) | Evict(frames: seq<Frame>) | Restart

  ghost predicate Step(s: Lists, op: Op, r: Lists)
    requires Bounded(s)
  {
    match op
    case Access(page) => r == OnAccess(s, page)
    case Fault(page) => r == OnFault(s, page)
    case Evict(frames) => r == Select(s, frames).0
    case Restart => s.c >= 0 && r == New(s.c)
  }

  ghost predicate Run(states: seq<Lists>, ops: seq<Op>, c: nat) {
    && |states| == |ops| + 1
    && states[0] == New(c)
    && forall k :: 0 <= k < |ops| ==> Bounded(states[k]) ==> Step(states[k], ops[k], states[k + 1])
  }

  lemma NewInvariant(c: nat)
    ensures Invariant(New(c))
  {
  }

  lemma StepInvariant(s: Lists, op: Op, r: Lists)
    requires Invariant(s) && Step(s, op, r)
    ensures Invariant(r) && r.c == s.c
  {
    hide Keyed, Bag, FindPage, BackMost;
    match op
    case Access(page) => AccessInvariant(s, page);
    case Fault(page) => FaultInvariant(s, page);
    case Evict(frames) => SelectInvariant(s, frames);
    case Restart => NewInvariant(s.c);
  }

  /** In every run, for every capacity: 0 <= p <= c, T1 is no longer than p, the ghosts no longer than c,
      and no key is in two places. */
  lemma {:induction false} BoundsInEveryRun(states: seq<Lists>, ops: seq<Op>, c: nat, k: nat)
    requires Run(states, ops, c) && k <= |ops|
    ensures var s := states[k];
            && s.c == c && 0 <= s.p <= c && |s.t1| <= s.p && |s.b1| <= c && |s.b2| <= c
            && forall i :: Keys(s)[i] <= 1
    ensures Invariant(states[k])
  {
    if k == 0 {
      NewInvariant(c);
    } else {
      BoundsInEveryRun(states, ops, c, k - 1);
      StepInvariant(states[k - 1], ops[k - 1], states[k]);
    }
  }

  // ---- The mutable lists ----

  lemma {:induction false} CountInBag(l: seq<Entry>, i: nat)
    requires i < |l|
    ensures Bag(l)[l[i].key] >= 1
  {
    BagRemove(l, i);
  }

  lemma OtherStays(l: seq<Entry>, i: nat, j: nat)
    requires i < |l| && j < |l| && j != i
    ensures var k := if j < i then j else j - 1; k < |RemoveAt(l, i)| && RemoveAt(l, i)[k] == l[j]
  {
  }

  /** An entry whose key occurs once is the only one with it. */
  lemma KeyOnce(l: seq<Entry>, i: nat, j: nat)
    requires i < |l| && j < |l| && l[j].key == l[i].key && Bag(l)[l[i].key] <= 1
    ensures j == i
  {
    hide Bag, RemoveAt;
    if j != i {
      BagRemove(l, i);
      OtherStays(l, i, j);
      CountInBag(RemoveAt(l, i), if j < i then j else j - 1);
    }
  }

  /** Keys identify entries: within T1, and between T1 and T2. */
  lemma KeyIdentifies(s: Lists, i: nat, j: nat)
    requires Keyed(s) && i < |s.t1|
    ensures j < |s.t1| && s.t1[j].key == s.t1[i].key ==> j == i
    ensures j < |s.t2| ==> s.t2[j].key != s.t1[i].key
  {
    hide Bag;
    assert Keys(s)[s.t1[i].key] <= 1;
    CountInBag(s.t1, i);
    if j < |s.t2| {
      CountInBag(s.t2, j);
    }
    if j < |s.t1| && s.t1[j].key == s.t1[i].key {
      KeyOnce(s.t1, i, j);
    }
  }

  lemma KeyIdentifiesInT2(s: Lists, i: nat, j: nat)
    requires Keyed(s) && i < |s.t2| && j < |s.t2| && s.t2[j].key == s.t2[i].key
    ensures j == i
  {
    hide Bag;
    assert Keys(s)[s.t2[i].key] <= 1;
    KeyOnce(s.t2, i, j);
  }

  /** What is cut off the back of l has moved, in order, to the front of the ghosts. */
  ghost predicate Cut(l: seq<Entry>, ghosts: seq<Entry>, c: nat, now: seq<Entry>, b: seq<Entry>) {
    |now| <= |l| && now == l[..|now|] && b == Take(l[|now|..] + ghosts, c)
  }

  /** One entry more. */
  lemma CutStep(l: seq<Entry>, ghosts: seq<Entry>, c: nat, now: seq<Entry>, b: seq<Entry>)
    requires now != [] && Cut(l, ghosts, c, now, b)
    ensures Cut(l, ghosts, c, now[..|now| - 1], Take([now[|now| - 1]] + b, c))
  {
    var n := |now| - 1;
    hide Take;
    TakeAgain(l[n], l[n + 1..] + ghosts, c);
    assert [l[n]] + (l[n + 1..] + ghosts) == l[n..] + ghosts;
    assert l[..n + 1][..n] == l[..n];
  }

  lemma CutNothing(l: seq<Entry>, ghosts: seq<Entry>, c: nat)
    requires |ghosts| <= c
    ensures Cut(l, ghosts, c, l, ghosts)
  {
  }

  lemma CutIs(l: seq<Entry>, ghosts: seq<Entry>, c: nat, now: seq<Entry>, b: seq<Entry>, n: nat)
    requires Cut(l, ghosts, c, now, b) && |now| == n
    ensures n <= |l| && now == l[..n] && b == Take(l[n..] + ghosts, c)
  {
  }

  lemma TakeAgain(e: Entry, l: seq<Entry>, n: nat)
    ensures Take([e] + Take(l, n), n) == Take([e] + l, n)
  {
  }

  class ARC {
    var t1: seq<Entry>
    var t2: seq<Entry>
    var b1: seq<Entry>
    var b2: seq<Entry>
    var t1Size: int
    var t2Size: int
    var b1Size: int
    var b2Size: int
    var p: int
    const c: int
    var index: int

    ghost function State(): Lists
      reads this
    {
      Lists(t1, t2, b1, b2, p, c, index)
    }

    /** The four counters are the lengths of the lists. */
    ghost predicate Counted()
      reads this
    {
      t1Size == |t1| && t2Size == |t2| && b1Size == |b1| && b2Size == |b2|
    }

    ghost predicate Valid()
      reads this
    {
      Counted() && Invariant(State())
    }

    constructor (numFrames: nat)
      ensures Valid() && State() == New(numFrames)
    {
      t1, t2, b1, b2 := [], [], [], [];
      t1Size, t2Size, b1Size, b2Size := 0, 0, 0, 0;
      p, c, index := 0, numFrames, 0;
    }

    method Reset()
      requires Valid()
      modifies this
      ensures Valid() && State() == New(c)
    {
      t1, t2, b1, b2 := [], [], [], [];
      t1Size, t2Size, b1Size, b2Size := 0, 0, 0, 0;
      p, index := 0, 0;
    }

    static method FindEntry(l: seq<Entry>, page: nat) returns (r: Option<nat>)
      ensures r == FindPage(l, page)
    {
      for i := 0 to |l|
        invariant forall j :: 0 <= j < i ==> l[j].pageId != page
      {
        if l[i].pageId == page {
          return Some(i);
        }
      }
      return None;
    }

    method PushB1(e: Entry)
      requires Counted() && |b1| <= c
      modifies this`b1, this`b1Size
      ensures Counted() && b1 == Take([e] + old(b1), c)
    {
      b1 := [e] + b1;
      b1Size := b1Size + 1;
      if b1Size > c {
        b1 := b1[..|b1| - 1];
        b1Size := b1Size - 1;
      }
    }

    method PushB2(e: Entry)
      requires Counted() && |b2| <= c
      modifies this`b2, this`b2Size
      ensures Counted() && b2 == Take([e] + old(b2), c)
    {
      b2 := [e] + b2;
      b2Size := b2Size + 1;
      if b2Size > c {
        b2 := b2[..|b2| - 1];
        b2Size := b2Size - 1;
      }
    }

    /** adapt. The second loop ends because T1 alone never exceeds c: while the total does, T2 has an
        entry to give up. */
    method Adapt()
      requires Counted() && Adaptable(State())
      modifies this
      ensures Counted() && State() == Adapted(old(State()))
    {
      CutT1();
      CutT2();
    }

    method CutT1()
      requires Counted() && Adaptable(State())
      modifies this`t1, this`t1Size, this`b1, this`b1Size
      ensures Counted() && |b1| <= c
      ensures var n := if |old(t1)| > p then p else |old(t1)|;
              t1 == old(t1)[..n] && b1 == Take(old(t1)[n..] + old(b1), c)
    {
      ghost var all, ghosts := t1, b1;
      ghost var n := if |all| > p then p else |all|;
      CutNothing(all, ghosts, c);
      hide Take, Cut;
      while t1Size > p
        invariant Counted() && |b1| <= c
        invariant Cut(all, ghosts, c, t1, b1)
        invariant |t1| >= n && (|t1| == n || n == p)
        decreases t1Size
      {
        if |t1| == 0 {
          break;
        }
        DemoteT1(all, ghosts);
      }
      CutIs(all, ghosts, c, t1, b1, n);
    }

    /** The entry at the back of T1 moves to the front of B1: one entry more of `all` is cut. */
    method DemoteT1(ghost all: seq<Entry>, ghost ghosts: seq<Entry>)
      requires Counted() && t1 != [] && |b1| <= c && Cut(all, ghosts, c, t1, b1)
      modifies this`t1, this`t1Size, this`b1, this`b1Size
      ensures Counted() && |t1| == |old(t1)| - 1 && |b1| <= c && Cut(all, ghosts, c, t1, b1)
    {
      CutStep(all, ghosts, c, t1, b1);
      hide Take, Cut;
      var entry := t1[|t1| - 1];
      t1 := t1[..|t1| - 1];
      t1Size := t1Size - 1;
      PushB1(entry);
    }

    method CutT2()
      requires Counted() && |t1| <= c && |b2| <= c
      modifies this`t2, this`t2Size, this`b2, this`b2Size
      ensures Counted()
      ensures var n := if |t1| + |old(t2)| > c then c - |t1| else |old(t2)|;
              t2 == old(t2)[..n] && b2 == Take(old(t2)[n..] + old(b2), c)
    {
      ghost var all, ghosts := t2, b2;
      ghost var n := if |t1| + |all| > c then c - |t1| else |all|;
      CutNothing(all, ghosts, c);
      hide Take, Cut;
      var total := t1Size + t2Size;
      while total > c
        invariant Counted() && |b2| <= c && total == t1Size + t2Size
        invariant Cut(all, ghosts, c, t2, b2)
        invariant |t2| >= n && (|t2| == n || n == c - |t1|)
        decreases total
      {
        if |t2| > 0 && t2Size > 0 {
          DemoteT2(all, ghosts);
        }
        total := t1Size + t2Size;
        if total <= c {
          break;
        }
      }
      CutIs(all, ghosts, c, t2, b2, n);
    }

    method DemoteT2(ghost all: seq<Entry>, ghost ghosts: seq<Entry>)
      requires Counted() && t2 != [] && |b2| <= c && Cut(all, ghosts, c, t2, b2)
      modifies this`t2, this`t2Size, this`b2, this`b2Size
      ensures Counted() && |t2| == |old(t2)| - 1 && |b2| <= c && Cut(all, ghosts, c, t2, b2)
    {
      CutStep(all, ghosts, c, t2, b2);
      hide Take, Cut;
      var entry := t2[|t2| - 1];
      t2 := t2[..|t2| - 1];
      t2Size := t2Size - 1;
      PushB2(entry);
    }

    method PushT2(e: Entry)
      requires Counted()
      modifies this`t2, this`t2Size
      ensures Counted() && State() == ToT2(old(State()), e)
    {
      t2 := [e] + t2;
      t2Size := t2Size + 1;
    }

    method PushFresh(page: nat)
      requires Counted()
      modifies this`t1, this`t1Size, this`index
      ensures Counted() && State() == Fresh(old(State()), page)
    {
      index := index + 1;
      t1 := [Entry(page, index)] + t1;
      t1Size := t1Size + 1;
    }

    method RemoveT1(i: nat)
      requires Counted() && i < |t1|
      modifies this`t1, this`t1Size
      ensures Counted() && State() == old(State()).(t1 := RemoveAt(old(t1), i))
    {
      t1 := RemoveAt(t1, i);
      t1Size := t1Size - 1;
    }

    method RemoveT2(i: nat)
      requires Counted() && i < |t2|
      modifies this`t2, this`t2Size
      ensures Counted() && State() == old(State()).(t2 := RemoveAt(old(t2), i))
    {
      t2 := RemoveAt(t2, i);
      t2Size := t2Size - 1;
    }

    method RemoveB1(i: nat)
      requires Counted() && i < |b1|
      modifies this`b1, this`b1Size
      ensures Counted() && State() == old(State()).(b1 := RemoveAt(old(b1), i))
    {
      b1 := RemoveAt(b1, i);
      b1Size := b1Size - 1;
    }

    method RemoveB2(i: nat)
      requires Counted() && i < |b2|
      modifies this`b2, this`b2Size
      ensures Counted() && State() == old(State()).(b2 := RemoveAt(old(b2), i))
    {
      b2 := RemoveAt(b2, i);
      b2Size := b2Size - 1;
    }

    /** The list part of OnPageAccess. */
    method OnPageAccess(page: nat)
      requires Valid()
      modifies this
      ensures Valid() && State() == OnAccess(old(State()), page)
    {
      AccessInvariant(State(), page);
      hide Invariant, Adapted, Ratio, FindPage, RemoveAt;
      var i := FindEntry(t1, page);
      if i.Some? {
        var val := t1[i.value];
        RemoveT1(i.value);
        PushT2(val);
        return;
      }
      i := FindEntry(t2, page);
      if i.Some? {
        var val := t2[i.value];
        RemoveT2(i.value);
        PushT2(val);
        return;
      }
      GhostOrFresh(page);
    }

    method GhostOrFresh(page: nat)
      requires Counted() && Bounded(State()) && FindPage(t1, page).None? && FindPage(t2, page).None?
      modifies this
      ensures Counted() && State() == OnAccess(old(State()), page)
    {
      hide Adapted, Ratio, FindPage, RemoveAt;
      var i := FindEntry(b1, page);
      if i.Some? {
        ReturnFromB1(i.value);
        return;
      }
      i := FindEntry(b2, page);
      if i.Some? {
        ReturnFromB2(i.value);
        return;
      }
      PushFresh(page);
      Adapt();
    }

    /** A hit in B1 favours recency: the target for T1 grows. */
    method ReturnFromB1(i: nat)
      requires Counted() && Bounded(State()) && i < |b1|
      modifies this
      ensures var s := old(State());
              Counted() && State() == ToT2(Adapted(s.(p := Min(s.p + Ratio(|s.b1|, |s.b2|), s.c),
                                                      b1 := RemoveAt(s.b1, i))), s.b1[i])
    {
      hide Adapted, RemoveAt;
      var val := b1[i];
      var delta := 1;
      if b1Size >= b2Size && b2Size > 0 {
        delta := b1Size / b2Size;
      }
      if delta < 1 {
        delta := 1;
      }
      p := Min(p + delta, c);
      RemoveB1(i);
      Adapt();
      PushT2(val);
    }

    /** A hit in B2 favours frequency: the target for T1 shrinks. */
    method ReturnFromB2(i: nat)
      requires Counted() && Bounded(State()) && i < |b2|
      modifies this
      ensures var s := old(State());
              Counted() && State() == ToT2(Adapted(s.(p := Max(s.p - Ratio(|s.b2|, |s.b1|), 0),
                                                      b2 := RemoveAt(s.b2, i))), s.b2[i])
    {
      hide Adapted, RemoveAt;
      var val := b2[i];
      var delta := 1;
      if b2Size >= b1Size && b1Size > 0 {
        delta := b2Size / b1Size;
      }
      if delta < 1 {
        delta := 1;
      }
      p := Max(p - delta, 0);
      RemoveB2(i);
      Adapt();
      PushT2(val);
    }

    /** The list part of OnPageFault. */
    method OnPageFault(page: nat)
      requires Valid()
      modifies this
      ensures Valid() && State() == OnFault(old(State()), page)
    {
      FaultInvariant(State(), page);
      hide Keyed, Adapted, FindPage, RemoveAt;
      var i := FindEntry(b1, page);
      if i.Some? {
        var entry := b1[i.value];
        RemoveB1(i.value);
        PushT2(entry);
        return;
      }
      i := FindEntry(b2, page);
      if i.Some? {
        var entry := b2[i.value];
        RemoveB2(i.value);
        PushT2(entry);
        return;
      }
      PushFresh(page);
      Adapt();
    }

    // ---- SelectVictim ----

    static method FindNamed(frames: seq<Frame>, page: nat) returns (r: Option<nat>)
      ensures r == FirstNamed(frames, page)
    {
      for k := 0 to |frames|
        invariant forall j :: 0 <= j < k ==> !(frames[j].Evictable() && frames[j].pageId == page)
      {
        if frames[k].pageId == page && !frames[k].free && !frames[k].pinned {
          return Some(k);
        }
      }
      return None;
    }

    /** One list of findVictim, from the back: the entry and the frame it names. */
    static method Scan(l: seq<Entry>, frames: seq<Frame>)
      returns (frame: Option<nat>, ghost at: Option<nat>, entry: Option<Entry>)
      ensures at == BackMost(l, frames, |l|)
      ensures match at
              case Some(i) => frame == FirstNamed(frames, l[i].pageId) && entry == Some(l[i])
              case None => frame == None && entry == None
    {
      var i: nat := |l|;
      while i > 0
        invariant BackMost(l, frames, |l|) == BackMost(l, frames, i)
      {
        var f := FindNamed(frames, l[i - 1].pageId);
        if f.Some? {
          return f, Some(i - 1), Some(l[i - 1]);
        }
        i := i - 1;
      }
      return None, None, None;
    }

    method InT2(entry: Entry) returns (b: bool)
      ensures b <==> exists j :: 0 <= j < |t2| && t2[j].key == entry.key
    {
      for j := 0 to |t2|
        invariant forall k :: 0 <= k < j ==> t2[k].key != entry.key
      {
        if t2[j].key == entry.key {
          return true;
        }
      }
      return false;
    }

    /** moveToB1, for the entry at position i of T1. */
    method MoveToB1(entry: Entry, ghost i: nat)
      requires Valid() && i < |t1| && t1[i] == entry
      modifies this
      ensures Counted() && State() == ToB1(old(State()), i)
    {
      hide Keyed, RemoveAt;
      for j := 0 to |t1|
        invariant State() == old(State()) && Counted()
        invariant j <= i
      {
        KeyIdentifies(State(), i, j);
        if t1[j].key == entry.key {
          RemoveT1(j);
          break;
        }
        assert j != i;
      }
      PushB1(entry);
    }

    method MoveToB2(entry: Entry, ghost i: nat)
      requires Valid() && i < |t2| && t2[i] == entry
      modifies this
      ensures Counted() && State() == ToB2(old(State()), i)
    {
      hide Keyed, RemoveAt;
      for j := 0 to |t2|
        invariant State() == old(State()) && Counted()
        invariant j <= i
      {
        if t2[j].key == entry.key {
          KeyIdentifiesInT2(State(), i, j);
          RemoveT2(j);
          break;
        }
        assert j != i;
      }
      PushB2(entry);
    }

    /** The end of SelectVictim for a frame that no entry named. */
    method ForgetPage(page: nat)
      requires Valid()
      modifies this
      ensures Counted() && State() == Forget(old(State()), page)
    {
      hide Keyed, RemoveAt;
      var i := FindEntry(t1, page);
      if i.Some? {
        RemoveT1(i.value);
      }
      var j := FindEntry(t2, page);
      if j.Some? {
        RemoveT2(j.value);
      }
      index := index + 1;
      PushB1(Entry(page, index));
    }

    /** findVictim: T1 from the back, T2 from the back, then any evictable frame. */
    method FindVictim(frames: seq<Frame>) returns (frame: Option<nat>, entry: Option<Entry>, ghost at: Option<nat>)
      ensures var i1, i2 := BackMost(t1, frames, |t1|), BackMost(t2, frames, |t2|);
              if i1.Some? then
                at == i1 && entry == Some(t1[i1.value]) && frame == FirstNamed(frames, t1[i1.value].pageId)
              else if i2.Some? then
                at == i2 && entry == Some(t2[i2.value]) && frame == FirstNamed(frames, t2[i2.value].pageId)
              else entry == None && frame == FirstEvictable(frames, 0)
    {
      hide FirstEvictable;
      if |t1| > 0 {
        frame, at, entry := Scan(t1, frames);
        if frame.Some? {
          return;
        }
      }
      if |t2| > 0 {
        frame, at, entry := Scan(t2, frames);
        if frame.Some? {
          return;
        }
      }
      frame := FindEvictable(frames);
      entry, at := None, None;
    }

    method SelectVictim(frames: seq<Frame>) returns (victim: Option<nat>)
      requires Valid()
      modifies this
      ensures Valid() && (State(), victim) == Select(old(State()), frames)
      ensures VictimContract(frames, victim)
    {
      SelectInvariant(State(), frames);
      SelectContract(State(), frames);
      var entry;
      ghost var at;
      victim, entry, at := FindVictim(frames);
      hide Keyed, VictimContract, ToB1, ToB2, Forget, FirstEvictable;
      if victim.None? {
        return;
      }
      if entry.None? {
        ForgetPage(frames[victim.value].pageId);
        return;
      }
      var inT2 := InT2(entry.value);
      if inT2 {
        InT2IsFromT2(frames, entry.value);
        MoveToB2(entry.value, at.value);
      } else {
        MoveToB1(entry.value, at.value);
      }
    }

    /** An entry found in T2 by its key was not found in T1. */
    lemma InT2IsFromT2(frames: seq<Frame>, entry: Entry)
      requires Valid() && exists j :: 0 <= j < |t2| && t2[j].key == entry.key
      ensures BackMost(t1, frames, |t1|).Some? ==> t1[BackMost(t1, frames, |t1|).value] != entry
    {
      var j :| 0 <= j < |t2| && t2[j].key == entry.key;
      var i := BackMost(t1, frames, |t1|);
      if i.Some? {
        KeyIdentifies(State(), i.value, j);
      }
    }
  }
}
