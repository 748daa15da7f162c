/** CAR (internal/algorithms/car.go): two clocks T1 and T2 over entries with reference bits, and two lists of
    page numbers of what left them. The scans run over lists that change under them. */
module Car {
  import opened Prelude
  import opened Frames
  import opened Clock

  datatype Entry = Entry(pageId: nat, refBit: bool, key: int)

  datatype Lists = Lists(t1: seq<Entry>, t2: seq<Entry>, b1: seq<nat>, b2: seq<nat>, p: int, c: int, index: int)

  // ---- List edits ----

  function Pages(l: seq<Entry>): (r: seq<nat>)
    ensures |r| == |l|
  {
    seq(|l|, i requires 0 <= i < |l| => l[i].pageId)
  }

  /** The first entry of a page, from the front. */
  function FindEntry(l: seq<Entry>, page: nat): (r: Option<nat>)
    ensures match r
            case Some(i) => i < |l| && l[i].pageId == page && forall j :: 0 <= j < i ==> l[j].pageId != page
            case None => forall j :: 0 <= j < |l| ==> l[j].pageId != page
  {
    assert forall j :: 0 <= j < |l| ==> Pages(l)[j] == l[j].pageId;
    IndexOf(Pages(l), page)
  }

  /** The last n elements. */
  function Last(l: seq<nat>, n: int): (r: seq<nat>)
    requires n >= 0
    ensures |r| <= n
  {
    if |l| > n then l[|l| - n..] else l
  }

  /** What identifies the entries, whatever their bits. */
  function Ids(l: seq<Entry>): (r: seq<(int, nat)>)
    ensures |r| == |l|
  {
    seq(|l|, i requires 0 <= i < |l| => (l[i].key, l[i].pageId))
  }

  // ---- Accesses and faults ----

  ghost predicate Adaptable(s: Lists) {
    0 <= s.p <= s.c && |s.b1| <= 2 * s.c && |s.b2| <= 2 * s.c
  }

  ghost predicate Bounded(s: Lists) {
    && Adaptable(s)
    && |s.t1| <= s.p
    && |s.t1| + |s.t2| <= s.c + 1
  }

  /** adapt in closed form: T1 loses its oldest entries down to p, then T2 its oldest down to what is left
      of c; their pages are appended to the ghosts, which keep their last 2c. */
  function Adapted(s: Lists): Lists
    requires Adaptable(s)
  {
    var k1 := if |s.t1| > s.p then |s.t1| - s.p else 0;
    var n1 := |s.t1| - k1;
    var k2 := if n1 + |s.t2| > s.c then n1 + |s.t2| - s.c else 0;
    s.(t1 := s.t1[k1..], b1 := Last(s.b1 + Pages(s.t1[..k1]), 2 * s.c),
       t2 := s.t2[k2..], b2 := Last(s.b2 + Pages(s.t2[..k2]), 2 * s.c))
  }

  function Delta(a: int, b: int): (r: int)
    requires a >= 0 && b >= 0
    ensures r >= 1
  {
    if a >= b then Max(1, a / Max(1, b)) else 1
  }

  function ToT1(s: Lists, page: nat): Lists {
    s.(t1 := s.t1 + [Entry(page, true, s.index)])
  }

  function ToT2(s: Lists, page: nat): Lists {
    s.(t2 := s.t2 + [Entry(page, true, s.index)])
  }

  function Mark(l: seq<Entry>, i: nat): (r: seq<Entry>)
    requires i < |l|
    ensures |r| == |l|
  {
    l[i := l[i].(refBit := true)]
  }

  function OnAccess(s: Lists, page: nat): Lists
    requires Bounded(s)
  {
    hide Delta, Adapted;
    match FindEntry(s.t1, page)
    case Some(i) => s.(t1 := Mark(s.t1, i))
    case None =>
      match FindEntry(s.t2, page)
      case Some(i) => s.(t2 := Mark(s.t2, i))
      case None =>
        var n := s.(index := s.index + 1);
        match IndexOf(s.b1, page)
        case Some(i) => ToT2(Adapted(n.(p := Min(s.p + Delta(|s.b1|, |s.b2|), s.c), b1 := RemoveAt(s.b1, i))), page)
        case None =>
          match IndexOf(s.b2, page)
          case Some(i) => ToT2(Adapted(n.(p := Max(s.p - Delta(|s.b2|, |s.b1|), 0), b2 := RemoveAt(s.b2, i))), page)
          case None => Adapted(ToT1(n, page))
  }

  /** A faulting page enters T2 if a ghost remembers it, else T1. */
  function Filed(s: Lists, page: nat): Lists {
    var n := s.(index := s.index + 1);
    match IndexOf(s.b1, page)
    case Some(i) => ToT2(n.(b1 := RemoveAt(s.b1, i)), page)
    case None =>
      match IndexOf(s.b2, page)
      case Some(i) => ToT2(n.(b2 := RemoveAt(s.b2, i)), page)
      case None => ToT1(n, page)
  }

  lemma FiledAdaptable(s: Lists, page: nat)
    requires Bounded(s)
    ensures Adaptable(Filed(s, page))
  {
  }

  function OnFault(s: Lists, page: nat): Lists
    requires Bounded(s)
  {
    FiledAdaptable(s, page);
    Adapted(Filed(s, page))
  }

  function New(c: nat): Lists {
    Lists([], [], [], [], c / 2, c, 0)
  }

  // ---- Every key is in one place only ----

  /** The entries of both clocks. */
  ghost function InClocks(s: Lists): multiset<(int, nat)> {
    multiset(Ids(s.t1)) + multiset(Ids(s.t2))
  }

  /** Every key is in one place only, and not above the index. */
  ghost predicate Keyed(s: Lists) {
    && (forall x :: x in InClocks(s) ==> InClocks(s)[x] == 1 && x.0 <= s.index)
    && (forall x, y :: x in InClocks(s) && y in InClocks(s) && x.0 == y.0 ==> x == y)
  }

  ghost predicate Invariant(s: Lists) {
    Bounded(s) && Keyed(s)
  }

  lemma FewerKeys(s: Lists, r: Lists)
    requires Keyed(s) && InClocks(r) <= InClocks(s) && r.index >= s.index
    ensures Keyed(r)
  {
    forall x | x in InClocks(r) ensures x in InClocks(s) && InClocks(r)[x] <= InClocks(s)[x] {
    }
  }

  lemma OneMoreKey(s: Lists, r: Lists, page: nat)
    requires Keyed(s) && r.index == s.index + 1 && InClocks(r) <= InClocks(s) + multiset{(r.index, page)}
    ensures Keyed(r)
  {
    var more := InClocks(s) + multiset{(r.index, page)};
    assert (r.index, page) !in InClocks(s);
    forall x | x in InClocks(r) ensures x in more && InClocks(r)[x] <= more[x] {
    }
  }

  lemma IdsSplit(l: seq<Entry>, k: nat)
    requires k <= |l|
    ensures multiset(Ids(l)) == multiset(Ids(l[..k])) + multiset(Ids(l[k..]))
  {
    assert Ids(l) == Ids(l[..k]) + Ids(l[k..]);
  }

  lemma IdsAppend(l: seq<Entry>, e: Entry)
    ensures multiset(Ids(l + [e])) == multiset(Ids(l)) + multiset{(e.key, e.pageId)}
  {
    assert Ids(l + [e]) == Ids(l) + [(e.key, e.pageId)];
  }

  lemma IdsRemove(l: seq<Entry>, i: nat)
    requires i < |l|
    ensures multiset(Ids(l)) == multiset(Ids(RemoveAt(l, i))) + multiset{(l[i].key, l[i].pageId)}
  {
    assert Ids(l) == Ids(l[..i]) + [(l[i].key, l[i].pageId)] + Ids(l[i + 1..]);
    assert Ids(RemoveAt(l, i)) == Ids(l[..i]) + Ids(l[i + 1..]);
  }

  lemma IdsUpdate(l: seq<Entry>, i: nat, e: Entry)
    requires i < |l| && e.key == l[i].key && e.pageId == l[i].pageId
    ensures Ids(l[i := e]) == Ids(l)
  {
  }

  lemma AdaptedInvariant(s: Lists)
    requires Adaptable(s)
    ensures var r := Adapted(s);
            && Adaptable(r) && |r.t1| <= s.p && |r.t1| + |r.t2| <= s.c
            && InClocks(r) <= InClocks(s) && r.index == s.index && r.p == s.p && r.c == s.c
  {
    hide Ids, Pages, Last;
    var r := Adapted(s);
    IdsSplit(s.t1, |s.t1| - |r.t1|);
    IdsSplit(s.t2, |s.t2| - |r.t2|);
  }

  lemma PushKeys(s: Lists, page: nat)
    ensures InClocks(ToT1(s, page)) == InClocks(s) + multiset{(s.index, page)} == InClocks(ToT2(s, page))
  {
    IdsAppend(s.t1, Entry(page, true, s.index));
    IdsAppend(s.t2, Entry(page, true, s.index));
  }

  lemma GhostHit(s: Lists, r: Lists, page: nat)
    requires Keyed(s) && Adaptable(r) && r.index == s.index + 1 && r.t1 == s.t1 && r.t2 == s.t2
    ensures Invariant(ToT2(Adapted(r), page))
  {
    AdaptedInvariant(r);
    PushKeys(Adapted(r), page);
    hide Adapted;
    OneMoreKey(s, ToT2(Adapted(r), page), page);
  }

  lemma FreshInvariant(s: Lists, r: Lists, page: nat)
    requires Keyed(s) && Adaptable(r) && r.index == s.index + 1 && r.t1 == s.t1 && r.t2 == s.t2
    ensures Invariant(Adapted(ToT1(r, page))) && Invariant(Adapted(ToT2(r, page)))
  {
    PushKeys(r, page);
    AdaptedInvariant(ToT1(r, page));
    AdaptedInvariant(ToT2(r, page));
    hide Adapted, Keyed;
    OneMoreKey(s, Adapted(ToT1(r, page)), page);
    OneMoreKey(s, Adapted(ToT2(r, page)), page);
  }

  lemma AccessInvariant(s: Lists, page: nat)
    requires Invariant(s)
    ensures Invariant(OnAccess(s, page))
  {
    hide Adapted, Delta, Keyed;
    var i1, i2, j1, j2 := FindEntry(s.t1, page), FindEntry(s.t2, page), IndexOf(s.b1, page), IndexOf(s.b2, page);
    var n := s.(index := s.index + 1);
    if i1.Some? {
      IdsUpdate(s.t1, i1.value, s.t1[i1.value].(refBit := true));
      FewerKeys(s, OnAccess(s, page));
    } else if i2.Some? {
      IdsUpdate(s.t2, i2.value, s.t2[i2.value].(refBit := true));
      FewerKeys(s, OnAccess(s, page));
    } else if j1.Some? {
      GhostHit(s, n.(p := Min(s.p + Delta(|s.b1|, |s.b2|), s.c), b1 := RemoveAt(s.b1, j1.value)), page);
    } else if j2.Some? {
      GhostHit(s, n.(p := Max(s.p - Delta(|s.b2|, |s.b1|), 0), b2 := RemoveAt(s.b2, j2.value)), page);
    } else {
      FreshInvariant(s, n, page);
    }
  }

  lemma FaultInvariant(s: Lists, page: nat)
    requires Invariant(s)
    ensures Invariant(OnFault(s, page))
  {
    hide Adapted, Keyed;
    var j1, j2 := IndexOf(s.b1, page), IndexOf(s.b2, page);
    var n := s.(index := s.index + 1);
    if j1.Some? {
      FreshInvariant(s, n.(b1 := RemoveAt(s.b1, j1.value)), page);
    } else if j2.Some? {
      FreshInvariant(s, n.(b2 := RemoveAt(s.b2, j2.value)), page);
    } else {
      FreshInvariant(s, n, page);
    }
  }

  // ---- Victims ----

  /** findFrameByPageID: the first frame that holds the page, whatever its state. */
  function Match(frames: seq<Frame>, page: nat, i: nat): (r: Option<nat>)
    requires i <= |frames|
    ensures match r
            case Some(f) =>
              && i <= f < |frames| && frames[f].pageId == page
              && forall k :: i <= k < f ==> frames[k].pageId != page
            case None => forall k :: i <= k < |frames| ==> frames[k].pageId != page
    decreases |frames| - i
  {
    if i == |frames| then None
    else if frames[i].pageId == page then Some(i)
    else Match(frames, page, i + 1)
  }

  /** The page's first frame can be evicted. */
  predicate Names(frames: seq<Frame>, page: nat) {
    var f := Match(frames, page, 0);
    f.Some? && frames[f.value].Evictable()
  }

  predicate AnyNames(l: seq<Entry>, frames: seq<Frame>) {
    exists i :: 0 <= i < |l| && Names(frames, l[i].pageId)
  }

  // ---- What the scans do ----

  /** The list in the order the hand meets it. */
  function Rot(l: seq<Entry>, h: nat): (r: seq<Entry>)
    requires h <= |l|
    ensures |r| == |l|
  {
    l[h..] + l[..h]
  }

  ghost predicate InClockOrder(l: seq<Entry>, order: seq<Entry>) {
    exists h :: 0 <= h <= |l| && Rot(l, h) == order
  }

  /** The position under a hand, which may have run off a list that got shorter. */
  function Under(hand: nat, n: nat): (h: nat)
    ensures h <= n && (n > 0 ==> h < n)
  {
    if n == 0 then 0 else hand % n
  }

  /** The entries that a scan of T1 passes over, in order: those that name no evictable frame. */
  function Passed(l: seq<Entry>, frames: seq<Frame>): seq<Entry> {
    if l == [] then []
    else
      var e := l[|l| - 1];
      Passed(l[..|l| - 1], frames) + (if Names(frames, e.pageId) then [] else [e])
  }

  /** The others as it promotes them to T2, with their bits cleared. */
  function Promotions(l: seq<Entry>, frames: seq<Frame>): seq<Entry> {
    if l == [] then []
    else
      var e := l[|l| - 1];
      Promotions(l[..|l| - 1], frames) + (if Names(frames, e.pageId) then [e.(refBit := false)] else [])
  }

  /** Of the entries of T1 in scan order, the k-th is the first with a clear bit that names an evictable frame. */
  ghost predicate T1Candidate(all: seq<Entry>, frames: seq<Frame>, k: nat) {
    && k < |all| && Names(frames, all[k].pageId) && !all[k].refBit
    && forall i :: 0 <= i < k && Names(frames, all[i].pageId) ==> all[i].refBit
  }

  /** It gives up its frame and goes; what was met before it is promoted or passed over. */
  ghost predicate T1Gone(s: Lists, frames: seq<Frame>, all: seq<Entry>, k: nat, victim: Option<nat>, r: Lists) {
    && T1Candidate(all, frames, k)
    && victim == Match(frames, all[k].pageId, 0)
    && r == s.(t1 := r.t1, t2 := s.t2 + Promotions(all[..k], frames))
    && InClockOrder(r.t1, all[k + 1..] + Passed(all[..k], frames))
  }

  /** The outcome of a fruitless scan of T1: every entry that names an evictable frame is promoted. */
  ghost predicate T1Exhausted(s: Lists, frames: seq<Frame>, all: seq<Entry>, r: Lists) {
    && (forall k :: !T1Candidate(all, frames, k))
    && r == s.(t1 := r.t1, t2 := s.t2 + Promotions(all, frames))
    && InClockOrder(r.t1, Passed(all, frames))
    && (!AnyNames(s.t1, frames) ==> r.t1 == s.t1)
  }

  ghost predicate AnyClear(l: seq<Entry>, frames: seq<Frame>) {
    exists i :: 0 <= i < |l| && Names(frames, l[i].pageId) && !l[i].refBit
  }

  /** The first entry from the hand that names an evictable frame, among those with a clear bit if there are any. */
  ghost predicate T2Candidate(l: seq<Entry>, frames: seq<Frame>, start: nat, v: nat)
    requires start < |l| && v < |l|
  {
    && Names(frames, l[v].pageId) && (AnyClear(l, frames) ==> !l[v].refBit)
    && forall j :: 0 <= j < |l| && Names(frames, l[j].pageId) && (AnyClear(l, frames) ==> !l[j].refBit) ==>
         Steps(start, v, |l|) <= Steps(start, j, |l|)
  }

  /** The bits after the hand has come to v: in the first round, or in the second if no bit was clear. */
  ghost function PassedOver(l: seq<Entry>, frames: seq<Frame>, start: nat, v: nat): (r: seq<Entry>)
    requires start < |l| && v < |l|
    ensures |r| == |l|
  {
    seq(|l|, j requires 0 <= j < |l| =>
      if Names(frames, l[j].pageId) && (Steps(start, j, |l|) < Steps(start, v, |l|) || !AnyClear(l, frames))
      then l[j].(refBit := false) else l[j])
  }

  ghost predicate T2Gone(l: seq<Entry>, frames: seq<Frame>, start: nat, v: nat, victim: Option<nat>, now: seq<Entry>)
    requires start < |l|
  {
    && v < |l| && T2Candidate(l, frames, start, v)
    && victim == Match(frames, l[v].pageId, 0)
    && now == RemoveAt(PassedOver(l, frames, start, v), v)
  }

  /** What SelectVictim does with its hands at hand1 and hand2. T1 is scanned once around: the first entry
      with a clear bit that names an evictable frame gives it up, and those with a set bit met before it are
      promoted. If there is none, T2 is scanned, with second chances. Only when no entry names an evictable
      frame is the first evictable frame of the list taken. */
  ghost predicate Selected(s: Lists, hand1: nat, hand2: nat, frames: seq<Frame>, victim: Option<nat>, r: Lists) {
    var all := Rot(s.t1, Under(hand1, |s.t1|));
    if exists k :: T1Candidate(all, frames, k) then exists k :: T1Gone(s, frames, all, k, victim, r)
    else
      var full := s.t2 + Promotions(all, frames);
      && T1Exhausted(s, frames, all, r.(t2 := full))
      && if AnyNames(full, frames) then exists v :: T2Gone(full, frames, Under(hand2, |full|), v, victim, r.t2)
         else r.t2 == full && victim == FirstEvictable(frames, 0)
  }

  // ---- What follows from it ----

  lemma {:induction false} PassedOrPromoted(l: seq<Entry>, frames: seq<Frame>)
    ensures multiset(Ids(Passed(l, frames))) + multiset(Ids(Promotions(l, frames))) == multiset(Ids(l))
    ensures |Passed(l, frames)| + |Promotions(l, frames)| == |l|
  {
    if l != [] {
      var rest, e := l[..|l| - 1], l[|l| - 1];
      PassedOrPromoted(rest, frames);
      assert l == rest + [e];
      hide Ids, Names;
      IdsAppend(rest, e);
      IdsAppend(Passed(rest, frames), e);
      IdsAppend(Promotions(rest, frames), e.(refBit := false));
      assert Passed(rest, frames) + [] == Passed(rest, frames)
             && Promotions(rest, frames) + [] == Promotions(rest, frames);
    }
  }

  lemma {:induction false} PassedNamesNone(l: seq<Entry>, frames: seq<Frame>, e: Entry)
    ensures e in Passed(l, frames) <==> e in l && !Names(frames, e.pageId)
  {
    if l != [] {
      hide Names;
      PassedNamesNone(l[..|l| - 1], frames, e);
      assert l == l[..|l| - 1] + [l[|l| - 1]];
    }
  }

  lemma {:induction false} NothingPromoted(l: seq<Entry>, frames: seq<Frame>)
    ensures AnyNames(Promotions(l, frames), frames) <==> AnyNames(l, frames)
    ensures !AnyNames(l, frames) ==> Passed(l, frames) == l && Promotions(l, frames) == []
  {
    if l != [] {
      var rest, e := l[..|l| - 1], l[|l| - 1];
      NothingPromoted(rest, frames);
      assert l == rest + [e];
      hide Names;
      NamesEither(rest, [e], frames);
      NamesEither(Promotions(rest, frames), [e.(refBit := false)], frames);
      assert Promotions(rest, frames) + [] == Promotions(rest, frames);
      NamesOne(e, frames);
      NamesOne(e.(refBit := false), frames);
    }
  }

  lemma NamesOne(e: Entry, frames: seq<Frame>)
    ensures AnyNames([e], frames) <==> Names(frames, e.pageId)
  {
    hide Names;
    assert [e][0] == e;
  }

  lemma NamesEither(a: seq<Entry>, b: seq<Entry>, frames: seq<Frame>)
    ensures AnyNames(a + b, frames) <==> AnyNames(a, frames) || AnyNames(b, frames)
  {
    hide Names;
    if i :| 0 <= i < |a| && Names(frames, a[i].pageId) {
      assert (a + b)[i] == a[i];
    }
    if i :| 0 <= i < |b| && Names(frames, b[i].pageId) {
      assert (a + b)[|a| + i] == b[i];
    }
  }

  lemma RotIds(l: seq<Entry>, h: nat)
    requires h <= |l|
    ensures multiset(Ids(Rot(l, h))) == multiset(Ids(l))
    ensures forall e :: e in Rot(l, h) <==> e in l
  {
    assert l == l[..h] + l[h..];
    assert Ids(Rot(l, h)) == Ids(l[h..]) + Ids(l[..h]);
    assert Ids(l) == Ids(l[..h]) + Ids(l[h..]);
  }

  lemma RotNames(l: seq<Entry>, h: nat, frames: seq<Frame>)
    requires h <= |l|
    ensures AnyNames(Rot(l, h), frames) <==> AnyNames(l, frames)
  {
    RotIds(l, h);
    NamesSomewhere(l, frames);
    NamesSomewhere(Rot(l, h), frames);
    hide Names, Rot;
  }

  lemma ClockOrderIds(l: seq<Entry>, order: seq<Entry>)
    requires InClockOrder(l, order)
    ensures multiset(Ids(l)) == multiset(Ids(order)) && |l| == |order|
    ensures forall e :: e in l <==> e in order
  {
    var h :| 0 <= h <= |l| && Rot(l, h) == order;
    RotIds(l, h);
  }

  lemma NamesSomewhere(l: seq<Entry>, frames: seq<Frame>)
    ensures AnyNames(l, frames) <==> exists e :: e in l && Names(frames, e.pageId)
  {
    if e :| e in l && Names(frames, e.pageId) {
      var i :| 0 <= i < |l| && l[i] == e;
    }
  }

  /** Exactly the entry id has left the clocks. */
  ghost predicate Gone(s: Lists, id: (int, nat), r: Lists) {
    && r == s.(t1 := r.t1, t2 := r.t2)
    && InClocks(s) == InClocks(r) + multiset{id}
    && |r.t1| <= |s.t1| && |s.t1| + |s.t2| == |r.t1| + |r.t2| + 1
  }

  lemma T1GoneIs(s: Lists, frames: seq<Frame>, h: nat, k: nat, victim: Option<nat>, r: Lists)
    requires h <= |s.t1| && T1Gone(s, frames, Rot(s.t1, h), k, victim, r)
    ensures var e := Rot(s.t1, h)[k]; Gone(s, (e.key, e.pageId), r) && e in s.t1
  {
    var all := Rot(s.t1, h);
    var pre, rest, e := all[..k], all[k + 1..], all[k];
    RotIds(s.t1, h);
    assert e in all;
    ClockOrderIds(r.t1, rest + Passed(pre, frames));
    PassedOrPromoted(pre, frames);
    hide Rot, Names, InClockOrder, Passed, Promotions;
    assert all == pre + [e] + rest;
    IdsConcat(rest, Passed(pre, frames));
    IdsConcat(s.t2, Promotions(pre, frames));
    IdsConcat(pre + [e], rest);
    IdsAppend(pre, e);
    hide Ids;
  }

  lemma IdsConcat(a: seq<Entry>, b: seq<Entry>)
    ensures multiset(Ids(a + b)) == multiset(Ids(a)) + multiset(Ids(b))
  {
    assert Ids(a + b) == Ids(a) + Ids(b);
  }

  lemma T1ExhaustedKeeps(s: Lists, frames: seq<Frame>, h: nat, r: Lists)
    requires h <= |s.t1| && T1Exhausted(s, frames, Rot(s.t1, h), r)
    ensures InClocks(r) == InClocks(s) && |r.t1| + |r.t2| == |s.t1| + |s.t2| && |r.t1| <= |s.t1|
  {
    var all := Rot(s.t1, h);
    RotIds(s.t1, h);
    ClockOrderIds(r.t1, Passed(all, frames));
    PassedOrPromoted(all, frames);
    IdsConcat(s.t2, Promotions(all, frames));
    hide Rot, Names, InClockOrder, Passed, Promotions, Ids, AnyNames, T1Candidate;
  }

  lemma T1ExhaustedNames(s: Lists, frames: seq<Frame>, h: nat, r: Lists)
    requires h <= |s.t1| && T1Exhausted(s, frames, Rot(s.t1, h), r)
    ensures !AnyNames(r.t1, frames)
    ensures AnyNames(r.t2, frames) <==> AnyNames(s.t1, frames) || AnyNames(s.t2, frames)
    ensures !AnyNames(s.t1, frames) ==> r == s
  {
    var all := Rot(s.t1, h);
    RotNames(s.t1, h, frames);
    ClockOrderIds(r.t1, Passed(all, frames));
    NothingPromoted(all, frames);
    NamesEither(s.t2, Promotions(all, frames), frames);
    NamesSomewhere(r.t1, frames);
    hide Rot, Names, InClockOrder, Passed, Promotions, Ids, AnyNames, T1Candidate;
    forall e | e in r.t1 ensures !Names(frames, e.pageId) {
      PassedNamesNone(all, frames, e);
    }
    assert s.t2 + [] == s.t2;
  }

  /** A fruitless scan of T1 loses no entry, leaves none in T1 that names an evictable frame, and has met
      only set bits on those that do. */
  lemma T1ExhaustedIs(s: Lists, frames: seq<Frame>, h: nat, r: Lists)
    requires h <= |s.t1| && T1Exhausted(s, frames, Rot(s.t1, h), r)
    ensures InClocks(r) == InClocks(s) && |r.t1| + |r.t2| == |s.t1| + |s.t2| && |r.t1| <= |s.t1|
    ensures !AnyNames(r.t1, frames)
    ensures AnyNames(r.t2, frames) <==> AnyNames(s.t1, frames) || AnyNames(s.t2, frames)
    ensures !AnyNames(s.t1, frames) ==> r == s
    ensures forall e :: e in s.t1 && Names(frames, e.pageId) ==> e.refBit
  {
    T1ExhaustedKeeps(s, frames, h, r);
    T1ExhaustedNames(s, frames, h, r);
    RotIds(s.t1, h);
    AllHaveBits(Rot(s.t1, h), frames);
    hide Rot, Names, InClockOrder, Passed, Promotions, InClocks, AnyNames, T1Candidate;
  }

  lemma AllHaveBits(all: seq<Entry>, frames: seq<Frame>)
    requires forall k :: !T1Candidate(all, frames, k)
    ensures forall e :: e in all && Names(frames, e.pageId) ==> e.refBit
  {
    forall k | 0 <= k < |all| && Names(frames, all[k].pageId) ensures all[k].refBit {
      BitSet(all, frames, k);
    }
  }

  lemma {:induction false} BitSet(all: seq<Entry>, frames: seq<Frame>, k: nat)
    requires forall i :: !T1Candidate(all, frames, i)
    requires k < |all| && Names(frames, all[k].pageId)
    ensures all[k].refBit
  {
    forall i | 0 <= i < k && Names(frames, all[i].pageId) ensures all[i].refBit {
      BitSet(all, frames, i);
    }
    assert !T1Candidate(all, frames, k);
  }

  lemma T2GoneIs(l: seq<Entry>, frames: seq<Frame>, start: nat, v: nat, victim: Option<nat>, now: seq<Entry>)
    requires start < |l| && T2Gone(l, frames, start, v, victim, now)
    ensures multiset(Ids(l)) == multiset(Ids(now)) + multiset{(l[v].key, l[v].pageId)} && |l| == |now| + 1
  {
    var swept := PassedOver(l, frames, start, v);
    assert Ids(swept) == Ids(l) by {
      forall j | 0 <= j < |l| ensures Ids(swept)[j] == Ids(l)[j] {
      }
    }
    IdsRemove(swept, v);
    assert swept[v].key == l[v].key && swept[v].pageId == l[v].pageId;
    hide Ids;
  }

  /** The victim holds the page of entry id, and exactly that entry has left the clocks. */
  ghost predicate TookOne(s: Lists, frames: seq<Frame>, id: (int, nat), victim: Option<nat>, r: Lists) {
    && id in InClocks(s) && Gone(s, id, r)
    && Names(frames, id.1) && victim == Match(frames, id.1, 0)
  }

  lemma T1TookOne(s: Lists, h: nat, frames: seq<Frame>, k: nat, victim: Option<nat>, r: Lists)
    requires h <= |s.t1| && T1Gone(s, frames, Rot(s.t1, h), k, victim, r)
    ensures AnyNames(s.t1, frames)
    ensures var e := Rot(s.t1, h)[k]; TookOne(s, frames, (e.key, e.pageId), victim, r)
  {
    var e := Rot(s.t1, h)[k];
    T1GoneIs(s, frames, h, k, victim, r);
    NamesSomewhere(s.t1, frames);
    OneLeft(s, (e.key, e.pageId), r);
    hide Rot, Names, InClockOrder, Passed, Promotions, AnyNames, Match, Gone, InClocks;
  }

  lemma T2TookOne(s: Lists, h: nat, frames: seq<Frame>, m: Lists, start: nat, v: nat, victim: Option<nat>, r: Lists)
    requires h <= |s.t1| && T1Exhausted(s, frames, Rot(s.t1, h), m) && r == m.(t2 := r.t2)
    requires start < |m.t2| && T2Gone(m.t2, frames, start, v, victim, r.t2)
    ensures TookOne(s, frames, (m.t2[v].key, m.t2[v].pageId), victim, r)
  {
    T1ExhaustedIs(s, frames, h, m);
    T2GoneIs(m.t2, frames, start, v, victim, r.t2);
    hide Rot, Names, T1Exhausted, AnyNames, Match, Ids, PassedOver;
    OneLeft(s, (m.t2[v].key, m.t2[v].pageId), r);
  }

  /** While any entry names an evictable frame the victim is such a frame, and exactly its entry leaves the
      clocks, unremembered; all others stay, with their pages. Only otherwise is the first evictable frame
      taken, and then nothing moves. */
  lemma SelectedTakesOne(s: Lists, hand1: nat, hand2: nat, frames: seq<Frame>, victim: Option<nat>, r: Lists)
    requires Selected(s, hand1, hand2, frames, victim, r)
    ensures if AnyNames(s.t1, frames) || AnyNames(s.t2, frames) then exists id :: TookOne(s, frames, id, victim, r)
            else r == s && victim == FirstEvictable(frames, 0)
  {
    var h := Under(hand1, |s.t1|);
    var all := Rot(s.t1, h);
    hide Rot, Names, T1Exhausted, T1Gone, T2Gone, T1Candidate, Promotions, AnyNames, Under, Match, TookOne;
    if exists k :: T1Candidate(all, frames, k) {
      var k: nat :| T1Gone(s, frames, all, k, victim, r);
      T1TookOne(s, h, frames, k, victim, r);
    } else {
      var m := r.(t2 := s.t2 + Promotions(all, frames));
      T1ExhaustedIs(s, frames, h, m);
      if AnyNames(m.t2, frames) {
        assert m.t2 != [] by {
          NoneNamed(m.t2, frames);
        }
        var v: nat :| T2Gone(m.t2, frames, Under(hand2, |m.t2|), v, victim, r.t2);
        T2TookOne(s, h, frames, m, Under(hand2, |m.t2|), v, victim, r);
      }
    }
  }

  lemma NoneNamed(l: seq<Entry>, frames: seq<Frame>)
    ensures l == [] ==> !AnyNames(l, frames)
  {
  }

  lemma OneLeft(s: Lists, id: (int, nat), r: Lists)
    requires InClocks(s) == InClocks(r) + multiset{id}
    ensures id in InClocks(s)
  {
  }

  lemma SelectedContract(s: Lists, hand1: nat, hand2: nat, frames: seq<Frame>, victim: Option<nat>, r: Lists)
    requires Selected(s, hand1, hand2, frames, victim, r)
    ensures VictimContract(frames, victim)
  {
    SelectedTakesOne(s, hand1, hand2, frames, victim, r);
    hide Selected;
  }

  lemma SelectedInvariant(s: Lists, hand1: nat, hand2: nat, frames: seq<Frame>, victim: Option<nat>, r: Lists)
    requires Invariant(s) && Selected(s, hand1, hand2, frames, victim, r)
    ensures Invariant(r)
  {
    SelectedTakesOne(s, hand1, hand2, frames, victim, r);
    hide Selected, AnyNames, Names, Keyed;
    FewerKeys(s, r);
  }

  lemma T1GoneDetermines(s: Lists, frames: seq<Frame>, all: seq<Entry>, i: nat, v: Option<nat>, a: Lists,
                         j: nat, w: Option<nat>, b: Lists)
    requires T1Gone(s, frames, all, i, v, a) && T1Gone(s, frames, all, j, w, b)
    ensures v == w && a.(t1 := []) == b.(t1 := [])
    ensures exists order :: InClockOrder(a.t1, order) && InClockOrder(b.t1, order)
  {
    hide Names, InClockOrder, Passed, Promotions, Match;
    assert i == j;
  }

  lemma T2GoneDetermines(l: seq<Entry>, frames: seq<Frame>, start: nat, i: nat, v: Option<nat>, a: seq<Entry>,
                         j: nat, w: Option<nat>, b: seq<Entry>)
    requires start < |l| && T2Gone(l, frames, start, i, v, a) && T2Gone(l, frames, start, j, w, b)
    ensures v == w && a == b
  {
    hide Names, Match, PassedOver, RemoveAt;
    assert Steps(start, i, |l|) == Steps(start, j, |l|);
    assert i == j;
  }

  /** The description leaves no choice: not of the victim, nor of the lists, T1 in clock order. */
  lemma SelectedDetermines(s: Lists, hand1: nat, hand2: nat, frames: seq<Frame>,
                           v: Option<nat>, a: Lists, w: Option<nat>, b: Lists)
    requires Selected(s, hand1, hand2, frames, v, a) && Selected(s, hand1, hand2, frames, w, b)
    ensures v == w && a.(t1 := []) == b.(t1 := [])
    ensures exists order :: InClockOrder(a.t1, order) && InClockOrder(b.t1, order)
  {
    var all := Rot(s.t1, Under(hand1, |s.t1|));
    hide Rot, Names, InClockOrder, Passed, Promotions, AnyNames, Under, Match, T1Gone, T2Gone, T1Candidate;
    if exists k :: T1Candidate(all, frames, k) {
      var i: nat :| T1Gone(s, frames, all, i, v, a);
      var j: nat :| T1Gone(s, frames, all, j, w, b);
      T1GoneDetermines(s, frames, all, i, v, a, j, w, b);
    } else {
      var full := s.t2 + Promotions(all, frames);
      NoneNamed(full, frames);
      if AnyNames(full, frames) {
        var start := Under(hand2, |full|);
        var i: nat :| T2Gone(full, frames, start, i, v, a.t2);
        var j: nat :| T2Gone(full, frames, start, j, w, b.t2);
        T2GoneDetermines(full, frames, start, i, v, a.t2, j, w, b.t2);
      }
    }
  }

  // ---- Whole runs ----

  datatype Op =
    | Access(page: nat)
    | Fault(page: nat)
    | Evict(hand1: nat, hand2: nat, frames: seq<Frame>, victim: Option<nat>)
    | Restart

  ghost predicate Step(s: Lists, op: Op, r: Lists)
    requires Bounded(s)
  {
    match op
    case Access(page) => r == OnAccess(s, page)
    case Fault(page) => r == OnFault(s, page)
    case Evict(hand1, hand2, frames, victim) => Selected(s, hand1, hand2, frames, victim, r)
    case Restart => s.c >= 0 && r == New(s.c)
  }

  ghost predicate Run(states: seq<Lists>, ops: seq<Op>, c: nat) {
    && |states| == |ops| + 1
    && states[0] == New(c)
    && forall k :: 0 <= k < |ops| ==> Bounded(states[k]) ==> Step(states[k], ops[k], states[k + 1])
  }

  lemma NewInvariant(c: nat)
    ensures Invariant(New(c))
  {
  }

  lemma StepInvariant(s: Lists, op: Op, r: Lists)
    requires Invariant(s) && Step(s, op, r)
    ensures Invariant(r) && r.c == s.c
  {
    match op
    case Access(page) => AccessInvariant(s, page);
    case Fault(page) => FaultInvariant(s, page);
    case Evict(hand1, hand2, frames, victim) => SelectedInvariant(s, hand1, hand2, frames, victim, r);
    case Restart => NewInvariant(s.c);
  }

  /** In every run: 0 <= p <= c, T1 is no longer than p, T1 and T2 together no longer than c + 1, the ghosts no
      longer than 2c each, and no key is in two places. */
  lemma {:induction false} BoundsInEveryRun(states: seq<Lists>, ops: seq<Op>, c: nat, k: nat)
    requires Run(states, ops, c) && k <= |ops|
    ensures var s := states[k];
            && s.c == c && 0 <= s.p <= c && |s.t1| <= s.p && |s.t1| + |s.t2| <= c + 1
            && |s.b1| <= 2 * c && |s.b2| <= 2 * c
            && (forall x, y :: x in InClocks(s) && y in InClocks(s) && x.0 == y.0 ==> x == y && InClocks(s)[x] == 1)
    ensures Invariant(states[k])
  {
    if k == 0 {
      NewInvariant(c);
    } else {
      BoundsInEveryRun(states, ops, c, k - 1);
      StepInvariant(states[k - 1], ops[k - 1], states[k]);
    }
  }

  // ---- The scans, turn by turn ----

  lemma RotStep(l: seq<Entry>, h: nat)
    requires h < |l|
    ensures Rot(l, h)[0] == l[h]
    ensures Rot(l, h + 1) == Rot(l, h)[1..] + [l[h]]
    ensures Rot(RemoveAt(l, h), h) == Rot(l, h)[1..]
    ensures Rot(l, |l|) == Rot(l, 0) == l
  {
  }

  lemma TurnedOne(a: seq<Entry>, b: seq<Entry>)
    requires a != []
    ensures (a + b)[1..] == a[1..] + b
    ensures (a + b)[1..] + [a[0]] == a[1..] + (b + [a[0]])
  {
  }

  lemma MetOneMore(all: seq<Entry>, frames: seq<Frame>, k: nat)
    requires k < |all|
    ensures Passed(all[..k + 1], frames)
            == Passed(all[..k], frames) + (if Names(frames, all[k].pageId) then [] else [all[k]])
    ensures Promotions(all[..k + 1], frames)
            == Promotions(all[..k], frames) + (if Names(frames, all[k].pageId) then [all[k].(refBit := false)] else [])
  {
    assert all[..k + 1][..k] == all[..k];
  }

  /** How far the scan of T1 has come. `all` is T1 in scan order. */
  ghost predicate Scanned(s: Lists, frames: seq<Frame>, all: seq<Entry>, k: nat, r: Lists, hand: nat)
    requires k <= |all| && hand <= |r.t1|
  {
    && r == s.(t1 := r.t1, t2 := s.t2 + Promotions(all[..k], frames))
    && Rot(r.t1, hand) == all[k..] + Passed(all[..k], frames)
    && (forall i :: 0 <= i < k && Names(frames, all[i].pageId) ==> all[i].refBit)
    && ((forall i :: 0 <= i < k ==> !Names(frames, all[i].pageId)) ==> r.t1 == s.t1)
  }

  lemma ScanStart(s: Lists, frames: seq<Frame>, h: nat)
    requires h <= |s.t1|
    ensures Scanned(s, frames, Rot(s.t1, h), 0, s, h)
  {
    var all := Rot(s.t1, h);
    assert all[..0] == [] && all[0..] + [] == all && s.t2 + [] == s.t2;
  }

  /** The hand at the end of the list is the hand at its front. */
  lemma ScanWrap(s: Lists, frames: seq<Frame>, all: seq<Entry>, k: nat, r: Lists)
    requires k <= |all| && r.t1 != [] && Scanned(s, frames, all, k, r, |r.t1|)
    ensures Scanned(s, frames, all, k, r, 0)
  {
    RotStep(r.t1, 0);
  }

  lemma ScanAt(s: Lists, frames: seq<Frame>, all: seq<Entry>, k: nat, r: Lists, h: nat)
    requires k < |all| && h < |r.t1| && Scanned(s, frames, all, k, r, h)
    ensures r.t1[h] == all[k]
  {
    RotStep(r.t1, h);
    assert (all[k..] + Passed(all[..k], frames))[0] == all[k];
  }

  /** An entry that names no evictable frame is passed over. */
  lemma ScanPass(s: Lists, frames: seq<Frame>, all: seq<Entry>, k: nat, r: Lists, h: nat)
    requires k < |all| && h < |r.t1| && Scanned(s, frames, all, k, r, h) && !Names(frames, all[k].pageId)
    ensures Scanned(s, frames, all, k + 1, r, h + 1)
  {
    ScanAt(s, frames, all, k, r, h);
    RotStep(r.t1, h);
    MetOneMore(all, frames, k);
    hide Names, Passed, Promotions, Rot;
    var passed := Passed(all[..k], frames);
    TurnedOne(all[k..], passed);
    assert all[k..][1..] == all[k + 1..];
    assert Promotions(all[..k], frames) + [] == Promotions(all[..k], frames);
  }

  /** T1 and T2 after entry i of T1 is promoted. */
  function Promoted(r: Lists, i: nat): Lists
    requires i < |r.t1|
  {
    r.(t1 := RemoveAt(r.t1, i), t2 := r.t2 + [r.t1[i].(refBit := false)])
  }

  lemma PromotedKeys(r: Lists, i: nat)
    requires i < |r.t1|
    ensures InClocks(Promoted(r, i)) == InClocks(r)
  {
    IdsRemove(r.t1, i);
    IdsAppend(r.t2, r.t1[i].(refBit := false));
  }

  /** One whose bit is set is promoted to T2. */
  lemma ScanPromote(s: Lists, frames: seq<Frame>, all: seq<Entry>, k: nat, r: Lists, h: nat)
    requires k < |all| && h < |r.t1| && Scanned(s, frames, all, k, r, h)
    requires Names(frames, all[k].pageId) && all[k].refBit
    ensures Scanned(s, frames, all, k + 1, Promoted(r, h), h)
  {
    ScanAt(s, frames, all, k, r, h);
    RotStep(r.t1, h);
    MetOneMore(all, frames, k);
    hide Names, Passed, Promotions, Rot;
    var passed, promotions := Passed(all[..k], frames), Promotions(all[..k], frames);
    TurnedOne(all[k..], passed);
    assert all[k..][1..] == all[k + 1..] && passed + [] == passed;
    assert s.t2 + promotions + [all[k].(refBit := false)] == s.t2 + (promotions + [all[k].(refBit := false)]);
  }

  /** One whose bit is clear gives up its frame. */
  lemma ScanTakes(s: Lists, frames: seq<Frame>, all: seq<Entry>, k: nat, r: Lists, h: nat, victim: Option<nat>)
    requires k < |all| && h < |r.t1| && Scanned(s, frames, all, k, r, h)
    requires Names(frames, all[k].pageId) && !all[k].refBit && victim == Match(frames, all[k].pageId, 0)
    ensures T1Gone(s, frames, all, k, victim, r.(t1 := RemoveAt(r.t1, h)))
  {
    RotStep(r.t1, h);
    hide Names, Passed, Promotions, Match;
    TurnedOne(all[k..], Passed(all[..k], frames));
    assert all[k..][1..] == all[k + 1..];
    assert Rot(RemoveAt(r.t1, h), h) == all[k + 1..] + Passed(all[..k], frames);
  }

  /** Every entry has been met. */
  lemma ScanExhausted(s: Lists, frames: seq<Frame>, start: nat, r: Lists, h: nat)
    requires start <= |s.t1| && h <= |r.t1|
    requires Scanned(s, frames, Rot(s.t1, start), |s.t1|, r, h)
    ensures T1Exhausted(s, frames, Rot(s.t1, start), r)
  {
    var all := Rot(s.t1, start);
    RotNames(s.t1, start, frames);
    assert all[..|all|] == all && all[|all|..] + Passed(all, frames) == Passed(all, frames);
    hide Rot, Names, Passed, Promotions;
  }

  // ---- Keys find entries ----

  lemma TwoPlaces(l: seq<Entry>, i: nat, j: nat)
    requires i < |l| && j < |l| && i != j && l[i].key == l[j].key && l[i].pageId == l[j].pageId
    ensures multiset(Ids(l))[(l[i].key, l[i].pageId)] >= 2
  {
    IdsRemove(l, i);
    var rest := RemoveAt(l, i);
    assert rest[if j < i then j else j - 1] == l[j];
    assert Ids(rest)[if j < i then j else j - 1] == (l[j].key, l[j].pageId);
    assert (l[j].key, l[j].pageId) in multiset(Ids(rest));
  }

  lemma HasId(l: seq<Entry>, i: nat)
    requires i < |l|
    ensures (l[i].key, l[i].pageId) in multiset(Ids(l))
  {
    assert Ids(l)[i] == (l[i].key, l[i].pageId);
  }

  /** An entry's key finds it. */
  lemma KeyFinds(s: Lists, i: nat, j: nat)
    requires Keyed(s)
    ensures i < |s.t1| && j < |s.t1| && s.t1[i].key == s.t1[j].key ==> i == j
    ensures i < |s.t2| && j < |s.t2| && s.t2[i].key == s.t2[j].key ==> i == j
  {
    hide Ids;
    if i < |s.t1| && j < |s.t1| && s.t1[i].key == s.t1[j].key {
      HasId(s.t1, i);
      HasId(s.t1, j);
      if i != j {
        TwoPlaces(s.t1, i, j);
      }
    }
    if i < |s.t2| && j < |s.t2| && s.t2[i].key == s.t2[j].key {
      HasId(s.t2, i);
      HasId(s.t2, j);
      if i != j {
        TwoPlaces(s.t2, i, j);
      }
    }
  }

  /** What a scan of T2 has done to its bits after k positions; a second round meets no name at all. */
  ghost predicate BitsSwept(before: seq<Entry>, now: seq<Entry>, frames: seq<Frame>, start: nat, k: nat)
    requires start < |before|
  {
    var n := |before|;
    && |now| == n
    && (forall j :: 0 <= j < n ==>
          now[j] == if Steps(start, j, n) < k && Names(frames, before[j].pageId)
                    then before[j].(refBit := false) else before[j])
    && (forall j :: 0 <= j < n && Steps(start, j, n) < k && Names(frames, before[j].pageId) ==> before[j].refBit)
    && (forall j :: 0 <= j < n && Steps(start, j, n) < k - n ==> !Names(frames, before[j].pageId))
  }

  lemma BitsSweptStart(l: seq<Entry>, frames: seq<Frame>, start: nat)
    requires start < |l|
    ensures BitsSwept(l, l, frames, start, 0)
  {
  }

  lemma BitsSweptPass(before: seq<Entry>, now: seq<Entry>, frames: seq<Frame>, start: nat, k: nat)
    requires start < |before| && k < 2 * |before| && BitsSwept(before, now, frames, start, k)
    ensures var h := At(start, k, |before|);
            && now[h].pageId == before[h].pageId
            && (!Names(frames, now[h].pageId) ==> BitsSwept(before, now, frames, start, k + 1))
            && (Names(frames, now[h].pageId) && now[h].refBit ==>
                  BitsSwept(before, now[h := now[h].(refBit := false)], frames, start, k + 1))
  {
    hide Names;
    var n := |before|;
    var h := At(start, k, n);
    assert Steps(start, h, n) == if k < n then k else k - n;
    forall j | 0 <= j < n ensures Steps(start, j, n) < n && (Steps(start, j, n) == Steps(start, h, n) ==> j == h) {
    }
  }

  /** The entry under the hand names an evictable frame and its bit is clear by now. */
  lemma BitsSweptTake(before: seq<Entry>, now: seq<Entry>, frames: seq<Frame>, start: nat, k: nat, victim: Option<nat>)
    requires start < |before| && k < 2 * |before| && BitsSwept(before, now, frames, start, k)
    requires var e := now[At(start, k, |before|)];
             Names(frames, e.pageId) && !e.refBit && victim == Match(frames, e.pageId, 0)
    ensures var h := At(start, k, |before|); T2Gone(before, frames, start, h, victim, RemoveAt(now, h))
  {
    hide Names, Match, RemoveAt;
    var n := |before|;
    var h := At(start, k, n);
    assert Steps(start, h, n) == if k < n then k else k - n;
    forall j | 0 <= j < n ensures Steps(start, j, n) < n && (Steps(start, j, n) == Steps(start, h, n) ==> j == h) {
    }
    if k < n {
      assert !before[h].refBit && AnyClear(before, frames);
    } else {
      assert !AnyClear(before, frames);
    }
    assert now == PassedOver(before, frames, start, h);
  }

  lemma BitsSweptIds(before: seq<Entry>, now: seq<Entry>, frames: seq<Frame>, start: nat, k: nat)
    requires start < |before| && BitsSwept(before, now, frames, start, k)
    ensures Ids(now) == Ids(before)
  {
    forall j | 0 <= j < |before| ensures Ids(now)[j] == Ids(before)[j] {
    }
  }

  lemma BitsSweptTwice(before: seq<Entry>, now: seq<Entry>, frames: seq<Frame>, start: nat)
    requires start < |before| && BitsSwept(before, now, frames, start, 2 * |before|)
    ensures !AnyNames(before, frames) && now == before
  {
    forall j | 0 <= j < |before| ensures !Names(frames, before[j].pageId) {
      assert Steps(start, j, |before|) < |before|;
    }
  }

  class CAR {
    var t1: seq<Entry>
    var t2: seq<Entry>
    var b1: seq<nat>
    var b2: seq<nat>
    var t1Hand: nat
    var t2Hand: nat
    var t1Count: int
    var t2Count: int
    var p: int
    const c: int
    var index: int

    ghost function State(): Lists
      reads this
    {
      Lists(t1, t2, b1, b2, p, c, index)
    }

    ghost predicate Counted()
      reads this
    {
      t1Count == |t1| && t2Count == |t2|
    }

    ghost predicate Valid()
      reads this
    {
      Counted() && Invariant(State())
    }

    constructor (numFrames: nat)
      ensures Valid() && State() == New(numFrames)
    {
      t1, t2, b1, b2 := [], [], [], [];
      t1Hand, t2Hand, t1Count, t2Count := 0, 0, 0, 0;
      p, c, index := numFrames / 2, numFrames, 0;
    }

    method Reset()
      requires Valid()
      modifies this
      ensures Valid() && State() == New(c)
    {
      t1, t2, b1, b2 := [], [], [], [];
      t1Hand, t2Hand, t1Count, t2Count := 0, 0, 0, 0;
      p, index := c / 2, 0;
    }

    // ---- Accesses and faults ----

    static method FindIn(l: seq<Entry>, page: nat) returns (r: Option<nat>)
      ensures r == FindEntry(l, page)
    {
      for i := 0 to |l|
        invariant forall j :: 0 <= j < i ==> l[j].pageId != page
      {
        if l[i].pageId == page {
          return Some(i);
        }
      }
      return None;
    }

    static method FindGhost(l: seq<nat>, page: nat) returns (r: Option<nat>)
      ensures r == IndexOf(l, page)
    {
      for i := 0 to |l|
        invariant forall j :: 0 <= j < i ==> l[j] != page
      {
        if l[i] == page {
          return Some(i);
        }
      }
      return None;
    }

    method MoveT1ToB1()
      requires Counted() && t1 != [] && c >= 0 && |b1| <= 2 * c
      modifies this`t1, this`t1Count, this`b1
      ensures Counted() && t1 == old(t1)[1..] && b1 == Last(old(b1) + [old(t1)[0].pageId], 2 * c)
    {
      b1 := b1 + [t1[0].pageId];
      if |b1| > c * 2 {
        b1 := b1[1..];
      }
      t1 := t1[1..];
      t1Count := t1Count - 1;
    }

    method MoveT2ToB2()
      requires Counted() && t2 != [] && c >= 0 && |b2| <= 2 * c
      modifies this`t2, this`t2Count, this`b2
      ensures Counted() && t2 == old(t2)[1..] && b2 == Last(old(b2) + [old(t2)[0].pageId], 2 * c)
    {
      b2 := b2 + [t2[0].pageId];
      if |b2| > c * 2 {
        b2 := b2[1..];
      }
      t2 := t2[1..];
      t2Count := t2Count - 1;
    }

    method Adapt()
      requires Counted() && Adaptable(State())
      modifies this
      ensures Counted() && State() == Adapted(old(State())) && t1Hand == old(t1Hand) && t2Hand == old(t2Hand)
    {
      hide Last, Pages;
      CutT1();
      CutT2();
    }

    method CutT1()
      requires Counted() && 0 <= p <= c && |b1| <= 2 * c
      modifies this`t1, this`t1Count, this`b1
      ensures Counted() && |b1| <= 2 * c
      ensures var k := if |old(t1)| > p then |old(t1)| - p else 0;
              t1 == old(t1)[k..] && b1 == Last(old(b1) + Pages(old(t1)[..k]), 2 * c)
    {
      ghost var k: nat := 0;
      hide CutOff, Last, Pages;
      CutNothing(t1, b1, 2 * c);
      while t1Count > p
        invariant Counted() && |b1| <= 2 * c && k + |t1| == |old(t1)| && (k > 0 ==> |t1| >= p)
        invariant CutOff(old(t1), old(b1), 2 * c, k, t1, b1)
        decreases t1Count
      {
        if |t1| == 0 {
          break;
        }
        CutStep(old(t1), old(b1), 2 * c, k, t1, b1);
        MoveT1ToB1();
        k := k + 1;
      }
      CutIs(old(t1), old(b1), 2 * c, k, t1, b1);
    }

    /** The total comes down to c by cutting T2 alone: T1 no longer exceeds it. */
    method CutT2()
      requires Counted() && |t1| <= c && |b2| <= 2 * c
      modifies this`t1, this`t1Count, this`b1, this`t2, this`t2Count, this`b2
      ensures Counted() && t1 == old(t1) && b1 == old(b1)
      ensures var k := if |t1| + |old(t2)| > c then |t1| + |old(t2)| - c else 0;
              t2 == old(t2)[k..] && b2 == Last(old(b2) + Pages(old(t2)[..k]), 2 * c)
    {
      ghost var k: nat := 0;
      hide CutOff, Last, Pages;
      CutNothing(t2, b2, 2 * c);
      while t1Count + t2Count > c
        invariant Counted() && |b2| <= 2 * c && t1 == old(t1) && b1 == old(b1)
        invariant k + |t2| == |old(t2)| && (k > 0 ==> |t1| + |t2| >= c)
        invariant CutOff(old(t2), old(b2), 2 * c, k, t2, b2)
        decreases t2Count
      {
        if t2Count > 0 {
          CutStep(old(t2), old(b2), 2 * c, k, t2, b2);
          MoveT2ToB2();
          k := k + 1;
        } else if t1Count > 0 {
          assert false;
        } else {
          break;
        }
      }
      CutIs(old(t2), old(b2), 2 * c, k, t2, b2);
    }

    method PushT1(page: nat)
      requires Counted()
      modifies this`t1, this`t1Count
      ensures Counted() && State() == ToT1(old(State()), page)
    {
      t1 := t1 + [Entry(page, true, index)];
      t1Count := t1Count + 1;
    }

    method PushT2(page: nat)
      requires Counted()
      modifies this`t2, this`t2Count
      ensures Counted() && State() == ToT2(old(State()), page)
    {
      t2 := t2 + [Entry(page, true, index)];
      t2Count := t2Count + 1;
    }

    /** The list part of OnPageAccess. */
    method OnPageAccess(page: nat)
      requires Valid()
      modifies this
      ensures Valid() && State() == OnAccess(old(State()), page)
    {
      AccessInvariant(State(), page);
      hide Keyed, Adapted, Delta, FindEntry, IndexOf, RemoveAt;
      var i := FindIn(t1, page);
      if i.Some? {
        t1 := t1[i.value := t1[i.value].(refBit := true)];
        return;
      }
      i := FindIn(t2, page);
      if i.Some? {
        t2 := t2[i.value := t2[i.value].(refBit := true)];
        return;
      }
      ReturnOrFresh(page);
    }

    method ReturnOrFresh(page: nat)
      requires Counted() && Bounded(State()) && FindEntry(t1, page).None? && FindEntry(t2, page).None?
      modifies this
      ensures Counted() && State() == OnAccess(old(State()), page)
    {
      hide Adapted, FindEntry, IndexOf, RemoveAt;
      index := index + 1;
      var i := FindGhost(b1, page);
      if i.Some? {
        var delta := 1;
        if |b1| >= |b2| {
          delta := Max(1, |b1| / Max(1, |b2|));
        }
        p := Min(p + delta, c);
        b1 := RemoveAt(b1, i.value);
        Adapt();
        PushT2(page);
        return;
      }
      i := FindGhost(b2, page);
      if i.Some? {
        var delta := 1;
        if |b2| >= |b1| {
          delta := Max(1, |b2| / Max(1, |b1|));
        }
        p := Max(p - delta, 0);
        b2 := RemoveAt(b2, i.value);
        Adapt();
        PushT2(page);
        return;
      }
      PushT1(page);
      Adapt();
    }

    /** The list part of OnPageFault. */
    method OnPageFault(page: nat)
      requires Valid()
      modifies this
      ensures Valid() && State() == OnFault(old(State()), page)
    {
      FaultInvariant(State(), page);
      FiledAdaptable(State(), page);
      hide Keyed, Adapted, Filed;
      FilePage(page);
      Adapt();
    }

    method FilePage(page: nat)
      requires Counted()
      modifies this
      ensures Counted() && State() == Filed(old(State()), page)
    {
      hide IndexOf, RemoveAt;
      index := index + 1;
      var i := FindGhost(b1, page);
      if i.Some? {
        b1 := RemoveAt(b1, i.value);
        PushT2(page);
        return;
      }
      i := FindGhost(b2, page);
      if i.Some? {
        b2 := RemoveAt(b2, i.value);
        PushT2(page);
        return;
      }
      PushT1(page);
    }

    // ---- SelectVictim ----

    static method FindFrameByPageID(frames: seq<Frame>, page: nat) returns (r: Option<nat>)
      ensures r == Match(frames, page, 0)
    {
      for k := 0 to |frames|
        invariant forall j :: 0 <= j < k ==> frames[j].pageId != page
      {
        if frames[k].pageId == page {
          return Some(k);
        }
      }
      return None;
    }

    /** removeT1, by key, for the entry at position i. */
    method RemoveT1(entry: Entry, ghost i: nat)
      requires Counted() && Keyed(State()) && i < |t1| && t1[i].key == entry.key
      modifies this`t1, this`t1Count
      ensures Counted() && t1 == RemoveAt(old(t1), i)
    {
      hide Keyed, RemoveAt;
      for j := 0 to |t1|
        invariant t1 == old(t1) && Counted() && j <= i
      {
        if t1[j].key == entry.key {
          KeyFinds(State(), i, j);
          t1 := RemoveAt(t1, j);
          t1Count := t1Count - 1;
          return;
        }
      }
    }

    method RemoveT2(entry: Entry, ghost i: nat)
      requires Counted() && Keyed(State()) && i < |t2| && t2[i].key == entry.key
      modifies this`t2, this`t2Count
      ensures Counted() && t2 == RemoveAt(old(t2), i)
    {
      hide Keyed, RemoveAt;
      for j := 0 to |t2|
        invariant t2 == old(t2) && Counted() && j <= i
      {
        if t2[j].key == entry.key {
          KeyFinds(State(), i, j);
          t2 := RemoveAt(t2, j);
          t2Count := t2Count - 1;
          return;
        }
      }
    }

    /** One turn of the scan of T1: the entry under the hand is passed over, promoted to T2, or its frame is
        the victim and it goes. */
    method StepT1(frames: seq<Frame>) returns (victim: Option<nat>)
      requires Counted() && Keyed(State()) && t1 != []
      modifies this`t1, this`t1Count, this`t2, this`t2Count, this`t1Hand
      ensures Counted()
      ensures var h := Under(old(t1Hand), |old(t1)|);
              var e := old(t1)[h];
              if !Names(frames, e.pageId) then
                victim == None && State() == old(State()) && t1Hand == h + 1
              else if e.refBit then
                victim == None && State() == Promoted(old(State()), h) && t1Hand == h
              else
                victim == Match(frames, e.pageId, 0) && State() == old(State()).(t1 := RemoveAt(old(t1), h))
    {
      hide Match, RemoveAt, Keyed;
      t1Hand := Under(t1Hand, |t1|);
      var entry := t1[t1Hand];
      ghost var h := t1Hand;
      t1Hand := t1Hand + 1;
      var frame := FindFrameByPageID(frames, entry.pageId);
      if frame.None? || frames[frame.value].free || frames[frame.value].pinned {
        return None;
      }
      if entry.refBit {
        t1Hand := t1Hand - 1;
        RemoveT1(entry, h);
        t2 := t2 + [entry.(refBit := false)];
        t2Count := t2Count + 1;
        return None;
      }
      RemoveT1(entry, h);
      return frame;
    }

    method StepT2(frames: seq<Frame>) returns (victim: Option<nat>)
      requires Counted() && Keyed(State()) && t2 != []
      modifies this`t2, this`t2Count, this`t2Hand
      ensures Counted() && (victim.None? ==> Keyed(State()) && |t2| == |old(t2)|)
      ensures var h := Under(old(t2Hand), |old(t2)|);
              var e := old(t2)[h];
              if !Names(frames, e.pageId) then
                victim == None && t2 == old(t2) && t2Hand == h + 1
              else if e.refBit then
                victim == None && t2 == old(t2)[h := e.(refBit := false)] && t2Hand == h + 1
              else
                victim == Match(frames, e.pageId, 0) && t2 == RemoveAt(old(t2), h)
    {
      hide Match, RemoveAt, Keyed;
      t2Hand := Under(t2Hand, |t2|);
      var entry := t2[t2Hand];
      ghost var h := t2Hand;
      t2Hand := t2Hand + 1;
      var frame := FindFrameByPageID(frames, entry.pageId);
      if frame.None? || frames[frame.value].free || frames[frame.value].pinned {
        return None;
      }
      if entry.refBit {
        IdsUpdate(t2, h, entry.(refBit := false));
        FewerKeys(State(), State().(t2 := t2[h := entry.(refBit := false)]));
        t2 := t2[t2Hand - 1 := entry.(refBit := false)];
        return None;
      }
      RemoveT2(entry, h);
      return frame;
    }

    /** SelectVictim's scan of T1, at most two rounds of the length it starts with. */
    method ScanT1(frames: seq<Frame>) returns (victim: Option<nat>, ghost k: nat)
      requires Valid()
      modifies this`t1, this`t1Count, this`t2, this`t2Count, this`t1Hand
      ensures Counted() && Keyed(State())
      ensures var all := Rot(old(t1), Under(old(t1Hand), |old(t1)|));
              if victim.Some? then T1Gone(old(State()), frames, all, k, victim, State())
              else T1Exhausted(old(State()), frames, all, State())
    {
      ghost var s, start := State(), Under(t1Hand, |t1|);
      ghost var all := Rot(t1, start);
      hide Under, Keyed, T1Exhausted, T1Gone, Scanned, Rot;
      victim, k := None, 0;
      ScanStart(s, frames, start);
      if |t1| == 0 || t1Count <= 0 {
        ScanExhausted(s, frames, start, s, start);
        return;
      }
      var n := |t1|;
      var maxT1Iters := n * 2;
      var i: nat := 0;
      while i < maxT1Iters
        invariant Counted() && Keyed(State()) && i <= maxT1Iters && victim.None?
        invariant i <= |all| ==> (if i == 0 then start else t1Hand) <= |t1|
                                 && Scanned(s, frames, all, i, State(), if i == 0 then start else t1Hand)
        invariant i == 0 ==> t1 != [] && start == Under(t1Hand, |t1|)
        invariant i >= |all| ==> T1Exhausted(s, frames, all, State())
      {
        if |t1| == 0 {
          ScanEmpty(s, frames, all, i, State(), t1Hand);
          break;
        }
        if i < n {
          victim := TurnT1(frames, s, all, i);
          if victim.Some? {
            k := i;
            return;
          }
          if i + 1 == |all| {
            ScanExhausted(s, frames, start, State(), t1Hand);
          }
        } else {
          IdleTurnT1(frames, s, start);
        }
        i := i + 1;
      }
    }

    /** A turn that meets an entry for the first time. */
    method TurnT1(frames: seq<Frame>, ghost s: Lists, ghost all: seq<Entry>, ghost i: nat) returns (victim: Option<nat>)
      requires Counted() && Keyed(State()) && t1 != [] && i < |all|
      requires (i == 0 || t1Hand <= |t1|)
               && Scanned(s, frames, all, i, State(), if i == 0 then Under(t1Hand, |t1|) else t1Hand)
      modifies this`t1, this`t1Count, this`t2, this`t2Count, this`t1Hand
      ensures Counted() && Keyed(State())
      ensures victim.None? ==> t1Hand <= |t1| && Scanned(s, frames, all, i + 1, State(), t1Hand)
      ensures victim.Some? ==> T1Gone(s, frames, all, i, victim, State())
    {
      ghost var r, h := State(), Under(t1Hand, |t1|);
      hide Keyed, Scanned, T1Gone, Names, Under, Match;
      if i > 0 {
        ScanHand(s, frames, all, i, r, t1Hand);
      }
      ScanAt(s, frames, all, i, r, h);
      NamesMatches(frames, all[i].pageId);
      victim := StepT1(frames);
      if !Names(frames, all[i].pageId) {
        ScanPass(s, frames, all, i, r, h);
      } else if all[i].refBit {
        ScanPromote(s, frames, all, i, r, h);
        PromotedKeys(r, h);
        FewerKeys(r, State());
      } else {
        ScanTakes(s, frames, all, i, r, h, victim);
        IdsRemove(r.t1, h);
        FewerKeys(r, State());
      }
    }

    /** A turn after every entry has been met: nothing happens but the hand moving on. */
    method IdleTurnT1(frames: seq<Frame>, ghost s: Lists, ghost start: nat)
      requires Counted() && Keyed(State()) && t1 != []
      requires start <= |s.t1| && T1Exhausted(s, frames, Rot(s.t1, start), State())
      modifies this`t1, this`t1Count, this`t2, this`t2Count, this`t1Hand
      ensures Counted() && State() == old(State())
    {
      T1ExhaustedIs(s, frames, start, State());
      hide Keyed, Names, T1Exhausted;
      var _ := StepT1(frames);
    }

    /** SelectVictim's scan of T2: the first round clears bits, the second finds a cleared entry. */
    method ScanT2(frames: seq<Frame>) returns (victim: Option<nat>, ghost v: nat)
      requires Counted() && Keyed(State())
      modifies this`t2, this`t2Count, this`t2Hand
      ensures Counted()
      ensures victim.None? ==> !AnyNames(old(t2), frames) && t2 == old(t2)
      ensures victim.Some? ==>
                old(t2) != [] && T2Gone(old(t2), frames, Under(old(t2Hand), |old(t2)|), v, victim, t2)
    {
      victim, v := None, 0;
      if |t2| == 0 || t2Count <= 0 {
        return;
      }
      ghost var before, start := t2, Under(t2Hand, |t2|);
      hide BitsSwept, AnyNames, Names, T2Gone, T2Scan, Keyed, RemoveAt, Under;
      T2ScanStart(before, frames, t2Hand);
      var maxT2Iters := |t2| * 2;
      var i: nat := 0;
      while i < maxT2Iters
        invariant Counted() && Keyed(State()) && |t2| == |before| && i <= maxT2Iters && victim.None?
        invariant T2Scan(before, t2, frames, start, i, t2Hand)
      {
        if |t2| == 0 {
          break;
        }
        victim, v := TurnT2(frames, before, start, i);
        if victim.Some? {
          return;
        }
        i := i + 1;
      }
      T2ScanEnd(before, t2, frames, start, t2Hand);
    }

    method TurnT2(frames: seq<Frame>, ghost before: seq<Entry>, ghost start: nat, ghost i: nat)
      returns (victim: Option<nat>, ghost v: nat)
      requires Counted() && Keyed(State()) && |t2| == |before| && start < |before| && i < 2 * |before|
      requires T2Scan(before, t2, frames, start, i, t2Hand)
      modifies this`t2, this`t2Count, this`t2Hand
      ensures Counted()
      ensures victim.None? ==> Keyed(State()) && |t2| == |before| && T2Scan(before, t2, frames, start, i + 1, t2Hand)
      ensures victim.Some? ==> T2Gone(before, frames, start, v, victim, t2)
    {
      hide BitsSwept, Names, T2Gone, At, Keyed, RemoveAt, Under, Match;
      ghost var r := t2;
      v := Under(t2Hand, |t2|);
      BitsSweptPass(before, t2, frames, start, i);
      NextAt(start, i, |t2|);
      HandMoves(v, |t2|);
      NamesMatches(frames, t2[v].pageId);
      victim := StepT2(frames);
      if victim.Some? {
        BitsSweptTake(before, r, frames, start, i, victim);
      }
    }

    /** SelectVictim. */
    method SelectVictim(frames: seq<Frame>) returns (victim: Option<nat>)
      requires Valid()
      modifies this
      ensures Valid() && VictimContract(frames, victim)
      ensures Selected(old(State()), old(t1Hand), old(t2Hand), frames, victim, State())
    {
      ghost var s, hand1, hand2, start, k := State(), t1Hand, t2Hand, Under(t1Hand, |t1|), 0;
      hide Invariant, Selected, T1Exhausted, T1Gone, T2Gone, AnyNames, VictimContract, Keyed, Under, Rot;
      victim, k := ScanT1(frames);
      if victim.Some? {
        SelectedFromT1(s, hand1, hand2, frames, k, victim, State());
      } else {
        ghost var r := State();
        victim, k := ScanT2(frames);
        if victim.Some? {
          SelectedFromT2(s, hand1, hand2, frames, r, k, victim, State());
        } else {
          victim := FindEvictable(frames);
          SelectedAny(s, hand1, hand2, frames, r, victim);
        }
      }
      SelectedContract(s, hand1, hand2, frames, victim, State());
      SelectedInvariant(s, hand1, hand2, frames, victim, State());
    }
  }

  // ---- The scans, put together ----

  lemma NamesMatches(frames: seq<Frame>, page: nat)
    ensures Names(frames, page) ==> Match(frames, page, 0).Some?
  {
  }

  lemma ScanHand(s: Lists, frames: seq<Frame>, all: seq<Entry>, k: nat, r: Lists, hand: nat)
    requires k <= |all| && r.t1 != [] && hand <= |r.t1| && Scanned(s, frames, all, k, r, hand)
    ensures Scanned(s, frames, all, k, r, Under(hand, |r.t1|))
  {
    hide Scanned;
    if hand == |r.t1| {
      ScanWrap(s, frames, all, k, r);
    } else {
      assert Under(hand, |r.t1|) == hand;
    }
  }

  lemma ScanEmpty(s: Lists, frames: seq<Frame>, all: seq<Entry>, k: nat, r: Lists, hand: nat)
    requires k <= |all| ==> hand <= |r.t1| && Scanned(s, frames, all, k, r, hand)
    requires r.t1 == []
    ensures k >= |all|
  {
    if k <= |all| {
      assert |Rot(r.t1, hand)| == |all| - k + |Passed(all[..k], frames)|;
    }
  }

  lemma HandMoves(h: nat, n: nat)
    requires h < n
    ensures Under(h + 1, n) == if h + 1 == n then 0 else h + 1
  {
    NextPosition(h, n);
  }

  /** Where the scan of T2 is after i turns. */
  ghost predicate T2Scan(before: seq<Entry>, now: seq<Entry>, frames: seq<Frame>, start: nat, i: nat, hand: nat)
    requires start < |before| && i <= 2 * |before|
  {
    BitsSwept(before, now, frames, start, i) && Under(hand, |before|) == At(start, i, |before|)
  }

  lemma T2ScanStart(l: seq<Entry>, frames: seq<Frame>, hand: nat)
    requires l != []
    ensures T2Scan(l, l, frames, Under(hand, |l|), 0, hand)
  {
    BitsSweptStart(l, frames, Under(hand, |l|));
  }

  lemma T2ScanEnd(before: seq<Entry>, now: seq<Entry>, frames: seq<Frame>, start: nat, hand: nat)
    requires start < |before| && T2Scan(before, now, frames, start, 2 * |before|, hand)
    ensures !AnyNames(before, frames) && now == before
  {
    BitsSweptTwice(before, now, frames, start);
  }

  lemma SelectedFromT1(s: Lists, hand1: nat, hand2: nat, frames: seq<Frame>, k: nat, victim: Option<nat>, r: Lists)
    requires T1Gone(s, frames, Rot(s.t1, Under(hand1, |s.t1|)), k, victim, r)
    ensures Selected(s, hand1, hand2, frames, victim, r)
  {
  }

  lemma SelectedFromT2(s: Lists, hand1: nat, hand2: nat, frames: seq<Frame>, r: Lists, v: nat, victim: Option<nat>,
                       q: Lists)
    requires T1Exhausted(s, frames, Rot(s.t1, Under(hand1, |s.t1|)), r) && q == r.(t2 := q.t2)
    requires r.t2 != [] && T2Gone(r.t2, frames, Under(hand2, |r.t2|), v, victim, q.t2)
    ensures Selected(s, hand1, hand2, frames, victim, q)
  {
    hide Rot, Under, Promotions, Passed, Names, InClockOrder, Match, RemoveAt;
    assert AnyNames(r.t2, frames);
    assert q.(t2 := r.t2) == r;
  }

  lemma SelectedAny(s: Lists, hand1: nat, hand2: nat, frames: seq<Frame>, r: Lists, victim: Option<nat>)
    requires T1Exhausted(s, frames, Rot(s.t1, Under(hand1, |s.t1|)), r)
    requires !AnyNames(r.t2, frames) && victim == FirstEvictable(frames, 0)
    ensures Selected(s, hand1, hand2, frames, victim, r)
  {
    hide Rot, Under, Promotions, Passed, Names, InClockOrder;
    assert r.(t2 := r.t2) == r;
  }

  /** The first k entries of l have gone to the end of the ghosts. */
  ghost predicate CutOff(l: seq<Entry>, ghosts: seq<nat>, n: nat, k: nat, now: seq<Entry>, b: seq<nat>) {
    k <= |l| && now == l[k..] && b == Last(ghosts + Pages(l[..k]), n)
  }

  lemma CutIs(l: seq<Entry>, ghosts: seq<nat>, n: nat, k: nat, now: seq<Entry>, b: seq<nat>)
    requires CutOff(l, ghosts, n, k, now, b)
    ensures k <= |l| && now == l[k..] && b == Last(ghosts + Pages(l[..k]), n)
  {
  }

  lemma CutNothing(l: seq<Entry>, ghosts: seq<nat>, n: nat)
    requires |ghosts| <= n
    ensures CutOff(l, ghosts, n, 0, l, ghosts)
  {
  }

  lemma LastAgain(l: seq<nat>, x: nat, n: nat)
    ensures Last(Last(l, n) + [x], n) == Last(l + [x], n)
  {
  }

  lemma CutStep(l: seq<Entry>, ghosts: seq<nat>, n: nat, k: nat, now: seq<Entry>, b: seq<nat>)
    requires CutOff(l, ghosts, n, k, now, b) && now != []
    ensures CutOff(l, ghosts, n, k + 1, now[1..], Last(b + [now[0].pageId], n))
  {
    LastAgain(ghosts + Pages(l[..k]), l[k].pageId, n);
    assert ghosts + Pages(l[..k]) + [l[k].pageId] == ghosts + Pages(l[..k + 1]);
  }
}
