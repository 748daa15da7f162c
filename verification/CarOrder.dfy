/** What a hit does to CAR's clocks, where other pages go, and whom the scans therefore pass over. */
module CarOrder {
  import opened Prelude
  import opened Frames
  import Clock
  import opened Car

  ghost predicate InList(l: seq<Entry>, page: nat) {
    exists i :: 0 <= i < |l| && l[i].pageId == page
  }

  // ---- Where a page goes ----

  /** The first entry of the page has its bit set, and nothing else in the list has changed. */
  ghost predicate Marked(l: seq<Entry>, page: nat, i: nat, r: seq<Entry>) {
    && i < |l| == |r| && l[i].pageId == page && (forall j :: 0 <= j < i ==> l[j].pageId != page)
    && r[i] == Entry(page, true, l[i].key)
    && forall j :: 0 <= j < |l| && j != i ==> r[j] == l[j]
  }

  /** A hit sets the bit of the page's first entry in T1, or else in T2, and changes nothing else. */
  lemma HitSetsBit(s: Lists, page: nat)
    requires Bounded(s) && (InList(s.t1, page) || InList(s.t2, page))
    ensures var r := OnAccess(s, page);
            if InList(s.t1, page) then r == s.(t1 := r.t1) && exists i :: Marked(s.t1, page, i, r.t1)
            else r == s.(t2 := r.t2) && exists i :: Marked(s.t2, page, i, r.t2)
  {
    var r, i, j := OnAccess(s, page), FindEntry(s.t1, page), FindEntry(s.t2, page);
    if i.Some? {
      assert Marked(s.t1, page, i.value, r.t1);
    } else {
      assert Marked(s.t2, page, j.value, r.t2);
    }
  }

  ghost predicate Suffix<T>(a: seq<T>, l: seq<T>) {
    |a| <= |l| && a == l[|l| - |a|..]
  }

  lemma FullSuffix(a: seq<Entry>, l: seq<Entry>)
    requires Suffix(a, l) && |a| == |l|
    ensures a == l
  {
  }

  lemma SuffixOfPushed(l: seq<Entry>, e: Entry, r: seq<Entry>)
    requires r != [] && Suffix(r, l + [e])
    ensures r[|r| - 1] == e && Suffix(r[..|r| - 1], l)
  {
  }

  /** Adapting demotes the oldest entries only, and the ghosts forget the oldest only. */
  lemma AdaptedKeepsOrder(s: Lists)
    requires Adaptable(s)
    ensures var r := Adapted(s);
            && Suffix(r.t1, s.t1) && Suffix(r.t2, s.t2)
            && Suffix(r.b1 + Pages(r.t1), s.b1 + Pages(s.t1)) && Suffix(r.b2 + Pages(r.t2), s.b2 + Pages(s.t2))
            && |r.t1| == Min(|s.t1|, s.p) && |r.t2| == Min(|s.t2|, s.c - |r.t1|)
            && |r.b1| == Min(|s.t1| + |s.b1| - |r.t1|, 2 * s.c) && |r.b2| == Min(|s.t2| + |s.b2| - |r.t2|, 2 * s.c)
            && r.p == s.p && r.c == s.c && r.index == s.index
  {
    hide Suffix, Pages, Last;
    var r := Adapted(s);
    CutKeepsOrder(s.t1, s.b1, |s.t1| - |r.t1|, 2 * s.c);
    CutKeepsOrder(s.t2, s.b2, |s.t2| - |r.t2|, 2 * s.c);
  }

  /** The clocks' part of it. */
  lemma AdaptedClocks(s: Lists)
    requires Adaptable(s)
    ensures var r := Adapted(s);
            && Suffix(r.t1, s.t1) && Suffix(r.t2, s.t2)
            && |r.t1| == Min(|s.t1|, s.p) && |r.t2| == Min(|s.t2|, s.c - |r.t1|)
            && r.p == s.p && r.index == s.index
  {
    hide Adapted, Suffix, Pages;
    AdaptedKeepsOrder(s);
  }

  lemma CutKeepsOrder(l: seq<Entry>, ghosts: seq<nat>, k: nat, n: nat)
    requires k <= |l|
    ensures Suffix(l[k..], l)
    ensures |Last(ghosts + Pages(l[..k]), n)| == Min(|ghosts| + k, n)
    ensures Suffix(Last(ghosts + Pages(l[..k]), n) + Pages(l[k..]), ghosts + Pages(l))
  {
    assert Pages(l) == Pages(l[..k]) + Pages(l[k..]);
    var all := ghosts + Pages(l[..k]);
    assert ghosts + Pages(l) == all + Pages(l[k..]);
    LastIsSuffix(all, Pages(l[k..]), n);
  }

  lemma LastIsSuffix(all: seq<nat>, rest: seq<nat>, n: nat)
    ensures Suffix(Last(all, n) + rest, all + rest)
  {
  }

  /** How far a ghost hit moves the target: by the ratio of the ghosts' lengths, rounded down but at least one,
      if the longer list was hit, and else by one. */
  ghost predicate Move(hit: nat, other: nat, d: int) {
    if hit >= other > 0 then d * other <= hit < (d + 1) * other
    else if hit > 0 && other == 0 then d == hit
    else d == 1
  }

  lemma DeltaIsMove(a: nat, b: nat)
    ensures Move(a, b, Delta(a, b))
  {
    if a >= b > 0 {
      assert a == a / b * b + a % b;
    }
  }

  /** The page has entered T2 as its newest entry, with its bit set; the lists have adapted around it. */
  ghost predicate EntersT2(s: Lists, page: nat, p: int, r: Lists) {
    && r.t2 != [] && r.t2[|r.t2| - 1] == Entry(page, true, s.index + 1) && r.p == p
    && Suffix(r.t1, s.t1) && Suffix(r.t2[..|r.t2| - 1], s.t2)
    && |r.t1| == Min(|s.t1|, p) && |r.t2| == 1 + Min(|s.t2|, s.c - |r.t1|)
  }

  lemma GhostReturns(s: Lists, q: Lists, page: nat)
    requires Adaptable(q) && q.t1 == s.t1 && q.t2 == s.t2 && q.c == s.c && q.index == s.index + 1
    ensures EntersT2(s, page, q.p, ToT2(Adapted(q), page))
  {
    hide Adapted, Suffix;
    AdaptedClocks(q);
    var r := ToT2(Adapted(q), page);
    assert r.t2[..|r.t2| - 1] == Adapted(q).t2;
  }

  lemma EntersWith(s: Lists, page: nat, p: int, r: Lists)
    requires EntersT2(s, page, p, r)
    ensures r.p == p
  {
  }

  lemma Unlisted(l: seq<Entry>, page: nat)
    ensures FindEntry(l, page).None? <==> !InList(l, page)
  {
  }

  lemma B1Access(s: Lists, page: nat) returns (q: Lists)
    requires Bounded(s) && !InList(s.t1, page) && !InList(s.t2, page) && page in s.b1
    ensures Adaptable(q) && q.t1 == s.t1 && q.t2 == s.t2 && q.c == s.c && q.index == s.index + 1
    ensures q.p == Min(s.p + Delta(|s.b1|, |s.b2|), s.c)
    ensures OnAccess(s, page) == ToT2(Adapted(q), page)
  {
    Unlisted(s.t1, page);
    Unlisted(s.t2, page);
    hide FindEntry, InList, Delta, Adapted, ToT2;
    q := s.(index := s.index + 1, p := Min(s.p + Delta(|s.b1|, |s.b2|), s.c),
            b1 := RemoveAt(s.b1, IndexOf(s.b1, page).value));
    hide RemoveAt;
  }

  lemma B2Access(s: Lists, page: nat) returns (q: Lists)
    requires Bounded(s) && !InList(s.t1, page) && !InList(s.t2, page) && page !in s.b1 && page in s.b2
    ensures Adaptable(q) && q.t1 == s.t1 && q.t2 == s.t2 && q.c == s.c && q.index == s.index + 1
    ensures q.p == Max(s.p - Delta(|s.b2|, |s.b1|), 0)
    ensures OnAccess(s, page) == ToT2(Adapted(q), page)
  {
    Unlisted(s.t1, page);
    Unlisted(s.t2, page);
    hide FindEntry, InList, Delta, Adapted, ToT2;
    q := s.(index := s.index + 1, p := Max(s.p - Delta(|s.b2|, |s.b1|), 0),
            b2 := RemoveAt(s.b2, IndexOf(s.b2, page).value));
    hide RemoveAt;
  }

  /** A page that B1 remembers, and no clock holds, enters T2, and the target moves towards T1. */
  lemma B1EntersT2(s: Lists, page: nat)
    requires Bounded(s) && !InList(s.t1, page) && !InList(s.t2, page) && page in s.b1
    ensures var r := OnAccess(s, page);
            && EntersT2(s, page, r.p, r) && (s.p < s.c ==> r.p > s.p)
            && exists d :: Move(|s.b1|, |s.b2|, d) && r.p == Min(s.p + d, s.c)
  {
    DeltaIsMove(|s.b1|, |s.b2|);
    var q := B1Access(s, page);
    GhostReturns(s, q, page);
    hide OnAccess, ToT2, Delta, Move, EntersT2, Adapted, InList, Bounded;
    EntersWith(s, page, q.p, ToT2(Adapted(q), page));
  }

  /** A page that B2 alone remembers enters T2 too, and the target moves away from T1. */
  lemma B2EntersT2(s: Lists, page: nat)
    requires Bounded(s) && !InList(s.t1, page) && !InList(s.t2, page) && page !in s.b1 && page in s.b2
    ensures var r := OnAccess(s, page);
            && EntersT2(s, page, r.p, r) && (s.p > 0 ==> r.p < s.p)
            && exists d :: Move(|s.b2|, |s.b1|, d) && r.p == Max(s.p - d, 0)
  {
    DeltaIsMove(|s.b2|, |s.b1|);
    var q := B2Access(s, page);
    GhostReturns(s, q, page);
    hide OnAccess, ToT2, Delta, Move, EntersT2, Adapted, InList, Bounded;
    EntersWith(s, page, q.p, ToT2(Adapted(q), page));
  }

  /** The page enters T1 as its newest entry, with its bit set, if T1 has any room. */
  ghost predicate EntersT1(s: Lists, page: nat, r: Lists) {
    && (s.p > 0 ==> r.t1 != [] && r.t1[|r.t1| - 1] == Entry(page, true, s.index + 1)
                    && Suffix(r.t1[..|r.t1| - 1], s.t1))
    && |r.t1| == Min(|s.t1| + 1, s.p) && Suffix(r.t2, s.t2) && |r.t2| == Min(|s.t2|, s.c - |r.t1|)
    && r.p == s.p
  }

  lemma FreshEntersT1(s: Lists, page: nat)
    requires Bounded(s)
    ensures EntersT1(s, page, Adapted(ToT1(s.(index := s.index + 1), page)))
  {
    var q := ToT1(s.(index := s.index + 1), page);
    hide Adapted, Suffix;
    AdaptedClocks(q);
    var r := Adapted(q);
    if s.p > 0 {
      SuffixOfPushed(s.t1, Entry(page, true, s.index + 1), r.t1);
    }
  }

  lemma NewPageEntersT1(s: Lists, page: nat)
    requires Bounded(s) && !InList(s.t1, page) && !InList(s.t2, page) && page !in s.b1 && page !in s.b2
    ensures EntersT1(s, page, OnAccess(s, page))
  {
    hide Adapted, EntersT1;
    FreshEntersT1(s, page);
  }

  /** A fault files a remembered page at the end of T2, if T1 leaves it any room, and any other at the end of T1,
      with its bit set; the target stays. */
  lemma FaultEnters(s: Lists, page: nat)
    requires Bounded(s)
    ensures var r := OnFault(s, page);
            if page in s.b1 || page in s.b2 then FaultEntersT2(s, page, r) else EntersT1(s, page, r)
  {
    FiledAdaptable(s, page);
    hide Adapted, EntersT1, FaultEntersT2;
    FreshEntersT1(s, page);
    if page in s.b1 || page in s.b2 {
      RememberedEntersT2(s, page, Filed(s, page));
    }
  }

  ghost predicate FaultEntersT2(s: Lists, page: nat, r: Lists) {
    && r.t1 == s.t1 && r.p == s.p
    && (|s.t1| < s.c ==> r.t2 != [] && r.t2[|r.t2| - 1] == Entry(page, true, s.index + 1)
                         && Suffix(r.t2[..|r.t2| - 1], s.t2))
  }

  lemma RememberedEntersT2(s: Lists, page: nat, q: Lists)
    requires Bounded(s) && Adaptable(q) && q.t1 == s.t1 && q.t2 == s.t2 + [Entry(page, true, s.index + 1)]
    requires q.p == s.p && q.c == s.c
    ensures FaultEntersT2(s, page, Adapted(q))
  {
    hide Adapted, Suffix;
    AdaptedClocks(q);
    var r := Adapted(q);
    FullSuffix(r.t1, s.t1);
    if |s.t1| < s.c {
      SuffixOfPushed(s.t2, Entry(page, true, s.index + 1), r.t2);
    }
  }

  // ---- Whom the scans take ----

  function Id(e: Entry): (int, nat) {
    (e.key, e.pageId)
  }

  lemma IdOnce(s: Lists, l: seq<Entry>, i: nat, j: nat)
    requires Keyed(s) && multiset(Ids(l)) <= InClocks(s)
    requires i < |l| && j < |l| && Id(l[i]) == Id(l[j])
    ensures i == j
  {
    if i != j {
      TwoPlaces(l, i, j);
    }
  }

  lemma NotInBoth(s: Lists, i: nat, j: nat)
    requires Keyed(s) && i < |s.t1| && j < |s.t2|
    ensures Id(s.t1[i]) != Id(s.t2[j])
  {
    HasId(s.t1, i);
    HasId(s.t2, j);
    assert InClocks(s)[Id(s.t1[i])] == multiset(Ids(s.t1))[Id(s.t1[i])] + multiset(Ids(s.t2))[Id(s.t1[i])];
    assert Id(s.t1[i]) in InClocks(s);
  }

  function ScanOrder(s: Lists, hand1: nat): seq<Entry> {
    Rot(s.t1, Under(hand1, |s.t1|))
  }

  /** T2 as its scan finds it when that of T1 was fruitless. */
  ghost function FullT2(s: Lists, hand1: nat, frames: seq<Frame>): seq<Entry> {
    s.t2 + Promotions(ScanOrder(s, hand1), frames)
  }

  /** The entry that the scans come to. */
  ghost predicate Goes(s: Lists, hand1: nat, hand2: nat, frames: seq<Frame>, id: (int, nat)) {
    var all, full := ScanOrder(s, hand1), FullT2(s, hand1, frames);
    if exists k :: T1Candidate(all, frames, k) then exists k: nat :: T1Candidate(all, frames, k) && id == Id(all[k])
    else exists v :: 0 <= v < |full| && T2Candidate(full, frames, Under(hand2, |full|), v) && id == Id(full[v])
  }

  lemma OneIsGone(s: Lists, r: Lists, gone: (int, nat), id: (int, nat))
    requires Keyed(s) && id in InClocks(s) && InClocks(s) == InClocks(r) + multiset{gone}
    ensures id !in InClocks(r) <==> id == gone
  {
    assert InClocks(s)[id] == 1;
    assert InClocks(s)[id] == InClocks(r)[id] + multiset{gone}[id];
  }

  lemma GoneFromT1(s: Lists, hand1: nat, hand2: nat, frames: seq<Frame>, k: nat, victim: Option<nat>, r: Lists,
                   id: (int, nat))
    requires Keyed(s) && T1Gone(s, frames, ScanOrder(s, hand1), k, victim, r) && id in InClocks(s)
    ensures id !in InClocks(r) <==> Goes(s, hand1, hand2, frames, id)
  {
    var all := ScanOrder(s, hand1);
    T1GoneIsCandidate(s, frames, all, k, victim, r);
    T1TookOne(s, Under(hand1, |s.t1|), frames, k, victim, r);
    hide Rot, Names, T1Gone, T1Candidate, AnyNames, Under, Match, Keyed, InClocks, FullT2;
    OneIsGone(s, r, Id(all[k]), id);
    forall j: nat | T1Candidate(all, frames, j) ensures j == k {
      OneT1Candidate(all, frames, j, k);
    }
  }

  lemma GoneFromT2(s: Lists, hand1: nat, hand2: nat, frames: seq<Frame>, v: nat, victim: Option<nat>, r: Lists,
                   id: (int, nat))
    requires Keyed(s) && id in InClocks(s) && FullT2(s, hand1, frames) != []
    requires var full := FullT2(s, hand1, frames);
             && T1Exhausted(s, frames, ScanOrder(s, hand1), r.(t2 := full))
             && T2Gone(full, frames, Under(hand2, |full|), v, victim, r.t2)
    ensures id !in InClocks(r) <==> Goes(s, hand1, hand2, frames, id)
  {
    var all, full := ScanOrder(s, hand1), FullT2(s, hand1, frames);
    var start, m := Under(hand2, |full|), r.(t2 := full);
    T2GoneIsCandidate(full, frames, start, v, victim, r.t2);
    T2TookOne(s, Under(hand1, |s.t1|), frames, m, start, v, victim, r);
    NoT1Candidate(s, frames, all, m);
    hide Rot, Names, T1Exhausted, T2Gone, T1Candidate, T2Candidate, AnyNames, Under, Match, Keyed, InClocks, FullT2,
         ScanOrder;
    OneIsGone(s, r, Id(full[v]), id);
    forall w: nat | w < |full| && T2Candidate(full, frames, start, w) ensures w == v {
      OneT2Candidate(full, frames, start, v, w);
    }
  }

  lemma NoT1Candidate(s: Lists, frames: seq<Frame>, all: seq<Entry>, m: Lists)
    requires T1Exhausted(s, frames, all, m)
    ensures forall k: nat :: !T1Candidate(all, frames, k)
  {
  }

  lemma NoneGone(s: Lists, hand1: nat, hand2: nat, frames: seq<Frame>, r: Lists, id: (int, nat))
    requires id in InClocks(s) && !AnyNames(FullT2(s, hand1, frames), frames)
    requires T1Exhausted(s, frames, ScanOrder(s, hand1), r) && r.t2 == FullT2(s, hand1, frames)
    ensures id in InClocks(r) && !Goes(s, hand1, hand2, frames, id)
  {
    var all, full := ScanOrder(s, hand1), FullT2(s, hand1, frames);
    NoT1Candidate(s, frames, all, r);
    T1ExhaustedIs(s, frames, Under(hand1, |s.t1|), r);
    NoT2Candidate(full, frames, Under(hand2, |full|));
    hide Rot, Names, T1Exhausted, T1Candidate, T2Candidate, AnyNames, Under, InClocks, FullT2, ScanOrder;
  }

  /** Of the entries of the clocks exactly the one that the scans come to is given up. */
  lemma GoneIffGoes(s: Lists, hand1: nat, hand2: nat, frames: seq<Frame>, victim: Option<nat>, r: Lists, id: (int, nat))
    requires Keyed(s) && Selected(s, hand1, hand2, frames, victim, r) && id in InClocks(s)
    ensures id !in InClocks(r) <==> Goes(s, hand1, hand2, frames, id)
  {
    var all, full := ScanOrder(s, hand1), FullT2(s, hand1, frames);
    hide Rot, Names, T1Exhausted, T1Gone, T2Gone, T1Candidate, Promotions, AnyNames, Under, Match, Keyed, InClocks,
         Goes;
    if exists k :: T1Candidate(all, frames, k) {
      var k: nat :| T1Gone(s, frames, all, k, victim, r);
      GoneFromT1(s, hand1, hand2, frames, k, victim, r, id);
    } else if AnyNames(full, frames) {
      NoneNamed(full, frames);
      var v: nat :| T2Gone(full, frames, Under(hand2, |full|), v, victim, r.t2);
      GoneFromT2(s, hand1, hand2, frames, v, victim, r, id);
    } else {
      assert r.(t2 := full) == r;
      NoneGone(s, hand1, hand2, frames, r, id);
    }
  }

  lemma T1GoneIsCandidate(s: Lists, frames: seq<Frame>, all: seq<Entry>, k: nat, victim: Option<nat>, r: Lists)
    requires T1Gone(s, frames, all, k, victim, r)
    ensures T1Candidate(all, frames, k) && k < |all|
  {
  }

  lemma T2GoneIsCandidate(l: seq<Entry>, frames: seq<Frame>, start: nat, v: nat, victim: Option<nat>, now: seq<Entry>)
    requires start < |l| && T2Gone(l, frames, start, v, victim, now)
    ensures v < |l| && T2Candidate(l, frames, start, v)
  {
  }

  lemma OneT1Candidate(all: seq<Entry>, frames: seq<Frame>, i: nat, j: nat)
    requires T1Candidate(all, frames, i) && T1Candidate(all, frames, j)
    ensures i == j
  {
    hide Names;
  }

  lemma OneT2Candidate(l: seq<Entry>, frames: seq<Frame>, start: nat, v: nat, w: nat)
    requires start < |l| && v < |l| && w < |l| && T2Candidate(l, frames, start, v) && T2Candidate(l, frames, start, w)
    ensures v == w
  {
    hide Names, AnyClear;
    assert Clock.Steps(start, v, |l|) == Clock.Steps(start, w, |l|);
  }

  lemma NoT2Candidate(l: seq<Entry>, frames: seq<Frame>, start: nat)
    requires !AnyNames(l, frames) && (l != [] ==> start < |l|)
    ensures forall v: nat :: v < |l| ==> !T2Candidate(l, frames, start, v)
  {
    hide Names;
  }

  // ---- Whom a hit spares ----

  lemma {:induction false} CandidateIffClear(all: seq<Entry>, frames: seq<Frame>)
    ensures (exists k :: T1Candidate(all, frames, k)) <==> AnyClear(all, frames)
  {
    hide Names;
    if AnyClear(all, frames) {
      var i: nat :| i < |all| && Names(frames, all[i].pageId) && !all[i].refBit;
      FirstClear(all, frames, i);
    }
  }

  lemma {:induction false} FirstClear(all: seq<Entry>, frames: seq<Frame>, i: nat)
    requires i < |all| && Names(frames, all[i].pageId) && !all[i].refBit
    ensures exists k :: T1Candidate(all, frames, k)
  {
    hide Names;
    if !T1Candidate(all, frames, i) {
      var j: nat :| j < i && Names(frames, all[j].pageId) && !all[j].refBit;
      FirstClear(all, frames, j);
    }
  }

  lemma RotClear(l: seq<Entry>, h: nat, frames: seq<Frame>)
    requires h <= |l|
    ensures AnyClear(Rot(l, h), frames) <==> AnyClear(l, frames)
  {
    hide Names;
    var r := Rot(l, h);
    if i: nat :| i < |l| && Names(frames, l[i].pageId) && !l[i].refBit {
      assert r[if i >= h then i - h else i + |l| - h] == l[i];
    }
    if i: nat :| i < |l| && Names(frames, r[i].pageId) && !r[i].refBit {
      assert r[i] == l[if i < |l| - h then i + h else i - (|l| - h)];
    }
  }

  /** What is promoted names an evictable frame, has lost its bit and was an entry of the list. */
  lemma {:induction false} PromotedIs(l: seq<Entry>, frames: seq<Frame>, x: nat)
    requires x < |Promotions(l, frames)|
    ensures var e := Promotions(l, frames)[x];
            && !e.refBit && Names(frames, e.pageId)
            && exists i :: 0 <= i < |l| && Id(l[i]) == Id(e) && Names(frames, l[i].pageId)
  {
    var rest := l[..|l| - 1];
    if x < |Promotions(rest, frames)| {
      PromotedIs(rest, frames, x);
      var i :| 0 <= i < |rest| && Id(rest[i]) == Id(Promotions(rest, frames)[x]) && Names(frames, rest[i].pageId);
      assert l[i] == rest[i];
    } else {
      assert Id(l[|l| - 1]) == Id(Promotions(l, frames)[x]);
    }
  }

  lemma InScanOrder(s: Lists, hand1: nat, k: nat) returns (i: nat)
    requires k < |ScanOrder(s, hand1)|
    ensures i < |s.t1| && s.t1[i] == ScanOrder(s, hand1)[k]
  {
    var h := Under(hand1, |s.t1|);
    i := if k < |s.t1| - h then k + h else k - (|s.t1| - h);
  }

  lemma T1IdOnce(s: Lists, i: nat, j: nat)
    requires Keyed(s) && i < |s.t1| && j < |s.t1| && Id(s.t1[i]) == Id(s.t1[j])
    ensures i == j
  {
    hide Keyed, Ids;
    IdOnce(s, s.t1, i, j);
  }

  lemma T2IdOnce(s: Lists, i: nat, j: nat)
    requires Keyed(s) && i < |s.t2| && j < |s.t2| && Id(s.t2[i]) == Id(s.t2[j])
    ensures i == j
  {
    hide Keyed, Ids;
    IdOnce(s, s.t2, i, j);
  }

  /** Where an entry's id can be found when the scan of T2 begins. */
  lemma FoundInFull(s: Lists, hand1: nat, frames: seq<Frame>, v: nat)
    requires v < |FullT2(s, hand1, frames)|
    ensures var e := FullT2(s, hand1, frames)[v];
            if v < |s.t2| then e == s.t2[v]
            else !e.refBit && Names(frames, e.pageId)
                 && exists i :: 0 <= i < |s.t1| && Id(s.t1[i]) == Id(e) && Names(frames, s.t1[i].pageId)
  {
    var all := ScanOrder(s, hand1);
    if v >= |s.t2| {
      PromotedIs(all, frames, v - |s.t2|);
      var e := FullT2(s, hand1, frames)[v];
      assert e == Promotions(all, frames)[v - |s.t2|];
      var k: nat :| k < |all| && Id(all[k]) == Id(e) && Names(frames, all[k].pageId);
      hide Promotions, Names, ScanOrder;
      var i := InScanOrder(s, hand1, k);
    }
  }

  /** The hand meets position x of T2 before every entry with a clear bit that names an evictable frame. */
  ghost predicate MetFirst(full: seq<Entry>, frames: seq<Frame>, hand2: nat, x: nat) {
    && x < |full|
    && forall j :: 0 <= j < |full| && Names(frames, full[j].pageId) && !full[j].refBit ==>
         Clock.Steps(Under(hand2, |full|), x, |full|) <= Clock.Steps(Under(hand2, |full|), j, |full|)
  }

  /** An entry of T1 whose bit is set goes exactly if its frame can, no entry of T1 that names an evictable frame
      has a clear bit, and then, promoted to T2 with a clear bit itself, it is the first such that the hand of T2
      meets. */
  lemma SetInT1GoesIff(s: Lists, hand1: nat, hand2: nat, frames: seq<Frame>, i: nat)
    requires Keyed(s) && i < |s.t1| && s.t1[i].refBit
    ensures Goes(s, hand1, hand2, frames, Id(s.t1[i]))
            <==> && Names(frames, s.t1[i].pageId) && !AnyClear(s.t1, frames)
                 && exists x :: |s.t2| <= x < |FullT2(s, hand1, frames)|
                                && Id(FullT2(s, hand1, frames)[x]) == Id(s.t1[i])
                                && MetFirst(FullT2(s, hand1, frames), frames, hand2, x)
  {
    var all, full, id := ScanOrder(s, hand1), FullT2(s, hand1, frames), Id(s.t1[i]);
    CandidateIffClear(all, frames);
    RotClear(s.t1, Under(hand1, |s.t1|), frames);
    hide Keyed, Names, FullT2, Rot, Under;
    if AnyClear(s.t1, frames) {
      forall k: nat | T1Candidate(all, frames, k) ensures id != Id(all[k]) {
        var j := InScanOrder(s, hand1, k);
        if id == Id(all[k]) {
          T1IdOnce(s, i, j);
        }
      }
    } else {
      forall v: nat | v < |full| && Id(full[v]) == id
        ensures v >= |s.t2| && (T2Candidate(full, frames, Under(hand2, |full|), v)
                                <==> Names(frames, s.t1[i].pageId) && MetFirst(full, frames, hand2, v))
      {
        FoundInFull(s, hand1, frames, v);
        if v < |s.t2| {
          NotInBoth(s, i, v);
        }
      }
    }
  }

  /** Its place when the scan of T2 begins is its own. */
  lemma T2Place(s: Lists, hand1: nat, frames: seq<Frame>, i: nat, v: nat)
    requires Keyed(s) && i < |s.t2| && v < |FullT2(s, hand1, frames)|
    requires Id(FullT2(s, hand1, frames)[v]) == Id(s.t2[i])
    ensures v == i
  {
    FoundInFull(s, hand1, frames, v);
    hide Keyed, Names, FullT2;
    if v >= |s.t2| {
      var j: nat :| j < |s.t1| && Id(s.t1[j]) == Id(s.t2[i]);
      NotInBoth(s, j, i);
    } else {
      T2IdOnce(s, i, v);
    }
  }

  /** No entry of T2 goes while one of T1 with a clear bit names an evictable frame. */
  lemma T1GoesFirst(s: Lists, hand1: nat, hand2: nat, frames: seq<Frame>, i: nat)
    requires Keyed(s) && i < |s.t2|
    ensures (exists k :: T1Candidate(ScanOrder(s, hand1), frames, k)) <==> AnyClear(s.t1, frames)
    ensures AnyClear(s.t1, frames) ==> !Goes(s, hand1, hand2, frames, Id(s.t2[i])) && AnyNames(s.t1, frames)
  {
    var all := ScanOrder(s, hand1);
    CandidateIffClear(all, frames);
    RotClear(s.t1, Under(hand1, |s.t1|), frames);
    ClearNames(s.t1, frames);
    hide Keyed, Names, FullT2, Rot, Under, AnyNames;
    if AnyClear(s.t1, frames) {
      forall k: nat | T1Candidate(all, frames, k) ensures Id(s.t2[i]) != Id(all[k]) {
        var j := InScanOrder(s, hand1, k);
        NotInBoth(s, j, i);
      }
    }
  }

  /** An entry of T2 whose bit is set goes exactly if its frame can, no entry of T1 names an evictable frame, none
      of T2 that does has a clear bit, and it is the first of those that the hand meets. */
  lemma SetInT2GoesIff(s: Lists, hand1: nat, hand2: nat, frames: seq<Frame>, i: nat)
    requires Keyed(s) && i < |s.t2| && s.t2[i].refBit
    ensures Goes(s, hand1, hand2, frames, Id(s.t2[i]))
            <==> && Names(frames, s.t2[i].pageId) && !AnyNames(s.t1, frames) && !AnyClear(s.t2, frames)
                 && forall j :: 0 <= j < |s.t2| && Names(frames, s.t2[j].pageId) ==>
                      Clock.Steps(Under(hand2, |s.t2|), i, |s.t2|) <= Clock.Steps(Under(hand2, |s.t2|), j, |s.t2|)
  {
    T1GoesFirst(s, hand1, hand2, frames, i);
    OnlyIfAllSet(s, hand1, frames);
    var full := FullT2(s, hand1, frames);
    if !AnyClear(s.t1, frames) {
      forall v: nat | v < |full| && Id(full[v]) == Id(s.t2[i]) ensures v == i {
        T2Place(s, hand1, frames, i, v);
      }
      assert full[i] == s.t2[i];
      hide Keyed, Names, FullT2, Under, AnyNames, AnyClear, ScanOrder, T1Candidate;
    }
  }

  lemma ClearNames(l: seq<Entry>, frames: seq<Frame>)
    ensures AnyClear(l, frames) ==> AnyNames(l, frames)
  {
  }

  /** T2 as its scan finds it has no clear bit on a name exactly if T1 names nothing and T2 has none. */
  lemma OnlyIfAllSet(s: Lists, hand1: nat, frames: seq<Frame>)
    ensures AnyClear(FullT2(s, hand1, frames), frames) <==> AnyNames(s.t1, frames) || AnyClear(s.t2, frames)
    ensures !AnyNames(s.t1, frames) ==> FullT2(s, hand1, frames) == s.t2
  {
    var all := ScanOrder(s, hand1);
    var promoted, full := Promotions(all, frames), FullT2(s, hand1, frames);
    RotNames(s.t1, Under(hand1, |s.t1|), frames);
    NothingPromoted(all, frames);
    forall x: nat | x < |promoted| ensures !promoted[x].refBit && full[|s.t2| + x] == promoted[x] {
      PromotedIs(all, frames, x);
    }
    hide Names, Rot, Under, Promotions, Passed;
    if AnyClear(s.t2, frames) {
      var i: nat :| i < |s.t2| && Names(frames, s.t2[i].pageId) && !s.t2[i].refBit;
      assert full[i] == s.t2[i];
    }
    if AnyNames(promoted, frames) {
      var x: nat :| x < |promoted| && Names(frames, promoted[x].pageId);
      assert full[|s.t2| + x] == promoted[x];
    }
    if AnyClear(full, frames) {
      var v: nat :| v < |full| && Names(frames, full[v].pageId) && !full[v].refBit;
      assert full[v] == if v < |s.t2| then s.t2[v] else promoted[v - |s.t2|];
    }
    assert s.t2 + [] == s.t2;
  }

  // ---- A hit, and then a victim ----

  ghost predicate FirstOf(l: seq<Entry>, page: nat, i: nat) {
    i < |l| && l[i].pageId == page && forall j :: 0 <= j < i ==> l[j].pageId != page
  }

  /** All entries but the i-th that name an evictable frame have their bits set. */
  ghost predicate OthersSet(l: seq<Entry>, frames: seq<Frame>, i: nat) {
    forall j :: 0 <= j < |l| && j != i && Names(frames, l[j].pageId) ==> l[j].refBit
  }

  lemma MarkedAt(l: seq<Entry>, page: nat, i: nat, r: seq<Entry>, frames: seq<Frame>)
    requires FirstOf(l, page, i) && exists k :: Marked(l, page, k, r)
    ensures i < |r| == |l| && r[i].refBit && Id(r[i]) == Id(l[i])
    ensures !AnyClear(r, frames) <==> OthersSet(l, frames, i)
    ensures forall j :: 0 <= j < |l| ==> r[j].pageId == l[j].pageId
  {
    hide Names;
    var k: nat :| Marked(l, page, k, r);
    assert k == i;
  }

  /** After a hit in T1 the victim is its entry exactly if its frame can go, every other entry of T1 that names an
      evictable frame has its bit set, and, among those that are then found in T2 with a clear bit, the hand meets
      it first. */
  lemma HitInT1GoesIff(s: Lists, page: nat, i: nat, hand1: nat, hand2: nat, frames: seq<Frame>,
                       victim: Option<nat>, q: Lists)
    requires Invariant(s) && FirstOf(s.t1, page, i) && Selected(OnAccess(s, page), hand1, hand2, frames, victim, q)
    ensures var full := FullT2(OnAccess(s, page), hand1, frames);
            Id(s.t1[i]) !in InClocks(q)
            <==> && Names(frames, page) && OthersSet(s.t1, frames, i)
                 && exists x :: |s.t2| <= x < |full| && Id(full[x]) == Id(s.t1[i]) && MetFirst(full, frames, hand2, x)
  {
    var r := OnAccess(s, page);
    HitSetsBit(s, page);
    AccessInvariant(s, page);
    hide OnAccess, Marked;
    MarkedAt(s.t1, page, i, r.t1, frames);
    HasId(r.t1, i);
    hide Selected, InClocks, Names, Goes, FullT2, MetFirst, FirstOf, OthersSet, Bounded;
    InClocksT1(r, i);
    GoneIffGoes(r, hand1, hand2, frames, victim, q, Id(r.t1[i]));
    SetInT1GoesIff(r, hand1, hand2, frames, i);
  }

  lemma InClocksT1(s: Lists, i: nat)
    requires i < |s.t1|
    ensures Id(s.t1[i]) in InClocks(s)
  {
    HasId(s.t1, i);
  }

  lemma InClocksT2(s: Lists, i: nat)
    requires i < |s.t2|
    ensures Id(s.t2[i]) in InClocks(s)
  {
    HasId(s.t2, i);
  }

  /** After a hit in T2 the victim is its entry exactly if its frame can go, no entry of T1 names an evictable
      frame, every other of T2 that does has its bit set, and the hand meets it before all of these. */
  lemma HitInT2GoesIff(s: Lists, page: nat, i: nat, hand1: nat, hand2: nat, frames: seq<Frame>,
                       victim: Option<nat>, q: Lists)
    requires Invariant(s) && FirstOf(s.t2, page, i) && !InList(s.t1, page)
    requires Selected(OnAccess(s, page), hand1, hand2, frames, victim, q)
    ensures Id(s.t2[i]) !in InClocks(q)
            <==> && Names(frames, page) && !AnyNames(s.t1, frames) && OthersSet(s.t2, frames, i)
                 && forall j :: 0 <= j < |s.t2| && Names(frames, s.t2[j].pageId) ==>
                      Clock.Steps(Under(hand2, |s.t2|), i, |s.t2|) <= Clock.Steps(Under(hand2, |s.t2|), j, |s.t2|)
  {
    var r := OnAccess(s, page);
    HitSetsBit(s, page);
    AccessInvariant(s, page);
    hide OnAccess, Marked;
    MarkedAt(s.t2, page, i, r.t2, frames);
    hide Selected, InClocks, Names, Goes, FullT2, MetFirst, OthersSet, Bounded, Keyed, AnyNames, Under;
    InClocksT2(r, i);
    GoneIffGoes(r, hand1, hand2, frames, victim, q, Id(r.t2[i]));
    SetInT2GoesIff(r, hand1, hand2, frames, i);
  }

  /** So an entry just hit is spared while another entry of its own clock that names an evictable frame has a
      clear bit, and in T2 while any entry of T1 names one. */
  lemma JustHitIsSpared(s: Lists, page: nat, i: nat, hand1: nat, hand2: nat, frames: seq<Frame>,
                        victim: Option<nat>, q: Lists)
    requires Invariant(s) && Selected(OnAccess(s, page), hand1, hand2, frames, victim, q)
    ensures FirstOf(s.t1, page, i) && !OthersSet(s.t1, frames, i) ==> Id(s.t1[i]) in InClocks(q)
    ensures FirstOf(s.t2, page, i) && !InList(s.t1, page) && (!OthersSet(s.t2, frames, i) || AnyNames(s.t1, frames))
            ==> Id(s.t2[i]) in InClocks(q)
  {
    hide Invariant, Selected, OnAccess, InClocks, OthersSet, AnyNames, InList, Names, MetFirst, FullT2, Under;
    if FirstOf(s.t1, page, i) {
      HitInT1GoesIff(s, page, i, hand1, hand2, frames, victim, q);
    }
    if FirstOf(s.t2, page, i) && !InList(s.t1, page) {
      HitInT2GoesIff(s, page, i, hand1, hand2, frames, victim, q);
    }
  }

  function InFrame(page: nat): Frame {
    NEW_FRAME.(pageId := page, free := false)
  }

  lemma TwoNamed()
    ensures var frames := [InFrame(1), InFrame(2)];
            Names(frames, 1) && Names(frames, 2) && Match(frames, 1, 0) == Some(0)
  {
    var frames := [InFrame(1), InFrame(2)];
    assert frames[0].pageId == 1 && frames[1].pageId == 2;
  }

  lemma PromotedBehind(frames: seq<Frame>)
    requires Names(frames, 1)
    ensures var s := Lists([Entry(1, true, 2)], [Entry(2, false, 1)], [], [], 1, 2, 2);
            FullT2(s, 0, frames) == [Entry(2, false, 1), Entry(1, false, 2)]
  {
    hide Names;
    OnePromoted(Entry(1, true, 2), frames);
    assert ScanOrder(Lists([Entry(1, true, 2)], [Entry(2, false, 1)], [], [], 1, 2, 2), 0) == [Entry(1, true, 2)];
  }

  lemma MetBefore(frames: seq<Frame>)
    ensures MetFirst([Entry(2, false, 1), Entry(1, false, 2)], frames, 1, 1)
  {
    hide Names;
  }

  /** A clear bit in T2 does not spare an entry of T1: page 1, just hit, is promoted and met by the hand of T2
      before page 2, whose bit is clear. */
  lemma HitInT1MayGoFirst(victim: Option<nat>, q: Lists)
    requires Selected(OnAccess(Lists([Entry(1, false, 2)], [Entry(2, false, 1)], [], [], 1, 2, 2), 1), 0, 1,
                      [InFrame(1), InFrame(2)], victim, q)
    ensures (2, 1) !in InClocks(q)
  {
    var s := Lists([Entry(1, false, 2)], [Entry(2, false, 1)], [], [], 1, 2, 2);
    var frames := [InFrame(1), InFrame(2)];
    assert FirstOf(s.t1, 1, 0) && OthersSet(s.t1, frames, 0);
    assert OnAccess(s, 1).t1 == [Entry(1, true, 2)];
    TwoKeyed();
    TwoNamed();
    PromotedBehind(frames);
    MetBefore(frames);
    hide Names, Selected, FullT2, MetFirst, OnAccess, Invariant, InClocks, FirstOf, OthersSet;
    HitInT1GoesIff(s, 1, 0, 0, 1, frames, victim, q);
  }

  lemma OnePromoted(e: Entry, frames: seq<Frame>)
    requires Names(frames, e.pageId)
    ensures Promotions([e], frames) == [e.(refBit := false)]
  {
    assert [e][..0] == [];
    assert Promotions([], frames) == [];
  }

  lemma TwoKeyed()
    ensures Invariant(Lists([Entry(1, false, 2)], [Entry(2, false, 1)], [], [], 1, 2, 2))
  {
    assert Ids([Entry(1, false, 2)]) == [(2, 1)];
    assert Ids([Entry(2, false, 1)]) == [(1, 2)];
  }
}
