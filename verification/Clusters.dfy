/** Which pages a cluster brings in: after three pages in a row, the first absent ones of the sixteen that
    follow. */
module Clusters {
  import opened Prelude
  import opened Frames
  import opened MemoryModel
  import Coherence

  ghost predicate Present<S>(m: Mem<S>, pid: Pid, v: nat) {
    m.Has(pid, v) && m.tables[pid][v].present
  }

  ghost predicate NoFree(frames: seq<Frame>) {
    forall i :: 0 <= i < |frames| ==> !frames[i].free
  }

  /** The absent ones of the listed pages, in order. */
  ghost function Absent<S>(m: Mem<S>, pid: Pid, pages: seq<nat>): seq<nat> {
    if pages == [] then []
    else (if Present(m, pid, pages[0]) then [] else [pages[0]]) + Absent(m, pid, pages[1..])
  }

  lemma AbsentFirst<S>(m: Mem<S>, pid: Pid, pages: seq<nat>)
    requires pages != []
    ensures Absent(m, pid, pages)
            == if Present(m, pid, pages[0]) then Absent(m, pid, pages[1..]) else [pages[0]] + Absent(m, pid, pages[1..])
  {
    assert [] + Absent(m, pid, pages[1..]) == Absent(m, pid, pages[1..]);
  }

  lemma {:induction false} AbsentAre<S>(m: Mem<S>, pid: Pid, pages: seq<nat>, v: nat)
    ensures v in Absent(m, pid, pages) <==> v in pages && !Present(m, pid, v)
    ensures |Absent(m, pid, pages)| <= |pages|
  {
    if pages != [] {
      AbsentAre(m, pid, pages[1..], v);
      assert pages == [pages[0]] + pages[1..];
    }
  }

  lemma {:induction false} AbsentAlike<S>(m: Mem<S>, r: Mem<S>, pid: Pid, pages: seq<nat>)
    requires forall v :: v in pages ==> (Present(r, pid, v) <==> Present(m, pid, v))
    ensures Absent(r, pid, pages) == Absent(m, pid, pages)
  {
    if pages != [] {
      AbsentAlike(m, r, pid, pages[1..]);
    }
  }

  /** The pages of the list and no others have come in, and none has gone. */
  ghost predicate CameIn<S>(m: Mem<S>, r: Mem<S>, pid: Pid, pages: seq<nat>) {
    forall q, v: nat :: Present(r, q, v) <==> Present(m, q, v) || (q == pid && v in pages)
  }

  /** The loop stopped after n pages because it had enough, or there was no other, or no frame. */
  ghost predicate StopsAt<S>(r: Mem<S>, absent: seq<nat>, n: nat, limit: int) {
    n <= |absent| && n <= Max(limit, 0) && (n < limit && n < |absent| ==> NoFree(r.frames))
  }

  lemma EnsureBringsNothing<S>(m: Mem<S>, pid: Pid, v: nat)
    requires pid in m.tables
    ensures var r := EnsurePage(m, pid, v);
            CameIn(m, r, pid, []) && r.frames == m.frames && (Present(r, pid, v) <==> r.tables[pid][v].present)
  {
  }

  lemma OneBringsOne<S(!new)>(pol: Policy<S>, m: Mem<S>, i: nat, pid: Pid, v: nat, now: int)
    requires Lawful(pol) && i < |m.frames| && m.Has(pid, v)
    ensures CameIn(m, PrefetchOne(pol, m, i, pid, v, now), pid, [v])
  {
    Coherence.AttachTables(pol, m, i, pid, v, now);
    var a, r := Attach(pol, m, i, pid, v, now), PrefetchOne(pol, m, i, pid, v, now);
    assert r.tables == a.tables;
    hide Attach, PrefetchOne, Lawful;
  }

  lemma CameInTwice<S>(a: Mem<S>, b: Mem<S>, c: Mem<S>, pid: Pid, x: seq<nat>, y: seq<nat>)
    requires CameIn(a, b, pid, x) && CameIn(b, c, pid, y)
    ensures CameIn(a, c, pid, x + y)
  {
  }

  lemma LimitReached<S>(m: Mem<S>, pid: Pid, absent: seq<nat>, limit: int)
    requires limit <= 0 || absent == [] || NoFree(m.frames)
    ensures CameIn(m, m, pid, absent[..0]) && StopsAt(m, absent, 0, limit)
  {
  }

  /** The prefetch loop brings in the first absent pages of its list, in order: as many as it may, unless there
      are no more, or no more free frames. */
  lemma {:induction false} PrefetchTakesFirst<S(!new)>(pol: Policy<S>, m: Mem<S>, pid: Pid, pages: seq<nat>, done: nat,
                                                       now: int) returns (n: nat)
    requires Lawful(pol) && pid in m.tables && Different(pages)
    ensures var r, absent := Prefetch(pol, m, pid, pages, done, now), Absent(m, pid, pages);
            StopsAt(r, absent, n, MAX_PREFETCH - done) && CameIn(m, r, pid, absent[..n])
    decreases |pages|
  {
    hide Lawful, EnsurePage, PrefetchOne, Prefetch, PickFree, CameIn, Present;
    PrefetchUnfold(pol, m, pid, pages, done, now);
    var absent, limit := Absent(m, pid, pages), MAX_PREFETCH - done;
    n := 0;
    if pages == [] || limit <= 0 {
      LimitReached(m, pid, absent, limit);
      return;
    }
    var v, rest := pages[0], pages[1..];
    var m1 := EnsurePage(m, pid, v);
    EnsureBringsNothing(m, pid, v);
    StillAbsent(m, m1, pid, [], rest);
    SamePresence(m, m1, pid, v);
    var free := PickFree(m1, pid);
    AbsentFirst(m, pid, pages);
    hide Absent;
    if m1.tables[pid][v].present {
      n := PrefetchTakesFirst(pol, m1, pid, rest, done, now);
      CameInTwice(m, m1, Prefetch(pol, m1, pid, rest, done, now), pid, [], absent[..n]);
      assert [] + absent[..n] == absent[..n];
    } else if free.Some? {
      var m2 := PrefetchOne(pol, m1, free.value, pid, v, now);
      OneBringsOne(pol, m1, free.value, pid, v, now);
      StillAbsent(m1, m2, pid, [v], rest);
      var k := PrefetchTakesFirst(pol, m2, pid, rest, done + 1, now);
      n := k + 1;
      CameInTwice(m, m1, m2, pid, [], [v]);
      CameInTwice(m, m2, Prefetch(pol, m2, pid, rest, done + 1, now), pid, [] + [v], absent[1..][..k]);
      assert [] + [v] + absent[1..][..k] == absent[..n];
    } else {
      NothingFree(m1, pid);
      CameInTwice(m, m1, m1, pid, [], []);
    }
  }

  lemma StillAbsent<S>(m: Mem<S>, r: Mem<S>, pid: Pid, came: seq<nat>, pages: seq<nat>)
    requires CameIn(m, r, pid, came) && forall v :: v in came ==> v !in pages
    ensures Absent(r, pid, pages) == Absent(m, pid, pages)
  {
    AbsentAlike(m, r, pid, pages);
  }

  lemma SamePresence<S>(m: Mem<S>, r: Mem<S>, pid: Pid, v: nat)
    requires CameIn(m, r, pid, [])
    ensures Present(r, pid, v) <==> Present(m, pid, v)
  {
  }

  lemma NothingFree<S>(m: Mem<S>, pid: Pid)
    requires PickFree(m, pid).None?
    ensures NoFree(m.frames) && CameIn(m, m, pid, [])
  {
  }

  // ---- The cluster ----

  /** The sixteen pages after a page, as 64-bit numbers. */
  ghost predicate Following(a: nat, pages: seq<nat>) {
    |pages| == 16 && forall k :: 0 <= k < 16 ==> pages[k] == (a + 1 + k) % WORD
  }

  lemma Apart(x: nat, y: nat)
    requires 0 < y - x < WORD
    ensures x % WORD != y % WORD
  {
    assert x == x / WORD * WORD + x % WORD && y == y / WORD * WORD + y % WORD;
  }

  lemma FollowingDiffer(a: nat, pages: seq<nat>)
    requires Following(a, pages)
    ensures Different(pages)
  {
    forall j, k | 0 <= j < k < 16 ensures pages[j] != pages[k] {
      Apart(a + 1 + j, a + 1 + k);
    }
  }

  lemma CandidatesFollow(a: nat, pages: seq<nat>)
    requires Following(a, pages)
    ensures pages == Candidates(a)
  {
  }

  /** A process whose last three pages began at a, with a cluster recorded there, gets the first absent pages of
      the sixteen after a, in order: two, unless fewer are absent or no frame is free. No other page of any
      process comes in, and none goes. */
  lemma ClusterBringsNext<S(!new)>(pol: Policy<S>, m: Mem<S>, pid: Pid, pages: seq<nat>, now: int) returns (n: nat)
    requires Lawful(pol) && pid in m.tables && pid in m.recent && |m.recent[pid]| >= 3
    requires var a := m.recent[pid][|m.recent[pid]| - 3]; (pid, a) in m.clusters && Following(a, pages)
    ensures var r, absent := TryPrefetch(pol, m, pid, now), Absent(m, pid, pages);
            && n <= 2 && n <= |absent| && (n < 2 && n < |absent| ==> NoFree(r.frames))
            && CameIn(m, r, pid, absent[..n])
  {
    hide Lawful, Prefetch, Different, CameIn, Absent, Following, Candidates;
    var a := m.recent[pid][|m.recent[pid]| - 3];
    FollowingDiffer(a, pages);
    CandidatesFollow(a, pages);
    n := PrefetchTakesFirst(pol, m, pid, pages, 0, now);
  }

  /** Without a cluster there nothing comes in. */
  lemma NoClusterNoPrefetch<S(!new)>(pol: Policy<S>, m: Mem<S>, pid: Pid, now: int)
    requires Lawful(pol) && pid in m.tables
    requires pid !in m.recent || |m.recent[pid]| < 3 || (pid, m.recent[pid][|m.recent[pid]| - 3]) !in m.clusters
    ensures TryPrefetch(pol, m, pid, now) == m
  {
  }

  // ---- Detection ----

  /** The last n pages of a list, or all of it. */
  ghost predicate LastOf(l: seq<nat>, n: nat, r: seq<nat>) {
    |r| == Min(|l|, n) && r == l[|l| - |r|..]
  }

  ghost predicate InARow(l: seq<nat>, a: nat) {
    var n := |l|;
    && n >= 3 && l[n - 3] == a && l[n - 2] == (a + 1) % WORD && l[n - 1] == (a + 2) % WORD
  }

  /** Tracking an access keeps the process's last sixteen pages, and records a cluster exactly where the last three
      follow each other. */
  lemma TrackRemembers<S>(m: Mem<S>, pid: Pid, v: nat)
    requires pid in m.recent && |m.recent[pid]| <= 16
    ensures var r := Track(m, pid, v);
            && r == m.(recent := r.recent, clusters := r.clusters)
            && r.recent.Keys == m.recent.Keys && (forall q :: q in m.recent && q != pid ==> r.recent[q] == m.recent[q])
            && LastOf(m.recent[pid] + [v], 16, r.recent[pid])
            && forall q, a: nat :: (q, a) in r.clusters
                                   <==> (q, a) in m.clusters || (q == pid && InARow(r.recent[pid], a))
  {
    var r := Track(m, pid, v);
    var l := r.recent[pid];
    if |l| >= 3 {
      NextIsNext(l[|l| - 3]);
    }
  }

  lemma NextIsNext(a: nat)
    ensures ((a + 1) % WORD + 1) % WORD == (a + 2) % WORD
  {
  }

  lemma Tracked<S>(m: Mem<S>, pid: Pid, v: nat, a: nat)
    requires pid in m.recent && |m.recent[pid]| <= 16
    ensures var r := Track(m, pid, v);
            && pid in r.recent && |r.recent[pid]| <= 16 && LastOf(m.recent[pid] + [v], 16, r.recent[pid])
            && (InARow(r.recent[pid], a) ==> (pid, a) in r.clusters)
  {
    hide Track, InARow;
    TrackRemembers(m, pid, v);
  }

  /** So a process that touches a, a + 1 and a + 2 in a row has its cluster, whatever came before. */
  lemma ThreeInARow<S>(m: Mem<S>, pid: Pid, a: nat)
    requires pid in m.recent && |m.recent[pid]| <= 16
    ensures var r := Track(Track(Track(m, pid, a), pid, (a + 1) % WORD), pid, (a + 2) % WORD);
            && pid in r.recent && |r.recent[pid]| >= 3
            && r.recent[pid][|r.recent[pid]| - 3] == a && (pid, a) in r.clusters
  {
    var b, c := (a + 1) % WORD, (a + 2) % WORD;
    var m1 := Track(m, pid, a);
    var m2 := Track(m1, pid, b);
    var r := Track(m2, pid, c);
    hide Track;
    Tracked(m, pid, a, a);
    LastOne(m.recent[pid], a, m1.recent[pid]);
    Tracked(m1, pid, b, a);
    LastTwo(m1.recent[pid], a, b, m2.recent[pid]);
    Tracked(m2, pid, c, a);
    LastThree(m2.recent[pid], a, b, c, r.recent[pid]);
  }

  lemma LastOne(l: seq<nat>, a: nat, r: seq<nat>)
    requires LastOf(l + [a], 16, r)
    ensures r != [] && r[|r| - 1] == a
  {
  }

  lemma LastTwo(l: seq<nat>, a: nat, b: nat, r: seq<nat>)
    requires l != [] && l[|l| - 1] == a && LastOf(l + [b], 16, r)
    ensures |r| >= 2 && r[|r| - 2] == a && r[|r| - 1] == b
  {
  }

  lemma LastThree(l: seq<nat>, a: nat, b: nat, c: nat, r: seq<nat>)
    requires |l| >= 2 && l[|l| - 2] == a && l[|l| - 1] == b && LastOf(l + [c], 16, r)
    ensures |r| >= 3 && r[|r| - 3] == a && r[|r| - 2] == b && r[|r| - 1] == c
  {
  }
}
