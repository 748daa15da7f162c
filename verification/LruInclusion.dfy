/** The LRU stack theorem for the whole memory manager: the pages resident with n frames are always
    resident with more, so more frames never cost more page faults. */
module LruInclusion {
  import opened Prelude
  import opened Frames
  import opened MemoryModel
  import opened Coherence
  import opened LruStack
  import Compression

  /** The last access of the frame a resident page sits in. */
  function StampOf<S>(m: Mem<S>, k: Key): Option<int> {
    if m.Resident(k.0, k.1) then Some(m.frames[m.tables[k.0][k.1].frame].lastAccess) else None
  }

  ghost function Stamps<S>(m: Mem<S>): map<Key, int> {
    map p, v | p in m.tables && v in m.tables[p] && StampOf(m, (p, v)).Some?
      :: (p, v) := StampOf(m, (p, v)).value
  }

  lemma StampsAre<S>(m: Mem<S>, st: map<Key, int>)
    requires forall k :: StampOf(m, k) == if k in st then Some(st[k]) else None
    ensures Stamps(m) == st
  {
    forall k | k in st ensures k in Stamps(m) {
      assert StampOf(m, k).Some?;
      assert (k.0, k.1) == k;
    }
  }

  lemma StampsHave<S>(m: Mem<S>, k: Key)
    ensures StampOf(m, k) == if k in Stamps(m) then Some(Stamps(m)[k]) else None
  {
    assert (k.0, k.1) == k;
  }

  ghost function UsedSet(frames: seq<Frame>): set<nat> {
    set i: nat | i < |frames| && !frames[i].free
  }

  ghost predicate Unpinned(frames: seq<Frame>) {
    forall i :: 0 <= i < |frames| ==> !frames[i].pinned
  }

  lemma UsedFrameIsStamped<S>(m: Mem<S>, i: nat)
    requires Coherent(m) && i in UsedSet(m.frames)
    ensures var k := (m.frames[i].processId, m.frames[i].pageId);
            k in Stamps(m) && Stamps(m)[k] == m.frames[i].lastAccess && m.tables[k.0][k.1].frame == i
  {
    assert FrameOk(m, i);
  }

  lemma StampedFrameIsUsed<S>(m: Mem<S>, k: Key)
    requires Coherent(m) && k in Stamps(m)
    ensures m.tables[k.0][k.1].frame in UsedSet(m.frames)
  {
    assert PageOk(m, k.0, k.1);
  }

  lemma StampedFramesDiffer<S>(m: Mem<S>, a: Key, b: Key)
    requires Coherent(m) && a in Stamps(m) && b in Stamps(m) && a != b
    ensures m.tables[a.0][a.1].frame != m.tables[b.0][b.1].frame
  {
    CoherentIsBijection(m, a.0, a.1, b.0, b.1);
  }

  /** Resident pages and used frames are equally many. */
  lemma ResidentCount<S>(m: Mem<S>)
    requires Coherent(m)
    ensures |Stamps(m)| == |UsedSet(m.frames)|
  {
    var st := Stamps(m);
    assert forall k :: k in st ==> m.Resident(k.0, k.1);
    var f := map k | k in st :: m.tables[k.0][k.1].frame as nat;
    hide Coherent, Stamps, UsedSet;
    forall i | i in UsedSet(m.frames) ensures i in f.Values {
      UsedFrameIsStamped(m, i);
      var k := (m.frames[i].processId, m.frames[i].pageId);
      assert k in f && f[k] == i;
    }
    forall k | k in st ensures f[k] in UsedSet(m.frames) {
      StampedFrameIsUsed(m, k);
    }
    forall a, b | a in st && b in st && a != b ensures f[a] != f[b] {
      StampedFramesDiffer(m, a, b);
    }
    BijectionSize(st.Keys, UsedSet(m.frames), f);
  }

  lemma {:induction false} RangeSize(n: nat, s: set<nat>)
    requires forall i :: i in s ==> i < n
    ensures |s| <= n
    ensures |s| == n <==> forall i :: 0 <= i < n ==> i in s
  {
    if n > 0 {
      RangeSize(n - 1, s - {n - 1});
      if n - 1 in s {
        assert s == (s - {n - 1}) + {n - 1};
      } else {
        assert s - {n - 1} == s;
      }
    }
  }

  /** A frame is free exactly when fewer pages than frames are resident. */
  lemma RoomLeft<S>(m: Mem<S>)
    requires Coherent(m)
    ensures |Stamps(m)| <= |m.frames|
    ensures |Stamps(m)| < |m.frames| <==> exists i :: 0 <= i < |m.frames| && m.frames[i].free
  {
    ResidentCount(m);
    var used, n := UsedSet(m.frames), |m.frames|;
    RangeSize(n, used);
    hide Coherent, Stamps;
    if |used| < n {
      var i :| 0 <= i < n && i !in used;
      assert m.frames[i].free;
    }
    forall i | 0 <= i < n && m.frames[i].free ensures i !in used {
    }
  }

  // ---- What one step does to the stamps ----

  lemma HitStamps(m: Mem<()>, pid: Pid, v: nat, write: bool, now: int)
    requires Coherent(m) && m.Resident(pid, v)
    ensures Stamps(FastHit(LruPolicy(), m, m.tables[pid][v].frame, write, now)) == Stamps(m)[(pid, v) := now]
  {
    var r := FastHit(LruPolicy(), m, m.tables[pid][v].frame, write, now);
    forall k ensures StampOf(r, k) == if k == (pid, v) then Some(now) else StampOf(m, k) {
      if m.Resident(k.0, k.1) {
        CoherentIsBijection(m, k.0, k.1, pid, v);
      }
    }
    hide Coherent, FastHit, StampOf, Stamps;
    forall k { StampsHave(m, k); }
    StampsAre(r, Stamps(m)[(pid, v) := now]);
  }

  lemma PreparedStamps<S>(m: Mem<S>, pid: Pid, v: nat)
    requires Coherent(m) && pid in m.tables
    ensures Stamps(Prepared(m, pid, v)) == Stamps(m)
  {
    var r := Prepared(m, pid, v);
    PreparedKeepsPages(m, pid, v);
    PreparedCoherent(m, pid, v);
    hide Coherent, Prepared;
    forall k ensures StampOf(r, k) == StampOf(m, k) {
    }
    hide StampOf, Stamps;
    forall k { StampsHave(m, k); }
    StampsAre(r, Stamps(m));
  }

  lemma AttachStamps(m: Mem<()>, i: nat, pid: Pid, v: nat, now: int)
    requires Coherent(m) && i < |m.frames| && m.frames[i].free && m.Has(pid, v) && !m.tables[pid][v].present
    ensures Stamps(Attach(LruPolicy(), m, i, pid, v, now)) == Stamps(m)[(pid, v) := now]
  {
    var r := Attach(LruPolicy(), m, i, pid, v, now);
    AttachTables(LruPolicy(), m, i, pid, v, now);
    assert r.frames[i].lastAccess == now;
    hide Attach;
    forall k ensures StampOf(r, k) == if k == (pid, v) then Some(now) else StampOf(m, k) {
      if m.Resident(k.0, k.1) {
        assert PageOk(m, k.0, k.1);
      }
    }
    hide Coherent, StampOf, Stamps;
    forall k { StampsHave(m, k); }
    StampsAre(r, Stamps(m)[(pid, v) := now]);
  }

  lemma EvictStampOf(m: Mem<()>, i: nat, k: Key)
    requires Coherent(m) && i < |m.frames| && !m.frames[i].free
    ensures var f := m.frames[i];
            StampOf(Evict(LruPolicy(), m, i), k) == if k == (f.processId, f.pageId) then None else StampOf(m, k)
  {
    hide Evict, Lawful;
    var f := m.frames[i];
    EvictTables(LruPolicy(), m, i);
    EvictCoherent(LruPolicy(), m, i);
    if m.Resident(k.0, k.1) {
      CoherentIsBijection(m, k.0, k.1, f.processId, f.pageId);
    }
  }

  lemma EvictStamps(m: Mem<()>, i: nat)
    requires Coherent(m) && i < |m.frames| && !m.frames[i].free
    ensures var k := (m.frames[i].processId, m.frames[i].pageId);
            && k in Stamps(m) && Stamps(m)[k] == m.frames[i].lastAccess
            && Stamps(Evict(LruPolicy(), m, i)) == Stamps(m) - {k}
  {
    hide Evict, Lawful, Coherent, StampOf, Stamps;
    var r, f := Evict(LruPolicy(), m, i), m.frames[i];
    UsedFrameIsStamped(m, i);
    forall k { EvictStampOf(m, i, k); }
    forall k { StampsHave(m, k); }
    StampsAre(r, Stamps(m) - {(f.processId, f.pageId)});
  }

  /** The manager's choice among the used frames is the resident page with the oldest stamp. */
  lemma VictimStamp(m: Mem<()>, now: int)
    requires Coherent(m) && Unpinned(m.frames) && |m.frames| > 0 && PickFree(m, "").None?
    ensures var (m1, victim) := Choose(LruPolicy(), m, Used(m.frames), now);
            && m1 == m && victim.Some?
            && forall k :: k in Stamps(m) ==> m.frames[victim.value].lastAccess <= Stamps(m)[k]
  {
    assert 0 in Used(m.frames);
    var v := LruVictim(m.frames, Used(m.frames));
    forall k | k in Stamps(m) ensures m.frames[v.value].lastAccess <= Stamps(m)[k] {
      assert PageOk(m, k.0, k.1);
      assert m.tables[k.0][k.1].frame in Used(m.frames);
    }
  }

  // ---- One access ----

  /** Nothing pinned, at least one frame, clustering off. */
  ghost predicate Ready(m: Mem<()>) {
    Coherent(m) && Unpinned(m.frames) && |m.frames| > 0 && !m.clustering
  }

  lemma LoadWithRoom(m: Mem<()>, i: nat, pid: Pid, v: nat, now: int, rec: seq<Key>, last: int)
    requires Ready(m) && m.Has(pid, v) && !m.tables[pid][v].present
    requires i < |m.frames| && m.frames[i].free
    requires Stack(Stamps(m), rec, |m.frames|, last) && last < now
    ensures Stack(Stamps(Attach(LruPolicy(), m, i, pid, v, now)), Touch(rec, (pid, v)), |m.frames|, now)
  {
    StampsHave(m, (pid, v));
    assert (pid, v) !in Stamps(m);
    RoomLeft(m);
    AttachStamps(m, i, pid, v, now);
    hide Coherent, Stamps, Attach, Stack, Touch, Lawful;
    StackGrow(Stamps(m), rec, |m.frames|, last, (pid, v), now);
  }

  lemma LoadWithVictim(m: Mem<()>, i: nat, pid: Pid, v: nat, now: int, rec: seq<Key>, last: int)
    requires Ready(m) && m.Has(pid, v) && !m.tables[pid][v].present
    requires i < |m.frames| && forall j :: 0 <= j < |m.frames| ==> !m.frames[j].free
    requires forall k :: k in Stamps(m) ==> m.frames[i].lastAccess <= Stamps(m)[k]
    requires Stack(Stamps(m), rec, |m.frames|, last) && last < now
    ensures Evict(LruPolicy(), m, i).Has(pid, v)
    ensures Stack(Stamps(Attach(LruPolicy(), Evict(LruPolicy(), m, i), i, pid, v, now)),
                  Touch(rec, (pid, v)), |m.frames|, now)
  {
    StampsHave(m, (pid, v));
    assert (pid, v) !in Stamps(m);
    RoomLeft(m);
    EvictStamps(m, i);
    EvictTables(LruPolicy(), m, i);
    EvictCoherent(LruPolicy(), m, i);
    var e, f := Evict(LruPolicy(), m, i), m.frames[i];
    assert FrameOk(m, i);
    hide Evict;
    assert !e.tables[pid][v].present;
    AttachStamps(e, i, pid, v, now);
    hide Coherent, Stamps, Attach, Stack, Touch, Lawful;
    StackReplace(Stamps(m), rec, |m.frames|, last, (pid, v), (f.processId, f.pageId), now);
  }

  lemma LoadStack(m: Mem<()>, pid: Pid, v: nat, now: int, rec: seq<Key>, last: int)
    requires Ready(m) && m.Has(pid, v) && !m.tables[pid][v].present
    requires Stack(Stamps(m), rec, |m.frames|, last) && last < now
    ensures var r := Load(LruPolicy(), m, pid, v, now);
            && r.ok
            && Stack(Stamps(r.mem), Touch(rec, (pid, v)), |m.frames|, now)
  {
    var free := PickFree(m, pid);
    if free.Some? {
      LoadWithRoom(m, free.value, pid, v, now, rec, last);
    } else {
      VictimStamp(m, now);
      var (m1, victim) := Choose(LruPolicy(), m, Used(m.frames), now);
      LoadWithVictim(m, victim.value, pid, v, now, rec, last);
    }
    hide Coherent, Stamps, Attach, Evict, Stack, Touch, Lawful;
  }

  /** Loading does not touch what the run is counted by. */
  lemma LoadKeeps(m: Mem<()>, pid: Pid, v: nat, now: int)
    requires m.Has(pid, v) && Unpinned(m.frames)
    ensures var r := Load(LruPolicy(), m, pid, v, now).mem;
            && |r.frames| == |m.frames| && Unpinned(r.frames)
            && r.metrics.faults == m.metrics.faults && r.clustering == m.clustering
  {
    hide PickFree;
    if PickFree(m, pid).None? {
      var (m1, victim) := Choose(LruPolicy(), m, Used(m.frames), now);
      if victim.Some? {
        EvictTables(LruPolicy(), m1, victim.value);
        EvictKeeps(m1, victim.value);
        AttachKeeps(Evict(LruPolicy(), m1, victim.value), victim.value, pid, v, now);
      }
    } else {
      AttachKeeps(m, PickFree(m, pid).value, pid, v, now);
    }
    hide Attach, Evict;
  }

  lemma EvictKeeps(m: Mem<()>, i: nat)
    requires i < |m.frames| && Unpinned(m.frames)
    ensures var r := Evict(LruPolicy(), m, i);
            Unpinned(r.frames) && r.metrics.faults == m.metrics.faults && r.clustering == m.clustering
  {
    EvictIs(LruPolicy(), m, i);
    hide Evict, Lawful;
  }

  lemma AttachKeeps(m: Mem<()>, i: nat, pid: Pid, v: nat, now: int)
    requires m.Has(pid, v) && i < |m.frames| && Unpinned(m.frames)
    ensures var r := Attach(LruPolicy(), m, i, pid, v, now);
            Unpinned(r.frames) && r.metrics.faults == m.metrics.faults && r.clustering == m.clustering
  {
  }

  lemma SameStamps<S>(m: Mem<S>, r: Mem<S>)
    requires r.frames == m.frames && r.tables == m.tables
    ensures Stamps(r) == Stamps(m)
  {
    forall k { StampsHave(m, k); }
    StampsAre(r, Stamps(m));
  }

  lemma FaultStack(m: Mem<()>, pid: Pid, v: nat, write: bool, now: int, rec: seq<Key>, last: int)
    requires Ready(m) && m.Has(pid, v) && !m.tables[pid][v].present
    requires Stack(Stamps(m), rec, |m.frames|, last) && last < now
    ensures var r := Fault(LruPolicy(), m, pid, v, write, now);
            && r.ok && Ready(r.mem)
            && Stack(Stamps(r.mem), Touch(rec, (pid, v)), |m.frames|, now)
            && |r.mem.frames| == |m.frames| && r.mem.metrics.faults == m.metrics.faults
  {
    var id := m.tables[pid][v].id;
    var m1 := if m.compression && id in m.store.pages then m.(store := Compression.Decompress(m.store, id)) else m;
    hide Coherent, Stamps, Stack, Touch, Load, Lawful;
    BookkeepingCoherent(m, m1);
    SameStamps(m, m1);
    LoadStack(m1, pid, v, now, rec, last);
    LoadKeeps(m1, pid, v, now);
    LoadCoherent(LruPolicy(), m1, pid, v, now);
    var l := Load(LruPolicy(), m1, pid, v, now);
    hide Unpinned;
    SettleUnshared(LruPolicy(), l.mem, pid, v, write, now);
  }

  lemma HitStack(m: Mem<()>, pid: Pid, v: nat, write: bool, now: int, rec: seq<Key>, last: int)
    requires Ready(m) && m.Resident(pid, v)
    requires Stack(Stamps(m), rec, |m.frames|, last) && last < now
    ensures var r := FastHit(LruPolicy(), m, m.tables[pid][v].frame, write, now);
            && SettleWrite(LruPolicy(), r, pid, v, write, now) == Outcome(true, r)
            && Ready(r)
            && Stack(Stamps(r), Touch(rec, (pid, v)), |m.frames|, now)
            && |r.frames| == |m.frames| && r.metrics.faults == m.metrics.faults
  {
    hide Coherent, Stamps, Stack, Touch, Lawful, SettleWrite;
    HitStamps(m, pid, v, write, now);
    HitCoherent(LruPolicy(), m, pid, v, write, now);
    StampsHave(m, (pid, v));
    StackHit(Stamps(m), rec, |m.frames|, last, (pid, v), now);
  }

  lemma MissStack(m: Mem<()>, pid: Pid, v: nat, write: bool, now: int, rec: seq<Key>, last: int)
    requires Ready(m) && m.Has(pid, v) && !m.tables[pid][v].present
    requires Stack(Stamps(m), rec, |m.frames|, last) && last < now
    ensures var r := Fault(LruPolicy(), m, pid, v, write, now);
            var c := CountFault(r.mem);
            && r.ok && EnforceTarget(LruPolicy(), c, now) == c
            && Ready(c)
            && Stack(Stamps(c), Touch(rec, (pid, v)), |m.frames|, now)
            && |c.frames| == |m.frames| && c.metrics.faults == m.metrics.faults + 1
  {
    FaultStack(m, pid, v, write, now, rec, last);
    var r := Fault(LruPolicy(), m, pid, v, write, now).mem;
    hide Coherent, Stamps, Stack, Touch, Lawful, Fault;
    BookkeepingCoherent(r, CountFault(r));
    SameStamps(r, CountFault(r));
  }

  lemma PreparedStack(m: Mem<()>, pid: Pid, v: nat, rec: seq<Key>, last: int)
    requires Ready(m) && pid in m.tables && Stack(Stamps(m), rec, |m.frames|, last)
    ensures var r := Prepared(m, pid, v);
            && Ready(r) && Stack(Stamps(r), rec, |m.frames|, last)
            && (r.Resident(pid, v) <==> (pid, v) in Top(rec, |m.frames|))
            && (!r.Resident(pid, v) ==> !r.tables[pid][v].present)
            && r.frames == m.frames && r.metrics == m.metrics && r.clustering == m.clustering
  {
    PreparedCoherent(m, pid, v);
    PreparedStamps(m, pid, v);
    PreparedKeepsPages(m, pid, v);
    StampsHave(m, (pid, v));
    hide Coherent, Stamps, Prepared;
  }

  /** One access by a live process under LRU: it succeeds, keeps the resident set equal to the top of
      the recency order, and faults exactly when the page was not in it. */
  lemma AccessStack(m: Mem<()>, q: Request, now: int, rec: seq<Key>, last: int)
    requires Ready(m) && q.pid in m.tables
    requires Stack(Stamps(m), rec, |m.frames|, last) && last < now
    ensures var r := Access(LruPolicy(), m, q.pid, q.page, q.write, now);
            && r.ok && Ready(r.mem) && r.mem.tables.Keys == m.tables.Keys
            && |r.mem.frames| == |m.frames|
            && Stack(Stamps(r.mem), Touch(rec, q.Key()), |m.frames|, now)
            && r.mem.metrics.faults == m.metrics.faults + (if q.Key() in Top(rec, |m.frames|) then 0 else 1)
  {
    var pid, v := q.pid, q.page;
    AccessCoherent(LruPolicy(), m, pid, v, q.write, now);
    PreparedStack(m, pid, v, rec, last);
    var m1 := Prepared(m, pid, v);
    hide Coherent, Ready, Stamps, Stack, Touch, Prepared, Lawful, Top, SettleWrite, Fault, FastHit, TryPrefetch,
         EnforceTarget, CountFault;
    assert !m1.clustering;
    if m1.Resident(pid, v) {
      HitStack(m1, pid, v, q.write, now, rec, last);
    } else {
      MissStack(m1, pid, v, q.write, now, rec, last);
    }
  }

  // ---- Whole runs ----

  /** A manager with nothing resident, for the processes of its page tables. */
  ghost predicate Start(m: Mem<()>) {
    Ready(m) && forall i :: 0 <= i < |m.frames| ==> m.frames[i].free
  }

  ghost predicate Increasing(times: seq<int>) {
    forall i, j :: 0 <= i < j < |times| ==> times[i] < times[j]
  }

  ghost predicate Live(m: Mem<()>, trace: seq<Request>) {
    forall k :: 0 <= k < |trace| ==> trace[k].pid in m.tables
  }

  ghost function Replay(m: Mem<()>, trace: seq<Request>, times: seq<int>): Mem<()>
    requires |times| == |trace|
  {
    if trace == [] then m
    else
      var n := |trace| - 1;
      Access(LruPolicy(), Replay(m, trace[..n], times[..n]),
             trace[n].pid, trace[n].page, trace[n].write, times[n]).mem
  }

  /** How often a trace asks for a page outside the n most recently used ones. */
  function StackMisses(trace: seq<Request>, n: nat): nat {
    if trace == [] then 0
    else
      var before := trace[..|trace| - 1];
      StackMisses(before, n) + (if trace[|trace| - 1].Key() in Top(Recency(before), n) then 0 else 1)
  }

  lemma {:induction false} ReplayIsStack(m: Mem<()>, trace: seq<Request>, times: seq<int>)
    requires Start(m) && Live(m, trace) && |times| == |trace| && Increasing(times)
    ensures var r := Replay(m, trace, times);
            && Ready(r) && r.tables.Keys == m.tables.Keys && |r.frames| == |m.frames|
            && (forall last :: (trace != [] ==> times[|times| - 1] <= last)
                               ==> Stack(Stamps(r), Recency(trace), |m.frames|, last))
            && r.metrics.faults == m.metrics.faults + StackMisses(trace, |m.frames|)
  {
    if trace == [] {
      assert UsedSet(m.frames) == {};
      ResidentCount(m);
      assert Stamps(m) == map[];
    } else {
      var n := |trace| - 1;
      var before, now := Replay(m, trace[..n], times[..n]), times[n];
      assert Increasing(times[..n]);
      assert Live(m, trace[..n]);
      ReplayIsStack(m, trace[..n], times[..n]);
      assert n > 0 ==> times[..n][n - 1] <= now - 1;
      assert trace[n].pid in before.tables;
      AccessStack(before, trace[n], now, Recency(trace[..n]), now - 1);
    }
  }

  /** Under LRU, with at least one frame and nothing pinned, after any trace the resident pages are
      exactly the n most recently used ones. */
  lemma ResidentsAreMostRecent(m: Mem<()>, trace: seq<Request>, times: seq<int>, pid: Pid, v: nat)
    requires Start(m) && Live(m, trace) && |times| == |trace| && Increasing(times)
    ensures Replay(m, trace, times).Resident(pid, v) <==> (pid, v) in Top(Recency(trace), |m.frames|)
  {
    ReplayIsStack(m, trace, times);
    StampsHave(Replay(m, trace, times), (pid, v));
    var last := if trace == [] then 0 else times[|times| - 1];
    assert Stack(Stamps(Replay(m, trace, times)), Recency(trace), |m.frames|, last);
  }

  lemma {:induction false} MoreFramesFewerMisses(trace: seq<Request>, n: nat, n': nat)
    requires n <= n'
    ensures StackMisses(trace, n') <= StackMisses(trace, n)
  {
    if trace != [] {
      var before := trace[..|trace| - 1];
      MoreFramesFewerMisses(before, n, n');
      hide Recency, Top;
      TopGrows(Recency(before), n, n', trace[|trace| - 1].Key());
    }
  }

  lemma TopGrows(s: seq<Key>, n: nat, n': nat, k: Key)
    requires n <= n'
    ensures k in Top(s, n) ==> k in Top(s, n')
  {
    if k in Top(s, n) {
      var j :| 0 <= j < |Top(s, n)| && Top(s, n)[j] == k;
      assert Top(s, n')[j] == k;
    }
  }

  /** The same trace on two managers, the second with at least as many frames (TLB, NUMA, compression
      and clocks may differ): whatever is resident in the first is resident in the second, and the
      second never takes more page faults. */
  lemma Inclusion(small: Mem<()>, large: Mem<()>, trace: seq<Request>, times: seq<int>, times': seq<int>)
    requires Start(small) && Live(small, trace) && |times| == |trace| && Increasing(times)
    requires Start(large) && Live(large, trace) && |times'| == |trace| && Increasing(times')
    requires |small.frames| <= |large.frames|
    ensures var a, b := Replay(small, trace, times), Replay(large, trace, times');
            && (forall pid, v: nat :: a.Resident(pid, v) ==> b.Resident(pid, v))
            && b.metrics.faults - large.metrics.faults <= a.metrics.faults - small.metrics.faults
  {
    ReplayIsStack(small, trace, times);
    ReplayIsStack(large, trace, times');
    MoreFramesFewerMisses(trace, |small.frames|, |large.frames|);
    var a, b := Replay(small, trace, times), Replay(large, trace, times');
    forall pid, v: nat | a.Resident(pid, v) ensures b.Resident(pid, v) {
      ResidentsAreMostRecent(small, trace, times, pid, v);
      ResidentsAreMostRecent(large, trace, times', pid, v);
      TopGrows(Recency(trace), |small.frames|, |large.frames|, (pid, v));
    }
  }
}
