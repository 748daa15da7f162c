/** Copy-on-write isolation: a page that is not marked shared has its frame to itself, and a write changes
    nobody else's mapping, as long as each eviction, removal, fork and failing write passes a guard. For
    each of them the guard is exact. */
module Isolation {
  import opened Prelude
  import opened Frames
  import opened MemoryModel
  import opened Runs
  import opened Failures
  import CowState

  /** Page v of p is marked shared under its own number and p is on record as a sharer. */
  ghost predicate Registered<S>(m: Mem<S>, p: Pid, v: nat)
    requires m.Has(p, v)
  {
    && m.tables[p][v].shared
    && p in CowState.Entry(m.cow, v).processes
  }

  ghost predicate PageSafe<S>(m: Mem<S>, p: Pid, v: nat)
    requires m.Has(p, v)
  {
    var page := m.tables[p][v];
    && (page.present ==> 0 <= page.frame < |m.frames| && !m.frames[page.frame].free)
    && (page.shared ==> page.id == v)
  }

  /** Pages in one frame are the same page of different processes, both registered as sharers. */
  ghost predicate PairSafe<S>(m: Mem<S>, p: Pid, v: nat, q: Pid, w: nat)
    requires m.Has(p, v) && m.Has(q, w)
  {
    var a, b := m.tables[p][v], m.tables[q][w];
    a.present && b.present && a.frame == b.frame && (p != q || v != w)
    ==> v == w && Registered(m, p, v) && Registered(m, q, w)
  }

  ghost predicate PagesSafe<S>(m: Mem<S>) {
    forall p, v :: m.Has(p, v) ==> PageSafe(m, p, v)
  }

  ghost predicate PairsSafe<S>(m: Mem<S>) {
    forall p, v, q, w :: m.Has(p, v) && m.Has(q, w) ==> PairSafe(m, p, v, q, w)
  }

  ghost predicate Isolated<S>(m: Mem<S>) {
    CowState.Valid(m.cow) && PagesSafe(m) && PairsSafe(m)
  }

  ghost predicate SameTable<S>(m: Mem<S>, r: Mem<S>, q: Pid) {
    && (q in r.tables <==> q in m.tables)
    && (q in m.tables ==> r.tables[q] == m.tables[q])
  }

  /** Only pid's table may have changed. */
  ghost predicate OthersUntouched<S>(m: Mem<S>, r: Mem<S>, pid: Pid) {
    forall q :: q != pid ==> SameTable(m, r, q)
  }

  /** No page of pid goes, or is filed or shared otherwise, and those present stay as they are. */
  ghost predicate KeepsPages<S>(m: Mem<S>, r: Mem<S>, pid: Pid) {
    forall v :: m.Has(pid, v) ==>
      && r.Has(pid, v)
      && r.tables[pid][v].id == m.tables[pid][v].id && r.tables[pid][v].shared == m.tables[pid][v].shared
      && (m.tables[pid][v].present ==> r.tables[pid][v] == m.tables[pid][v])
  }

  ghost predicate StaysUsed(before: seq<Frame>, after: seq<Frame>) {
    && |after| == |before|
    && forall i :: 0 <= i < |before| && !before[i].free ==> !after[i].free
  }

  /** q's pages are as before, except that some may have lost their frames. */
  ghost predicate Yields<S>(m: Mem<S>, r: Mem<S>, q: Pid) {
    && (q in r.tables <==> q in m.tables)
    && (q in m.tables ==>
          && r.tables[q].Keys == m.tables[q].Keys
          && forall v :: v in m.tables[q] ==>
               r.tables[q][v] == m.tables[q][v] || r.tables[q][v] == m.tables[q][v].SetFrame(-1))
  }

  /** Nothing happened to any table but evictions. */
  ghost predicate AllYield<S>(m: Mem<S>, r: Mem<S>) {
    && (forall q :: Yields(m, r, q))
    && m.metrics.evictions <= r.metrics.evictions
    && (r.metrics.evictions == m.metrics.evictions ==> r.tables == m.tables)
  }

  /** Nothing happened to any table but pid's, except evictions. */
  ghost predicate OthersYield<S>(m: Mem<S>, r: Mem<S>, pid: Pid) {
    && (forall q :: q != pid ==> Yields(m, r, q))
    && m.metrics.evictions <= r.metrics.evictions
    && (r.metrics.evictions == m.metrics.evictions ==> OthersUntouched(m, r, pid))
  }

  lemma YieldsTwice<S>(a: Mem<S>, b: Mem<S>, c: Mem<S>, q: Pid)
    requires Yields(a, b, q) && Yields(b, c, q)
    ensures Yields(a, c, q)
  {
    if q in a.tables {
      forall v | v in a.tables[q]
        ensures c.tables[q][v] == a.tables[q][v] || c.tables[q][v] == a.tables[q][v].SetFrame(-1)
      {
        assert v in b.tables[q];
      }
    }
  }

  lemma AllYieldTwice<S>(a: Mem<S>, b: Mem<S>, c: Mem<S>)
    requires AllYield(a, b) && AllYield(b, c)
    ensures AllYield(a, c)
  {
    forall q ensures Yields(a, c, q) {
      YieldsTwice(a, b, c, q);
    }
  }

  lemma OthersYieldTwice<S>(a: Mem<S>, b: Mem<S>, c: Mem<S>, pid: Pid)
    requires OthersYield(a, b, pid) && OthersYield(b, c, pid)
    ensures OthersYield(a, c, pid)
  {
    forall q | q != pid ensures Yields(a, c, q) {
      YieldsTwice(a, b, c, q);
    }
    if c.metrics.evictions == a.metrics.evictions {
      UntouchedTransitive(a, b, c, pid);
    }
  }

  lemma AllYieldOthers<S>(m: Mem<S>, r: Mem<S>, pid: Pid)
    requires AllYield(m, r)
    ensures OthersYield(m, r, pid)
  {
    hide Yields;
  }

  lemma UntouchedYields<S>(m: Mem<S>, r: Mem<S>, pid: Pid)
    requires OthersUntouched(m, r, pid) && r.metrics.evictions == m.metrics.evictions
    ensures OthersYield(m, r, pid)
  {
    forall q | q != pid ensures Yields(m, r, q) {
      assert SameTable(m, r, q);
    }
  }

  lemma SameTablesYield<S>(m: Mem<S>, r: Mem<S>)
    requires r.tables == m.tables && r.metrics.evictions == m.metrics.evictions
    ensures AllYield(m, r)
  {
  }

  // ---- Steps that keep isolation ----

  /** The same tables and sharers, and no frame freed. */
  lemma SameTablesIsolated<S>(m: Mem<S>, r: Mem<S>)
    requires Isolated(m) && r.tables == m.tables && StaysUsed(m.frames, r.frames)
    requires r.cow.(created := 0) == m.cow.(created := 0)
    ensures Isolated(r)
  {
    forall p, v | r.Has(p, v) ensures PageSafe(r, p, v) {
      assert PageSafe(m, p, v);
    }
    forall p, v, q, w | r.Has(p, v) && r.Has(q, w) ensures PairSafe(r, p, v, q, w) {
      assert PairSafe(m, p, v, q, w);
    }
  }

  /** One page record changes: it is absent, or alone in a used frame that no page maps. */
  lemma NewPageIsolated<S>(m: Mem<S>, r: Mem<S>, pid: Pid, v: nat, page: Page)
    requires Isolated(m) && pid in m.tables && r.tables == m.PutPage(pid, v, page).tables
    requires StaysUsed(m.frames, r.frames)
    requires forall q, w :: m.Has(q, w) && (q != pid || w != v) && Registered(m, q, w) ==>
                              q in CowState.Entry(r.cow, w).processes
    requires CowState.Valid(r.cow)
    requires page.shared ==> page.id == v
    requires page.present ==> 0 <= page.frame < |r.frames| && !r.frames[page.frame].free
    requires page.present ==> forall q, w :: m.Has(q, w) && (q != pid || w != v) && m.tables[q][w].present ==>
                                             m.tables[q][w].frame != page.frame
    ensures Isolated(r) && OthersUntouched(m, r, pid)
  {
    forall p, u | r.Has(p, u) ensures PageSafe(r, p, u) {
      assert m.Has(p, u) ==> PageSafe(m, p, u);
    }
    forall p, u, q, w | r.Has(p, u) && r.Has(q, w) ensures PairSafe(r, p, u, q, w) {
      assert m.Has(p, u) && m.Has(q, w) ==> PairSafe(m, p, u, q, w);
    }
  }

  lemma EnsurePageIsolated<S>(m: Mem<S>, pid: Pid, v: nat)
    requires Isolated(m) && pid in m.tables
    ensures var r := EnsurePage(m, pid, v);
            Isolated(r) && OthersUntouched(m, r, pid) && KeepsPages(m, r, pid)
  {
    if v !in m.tables[pid] {
      NewPageIsolated(m, EnsurePage(m, pid, v), pid, v, NewPage(v));
    }
  }

  /** A used frame is the only kind a page maps. */
  lemma FreeFrameUnmapped<S>(m: Mem<S>, i: nat, q: Pid, w: nat)
    requires Isolated(m) && i < |m.frames| && m.frames[i].free && m.Has(q, w) && m.tables[q][w].present
    ensures m.tables[q][w].frame != i
  {
    assert PageSafe(m, q, w);
  }

  lemma AttachShape<S(!new)>(pol: Policy<S>, m: Mem<S>, i: nat, pid: Pid, v: nat, now: int)
    requires Lawful(pol) && i < |m.frames| && m.Has(pid, v)
    ensures var r := Attach(pol, m, i, pid, v, now);
            && r.tables == m.PutPage(pid, v, m.tables[pid][v].SetFrame(i)).tables
            && r.frames == m.frames[i := r.frames[i]] && !r.frames[i].free
            && r.cow == m.cow && r.metrics == m.metrics
  {
  }

  lemma AttachIsolated<S(!new)>(pol: Policy<S>, m: Mem<S>, i: nat, pid: Pid, v: nat, now: int)
    requires Lawful(pol) && Isolated(m) && i < |m.frames| && m.frames[i].free
    requires m.Has(pid, v) && !m.tables[pid][v].present
    ensures var r := Attach(pol, m, i, pid, v, now);
            && Isolated(r) && OthersUntouched(m, r, pid) && KeepsPages(m, r, pid)
            && r.tables[pid][v] == m.tables[pid][v].SetFrame(i)
            && r.metrics == m.metrics
  {
    var r := Attach(pol, m, i, pid, v, now);
    AttachShape(pol, m, i, pid, v, now);
    hide Attach, Lawful;
    assert PageSafe(m, pid, v);
    forall q, w | m.Has(q, w) && m.tables[q][w].present ensures m.tables[q][w].frame != i {
      FreeFrameUnmapped(m, i, q, w);
    }
    NewPageIsolated(m, r, pid, v, m.tables[pid][v].SetFrame(i));
  }

  lemma SameTablesUntouched<S>(m: Mem<S>, m1: Mem<S>, r: Mem<S>, pid: Pid)
    requires m1.tables == m.tables && OthersUntouched(m1, r, pid)
    ensures OthersUntouched(m, r, pid)
  {
    forall q | q != pid ensures SameTable(m, r, q) {
      assert SameTable(m1, r, q);
    }
  }

  lemma UntouchedTransitive<S>(a: Mem<S>, b: Mem<S>, c: Mem<S>, pid: Pid)
    requires OthersUntouched(a, b, pid) && OthersUntouched(b, c, pid)
    ensures OthersUntouched(a, c, pid)
  {
    forall q | q != pid ensures SameTable(a, c, q) {
      assert SameTable(a, b, q) && SameTable(b, c, q);
    }
  }

  // ---- Evictions ----

  /** Only the page that frame i is tagged with may map it. */
  ghost predicate Sole<S>(m: Mem<S>, i: nat)
    requires i < |m.frames|
  {
    forall p, v :: m.Maps(p, v, i) ==> p == m.frames[i].processId && v == m.frames[i].pageId
  }

  /** Frame i is freed, the page it was tagged with has no frame, and nothing else happened to the tables. */
  ghost predicate Evicted<S>(m: Mem<S>, r: Mem<S>, i: nat)
    requires i < |m.frames|
  {
    var f := m.frames[i];
    && r.tables.Keys == m.tables.Keys
    && (forall p, v :: r.Has(p, v) <==> m.Has(p, v))
    && (forall p, v :: r.Has(p, v) ==>
          m.Has(p, v) &&
          r.tables[p][v] == if p == f.processId && v == f.pageId && m.tables[p][v].present
                            then m.tables[p][v].SetFrame(-1) else m.tables[p][v])
    && |r.frames| == |m.frames| && r.frames == m.frames[i := r.frames[i]] && r.frames[i].free
    && r.cow == m.cow && r.metrics.evictions == m.metrics.evictions + 1
  }

  /** What an eviction does, whatever maps the frame. */
  lemma EvictPages<S>(pol: Policy<S>, m: Mem<S>, i: nat)
    requires i < |m.frames|
    ensures Evicted(m, Evict(pol, m, i), i)
  {
    EvictIs(pol, m, i);
    hide Evict;
    DropMappingTables(m, m.frames[i].processId, m.frames[i].pageId);
    AbsentStays(m, m.frames[i].processId, m.frames[i].pageId);
    hide DropMapping;
  }

  lemma AbsentStays<S>(m: Mem<S>, pid: Pid, v: nat)
    ensures m.Has(pid, v) && !m.tables[pid][v].present ==> DropMapping(m, pid, v) == m
  {
  }

  lemma YieldsByPage<S>(m: Mem<S>, r: Mem<S>, q: Pid)
    requires r.tables.Keys == m.tables.Keys
    requires forall v :: r.Has(q, v) <==> m.Has(q, v)
    requires forall v :: r.Has(q, v) ==>
               m.Has(q, v) && (r.tables[q][v] == m.tables[q][v] || r.tables[q][v] == m.tables[q][v].SetFrame(-1))
    ensures Yields(m, r, q)
  {
    if q in m.tables {
      forall v ensures v in r.tables[q] <==> v in m.tables[q] {
        assert r.Has(q, v) <==> m.Has(q, v);
      }
      assert forall v :: v in m.tables[q] ==> m.Has(q, v);
    }
  }

  lemma EvictYields<S>(pol: Policy<S>, m: Mem<S>, i: nat)
    requires i < |m.frames|
    ensures AllYield(m, Evict(pol, m, i))
  {
    EvictPages(pol, m, i);
    hide Evict, Yields;
    forall q ensures Yields(m, Evict(pol, m, i), q) {
      YieldsByPage(m, Evict(pol, m, i), q);
    }
  }

  lemma EvictedPage<S>(m: Mem<S>, r: Mem<S>, i: nat, p: Pid, v: nat)
    requires i < |m.frames| && Evicted(m, r, i) && r.Has(p, v)
    ensures m.Has(p, v)
    ensures r.tables[p][v].id == m.tables[p][v].id && r.tables[p][v].shared == m.tables[p][v].shared
    ensures r.tables[p][v].present ==>
              && r.tables[p][v] == m.tables[p][v]
              && (p != m.frames[i].processId || v != m.frames[i].pageId)
  {
  }

  lemma SoleEvictSafe<S>(pol: Policy<S>, m: Mem<S>, i: nat)
    requires Isolated(m) && i < |m.frames| && Sole(m, i)
    ensures Isolated(Evict(pol, m, i))
  {
    var r := Evict(pol, m, i);
    EvictPages(pol, m, i);
    assert r.cow == m.cow && r.frames == m.frames[i := r.frames[i]];
    hide Evict, Sole, Evicted;
    forall p, v | r.Has(p, v) ensures PageSafe(r, p, v) {
      EvictedPage(m, r, i, p, v);
      assert PageSafe(m, p, v);
      if r.tables[p][v].present && r.tables[p][v].frame == i {
        SoleMeans(m, i, p, v);
      }
    }
    forall p, v, q, w | r.Has(p, v) && r.Has(q, w) ensures PairSafe(r, p, v, q, w) {
      EvictedPage(m, r, i, p, v);
      EvictedPage(m, r, i, q, w);
      assert PairSafe(m, p, v, q, w);
    }
  }

  lemma SoleMeans<S>(m: Mem<S>, i: nat, p: Pid, v: nat)
    requires i < |m.frames| && Sole(m, i) && m.Maps(p, v, i)
    ensures p == m.frames[i].processId && v == m.frames[i].pageId
  {
  }

  /** Evicting a used frame keeps isolation exactly when no page but the tagged one maps the frame. */
  lemma EvictIsolated<S>(pol: Policy<S>, m: Mem<S>, i: nat)
    requires Isolated(m) && i < |m.frames| && !m.frames[i].free
    ensures Isolated(Evict(pol, m, i)) <==> Sole(m, i)
  {
    var r := Evict(pol, m, i);
    if Sole(m, i) {
      SoleEvictSafe(pol, m, i);
    } else {
      EvictPages(pol, m, i);
      var p, v :| m.Maps(p, v, i) && (p != m.frames[i].processId || v != m.frames[i].pageId);
      hide Evict;
      assert !PageSafe(r, p, v);
    }
  }

  // ---- Having a frame ----

  /** If a frame must be had by eviction, only its tagged page may map the chosen one. */
  ghost predicate SlotSafe<S(!new)>(pol: Policy<S>, m: Mem<S>, free: Option<nat>, now: int)
    requires Lawful(pol)
  {
    free.None? ==>
      var (m1, victim) := Choose(pol, m, Used(m.frames), now);
      victim.Some? ==> Sole(m1, victim.value)
  }

  lemma ChooseIsolated<S(!new)>(pol: Policy<S>, m: Mem<S>, ids: seq<nat>, now: int)
    requires Lawful(pol) && FrameList(m.frames, ids)
    ensures var r := Choose(pol, m, ids, now).0;
            AllYield(m, r) && r.cow == m.cow && r.metrics == m.metrics && (Isolated(m) ==> Isolated(r))
  {
    var r := Choose(pol, m, ids, now).0;
    hide Lawful, Isolated;
    SameTablesYield(m, r);
    if Isolated(m) {
      SameTablesIsolated(m, r);
    }
  }

  lemma FreeSlotIsolated<S(!new)>(pol: Policy<S>, m: Mem<S>, free: Option<nat>, now: int)
    requires Lawful(pol) && Isolated(m) && SlotSafe(pol, m, free, now)
    requires free.Some? ==> free.value < |m.frames| && m.frames[free.value].free
    ensures var (r, slot) := FreeSlot(pol, m, free, now);
            && Isolated(r) && AllYield(m, r) && r.cow == m.cow
            && (slot.Some? ==> r.frames[slot.value].free)
  {
    hide Evict, Lawful, Isolated, Sole;
    SameTablesYield(m, m);
    if free.None? {
      ChooseIsolated(pol, m, Used(m.frames), now);
      var (m1, victim) := Choose(pol, m, Used(m.frames), now);
      if victim.Some? {
        SoleEvictSafe(pol, m1, victim.value);
        EvictYields(pol, m1, victim.value);
        EvictPages(pol, m1, victim.value);
        AllYieldTwice(m, m1, Evict(pol, m1, victim.value));
      }
    }
    hide AllYield;
  }

  lemma AbsentStaysAbsent<S>(m: Mem<S>, r: Mem<S>, pid: Pid, v: nat)
    requires AllYield(m, r) && m.Has(pid, v)
    ensures r.Has(pid, v)
    ensures r.tables[pid][v].present ==> r.tables[pid][v] == m.tables[pid][v]
    ensures r.tables[pid][v].id == m.tables[pid][v].id && r.tables[pid][v].shared == m.tables[pid][v].shared
  {
    assert Yields(m, r, pid);
  }

  /** No other page maps the frame of page (pid, v). */
  ghost predicate Alone<S>(m: Mem<S>, pid: Pid, v: nat)
    requires m.Has(pid, v)
  {
    forall q, w :: m.Has(q, w) && m.tables[q][w].present && (q != pid || w != v) ==>
      m.tables[q][w].frame != m.tables[pid][v].frame
  }

  /** A page loaded with a safe choice of the frame is alone there. */
  lemma LoadIsolated<S(!new)>(pol: Policy<S>, m: Mem<S>, pid: Pid, v: nat, now: int)
    requires Lawful(pol) && Isolated(m) && m.Has(pid, v) && !m.tables[pid][v].present
    requires SlotSafe(pol, m, PickFree(m, pid), now)
    ensures var r := Load(pol, m, pid, v, now);
            && Isolated(r.mem) && OthersYield(m, r.mem, pid)
            && (r.ok ==> r.mem.tables[pid][v].present && Alone(r.mem, pid, v))
  {
    hide Lawful, Attach, FreeSlot, PickFree, Isolated, SlotSafe, Alone;
    var free := PickFree(m, pid);
    FreeSlotIsolated(pol, m, free, now);
    var (m1, slot) := FreeSlot(pol, m, free, now);
    AbsentStaysAbsent(m, m1, pid, v);
    AllYieldOthers(m, m1, pid);
    hide AllYield, OthersYield;
    if slot.Some? {
      AttachIsolated(pol, m1, slot.value, pid, v, now);
      AttachAlone(pol, m1, slot.value, pid, v, now);
      var r := Attach(pol, m1, slot.value, pid, v, now);
      UntouchedYields(m1, r, pid);
      OthersYieldTwice(m, m1, r, pid);
    }
  }

  lemma AttachAlone<S(!new)>(pol: Policy<S>, m: Mem<S>, i: nat, pid: Pid, v: nat, now: int)
    requires Lawful(pol) && Isolated(m) && i < |m.frames| && m.frames[i].free && m.Has(pid, v)
    ensures var r := Attach(pol, m, i, pid, v, now); r.Has(pid, v) && r.Maps(pid, v, i) && Alone(r, pid, v)
  {
    AttachShape(pol, m, i, pid, v, now);
    var r := Attach(pol, m, i, pid, v, now);
    hide Attach, Lawful;
    forall q, w | r.Has(q, w) && r.tables[q][w].present && (q != pid || w != v)
      ensures r.tables[q][w].frame != i
    {
      assert m.Has(q, w) && r.tables[q][w] == m.tables[q][w];
      FreeFrameUnmapped(m, i, q, w);
    }
  }

  // ---- A write to a shared page ----

  /** A write by pid to page v has made the page its own. */
  ghost predicate Owned<S>(m: Mem<S>, pid: Pid, v: nat) {
    m.Has(pid, v) && m.tables[pid][v].present && !m.tables[pid][v].shared
  }

  /** Nobody shares the frame of a page whose process is not one of several registered sharers. */
  lemma SoleMapper<S>(m: Mem<S>, pid: Pid, v: nat, q: Pid, w: nat)
    requires Isolated(m) && m.Has(pid, v) && m.tables[pid][v].present
    requires pid !in CowState.Entry(m.cow, v).processes || CowState.Entry(m.cow, v).refCount <= 1
    requires m.Has(q, w) && m.tables[q][w].present && (q != pid || w != v)
    ensures m.tables[q][w].frame != m.tables[pid][v].frame
  {
    assert PairSafe(m, pid, v, q, w);
    if m.tables[q][w].frame == m.tables[pid][v].frame {
      var e := m.cow.shared[v];
      assert {pid, q} <= e.processes && |e.processes| <= 1;
      SubsetSize({pid, q}, e.processes);
    }
  }

  /** Only pid leaves, and only page v. */
  lemma HandleWriteSharers(c: CowState.Cow, v: nat, pid: Pid, flag: bool)
    requires CowState.Valid(c)
    ensures var (d, verdict) := CowState.HandleWrite(c, v, pid, flag);
            && CowState.Valid(d)
            && (forall q, w :: (q != pid || w != v) && q in CowState.Entry(c, w).processes
                               ==> q in CowState.Entry(d, w).processes)
            && (flag && verdict.NoCopy? ==>
                  pid !in CowState.Entry(c, v).processes || CowState.Entry(c, v).refCount <= 1)
            && (verdict.Copy? ==> pid !in CowState.Entry(d, v).processes)
  {
    var (d, verdict) := CowState.HandleWrite(c, v, pid, flag);
    CowState.DropSharerValid(c, v, pid);
    CowState.HandleWriteValid(c, v, pid, flag);
    forall q, w | (q != pid || w != v) && q in CowState.Entry(c, w).processes
      ensures q in CowState.Entry(d, w).processes
    {
      assert d.shared == c.shared || d.shared == CowState.DropSharer(c, v, pid).shared;
      if w != v {
        assert CowState.Entry(CowState.DropSharer(c, v, pid), w) == CowState.Entry(c, w);
      }
    }
  }

  /** No copy was needed: the page is made private where it is. */
  lemma MadePrivate<S>(m: Mem<S>, cow: CowState.Cow, pid: Pid, v: nat)
    requires Isolated(m) && m.Has(pid, v) && m.tables[pid][v].present && m.tables[pid][v].shared
    requires (cow, CowState.NoCopy) == CowState.HandleWrite(m.cow, v, pid, true)
    ensures var r := m.(cow := cow).PutPage(pid, v, m.tables[pid][v].MakePrivate());
            Isolated(r) && OthersUntouched(m, r, pid) && Owned(r, pid, v)
  {
    HandleWriteSharers(m.cow, v, pid, true);
    assert PageSafe(m, pid, v);
    var page := m.tables[pid][v].MakePrivate();
    forall q, w | m.Has(q, w) && (q != pid || w != v) && m.tables[q][w].present
      ensures m.tables[q][w].frame != page.frame
    {
      SoleMapper(m, pid, v, q, w);
    }
    hide CowState.HandleWrite, Isolated;
    NewPageIsolated(m, m.(cow := cow).PutPage(pid, v, page), pid, v, page);
  }

  lemma PlaceCopyShape<S(!new)>(pol: Policy<S>, m: Mem<S>, i: nat, pid: Pid, id: nat, newId: nat, now: int)
    requires Lawful(pol) && i < |m.frames| && pid in m.tables
    ensures var r := PlaceCopy(pol, m, i, pid, id, newId, now);
            && r.tables == m.PutPage(pid, id, Page(newId, i, true, false, false, id)).tables
            && r.frames == m.frames[i := r.frames[i]] && r.frames[i].free == m.frames[i].free
            && r.cow == m.cow && r.metrics.evictions == m.metrics.evictions
  {
  }

  lemma EvictIgnoresCow<S>(pol: Policy<S>, m: Mem<S>, c: CowState.Cow, i: nat)
    requires i < |m.frames|
    ensures Evict(pol, m.(cow := c), i) == Evict(pol, m, i).(cow := c)
  {
    var f := m.frames[i];
    var a := CompressDirty(m, f);
    var b := DropMapping(a, f.processId, f.pageId);
    var d := ForgetTranslation(b, f.processId, f.pageId);
    CompressIgnoresCow(m, c, f);
    DropIgnoresCow(a, c, f.processId, f.pageId);
    ForgetIgnoresCow(b, c, f.processId, f.pageId);
    assert |d.frames| == |m.frames|;
    RetireIgnoresCow(pol, d, c, i);
    hide CompressDirty, DropMapping, ForgetTranslation, Retire;
  }

  lemma CompressIgnoresCow<S>(m: Mem<S>, c: CowState.Cow, f: Frame)
    ensures CompressDirty(m.(cow := c), f) == CompressDirty(m, f).(cow := c)
  {
  }

  lemma ForgetIgnoresCow<S>(m: Mem<S>, c: CowState.Cow, pid: Pid, v: nat)
    ensures ForgetTranslation(m.(cow := c), pid, v) == ForgetTranslation(m, pid, v).(cow := c)
  {
  }

  lemma RetireIgnoresCow<S>(pol: Policy<S>, m: Mem<S>, c: CowState.Cow, i: nat)
    requires i < |m.frames|
    ensures Retire(pol, m.(cow := c), i) == Retire(pol, m, i).(cow := c)
  {
  }

  lemma DropIgnoresCow<S>(m: Mem<S>, c: CowState.Cow, pid: Pid, v: nat)
    ensures DropMapping(m.(cow := c), pid, v) == DropMapping(m, pid, v).(cow := c)
  {
    if m.Has(pid, v) && m.tables[pid][v].present {
      var table: PageTable := m.tables[pid][v := m.tables[pid][v].SetFrame(-1)];
      DropMappingIs(m, pid, v, table);
      DropMappingIs(m.(cow := c), pid, v, table);
      hide DropMapping;
    }
  }

  lemma DropMappingIs<S>(m: Mem<S>, pid: Pid, v: nat, table: PageTable)
    requires m.Has(pid, v) && m.tables[pid][v].present && table == m.tables[pid][v := m.tables[pid][v].SetFrame(-1)]
    ensures DropMapping(m, pid, v) == m.(tables := m.tables[pid := table])
  {
  }

  /** Which frame is had does not depend on the sharing. */
  lemma FreeSlotIgnoresCow<S(!new)>(pol: Policy<S>, m: Mem<S>, c: CowState.Cow, free: Option<nat>, now: int)
    requires Lawful(pol) && (free.Some? ==> free.value < |m.frames|)
    ensures var (r, slot) := FreeSlot(pol, m, free, now); FreeSlot(pol, m.(cow := c), free, now) == (r.(cow := c), slot)
  {
    if free.None? {
      var (m1, victim) := Choose(pol, m, Used(m.frames), now);
      assert Choose(pol, m.(cow := c), Used(m.frames), now) == (m1.(cow := c), victim);
      hide Choose, Evict, Lawful;
      if victim.Some? {
        EvictIgnoresCow(pol, m1, c, victim.value);
      }
    }
  }

  /** Nobody but pid is off the record of anything but page v. */
  ghost predicate OnlyLeft(c: CowState.Cow, d: CowState.Cow, pid: Pid, v: nat) {
    forall q, w :: (q != pid || w != v) && q in CowState.Entry(c, w).processes ==> q in CowState.Entry(d, w).processes
  }

  /** The copy moves into a free frame and takes the page's place. */
  lemma PlaceCopyIsolated<S(!new)>(pol: Policy<S>, m: Mem<S>, c: CowState.Cow, i: nat, pid: Pid, v: nat, newId: nat,
                                   now: int)
    requires Lawful(pol) && Isolated(m) && m.Has(pid, v) && i < |m.frames| && m.frames[i].free
    requires CowState.Valid(c) && OnlyLeft(m.cow, c, pid, v)
    ensures var m2 := m.(cow := c, frames := m.frames[i := m.frames[i].Allocate(newId, pid, now)]);
            var r := PlaceCopy(pol, m2, i, pid, v, newId, now);
            && Isolated(r) && OthersUntouched(m, r, pid) && Owned(r, pid, v)
            && r.metrics.evictions == m.metrics.evictions
  {
    var m2 := m.(cow := c, frames := m.frames[i := m.frames[i].Allocate(newId, pid, now)]);
    var r := PlaceCopy(pol, m2, i, pid, v, newId, now);
    PlaceCopyShape(pol, m2, i, pid, v, newId, now);
    hide PlaceCopy, Lawful;
    forall q, w | m.Has(q, w) && m.tables[q][w].present ensures m.tables[q][w].frame != i {
      FreeFrameUnmapped(m, i, q, w);
    }
    assert StaysUsed(m.frames, r.frames);
    hide Isolated, CowState.Entry;
    NewPageIsolated(m, r, pid, v, Page(newId, i, true, false, false, v));
  }

  /** The writer is off the record, but no frame was had for its copy: isolation is kept exactly when no
      other page maps its frame. */
  lemma LeftWithoutCopy<S>(m: Mem<S>, r: Mem<S>, pid: Pid, v: nat)
    requires Isolated(m) && m.Has(pid, v) && m.tables[pid][v].present
    requires r.tables == m.tables && StaysUsed(m.frames, r.frames)
    requires CowState.Valid(r.cow) && OnlyLeft(m.cow, r.cow, pid, v)
    requires pid !in CowState.Entry(r.cow, v).processes
    ensures Isolated(r) <==> Alone(m, pid, v)
  {
    hide CowState.Entry;
    if Alone(m, pid, v) {
      assert PageSafe(m, pid, v);
      assert m.tables[pid][v := m.tables[pid][v]] == m.tables[pid];
      NewPageIsolated(m, r, pid, v, m.tables[pid][v]);
    } else {
      var q, w :| m.Has(q, w) && m.tables[q][w].present && (q != pid || w != v)
                  && m.tables[q][w].frame == m.tables[pid][v].frame;
      assert !PairSafe(r, pid, v, q, w);
    }
  }

  /** Having a frame for the copy, if one is needed, is safe; and if there is none, the page is alone. */
  ghost predicate SettleGuard<S(!new)>(pol: Policy<S>, m: Mem<S>, pid: Pid, v: nat, write: bool, now: int)
    requires Lawful(pol) && m.Has(pid, v)
  {
    NeedsCopy(m, pid, v, write) ==>
      && SlotSafe(pol, m, FirstFree(m.frames, 0, |m.frames|), now)
      && (AllPinned(m.frames) ==> Alone(m, pid, v))
  }

  lemma MakeCopyIsolated<S(!new)>(pol: Policy<S>, m: Mem<S>, c: CowState.Cow, pid: Pid, v: nat, newId: nat, now: int)
    requires Lawful(pol) && Isolated(m) && m.Has(pid, v) && m.tables[pid][v].id == v && m.tables[pid][v].present
    requires CowState.Valid(c) && OnlyLeft(m.cow, c, pid, v) && pid !in CowState.Entry(c, v).processes
    requires SlotSafe(pol, m, FirstFree(m.frames, 0, |m.frames|), now)
    requires AllPinned(m.frames) ==> Alone(m, pid, v)
    ensures var r := MakeCopy(pol, m.(cow := c), pid, v, newId, now);
            && Isolated(r.mem) && OthersYield(m, r.mem, pid) && (r.ok ==> Owned(r.mem, pid, v)) && r.mem.Has(pid, v)
  {
    hide Lawful, FreeSlot, PlaceCopy, Isolated, CowState.Valid, CowState.Entry, SlotSafe, AllPinned, Alone, OnlyLeft;
    var free := FirstFree(m.frames, 0, |m.frames|);
    FreeSlotIsolated(pol, m, free, now);
    FreeSlotIgnoresCow(pol, m, c, free, now);
    NoSlot(pol, m, free, now);
    var (m1, slot) := FreeSlot(pol, m, free, now);
    AbsentStaysAbsent(m, m1, pid, v);
    AllYieldOthers(m, m1, pid);
    hide AllYield, OthersYield, Owned;
    if slot.Some? {
      PlaceCopyIsolated(pol, m1, c, slot.value, pid, v, newId, now);
      var m2 := m1.(cow := c, frames := m1.frames[slot.value := m1.frames[slot.value].Allocate(newId, pid, now)]);
      var r := PlaceCopy(pol, m2, slot.value, pid, v, newId, now);
      UntouchedYields(m1, r, pid);
      OthersYieldTwice(m, m1, r, pid);
      OwnedHas(r, pid, v);
    } else {
      NoSlotKeeps(pol, m, free, now);
      var r := m1.(cow := c);
      LeftWithoutCopy(m, r, pid, v);
      SameTablesYield(m, r);
      AllYieldOthers(m, r, pid);
    }
  }

  lemma OwnedHas<S>(m: Mem<S>, pid: Pid, v: nat)
    requires Owned(m, pid, v)
    ensures m.Has(pid, v)
  {
  }

  lemma NoSlotKeeps<S(!new)>(pol: Policy<S>, m: Mem<S>, free: Option<nat>, now: int)
    requires Lawful(pol) && (free.Some? ==> free.value < |m.frames|)
    ensures var (r, slot) := FreeSlot(pol, m, free, now);
            slot.None? ==> r.tables == m.tables && StaysUsed(m.frames, r.frames) && r.metrics == m.metrics
  {
    hide Evict, Lawful;
  }

  lemma FinishIs<S(!new)>(pol: Policy<S>, m: Mem<S>, cow: CowState.Cow, pid: Pid, v: nat, verdict: CowState.Verdict,
                          now: int)
    requires Lawful(pol) && m.Has(pid, v)
    ensures FinishWrite(pol, m.(cow := cow), pid, v, verdict, now)
            == match verdict
               case NoCopy => Outcome(true, m.(cow := cow).PutPage(pid, v, m.tables[pid][v].MakePrivate()))
               case Copy(newId) => MakeCopy(pol, m.(cow := cow.(created := cow.created + 1)), pid, v, newId, now)
  {
    hide MakeCopy, Lawful;
    var m0 := m.(cow := cow);
    assert m0.(cow := m0.cow.(created := m0.cow.created + 1)) == m.(cow := cow.(created := cow.created + 1));
  }

  lemma WriteSharedIsolated<S(!new)>(pol: Policy<S>, m: Mem<S>, pid: Pid, v: nat, cow: CowState.Cow,
                                     verdict: CowState.Verdict, now: int)
    requires Lawful(pol) && Isolated(m) && m.Has(pid, v) && m.tables[pid][v].present
    requires m.tables[pid][v].shared && m.tables[pid][v].id == v
    requires (cow, verdict) == CowState.HandleWrite(m.cow, v, pid, true)
    requires SettleGuard(pol, m, pid, v, true, now)
    ensures var r := FinishWrite(pol, m.(cow := cow), pid, v, verdict, now);
            && Isolated(r.mem) && OthersYield(m, r.mem, pid) && (r.ok ==> Owned(r.mem, pid, v)) && r.mem.Has(pid, v)
  {
    HandleWriteSharers(m.cow, v, pid, true);
    CowState.CopiesIffSeveral(m.cow, v, pid, true);
    hide Lawful, MakeCopy, PagesSafe, PairsSafe, CowState.Entry, CowState.HandleWrite, CowState.Valid,
         SlotSafe, Alone, AllPinned, CowState.MustCopy;
    FinishIs(pol, m, cow, pid, v, verdict, now);
    hide FinishWrite;
    if verdict.Copy? {
      var c := cow.(created := cow.created + 1);
      CreatedIrrelevant(cow, c);
      assert OnlyLeft(m.cow, c, pid, v);
      hide OthersYield, Owned;
      MakeCopyIsolated(pol, m, c, pid, v, verdict.newId, now);
    } else {
      MadePrivate(m, cow, pid, v);
      hide OthersYield;
      UntouchedYields(m, m.(cow := cow).PutPage(pid, v, m.tables[pid][v].MakePrivate()), pid);
    }
  }

  /** A write settles the sharing of its page: if it succeeds, the page is the writer's alone. */
  lemma SettleWriteIsolated<S(!new)>(pol: Policy<S>, m: Mem<S>, pid: Pid, v: nat, write: bool, now: int)
    requires Lawful(pol) && Isolated(m) && m.Has(pid, v) && m.tables[pid][v].present
    requires SettleGuard(pol, m, pid, v, write, now)
    ensures var r := SettleWrite(pol, m, pid, v, write, now);
            && Isolated(r.mem) && OthersYield(m, r.mem, pid) && r.mem.Has(pid, v)
            && (r.ok && write ==> Owned(r.mem, pid, v))
  {
    SameTablesYield(m, m);
    AllYieldOthers(m, m, pid);
    if write && m.tables[pid][v].shared {
      assert PageSafe(m, pid, v);
      hide Lawful, FinishWrite, Isolated, OthersYield, Owned, CowState.HandleWrite, SettleGuard;
      var (cow, verdict) := CowState.HandleWrite(m.cow, v, pid, true);
      WriteSharedIsolated(pol, m, pid, v, cow, verdict, now);
    }
  }

  /** A write that fails leaves the record of sharers without having got a copy: isolation is kept exactly
      when no other page maps the page's frame. */
  lemma StrandedWrite<S(!new)>(pol: Policy<S>, m: Mem<S>, pid: Pid, v: nat, now: int)
    requires Lawful(pol) && Isolated(m) && m.Has(pid, v) && m.tables[pid][v].present
    requires NeedsCopy(m, pid, v, true) && AllPinned(m.frames)
    ensures !SettleWrite(pol, m, pid, v, true, now).ok
    ensures Isolated(SettleWrite(pol, m, pid, v, true, now).mem) <==> Alone(m, pid, v)
  {
    SettleFails(pol, m, pid, v, true, now);
    assert PageSafe(m, pid, v);
    HandleWriteSharers(m.cow, v, pid, true);
    CowState.CopiesIffSeveral(m.cow, v, pid, true);
    var (cow, verdict) := CowState.HandleWrite(m.cow, v, pid, true);
    var c := cow.(created := cow.created + 1);
    CreatedIrrelevant(cow, c);
    assert OnlyLeft(m.cow, c, pid, v);
    FinishIs(pol, m, cow, pid, v, verdict, now);
    hide Lawful, FreeSlot, PlaceCopy, Isolated, CowState.Valid, CowState.Entry, Alone, OnlyLeft,
         CowState.HandleWrite, FinishWrite;
    var free := FirstFree(m.frames, 0, |m.frames|);
    NoSlot(pol, m, free, now);
    FreeSlotIgnoresCow(pol, m, c, free, now);
    NoSlotKeeps(pol, m, free, now);
    LeftWithoutCopy(m, FreeSlot(pol, m, free, now).0.(cow := c), pid, v);
  }

  lemma CreatedIrrelevant(c: CowState.Cow, d: CowState.Cow)
    requires d == c.(created := d.created) && CowState.Valid(c)
    ensures CowState.Valid(d)
    ensures forall w :: CowState.Entry(d, w) == CowState.Entry(c, w)
  {
  }

  /** The copy takes its page's place in the table exactly when the page is filed under its own number:
      for a page that is itself a copy, the writer's mapping stays as it was. */
  lemma CopyReplacesOnlyOwnNumber<S(!new)>(pol: Policy<S>, m: Mem<S>, pid: Pid, v: nat, newId: nat, now: int)
    requires Lawful(pol) && Isolated(m) && m.Has(pid, v) && m.tables[pid][v].present
    requires FirstFree(m.frames, 0, |m.frames|).Some?
    ensures var r := MakeCopy(pol, m, pid, v, newId, now);
            && r.ok
            && (r.mem.tables[pid][v].frame == m.tables[pid][v].frame <==> m.tables[pid][v].id != v)
  {
    var free := FirstFree(m.frames, 0, |m.frames|);
    var m2 := m.(frames := m.frames[free.value := m.frames[free.value].Allocate(newId, pid, now)]);
    PlaceCopyShape(pol, m2, free.value, pid, m.tables[pid][v].id, newId, now);
    FreeFrameUnmapped(m, free.value, pid, v);
    hide PlaceCopy, Lawful, Isolated;
  }

  // ---- Faults and prefetch ----

  /** Both frames a fault may need, for the page and for its copy, are safe to have. */
  ghost predicate FaultGuard<S(!new)>(pol: Policy<S>, m: Mem<S>, pid: Pid, v: nat, write: bool, now: int)
    requires Lawful(pol) && m.Has(pid, v)
  {
    var m1 := TakeOut(m, m.tables[pid][v].id).0;
    var l := Load(pol, m1, pid, v, now);
    && SlotSafe(pol, m1, PickFree(m1, pid), now)
    && (l.ok && NeedsCopy(l.mem, pid, v, write) ==>
          SlotSafe(pol, l.mem, FirstFree(l.mem.frames, 0, |l.mem.frames|), now))
  }

  lemma FaultIsolated<S(!new)>(pol: Policy<S>, m: Mem<S>, pid: Pid, v: nat, write: bool, now: int)
    requires Lawful(pol) && Isolated(m) && m.Has(pid, v) && !m.tables[pid][v].present
    requires FaultGuard(pol, m, pid, v, write, now)
    ensures var r := Fault(pol, m, pid, v, write, now);
            && Isolated(r.mem) && OthersYield(m, r.mem, pid)
            && (r.ok ==> pid in r.mem.tables) && (r.ok && write ==> Owned(r.mem, pid, v))
  {
    hide Lawful, Load, SettleWrite, TakeOut, Isolated, OthersYield, Owned, SlotSafe, NeedsCopy;
    var id := m.tables[pid][v].id;
    var m1 := TakeOut(m, id).0;
    TakeOutIs(m, id);
    SameTablesIsolated(m, m1);
    SameTablesYield(m, m1);
    AllYieldOthers(m, m1, pid);
    LoadIsolated(pol, m1, pid, v, now);
    var l := Load(pol, m1, pid, v, now);
    OthersYieldTwice(m, m1, l.mem, pid);
    if l.ok {
      SettleWriteIsolated(pol, l.mem, pid, v, write, now);
      OthersYieldTwice(m, l.mem, SettleWrite(pol, l.mem, pid, v, write, now).mem, pid);
    } else {
      var r := PutBack(l.mem, TakeOut(m, id).1);
      SameTablesIsolated(l.mem, r);
      SameTablesYield(l.mem, r);
      AllYieldOthers(l.mem, r, pid);
      OthersYieldTwice(m, l.mem, r, pid);
    }
  }

  lemma TakeOutIs<S>(m: Mem<S>, id: nat)
    ensures TakeOut(m, id).0 == m.(store := TakeOut(m, id).0.store)
  {
  }

  lemma PrefetchOneIsolated<S(!new)>(pol: Policy<S>, m: Mem<S>, i: nat, pid: Pid, v: nat, now: int)
    requires Lawful(pol) && Isolated(m) && i < |m.frames| && m.frames[i].free
    requires m.Has(pid, v) && !m.tables[pid][v].present
    ensures var r := PrefetchOne(pol, m, i, pid, v, now);
            && Isolated(r) && OthersUntouched(m, r, pid) && KeepsPages(m, r, pid)
            && r.metrics.evictions == m.metrics.evictions
  {
    AttachIsolated(pol, m, i, pid, v, now);
    hide Attach, Lawful, Isolated, OthersUntouched;
    SameTablesIsolated(Attach(pol, m, i, pid, v, now), PrefetchOne(pol, m, i, pid, v, now));
    SameTablesTouched(m, Attach(pol, m, i, pid, v, now), PrefetchOne(pol, m, i, pid, v, now), pid);
  }

  lemma SameTablesTouched<S>(m: Mem<S>, m1: Mem<S>, r: Mem<S>, pid: Pid)
    requires OthersUntouched(m, m1, pid) && r.tables == m1.tables
    ensures OthersUntouched(m, r, pid)
  {
    forall q | q != pid ensures SameTable(m, r, q) {
      assert SameTable(m, m1, q);
    }
  }

  /** pid's present pages stay, everyone else's table stays, and isolation is kept. */
  ghost predicate Gentle<S>(m: Mem<S>, r: Mem<S>, pid: Pid) {
    && Isolated(r)
    && OthersUntouched(m, r, pid)
    && KeepsPages(m, r, pid)
    && r.metrics.evictions == m.metrics.evictions
    && pid in r.tables
  }

  lemma GentleTransitive<S>(a: Mem<S>, b: Mem<S>, c: Mem<S>, pid: Pid)
    requires Gentle(a, b, pid) && Gentle(b, c, pid)
    ensures Gentle(a, c, pid)
  {
    hide Isolated;
    UntouchedTransitive(a, b, c, pid);
  }

  lemma GentleNothing<S>(m: Mem<S>, pid: Pid)
    requires Isolated(m) && pid in m.tables
    ensures Gentle(m, m, pid)
  {
  }

  lemma EnsurePageGentle<S>(m: Mem<S>, pid: Pid, v: nat)
    requires Isolated(m) && pid in m.tables
    ensures Gentle(m, EnsurePage(m, pid, v), pid)
  {
    EnsurePageIsolated(m, pid, v);
    hide Isolated, OthersUntouched, KeepsPages;
  }

  lemma {:induction false} PrefetchGentle<S(!new)>(pol: Policy<S>, m: Mem<S>, pid: Pid, pages: seq<nat>, done: nat,
                                                   now: int)
    requires Lawful(pol) && Isolated(m) && pid in m.tables
    ensures Gentle(m, Prefetch(pol, m, pid, pages, done, now), pid)
    decreases |pages|
  {
    hide Lawful, PrefetchOne, EnsurePage, PickFree, Isolated, OthersUntouched, KeepsPages;
    GentleNothing(m, pid);
    if pages != [] && done < MAX_PREFETCH {
      EnsurePageGentle(m, pid, pages[0]);
      var m1 := EnsurePage(m, pid, pages[0]);
      var free := PickFree(m1, pid);
      if m1.tables[pid][pages[0]].present {
        PrefetchGentle(pol, m1, pid, pages[1..], done, now);
        GentleTransitive(m, m1, Prefetch(pol, m1, pid, pages[1..], done, now), pid);
      } else if free.Some? {
        PrefetchOneIsolated(pol, m1, free.value, pid, pages[0], now);
        var m2 := PrefetchOne(pol, m1, free.value, pid, pages[0], now);
        GentleTransitive(m, m1, m2, pid);
        PrefetchGentle(pol, m2, pid, pages[1..], done + 1, now);
        GentleTransitive(m, m2, Prefetch(pol, m2, pid, pages[1..], done + 1, now), pid);
      }
    }
  }

  lemma TryPrefetchGentle<S(!new)>(pol: Policy<S>, m: Mem<S>, pid: Pid, now: int)
    requires Lawful(pol) && Isolated(m) && pid in m.tables
    ensures Gentle(m, TryPrefetch(pol, m, pid, now), pid)
  {
    hide Lawful, Prefetch, Isolated, OthersUntouched, KeepsPages;
    GentleNothing(m, pid);
    if pid in m.recent && |m.recent[pid]| >= 3 {
      PrefetchGentle(pol, m, pid, Candidates(m.recent[pid][|m.recent[pid]| - 3]), 0, now);
    }
  }

  // ---- The resident-set target ----

  /** Each frame evicted on the way to the target is mapped by its tagged page only. */
  ghost predicate EnforceGuard<S(!new)>(pol: Policy<S>, m: Mem<S>, used: seq<nat>, target: int, now: int)
    requires Lawful(pol) && FrameList(m.frames, used)
    decreases |used|
  {
    target > 0 && |used| > target ==>
      var (m1, victim) := Choose(pol, m, used, now);
      match victim
      case None => true
      case Some(i) => Sole(m1, i) && EnforceGuard(pol, Evict(pol, m1, i), Without(used, i), target, now)
  }

  lemma {:induction false} EnforceIsolated<S(!new)>(pol: Policy<S>, m: Mem<S>, used: seq<nat>, target: int, now: int)
    requires Lawful(pol) && FrameList(m.frames, used) && Isolated(m) && EnforceGuard(pol, m, used, target, now)
    ensures var r := Enforce(pol, m, used, target, now); Isolated(r) && AllYield(m, r)
    decreases |used|
  {
    hide Evict, Lawful, Isolated, AllYield, Sole;
    SameTablesYield(m, m);
    if target > 0 && |used| > target {
      ChooseIsolated(pol, m, used, now);
      var (m1, victim) := Choose(pol, m, used, now);
      if victim.Some? {
        var m2 := Evict(pol, m1, victim.value);
        SoleEvictSafe(pol, m1, victim.value);
        EvictYields(pol, m1, victim.value);
        AllYieldTwice(m, m1, m2);
        EnforceIsolated(pol, m2, Without(used, victim.value), target, now);
        AllYieldTwice(m, m2, Enforce(pol, m2, Without(used, victim.value), target, now));
      }
    }
  }

  ghost predicate TargetGuard<S(!new)>(pol: Policy<S>, m: Mem<S>, now: int)
    requires Lawful(pol)
  {
    match pol.target(m.policy)
    case None => true
    case Some(target) => EnforceGuard(pol, m, Used(m.frames), target, now)
  }

  lemma EnforceTargetIsolated<S(!new)>(pol: Policy<S>, m: Mem<S>, now: int)
    requires Lawful(pol) && Isolated(m) && TargetGuard(pol, m, now)
    ensures var r := EnforceTarget(pol, m, now);
            Isolated(r) && AllYield(m, r) && (pol.target(m.policy).None? ==> r == m)
  {
    hide Lawful, Enforce, EnforceGuard, Isolated, AllYield;
    SameTablesYield(m, m);
    if pol.target(m.policy).Some? {
      EnforceIsolated(pol, m, Used(m.frames), pol.target(m.policy).value, now);
    }
  }

  // ---- The operations ----

  /** The policy has no resident-set target. */
  ghost predicate NoTarget<S(!new)>(pol: Policy<S>) {
    forall s :: pol.target(s).None?
  }

  /** A write by pid to page v has unshared the page; only a resident-set target may have evicted it again. */
  ghost predicate Written<S(!new)>(pol: Policy<S>, m: Mem<S>, r: Mem<S>, pid: Pid, v: nat) {
    && r.Has(pid, v) && !r.tables[pid][v].shared
    && (NoTarget(pol) || r.metrics.evictions == m.metrics.evictions ==> r.tables[pid][v].present)
  }

  /** What an access promises. */
  ghost predicate StepIsolated<S(!new)>(pol: Policy<S>, m: Mem<S>, r: Outcome<S>, pid: Pid, v: nat, write: bool) {
    && Isolated(r.mem) && OthersYield(m, r.mem, pid)
    && (r.ok && write ==> Written(pol, m, r.mem, pid, v))
  }

  lemma GentleYields<S>(m: Mem<S>, r: Mem<S>, pid: Pid)
    requires Gentle(m, r, pid)
    ensures OthersYield(m, r, pid)
  {
    hide Isolated, OthersUntouched, OthersYield;
    UntouchedYields(m, r, pid);
  }

  lemma AfterFaultIsolated<S(!new)>(pol: Policy<S>, m: Mem<S>, pid: Pid, v: nat, write: bool, now: int)
    requires Lawful(pol) && Isolated(m) && pid in m.tables && (write ==> Owned(m, pid, v))
    requires TargetGuard(pol, CountFault(m), now)
    ensures var m1 := EnforceTarget(pol, CountFault(m), now);
            var r := if m1.clustering && pid in m1.tables then TryPrefetch(pol, m1, pid, now) else m1;
            StepIsolated(pol, m, Outcome(true, r), pid, v, write)
  {
    hide Lawful, TryPrefetch, Isolated, EnforceTarget, TargetGuard, OthersYield, Gentle;
    var c := CountFault(m);
    SameTablesIsolated(m, c);
    EnforceTargetIsolated(pol, c, now);
    var m1 := EnforceTarget(pol, c, now);
    CountedYields(m, c, m1);
    AllYieldOthers(m, m1, pid);
    assert pid in m1.tables by {
      assert Yields(m, m1, pid);
    }
    GentleNothing(m1, pid);
    TryPrefetchGentle(pol, m1, pid, now);
    var r := if m1.clustering then TryPrefetch(pol, m1, pid, now) else m1;
    GentleIsolated(m1, r, pid);
    GentleYields(m1, r, pid);
    OthersYieldTwice(m, m1, r, pid);
    if write {
      StillWritten(pol, m, m1, r, pid, v);
    }
  }

  lemma CountedYields<S>(m: Mem<S>, c: Mem<S>, r: Mem<S>)
    requires c.tables == m.tables && c.metrics.evictions == m.metrics.evictions && AllYield(c, r)
    ensures AllYield(m, r)
  {
    SameTablesYield(m, c);
    hide AllYield;
    AllYieldTwice(m, c, r);
  }

  lemma GentleIsolated<S>(m: Mem<S>, r: Mem<S>, pid: Pid)
    requires Gentle(m, r, pid)
    ensures Isolated(r)
  {
  }

  lemma StillWritten<S(!new)>(pol: Policy<S>, m: Mem<S>, m1: Mem<S>, r: Mem<S>, pid: Pid, v: nat)
    requires Owned(m, pid, v) && AllYield(m, m1) && Gentle(m1, r, pid)
    requires pol.target(m.policy).None? ==> m1.tables == m.tables
    ensures Written(pol, m, r, pid, v)
  {
    AbsentStaysAbsent(m, m1, pid, v);
    hide Isolated;
    assert r.metrics.evictions == m1.metrics.evictions;
  }

  /** Every eviction of a fault and of what follows it is safe. */
  ghost predicate MissGuard<S(!new)>(pol: Policy<S>, m: Mem<S>, pid: Pid, v: nat, write: bool, now: int)
    requires Lawful(pol) && m.Has(pid, v)
  {
    var f := Fault(pol, m, pid, v, write, now);
    FaultGuard(pol, m, pid, v, write, now) && (f.ok ==> TargetGuard(pol, CountFault(f.mem), now))
  }

  lemma MissIsolated<S(!new)>(pol: Policy<S>, m: Mem<S>, pid: Pid, v: nat, write: bool, now: int)
    requires Lawful(pol) && Isolated(m) && m.Has(pid, v) && !m.tables[pid][v].present
    requires MissGuard(pol, m, pid, v, write, now)
    ensures StepIsolated(pol, m, MissOutcome(pol, m, pid, v, write, now), pid, v, write)
  {
    hide Lawful, Isolated, Fault, EnforceTarget, TryPrefetch, OthersYield, Owned, FaultGuard, TargetGuard, Written;
    FaultIsolated(pol, m, pid, v, write, now);
    var f := Fault(pol, m, pid, v, write, now);
    if f.ok {
      AfterFaultIsolated(pol, f.mem, pid, v, write, now);
      var r := MissOutcome(pol, m, pid, v, write, now).mem;
      OthersYieldTwice(m, f.mem, r, pid);
      if write {
        WrittenSince(pol, m, f.mem, r, pid, v);
      }
    }
  }

  lemma WrittenSince<S(!new)>(pol: Policy<S>, a: Mem<S>, b: Mem<S>, r: Mem<S>, pid: Pid, v: nat)
    requires Written(pol, b, r, pid, v) && OthersYield(a, b, pid) && OthersYield(b, r, pid)
    ensures Written(pol, a, r, pid, v)
  {
    hide OthersUntouched, Yields;
  }

  lemma OwnedWritten<S(!new)>(pol: Policy<S>, m: Mem<S>, r: Mem<S>, pid: Pid, v: nat)
    requires Owned(r, pid, v)
    ensures Written(pol, m, r, pid, v)
  {
  }

  lemma HitIsolated<S(!new)>(pol: Policy<S>, m: Mem<S>, i: nat, pid: Pid, v: nat, write: bool, now: int)
    requires Lawful(pol) && Isolated(m) && m.Maps(pid, v, i) && i < |m.frames|
    requires SettleGuard(pol, FastHit(pol, m, i, write, now), pid, v, write, now)
    ensures StepIsolated(pol, m, SettleWrite(pol, FastHit(pol, m, i, write, now), pid, v, write, now), pid, v, write)
  {
    var m1 := FastHit(pol, m, i, write, now);
    assert SameOwners(m1.frames, m.frames);
    hide Lawful, Isolated, SettleWrite, Owned, SettleGuard, OthersYield, Written;
    SameTablesIsolated(m, m1);
    SettleWriteIsolated(pol, m1, pid, v, write, now);
    var r := SettleWrite(pol, m1, pid, v, write, now);
    SameTablesYield(m, m1);
    AllYieldOthers(m, m1, pid);
    OthersYieldTwice(m, m1, r.mem, pid);
    if r.ok && write {
      OwnedWritten(pol, m, r.mem, pid, v);
    }
  }

  lemma PreparedGentle<S>(m: Mem<S>, pid: Pid, v: nat)
    requires Isolated(m) && pid in m.tables
    ensures Gentle(m, Prepared(m, pid, v), pid)
  {
    var m1 := if m.clustering then Track(m, pid, v) else m;
    SameTablesIsolated(m, m1);
    EnsurePageGentle(m1, pid, v);
    hide Isolated;
    SameTablesUntouched(m, m1, Prepared(m, pid, v), pid);
  }

  /** Every eviction of an access is safe, and its write is not left without a copy beside another page. */
  ghost predicate AccessGuard<S(!new)>(pol: Policy<S>, m: Mem<S>, pid: Pid, v: nat, write: bool, now: int)
    requires Lawful(pol)
  {
    pid in m.tables ==>
      var m1 := Prepared(m, pid, v);
      if m1.Resident(pid, v)
      then SettleGuard(pol, FastHit(pol, m1, m1.tables[pid][v].frame, write, now), pid, v, write, now)
      else MissGuard(pol, m1, pid, v, write, now)
  }

  /** An access under its guard keeps isolation, succeed or fail, and takes nothing from other processes but
      the frames it evicts; after a write that succeeds the page is not shared. */
  lemma AccessIsolated<S(!new)>(pol: Policy<S>, m: Mem<S>, pid: Pid, v: nat, write: bool, now: int)
    requires Lawful(pol) && Isolated(m) && AccessGuard(pol, m, pid, v, write, now)
    ensures StepIsolated(pol, m, Access(pol, m, pid, v, write, now), pid, v, write)
  {
    hide Lawful, Isolated, Prepared, FastHit, SettleWrite, MissOutcome, SettleGuard, MissGuard, OthersYield, Written;
    if pid in m.tables {
      PreparedGentle(m, pid, v);
      var m1 := Prepared(m, pid, v);
      GentleYields(m, m1, pid);
      GentleIsolated(m, m1, pid);
      hide Gentle;
      var r := Access(pol, m, pid, v, write, now);
      if m1.Resident(pid, v) {
        HitIsolated(pol, m1, m1.tables[pid][v].frame, pid, v, write, now);
      } else {
        PresentIsResident(m1, pid, v);
        MissIsolated(pol, m1, pid, v, write, now);
      }
      OthersYieldTwice(m, m1, r.mem, pid);
      if r.ok && write {
        WrittenSince(pol, m, m1, r.mem, pid, v);
      }
    } else {
      SameTablesYield(m, m);
      AllYieldOthers(m, m, pid);
    }
  }

  lemma PresentIsResident<S>(m: Mem<S>, pid: Pid, v: nat)
    requires Isolated(m) && m.Has(pid, v) && !m.Resident(pid, v)
    ensures !m.tables[pid][v].present
  {
    assert PageSafe(m, pid, v);
  }

  // ---- Forks ----

  /** The process holds no copy: every page is filed under its own number. */
  ghost predicate OwnPages(table: PageTable) {
    forall v :: v in table ==> table[v].id == v
  }

  /** Where a page of the forked state comes from. */
  function Origin(parent: Pid, child: Pid, q: Pid): Pid {
    if q == child then parent else q
  }

  lemma ForkPages<S>(m: Mem<S>, parent: Pid, child: Pid, q: Pid, v: nat)
    requires parent in m.tables && Fork(m, parent, child).mem.Has(q, v)
    ensures var r, o := Fork(m, parent, child).mem, Origin(parent, child, q);
            && m.Has(o, v)
            && r.tables[q][v].frame == m.tables[o][v].frame && r.tables[q][v].present == m.tables[o][v].present
            && r.tables[q][v].id == m.tables[o][v].id
            && (m.tables[o][v].shared ==> r.tables[q][v].shared)
            && (o == parent && m.tables[o][v].present ==> r.tables[q][v].shared)
            && (o != parent ==> r.tables[q][v] == m.tables[q][v])
  {
  }

  lemma ForkRegisters<S>(m: Mem<S>, parent: Pid, child: Pid, q: Pid, v: nat)
    requires parent in m.tables
    ensures var r := Fork(m, parent, child).mem;
            q in CowState.Entry(r.cow, v).processes <==>
              q in CowState.Entry(m.cow, v).processes
              || (q in {parent, child} && v in PresentIds(m.tables[parent]))
  {
    CowState.ShareAllRegisters(m.cow, PresentIds(m.tables[parent]), parent, child, v);
  }

  lemma ForkPairSafe<S>(m: Mem<S>, parent: Pid, child: Pid, p: Pid, v: nat, q: Pid, w: nat)
    requires Isolated(m) && parent in m.tables && OwnPages(m.tables[parent])
    requires Fork(m, parent, child).mem.Has(p, v) && Fork(m, parent, child).mem.Has(q, w)
    ensures PairSafe(Fork(m, parent, child).mem, p, v, q, w)
  {
    ForkPages(m, parent, child, p, v);
    ForkPages(m, parent, child, q, w);
    ForkRegisters(m, parent, child, p, v);
    ForkRegisters(m, parent, child, q, w);
    var a, b := Origin(parent, child, p), Origin(parent, child, q);
    assert PairSafe(m, a, v, b, w);
    PresentHere(m.tables[parent], v);
    PresentHere(m.tables[parent], w);
    hide Fork, Isolated, CowState.Entry;
  }

  lemma PresentHere(table: PageTable, v: nat)
    requires OwnPages(table)
    ensures v in table && table[v].present ==> v in PresentIds(table)
  {
    if v in table && table[v].present {
      assert table[v].id in PresentIds(table);
    }
  }

  lemma ForkSafe<S>(m: Mem<S>, parent: Pid, child: Pid)
    requires Isolated(m) && parent in m.tables && OwnPages(m.tables[parent])
    ensures Isolated(Fork(m, parent, child).mem)
  {
    var r := Fork(m, parent, child).mem;
    CowState.ShareAllValid(m.cow, PresentIds(m.tables[parent]), parent, child);
    forall p, v | r.Has(p, v) ensures PageSafe(r, p, v) {
      ForkPages(m, parent, child, p, v);
      assert PageSafe(m, Origin(parent, child, p), v);
    }
    forall p, v, q, w | r.Has(p, v) && r.Has(q, w) ensures PairSafe(r, p, v, q, w) {
      ForkPairSafe(m, parent, child, p, v, q, w);
    }
  }

  lemma CloneShares<S>(m: Mem<S>, parent: Pid, child: Pid, v: nat)
    requires parent in m.tables && v in m.tables[parent]
    ensures var r := Fork(m, parent, child).mem;
            r.Has(child, v) && r.tables[child][v].shared && r.tables[child][v].id == m.tables[parent][v].id
  {
  }

  /** A fork keeps isolation exactly when the parent holds no copy. */
  lemma ForkIsolated<S>(m: Mem<S>, parent: Pid, child: Pid)
    requires Isolated(m) && parent in m.tables
    ensures Isolated(Fork(m, parent, child).mem) <==> OwnPages(m.tables[parent])
  {
    if OwnPages(m.tables[parent]) {
      ForkSafe(m, parent, child);
    } else {
      var v :| v in m.tables[parent] && m.tables[parent][v].id != v;
      CloneShares(m, parent, child, v);
      hide Fork;
      assert !PageSafe(Fork(m, parent, child).mem, child, v);
    }
  }

  // ---- Removals ----

  /** No page of another process maps a frame that pid's pages map. */
  ghost predicate KillGuard<S>(m: Mem<S>, pid: Pid) {
    pid in m.tables ==>
      forall q, w :: q != pid && m.Has(q, w) && m.tables[q][w].present ==>
        !HoldsFrame(m.tables[pid], m.tables[q][w].frame)
  }

  lemma RemoveLeaves<S>(m: Mem<S>, pid: Pid, q: Pid, v: nat)
    requires pid in m.tables && CowState.Valid(m.cow) && Remove(m, pid).mem.Has(q, v)
    ensures var r := Remove(m, pid).mem;
            && q != pid && m.Has(q, v) && r.tables[q][v] == m.tables[q][v]
            && (q in CowState.Entry(m.cow, v).processes ==> q in CowState.Entry(r.cow, v).processes)
  {
    CowState.DropEverywhereLeaves(m.cow, m.cow.shared.Keys, pid, v);
    hide CowState.DropEverywhere, CowState.Valid, CowState.Entry, HoldsFrame;
  }

  lemma KillSafe<S>(m: Mem<S>, pid: Pid)
    requires Isolated(m) && pid in m.tables && KillGuard(m, pid)
    ensures Isolated(Remove(m, pid).mem)
  {
    var r := Remove(m, pid).mem;
    CowState.DropEverywhereValid(m.cow, m.cow.shared.Keys, pid);
    forall p, v | r.Has(p, v) ensures PageSafe(r, p, v) {
      RemoveLeaves(m, pid, p, v);
      assert PageSafe(m, p, v);
    }
    forall p, v, q, w | r.Has(p, v) && r.Has(q, w) ensures PairSafe(r, p, v, q, w) {
      RemoveLeaves(m, pid, p, v);
      RemoveLeaves(m, pid, q, w);
      hide Remove, CowState.Entry, CowState.Valid;
      assert PairSafe(m, p, v, q, w);
    }
  }

  /** Removing a live process keeps isolation exactly when no other process's page maps a frame of it. */
  lemma RemoveIsolated<S>(m: Mem<S>, pid: Pid)
    requires Isolated(m) && pid in m.tables
    ensures Isolated(Remove(m, pid).mem) <==> KillGuard(m, pid)
  {
    if KillGuard(m, pid) {
      KillSafe(m, pid);
    } else {
      var q, w :| q != pid && m.Has(q, w) && m.tables[q][w].present
                  && HoldsFrame(m.tables[pid], m.tables[q][w].frame);
      assert PageSafe(m, q, w);
      assert !PageSafe(Remove(m, pid).mem, q, w);
    }
  }

  // ---- Whole runs ----

  lemma CreateIsolated<S>(m: Mem<S>, pid: Pid)
    requires Isolated(m)
    ensures Isolated(Create(m, pid).mem)
  {
    var r := Create(m, pid).mem;
    forall p, v | r.Has(p, v) ensures PageSafe(r, p, v) {
      assert PageSafe(m, p, v);
    }
    forall p, v, q, w | r.Has(p, v) && r.Has(q, w) ensures PairSafe(r, p, v, q, w) {
      assert PairSafe(m, p, v, q, w);
    }
  }

  ghost predicate HugeGuard<S(!new)>(pol: Policy<S>, m: Mem<S>, pid: Pid, index: nat, now: int)
    requires Lawful(pol)
  {
    index < HUGE_INDEX_LIMIT && pid in m.tables ==> SlotSafe(pol, m, PickFree(m, pid), now)
  }

  lemma HugeMappedIs<S(!new)>(pol: Policy<S>, m: Mem<S>, i: nat, pid: Pid, index: nat, now: int)
    requires Lawful(pol) && i < |m.frames|
    ensures var r := HugeMapped(pol, m, i, pid, index, now);
            && r.tables == m.tables && r.cow == m.cow && r.metrics.evictions == m.metrics.evictions
            && SameOwners(r.frames, m.frames)
  {
  }

  lemma MapHugeIsolated<S(!new)>(pol: Policy<S>, m: Mem<S>, pid: Pid, index: nat, now: int)
    requires Lawful(pol) && Isolated(m) && HugeGuard(pol, m, pid, index, now)
    ensures Isolated(MapHuge(pol, m, pid, index, now).mem)
  {
    hide FreeSlot, PickFree, Isolated, SlotSafe, HugeMapped, Lawful;
    if index < HUGE_INDEX_LIMIT && pid in m.tables {
      FreeSlotIsolated(pol, m, PickFree(m, pid), now);
      var (m1, slot) := FreeSlot(pol, m, PickFree(m, pid), now);
      if slot.Some? {
        var i := slot.value;
        var m2 := m1.(frames := m1.frames[i := m1.frames[i].Allocate(HUGE_PAGE_BASE + index, pid, now)]);
        HugeMappedIs(pol, m2, slot.value, pid, index, now);
        SameTablesIsolated(m1, HugeMapped(pol, m2, slot.value, pid, index, now));
      }
    }
  }

  /** The guard of each operation. */
  ghost predicate Guard<S(!new)>(pol: Policy<S>, m: Mem<S>, op: Op, now: int)
    requires Lawful(pol)
  {
    match op
    case Touch(pid, v, write) => AccessGuard(pol, m, pid, v, write, now)
    case Kill(pid) => KillGuard(m, pid)
    case ForkTo(parent, child) => parent in m.tables ==> OwnPages(m.tables[parent])
    case HugeMap(pid, index) => HugeGuard(pol, m, pid, index, now)
    case _ => true
  }

  /** Every operation of the run passes its guard. */
  ghost predicate Calm<S(!new)>(pol: Policy<S>, start: S, numFrames: nat, ops: seq<Op>, times: seq<int>)
    requires Lawful(pol) && |times| == |ops|
  {
    ops == [] ||
    var n := |ops| - 1;
    && Calm(pol, start, numFrames, ops[..n], times[..n])
    && Guard(pol, History(pol, start, numFrames, ops[..n], times[..n]), ops[n], times[n])
  }

  lemma PinIsolated<S>(m: Mem<S>, i: nat, on: bool)
    requires Isolated(m)
    ensures Isolated(PinFrame(m, i, on).mem)
  {
    hide Isolated;
    SameTablesIsolated(m, PinFrame(m, i, on).mem);
  }

  lemma PerformIsolated<S(!new)>(pol: Policy<S>, m: Mem<S>, op: Op, now: int)
    requires Lawful(pol) && Isolated(m) && Guard(pol, m, op, now)
    ensures Isolated(Perform(pol, m, op, now).mem)
  {
    hide Lawful, Access, MapHuge, Remove, Fork, PinFrame, AccessGuard, KillGuard, HugeGuard, OwnPages;
    match op
    case Spawn(pid) => CreateIsolated(m, pid);
    case Touch(pid, v, write) => AccessIsolated(pol, m, pid, v, write, now);
    case Kill(pid) => NoProcess(m, pid); if pid in m.tables { KillSafe(m, pid); }
    case ForkTo(parent, child) => NoParent(m, parent, child); if parent in m.tables { ForkSafe(m, parent, child); }
    case HugeMap(pid, index) => MapHugeIsolated(pol, m, pid, index, now);
    case SetPin(i, on) => PinIsolated(m, i, on);
    case ResetAll => NothingMapped(Reset(m, pol.reset(m.policy)));
    case SetNuma(on) => SameTablesIsolated(m, m.(numa := on));
    case SetCompression(on) => SameTablesIsolated(m, m.(compression := on));
    case SetClustering(on) => SameTablesIsolated(m, m.(clustering := on));
  }

  lemma NoProcess<S>(m: Mem<S>, pid: Pid)
    ensures pid !in m.tables ==> Remove(m, pid) == Outcome(false, m)
  {
  }

  lemma NoParent<S>(m: Mem<S>, parent: Pid, child: Pid)
    ensures parent !in m.tables ==> Fork(m, parent, child) == Outcome(false, m)
  {
  }

  lemma NothingMapped<S>(m: Mem<S>)
    requires m.tables == map[] && m.cow.shared == map[] && m.cow.counts == map[] && m.cow.total == 0
    requires m.cow.nextId >= CowState.FIRST_COPY_ID
    ensures Isolated(m)
  {
  }

  lemma {:induction false} CalmRunsAreIsolated<S(!new)>(pol: Policy<S>, start: S, numFrames: nat, ops: seq<Op>,
                                                        times: seq<int>)
    requires Lawful(pol) && |times| == |ops| && Calm(pol, start, numFrames, ops, times)
    ensures Isolated(History(pol, start, numFrames, ops, times))
  {
    hide Perform, Isolated, Guard;
    if ops == [] {
      NothingMapped(Boot(numFrames, start));
    } else {
      var n := |ops| - 1;
      CalmRunsAreIsolated(pol, start, numFrames, ops[..n], times[..n]);
      PerformIsolated(pol, History(pol, start, numFrames, ops[..n], times[..n]), ops[n], times[n]);
    }
  }

  /** A page that is not marked shared lives in a frame that no other page of any process maps. */
  lemma UnsharedPagesAreAlone<S(!new)>(pol: Policy<S>, start: S, numFrames: nat, ops: seq<Op>, times: seq<int>,
                                       p: Pid, v: nat, q: Pid, w: nat)
    requires Lawful(pol) && |times| == |ops| && Calm(pol, start, numFrames, ops, times)
    requires var m := History(pol, start, numFrames, ops, times);
             && m.Has(p, v) && m.tables[p][v].present && !m.tables[p][v].shared
             && m.Has(q, w) && m.tables[q][w].present && (p != q || v != w)
    ensures var m := History(pol, start, numFrames, ops, times); m.tables[p][v].frame != m.tables[q][w].frame
  {
    CalmRunsAreIsolated(pol, start, numFrames, ops, times);
    assert PairSafe(History(pol, start, numFrames, ops, times), p, v, q, w);
  }

  /** After a write of such a run that succeeds, the written page is not shared and, unless a resident-set
      target has evicted it again, alone in its frame. Succeed or fail, all that happens to other processes'
      tables is that pages lose their frames to evictions; without an eviction nothing happens to them. */
  lemma WritesAreIsolated<S(!new)>(pol: Policy<S>, start: S, numFrames: nat, ops: seq<Op>, times: seq<int>)
    requires Lawful(pol) && |times| == |ops| && Calm(pol, start, numFrames, ops, times)
    requires ops != [] && ops[|ops| - 1].Touch? && ops[|ops| - 1].write
    ensures var n := |ops| - 1;
            var m := History(pol, start, numFrames, ops[..n], times[..n]);
            var r := History(pol, start, numFrames, ops, times);
            var pid, v := ops[n].pid, ops[n].v;
            && OthersYield(m, r, pid)
            && (Access(pol, m, pid, v, true, times[n]).ok ==>
                  && Written(pol, m, r, pid, v)
                  && (r.tables[pid][v].present ==> Alone(r, pid, v)))
  {
    var n := |ops| - 1;
    var m := History(pol, start, numFrames, ops[..n], times[..n]);
    var r := History(pol, start, numFrames, ops, times);
    var pid, v := ops[n].pid, ops[n].v;
    CalmRunsAreIsolated(pol, start, numFrames, ops[..n], times[..n]);
    assert Guard(pol, m, ops[n], times[n]);
    hide Access, Isolated, Lawful, AccessGuard, OthersYield, Calm;
    AccessIsolated(pol, m, pid, v, true, times[n]);
    assert r == Access(pol, m, pid, v, true, times[n]).mem;
    hide History;
    if Access(pol, m, pid, v, true, times[n]).ok && r.tables[pid][v].present {
      UnsharedIsAlone(r, pid, v);
    }
  }

  lemma UnsharedIsAlone<S>(m: Mem<S>, pid: Pid, v: nat)
    requires Isolated(m) && m.Has(pid, v) && m.tables[pid][v].present && !m.tables[pid][v].shared
    ensures Alone(m, pid, v)
  {
    forall q, w | m.Has(q, w) && m.tables[q][w].present && (q != pid || w != v)
      ensures m.tables[q][w].frame != m.tables[pid][v].frame
    {
      assert PairSafe(m, pid, v, q, w);
    }
  }
}
