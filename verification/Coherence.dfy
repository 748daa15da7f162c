/** The page tables, the frame tags and the multi-level tables describe one mapping, in every run
    without forks and huge pages. */
module Coherence {
  import opened Prelude
  import opened Frames
  import opened TwoLayerMap
  import opened MemoryModel
  import opened Runs
  import opened StoreRuns
  import CowState
  import Compression

  function FrameOf(table: PageTable, v: nat): Option<int> {
    if v in table && table[v].present then Some(table[v].frame) else None
  }

  function Entry(t: TwoLayer, v: nat): Option<int> {
    t.Lookup(v * L1_SPAN)
  }

  /** Only virtual pages that 48-bit addresses reach. */
  ghost predicate Addressable(table: PageTable) {
    forall v :: v in table ==> v < PAGE_LIMIT
  }

  /** The pages that 48-bit addresses reach are looked up alike in both tables. */
  ghost predicate Agrees(t: TwoLayer, table: PageTable) {
    forall v :: 0 <= v < PAGE_LIMIT ==> Entry(t, v) == FrameOf(table, v)
  }

  /** A multi-level table maps exactly the present pages, each to its frame, as long as the process
      stays within 48-bit addresses. */
  ghost predicate Translates(t: TwoLayer, table: PageTable) {
    && t.huge == map[]
    && (Addressable(table) ==> Agrees(t, table))
  }

  ghost predicate PageOk<S>(m: Mem<S>, pid: Pid, v: nat)
    requires m.Has(pid, v)
  {
    var p := m.tables[pid][v];
    && p.id == v
    && !p.shared
    && (p.present ==>
          && 0 <= p.frame < |m.frames|
          && !m.frames[p.frame].free
          && m.frames[p.frame].processId == pid
          && m.frames[p.frame].pageId == v)
  }

  ghost predicate FrameOk<S>(m: Mem<S>, i: nat)
    requires i < |m.frames|
  {
    m.frames[i].free || m.Maps(m.frames[i].processId, m.frames[i].pageId, i)
  }

  ghost predicate PagesOk<S>(m: Mem<S>) {
    forall pid, v :: m.Has(pid, v) ==> PageOk(m, pid, v)
  }

  ghost predicate FramesOk<S>(m: Mem<S>) {
    forall i :: 0 <= i < |m.frames| ==> FrameOk(m, i)
  }

  ghost predicate MultiLevelOk<S>(m: Mem<S>) {
    && m.mpt.Keys == m.tables.Keys
    && forall pid :: pid in m.tables ==> Translates(m.mpt[pid], m.tables[pid])
  }

  /** Present pages and used frames are paired one to one, tags and mappings agreeing, and every
      multi-level table is the same mapping again. */
  ghost predicate Coherent<S>(m: Mem<S>) {
    && PagesOk(m)
    && FramesOk(m)
    && MultiLevelOk(m)
  }

  /** The two directions of the pairing, spelled out. */
  lemma CoherentIsBijection<S>(m: Mem<S>, p: Pid, v: nat, q: Pid, w: nat)
    requires Coherent(m) && m.Has(p, v) && m.tables[p][v].present && m.Has(q, w) && m.tables[q][w].present
    ensures m.tables[p][v].frame == m.tables[q][w].frame <==> p == q && v == w
  {
    assert PageOk(m, p, v) && PageOk(m, q, w);
  }

  // ---- The multi-level table, one small page at a time ----

  lemma SmallSet(t: TwoLayer, u: nat, frame: int, v: nat)
    requires t.huge == map[] && u < PAGE_LIMIT && v < PAGE_LIMIT
    ensures Entry(t.Set(u * L1_SPAN % WORD, frame, false), v) == if u == v then Some(frame) else Entry(t, v)
  {
    assert u * L1_SPAN % WORD == u * L1_SPAN;
    IndicesInjective(u * L1_SPAN, v * L1_SPAN);
  }

  lemma SmallInvalidate(t: TwoLayer, u: nat, v: nat)
    requires t.huge == map[] && u < PAGE_LIMIT && v < PAGE_LIMIT
    ensures Entry(t.Invalidate(u * L1_SPAN % WORD), v) == if u == v then None else Entry(t, v)
  {
    assert u * L1_SPAN % WORD == u * L1_SPAN;
    IndicesInjective(u * L1_SPAN, v * L1_SPAN);
  }

  /** The 48-bit table cannot tell pages 2^36 apart. */
  lemma IndicesBeyondTheLimit(u: nat, q: nat)
    requires u < PAGE_LIMIT
    ensures Indices((u + PAGE_LIMIT * q) * L1_SPAN % WORD) == Indices(u * L1_SPAN)
  {
    var b, k := u * L1_SPAN, q % 0x1_0000;
    assert (u + PAGE_LIMIT * q) * L1_SPAN % WORD == b + ADDRESS_LIMIT * k by {
      assert q == 0x1_0000 * (q / 0x1_0000) + k;
      assert (u + PAGE_LIMIT * q) * L1_SPAN == b + ADDRESS_LIMIT * k + WORD * (q / 0x1_0000);
    }
    Wraps(b / L4_SPAN, k);
    Wraps(b / L3_SPAN, 512 * k);
    Wraps(b / L2_SPAN, 512 * 512 * k);
    Wraps(b / L1_SPAN, 512 * 512 * 512 * k);
  }

  lemma Wraps(x: nat, k: nat)
    ensures (x + 512 * k) % 512 == x % 512
  {
  }

  // ---- The pieces keep coherence ----

  /** Whatever happens to the policy, the counters, the store and the untagged part of frames. */
  lemma RetouchCoherent<S>(m: Mem<S>, r: Mem<S>)
    requires Coherent(m) && SameOwners(r.frames, m.frames)
    requires r.tables == m.tables && r.mpt == m.mpt
    ensures Coherent(r)
  {
    forall pid, v | r.Has(pid, v) ensures PageOk(r, pid, v) {
      assert PageOk(m, pid, v);
    }
    forall i | 0 <= i < |r.frames| ensures FrameOk(r, i) {
      assert FrameOk(m, i);
    }
  }

  lemma BookkeepingCoherent<S>(m: Mem<S>, r: Mem<S>)
    requires Coherent(m) && SameOwners(r.frames, m.frames)
    requires r == m.(frames := r.frames, policy := r.policy, store := r.store, cow := r.cow,
                     metrics := r.metrics, numa := r.numa, compression := r.compression, clustering := r.clustering)
    ensures Coherent(r)
  {
    RetouchCoherent(m, r);
  }

  lemma EnsurePageCoherent<S>(m: Mem<S>, pid: Pid, v: nat)
    requires Coherent(m) && pid in m.tables
    ensures Coherent(EnsurePage(m, pid, v))
    ensures v !in m.tables[pid] ==> !EnsurePage(m, pid, v).tables[pid][v].present
  {
    if v !in m.tables[pid] {
      var r := EnsurePage(m, pid, v);
      assert PagesOk(r) by {
        forall p, u | r.Has(p, u) ensures PageOk(r, p, u) {
          assert m.Has(p, u) ==> PageOk(m, p, u);
        }
      }
      assert FramesOk(r) by {
        forall i | 0 <= i < |r.frames| ensures FrameOk(r, i) {
          assert FrameOk(m, i);
        }
      }
      assert MultiLevelOk(r) by {
        forall p | p in r.tables ensures Translates(r.mpt[p], r.tables[p]) {
          SameFramesTranslate(m.mpt[p], m.tables[p], r.tables[p]);
        }
      }
    }
  }

  lemma SameFramesTranslate(t: TwoLayer, a: PageTable, b: PageTable)
    requires Translates(t, a) && a.Keys <= b.Keys && forall v: nat :: FrameOf(b, v) == FrameOf(a, v)
    ensures Translates(t, b)
  {
  }

  lemma EvictTranslates<S>(pol: Policy<S>, m: Mem<S>, i: nat, p: Pid)
    requires Coherent(m) && i < |m.frames| && !m.frames[i].free && p in m.tables
    ensures var r := Evict(pol, m, i); p in r.mpt && p in r.tables && Translates(r.mpt[p], r.tables[p])
  {
    var f, r := m.frames[i], Evict(pol, m, i);
    assert FrameOk(m, i) && PageOk(m, f.processId, f.pageId);
    assert Translates(m.mpt[p], m.tables[p]);
    EvictIs(pol, m, i);
    EvictTables(pol, m, i);
    hide Evict, DropMapping, PagesOk, FramesOk, MultiLevelOk;
    assert r.tables[p].Keys == m.tables[p].Keys;
    if p == f.processId && Addressable(m.tables[p]) {
      forall v | 0 <= v < PAGE_LIMIT
        ensures Entry(r.mpt[p], v) == FrameOf(r.tables[p], v)
      {
        SmallInvalidate(m.mpt[p], f.pageId, v);
        assert Entry(m.mpt[p], v) == FrameOf(m.tables[p], v);
      }
    }
  }

  lemma EvictPagesOk<S>(pol: Policy<S>, m: Mem<S>, i: nat)
    requires PagesOk(m) && FramesOk(m) && i < |m.frames| && !m.frames[i].free
    ensures PagesOk(Evict(pol, m, i))
  {
    var r := Evict(pol, m, i);
    assert FrameOk(m, i);
    EvictTables(pol, m, i);
    hide Evict;
    forall p, v | r.Has(p, v) ensures PageOk(r, p, v) {
      assert PageOk(m, p, v);
    }
  }

  lemma EvictFramesOk<S>(pol: Policy<S>, m: Mem<S>, i: nat)
    requires FramesOk(m) && i < |m.frames| && !m.frames[i].free
    ensures FramesOk(Evict(pol, m, i))
  {
    var r := Evict(pol, m, i);
    assert FrameOk(m, i);
    EvictTables(pol, m, i);
    hide Evict;
    forall k | 0 <= k < |r.frames| ensures FrameOk(r, k) {
      assert FrameOk(m, k);
    }
  }

  /** Evicting a used frame frees it and unmaps exactly its page. */
  lemma EvictCoherent<S>(pol: Policy<S>, m: Mem<S>, i: nat)
    requires Coherent(m) && i < |m.frames| && !m.frames[i].free
    ensures Coherent(Evict(pol, m, i))
    ensures var f := m.frames[i];
            m.Maps(f.processId, f.pageId, i) && !Evict(pol, m, i).Resident(f.processId, f.pageId)
  {
    assert FrameOk(m, i);
    hide Evict, PagesOk, FramesOk, MultiLevelOk;
    EvictTables(pol, m, i);
    EvictPagesOk(pol, m, i);
    EvictFramesOk(pol, m, i);
    EvictMultiLevelOk(pol, m, i);
  }

  lemma EvictMultiLevelOk<S>(pol: Policy<S>, m: Mem<S>, i: nat)
    requires Coherent(m) && i < |m.frames| && !m.frames[i].free
    ensures MultiLevelOk(Evict(pol, m, i))
  {
    var r := Evict(pol, m, i);
    EvictIs(pol, m, i);
    EvictTables(pol, m, i);
    hide Evict, DropMapping, PagesOk, FramesOk, Translates;
    forall p | p in r.tables ensures Translates(r.mpt[p], r.tables[p]) {
      EvictTranslates(pol, m, i, p);
    }
  }

  lemma AttachTranslates<S(!new)>(pol: Policy<S>, m: Mem<S>, i: nat, pid: Pid, v: nat, now: int, p: Pid)
    requires Coherent(m) && i < |m.frames| && m.Has(pid, v) && p in m.tables
    ensures var r := Attach(pol, m, i, pid, v, now); p in r.mpt && Translates(r.mpt[p], r.tables[p])
  {
    var r := Attach(pol, m, i, pid, v, now);
    assert PageOk(m, pid, v);
    assert Translates(m.mpt[p], m.tables[p]);
    if p == pid && Addressable(m.tables[p]) {
      forall u | 0 <= u < PAGE_LIMIT
        ensures Entry(r.mpt[p], u) == FrameOf(r.tables[p], u)
      {
        SmallSet(m.mpt[p], v, i, u);
        assert Entry(m.mpt[p], u) == FrameOf(m.tables[p], u);
      }
    }
  }

  lemma AttachTables<S(!new)>(pol: Policy<S>, m: Mem<S>, i: nat, pid: Pid, v: nat, now: int)
    requires Lawful(pol) && i < |m.frames| && m.Has(pid, v)
    ensures var r := Attach(pol, m, i, pid, v, now);
            && r.Maps(pid, v, i)
            && (forall p, u :: r.Has(p, u) <==> m.Has(p, u))
            && (forall p, u :: m.Has(p, u) && (p != pid || u != v) ==> r.tables[p][u] == m.tables[p][u])
            && r.frames[i].SameOwner(m.frames[i].Allocate(m.tables[pid][v].id, pid, now))
            && (forall k :: 0 <= k < |m.frames| && k != i ==> r.frames[k] == m.frames[k])
  {
  }

  lemma AttachPagesOk<S(!new)>(pol: Policy<S>, m: Mem<S>, i: nat, pid: Pid, v: nat, now: int)
    requires Lawful(pol) && PagesOk(m)
    requires i < |m.frames| && m.frames[i].free && m.Has(pid, v)
    ensures PagesOk(Attach(pol, m, i, pid, v, now))
  {
    var r := Attach(pol, m, i, pid, v, now);
    AttachTables(pol, m, i, pid, v, now);
    assert PageOk(m, pid, v);
    hide Attach;
    forall p, u | r.Has(p, u) ensures PageOk(r, p, u) {
      assert PageOk(m, p, u);
    }
  }

  lemma AttachFramesOk<S(!new)>(pol: Policy<S>, m: Mem<S>, i: nat, pid: Pid, v: nat, now: int)
    requires Lawful(pol) && FramesOk(m) && PagesOk(m)
    requires i < |m.frames| && m.frames[i].free && m.Has(pid, v) && !m.tables[pid][v].present
    ensures FramesOk(Attach(pol, m, i, pid, v, now))
  {
    var r := Attach(pol, m, i, pid, v, now);
    AttachTables(pol, m, i, pid, v, now);
    assert PageOk(m, pid, v);
    hide Attach;
    forall k | 0 <= k < |r.frames| ensures FrameOk(r, k) {
      assert FrameOk(m, k);
    }
  }

  /** Loading an absent page into a free frame maps exactly that page. */
  lemma AttachCoherent<S(!new)>(pol: Policy<S>, m: Mem<S>, i: nat, pid: Pid, v: nat, now: int)
    requires Lawful(pol) && Coherent(m)
    requires i < |m.frames| && m.frames[i].free && m.Has(pid, v) && !m.tables[pid][v].present
    ensures var r := Attach(pol, m, i, pid, v, now);
            && Coherent(r)
            && r.Maps(pid, v, i)
            && (forall p, u :: r.Has(p, u) <==> m.Has(p, u))
            && (forall p, u :: m.Has(p, u) && (p != pid || u != v) ==> r.tables[p][u] == m.tables[p][u])
  {
    var r := Attach(pol, m, i, pid, v, now);
    AttachTables(pol, m, i, pid, v, now);
    AttachPagesOk(pol, m, i, pid, v, now);
    AttachFramesOk(pol, m, i, pid, v, now);
    assert r.mpt.Keys == r.tables.Keys;
    forall p | p in r.tables ensures Translates(r.mpt[p], r.tables[p]) {
      AttachTranslates(pol, m, i, pid, v, now, p);
    }
    hide Attach, PagesOk, FramesOk, Translates;
  }

  /** Why the limit: loading an absent page into a free frame keeps the two tables of its process in agreement
      exactly when 48-bit addresses reach the page. */
  lemma AgreesWithinTheLimitOnly<S(!new)>(pol: Policy<S>, m: Mem<S>, i: nat, pid: Pid, v: nat, now: int)
    requires Lawful(pol) && Coherent(m) && i < |m.frames| && m.frames[i].free
    requires m.Has(pid, v) && !m.tables[pid][v].present && Agrees(m.mpt[pid], m.tables[pid])
    ensures var r := Attach(pol, m, i, pid, v, now);
            pid in r.mpt && (Agrees(r.mpt[pid], r.tables[pid]) <==> v < PAGE_LIMIT)
  {
    var r := Attach(pol, m, i, pid, v, now);
    AttachTables(pol, m, i, pid, v, now);
    assert PageOk(m, pid, v) && Translates(m.mpt[pid], m.tables[pid]);
    assert r.mpt[pid] == m.mpt[pid].Set(v * L1_SPAN % WORD, i, false);
    hide Attach, Lawful;
    if v < PAGE_LIMIT {
      forall u | 0 <= u < PAGE_LIMIT ensures Entry(r.mpt[pid], u) == FrameOf(r.tables[pid], u) {
        SmallSet(m.mpt[pid], v, i, u);
        assert Entry(m.mpt[pid], u) == FrameOf(m.tables[pid], u);
      }
    } else {
      var u := v % PAGE_LIMIT;
      IndicesBeyondTheLimit(u, v / PAGE_LIMIT);
      assert Entry(r.mpt[pid], u) == Some(i);
      assert m.Has(pid, u) ==> PageOk(m, pid, u);
    }
  }

  lemma ChooseCoherent<S(!new)>(pol: Policy<S>, m: Mem<S>, ids: seq<nat>, now: int)
    requires Lawful(pol) && Coherent(m) && FrameList(m.frames, ids)
    ensures Coherent(Choose(pol, m, ids, now).0)
  {
    hide Coherent;
    BookkeepingCoherent(m, Choose(pol, m, ids, now).0);
  }

  lemma FreeSlotFound<S(!new)>(pol: Policy<S>, m: Mem<S>, free: Option<nat>, now: int)
    requires Lawful(pol) && free.Some? && free.value < |m.frames|
    ensures FreeSlot(pol, m, free, now) == (m, free)
  {
  }

  /** Evicting for a frame maps nothing new. */
  lemma FreeSlotKeepsAbsent<S(!new)>(pol: Policy<S>, m: Mem<S>, now: int, p: Pid, v: nat)
    requires Lawful(pol) && Coherent(m) && m.Has(p, v) && !m.tables[p][v].present
    ensures FreeSlot(pol, m, None, now).0.Has(p, v) && !FreeSlot(pol, m, None, now).0.tables[p][v].present
  {
    var (m1, victim) := Choose(pol, m, Used(m.frames), now);
    if victim.Some? {
      EvictTables(pol, m1, victim.value);
      ChooseCoherent(pol, m, Used(m.frames), now);
      EvictCoherent(pol, m1, victim.value);
    }
    hide Evict;
  }

  /** Loading fails exactly when every frame is in use and pinned, and then changes nothing but
      what the policy keeps for itself. */
  lemma LoadCoherent<S(!new)>(pol: Policy<S>, m: Mem<S>, pid: Pid, v: nat, now: int)
    requires Lawful(pol) && Coherent(m) && m.Has(pid, v) && !m.tables[pid][v].present
    ensures var r := Load(pol, m, pid, v, now);
            && Coherent(r.mem)
            && r.mem.tables.Keys == m.tables.Keys
            && (r.ok <==> !AllPinned(m.frames))
            && (r.ok ==> r.mem.Resident(pid, v))
            && (!r.ok ==> r.mem == m.(policy := r.mem.policy, frames := r.mem.frames)
                          && SameOwners(r.mem.frames, m.frames))
  {
    hide Attach, Evict, Coherent, PickFree, Lawful;
    if PickFree(m, pid).Some? {
      AttachCoherent(pol, m, PickFree(m, pid).value, pid, v, now);
    } else {
      var ids := Used(m.frames);
      ChooseCoherent(pol, m, ids, now);
      var (m1, victim) := Choose(pol, m, ids, now);
      if victim.Some? {
        AbsentStaysAbsent(pol, m1, victim.value, pid, v);
        EvictTables(pol, m1, victim.value);
        AttachCoherent(pol, Evict(pol, m1, victim.value), victim.value, pid, v, now);
      }
    }
  }

  lemma AbsentStaysAbsent<S(!new)>(pol: Policy<S>, m: Mem<S>, i: nat, pid: Pid, v: nat)
    requires Coherent(m) && i < |m.frames| && !m.frames[i].free && m.Has(pid, v) && !m.tables[pid][v].present
    ensures var r := Evict(pol, m, i); Coherent(r) && r.Has(pid, v) && !r.tables[pid][v].present
  {
    EvictTables(pol, m, i);
    EvictCoherent(pol, m, i);
    hide Evict, Coherent;
  }

  /** Without shared pages a write needs no copy. */
  lemma SettleUnshared<S(!new)>(pol: Policy<S>, m: Mem<S>, pid: Pid, v: nat, write: bool, now: int)
    requires Lawful(pol) && Coherent(m) && m.Has(pid, v)
    ensures SettleWrite(pol, m, pid, v, write, now) == Outcome(true, m)
  {
    assert PageOk(m, pid, v);
  }

  lemma FaultCoherent<S(!new)>(pol: Policy<S>, m: Mem<S>, pid: Pid, v: nat, write: bool, now: int)
    requires Lawful(pol) && Coherent(m) && m.Has(pid, v) && !m.tables[pid][v].present
    ensures var r := Fault(pol, m, pid, v, write, now);
            && Coherent(r.mem)
            && r.mem.tables.Keys == m.tables.Keys
            && (r.ok <==> !AllPinned(m.frames))
            && (r.ok ==> r.mem.Resident(pid, v))
  {
    var id := m.tables[pid][v].id;
    var m1 := TakeOut(m, id).0;
    assert m1 == m.(store := m1.store);
    hide Coherent, Load, Lawful, SettleWrite, TakeOut;
    BookkeepingCoherent(m, m1);
    LoadCoherent(pol, m1, pid, v, now);
    var l := Load(pol, m1, pid, v, now);
    if l.ok {
      SettleUnshared(pol, l.mem, pid, v, write, now);
    } else {
      BookkeepingCoherent(m, PutBack(l.mem, TakeOut(m, id).1));
    }
  }

  lemma {:induction false} EnforceCoherent<S(!new)>(pol: Policy<S>, m: Mem<S>, used: seq<nat>, target: int, now: int)
    requires Lawful(pol) && Coherent(m) && FrameList(m.frames, used)
    ensures Coherent(Enforce(pol, m, used, target, now))
    ensures Enforce(pol, m, used, target, now).tables.Keys == m.tables.Keys
    decreases |used|
  {
    hide Coherent;
    if target > 0 && |used| > target {
      ChooseCoherent(pol, m, used, now);
      var (m1, victim) := Choose(pol, m, used, now);
      if victim.Some? {
        EvictTables(pol, m1, victim.value);
        EvictCoherent(pol, m1, victim.value);
        EnforceCoherent(pol, Evict(pol, m1, victim.value), Without(used, victim.value), target, now);
      }
    }
  }

  lemma PrefetchOneCoherent<S(!new)>(pol: Policy<S>, m: Mem<S>, i: nat, pid: Pid, v: nat, now: int)
    requires Lawful(pol) && Coherent(m)
    requires i < |m.frames| && m.frames[i].free && m.Has(pid, v) && !m.tables[pid][v].present
    ensures Coherent(PrefetchOne(pol, m, i, pid, v, now))
  {
    AttachCoherent(pol, m, i, pid, v, now);
    hide Coherent, Attach;
    BookkeepingCoherent(Attach(pol, m, i, pid, v, now), PrefetchOne(pol, m, i, pid, v, now));
  }

  lemma {:induction false} PrefetchCoherent<S(!new)>(pol: Policy<S>, m: Mem<S>, pid: Pid, pages: seq<nat>,
                                                     done: nat, now: int)
    requires Lawful(pol) && Coherent(m) && pid in m.tables
    ensures Coherent(Prefetch(pol, m, pid, pages, done, now))
    ensures Prefetch(pol, m, pid, pages, done, now).tables.Keys == m.tables.Keys
    decreases |pages|
  {
    hide Coherent, Lawful, PrefetchOne, EnsurePage, Prefetch, PickFree;
    PrefetchUnfold(pol, m, pid, pages, done, now);
    if pages != [] && done < MAX_PREFETCH {
      EnsurePageCoherent(m, pid, pages[0]);
      var m1 := EnsurePage(m, pid, pages[0]);
      var free := PickFree(m1, pid);
      if m1.tables[pid][pages[0]].present {
        PrefetchCoherent(pol, m1, pid, pages[1..], done, now);
      } else if free.Some? {
        PrefetchOneCoherent(pol, m1, free.value, pid, pages[0], now);
        PrefetchCoherent(pol, PrefetchOne(pol, m1, free.value, pid, pages[0], now), pid, pages[1..], done + 1, now);
      }
    }
  }

  // ---- The operations ----

  lemma TryPrefetchCoherent<S(!new)>(pol: Policy<S>, m: Mem<S>, pid: Pid, now: int)
    requires Lawful(pol) && Coherent(m) && pid in m.tables
    ensures Coherent(TryPrefetch(pol, m, pid, now))
    ensures TryPrefetch(pol, m, pid, now).tables.Keys == m.tables.Keys
  {
    hide Coherent, Lawful, Prefetch;
    if pid in m.recent && |m.recent[pid]| >= 3 {
      PrefetchCoherent(pol, m, pid, Candidates(m.recent[pid][|m.recent[pid]| - 3]), 0, now);
    }
  }

  lemma PreparedCoherent<S>(m: Mem<S>, pid: Pid, v: nat)
    requires Coherent(m) && pid in m.tables
    ensures var r := Prepared(m, pid, v);
            && Coherent(r) && PageOk(r, pid, v)
            && (r.Resident(pid, v) <==> m.Resident(pid, v))
            && (r.tables[pid][v].present <==> m.Resident(pid, v))
            && r.frames == m.frames && r.clustering == m.clustering
  {
    if m.clustering {
      RetouchCoherent(m, Track(m, pid, v));
    }
    EnsurePageCoherent(if m.clustering then Track(m, pid, v) else m, pid, v);
    assert m.Has(pid, v) ==> PageOk(m, pid, v);
    assert PageOk(Prepared(m, pid, v), pid, v);
  }

  lemma FastHitCoherent<S(!new)>(pol: Policy<S>, m: Mem<S>, i: nat, write: bool, now: int)
    requires Lawful(pol) && Coherent(m) && i < |m.frames|
    ensures Coherent(FastHit(pol, m, i, write, now)) && FastHit(pol, m, i, write, now).tables == m.tables
  {
    assert SameOwners(FastHit(pol, m, i, write, now).frames, m.frames);
    hide Coherent;
    BookkeepingCoherent(m, FastHit(pol, m, i, write, now));
  }

  lemma HitCoherent<S(!new)>(pol: Policy<S>, m: Mem<S>, pid: Pid, v: nat, write: bool, now: int)
    requires Lawful(pol) && Coherent(m) && m.Resident(pid, v)
    ensures var r := FastHit(pol, m, m.tables[pid][v].frame, write, now);
            && Coherent(r) && r.tables == m.tables && r.Resident(pid, v)
            && SettleWrite(pol, r, pid, v, write, now) == Outcome(true, r)
  {
    var r := FastHit(pol, m, m.tables[pid][v].frame, write, now);
    FastHitCoherent(pol, m, m.tables[pid][v].frame, write, now);
    hide Coherent;
    SettleUnshared(pol, r, pid, v, write, now);
  }

  /** A fork-free access by a live process keeps coherence, and fails exactly when the page is
      absent while every frame is in use and pinned. */
  lemma AccessCoherent<S(!new)>(pol: Policy<S>, m: Mem<S>, pid: Pid, v: nat, write: bool, now: int)
    requires Lawful(pol) && Coherent(m)
    ensures var r := Access(pol, m, pid, v, write, now);
            && Coherent(r.mem)
            && r.mem.tables.Keys == m.tables.Keys
            && (pid in m.tables ==> (!r.ok <==> !m.Resident(pid, v) && AllPinned(m.frames)))
  {
    hide Coherent;
    if pid in m.tables {
      PreparedCoherent(m, pid, v);
      var m1 := Prepared(m, pid, v);
      hide Prepared, EnforceTarget, TryPrefetch, FastHit, SettleWrite, Fault;
      if m1.Resident(pid, v) {
        HitCoherent(pol, m1, pid, v, write, now);
      } else {
        FaultCoherent(pol, m1, pid, v, write, now);
        AfterFaultCoherent(pol, Fault(pol, m1, pid, v, write, now).mem, pid, now);
      }
    }
  }

  lemma AfterFaultCoherent<S(!new)>(pol: Policy<S>, m: Mem<S>, pid: Pid, now: int)
    requires Lawful(pol) && Coherent(m) && pid in m.tables
    ensures var m1 := EnforceTarget(pol, CountFault(m), now);
            && Coherent(m1) && m1.tables.Keys == m.tables.Keys
            && Coherent(TryPrefetch(pol, m1, pid, now))
            && TryPrefetch(pol, m1, pid, now).tables.Keys == m.tables.Keys
  {
    hide Coherent;
    BookkeepingCoherent(m, CountFault(m));
    if pol.target(m.policy).Some? {
      EnforceCoherent(pol, CountFault(m), Used(m.frames), pol.target(m.policy).value, now);
    }
    TryPrefetchCoherent(pol, EnforceTarget(pol, CountFault(m), now), pid, now);
  }

  /** The mapping, the frame tags and the compression store are as they were; only an absent record of
      page (pid, v) may have been added. */
  ghost predicate Unaffected<S>(m: Mem<S>, r: Mem<S>, pid: Pid, v: nat) {
    && SameOwners(r.frames, m.frames)
    && r.store == m.store && r.mpt == m.mpt && r.metrics == m.metrics && r.cow == m.cow
    && (forall p, u :: m.Has(p, u) ==> r.Has(p, u) && r.tables[p][u] == m.tables[p][u])
    && (forall p, u :: r.Has(p, u) && !m.Has(p, u) ==> p == pid && u == v && !r.tables[p][u].present)
  }

  /** A failed access changes nothing. */
  lemma FailedAccessChangesNothing<S(!new)>(pol: Policy<S>, m: Mem<S>, pid: Pid, v: nat, write: bool, now: int)
    requires Lawful(pol) && Coherent(m) && Compression.Valid(m.store)
    requires !Access(pol, m, pid, v, write, now).ok
    ensures Unaffected(m, Access(pol, m, pid, v, write, now).mem, pid, v)
  {
    hide Coherent, Prepared, Lawful, FastHit, SettleWrite, MissOutcome, Unaffected, Compression.Valid;
    if pid in m.tables {
      PreparedCoherent(m, pid, v);
      PreparedKeepsPages(m, pid, v);
      var m1 := Prepared(m, pid, v);
      if m1.Resident(pid, v) {
        HitCoherent(pol, m1, pid, v, write, now);
      } else {
        PreparedStore(m, pid, v);
        FailedMissRestores(pol, m1, pid, v, write, now);
        StaysUnaffected(m, m1, MissOutcome(pol, m1, pid, v, write, now).mem, pid, v);
      }
    } else {
      UnaffectedByNothing(m, pid, v);
    }
  }

  lemma UnaffectedByNothing<S>(m: Mem<S>, pid: Pid, v: nat)
    ensures Unaffected(m, m, pid, v)
  {
  }

  lemma StaysUnaffected<S>(m: Mem<S>, m1: Mem<S>, r: Mem<S>, pid: Pid, v: nat)
    requires Unaffected(m, m1, pid, v)
    requires r == m1.(policy := r.policy, frames := r.frames) && SameOwners(r.frames, m1.frames)
    ensures Unaffected(m, r, pid, v)
  {
  }

  lemma FailedMissRestores<S(!new)>(pol: Policy<S>, m: Mem<S>, pid: Pid, v: nat, write: bool, now: int)
    requires Lawful(pol) && Coherent(m) && m.Has(pid, v) && !m.tables[pid][v].present
    requires Compression.Valid(m.store) && !MissOutcome(pol, m, pid, v, write, now).ok
    ensures var r := MissOutcome(pol, m, pid, v, write, now).mem;
            r == m.(policy := r.policy, frames := r.frames) && SameOwners(r.frames, m.frames)
  {
    hide Coherent, Lawful, Fault, EnforceTarget, TryPrefetch, Compression.Valid;
    FailedFaultRestores(pol, m, pid, v, write, now);
  }

  lemma PreparedKeepsPages<S>(m: Mem<S>, pid: Pid, v: nat)
    requires pid in m.tables
    ensures Unaffected(m, Prepared(m, pid, v), pid, v)
  {
    var m1 := if m.clustering then Track(m, pid, v) else m;
    assert m1 == m.(recent := m1.recent, clusters := m1.clusters);
    hide Track;
    EnsurePageKeepsPages(m1, pid, v);
    hide EnsurePage;
  }

  lemma EnsurePageKeepsPages<S>(m: Mem<S>, pid: Pid, v: nat)
    requires pid in m.tables
    ensures var r := EnsurePage(m, pid, v);
            && r == m.(tables := r.tables)
            && (forall p, u :: m.Has(p, u) ==> r.Has(p, u) && r.tables[p][u] == m.tables[p][u])
            && (forall p, u :: r.Has(p, u) && !m.Has(p, u) ==> p == pid && u == v && !r.tables[p][u].present)
  {
  }

  lemma PutBackUndoesTakeOut<S>(m: Mem<S>, id: nat, r: Mem<S>)
    requires Compression.Valid(m.store)
    requires var m1 := TakeOut(m, id).0; r == m1.(policy := r.policy, frames := r.frames)
    ensures PutBack(r, TakeOut(m, id).1) == m.(policy := r.policy, frames := r.frames)
  {
    if TakeOut(m, id).1.Some? {
      Compression.RestoreUndoesDecompress(m.store, id);
    }
  }

  lemma FailedFaultRestores<S(!new)>(pol: Policy<S>, m: Mem<S>, pid: Pid, v: nat, write: bool, now: int)
    requires Lawful(pol) && Coherent(m) && m.Has(pid, v) && !m.tables[pid][v].present
    requires Compression.Valid(m.store) && !Fault(pol, m, pid, v, write, now).ok
    ensures var r := Fault(pol, m, pid, v, write, now).mem;
            r == m.(policy := r.policy, frames := r.frames) && SameOwners(r.frames, m.frames)
  {
    var id := m.tables[pid][v].id;
    var m1 := TakeOut(m, id).0;
    assert m1 == m.(store := m1.store);
    hide Coherent, Load, Lawful, SettleWrite, PutBack, TakeOut;
    BookkeepingCoherent(m, m1);
    LoadCoherent(pol, m1, pid, v, now);
    var l := Load(pol, m1, pid, v, now);
    if l.ok {
      SettleUnshared(pol, l.mem, pid, v, write, now);
    } else {
      PutBackUndoesTakeOut(m, id, l.mem);
    }
  }

  lemma CreateCoherent<S>(m: Mem<S>, pid: Pid)
    requires Coherent(m)
    ensures Coherent(Create(m, pid).mem)
  {
    var r := Create(m, pid).mem;
    forall p, v | r.Has(p, v) ensures PageOk(r, p, v) {
      assert PageOk(m, p, v);
    }
    forall i | 0 <= i < |r.frames| ensures FrameOk(r, i) {
      assert FrameOk(m, i);
    }
  }

  lemma RemoveCoherent<S>(m: Mem<S>, pid: Pid)
    requires Coherent(m)
    ensures Coherent(Remove(m, pid).mem)
  {
    var r := Remove(m, pid).mem;
    if pid in m.tables {
      forall p, v | r.Has(p, v) ensures PageOk(r, p, v) {
        assert PageOk(m, p, v);
        if m.tables[p][v].present {
          HeldIsTagged(m, pid, m.tables[p][v].frame);
        }
      }
      forall i | 0 <= i < |r.frames| ensures FrameOk(r, i) {
        assert FrameOk(m, i);
      }
    }
  }

  /** The frames a process holds are the used frames that carry its name. */
  lemma HeldIsTagged<S>(m: Mem<S>, pid: Pid, i: nat)
    requires Coherent(m) && pid in m.tables && i < |m.frames|
    ensures HoldsFrame(m.tables[pid], i) <==> !m.frames[i].free && m.frames[i].processId == pid
  {
    assert FrameOk(m, i);
    if HoldsFrame(m.tables[pid], i) {
      var v :| v in m.tables[pid] && m.tables[pid][v].present && m.tables[pid][v].frame == i;
      assert PageOk(m, pid, v);
    }
  }

  /** Removing a live process releases exactly the frames that carry its name, takes exactly its tables
      away, and keeps coherence. */
  lemma RemoveReleasesExactly<S>(m: Mem<S>, pid: Pid)
    requires Coherent(m) && pid in m.tables
    ensures var r := Remove(m, pid).mem;
            && Coherent(r)
            && r.tables == m.tables - {pid} && r.mpt == m.mpt - {pid}
            && |r.frames| == |m.frames|
            && forall i :: 0 <= i < |m.frames| ==>
                 && (r.frames[i].free <==> m.frames[i].free || m.frames[i].processId == pid)
                 && (m.frames[i].free || m.frames[i].processId != pid ==> r.frames[i] == m.frames[i])
  {
    RemoveCoherent(m, pid);
    forall i | 0 <= i < |m.frames|
      ensures HoldsFrame(m.tables[pid], i) <==> !m.frames[i].free && m.frames[i].processId == pid
    {
      HeldIsTagged(m, pid, i);
    }
    hide Coherent, HoldsFrame, CowState.DropEverywhere;
  }

  lemma PinCoherent<S>(m: Mem<S>, i: nat, on: bool)
    requires Coherent(m)
    ensures Coherent(PinFrame(m, i, on).mem)
  {
    var r := PinFrame(m, i, on).mem;
    forall p, v | r.Has(p, v) ensures PageOk(r, p, v) {
      assert PageOk(m, p, v);
    }
    forall k | 0 <= k < |r.frames| ensures FrameOk(r, k) {
      assert FrameOk(m, k);
    }
  }

  /** Every operation but forks and huge pages keeps coherence. */
  lemma PerformCoherent<S(!new)>(pol: Policy<S>, m: Mem<S>, op: Op, now: int)
    requires Lawful(pol) && Coherent(m) && !op.ForkTo? && !op.HugeMap?
    ensures Coherent(Perform(pol, m, op, now).mem)
  {
    hide Access, Remove;
    match op
    case Spawn(pid) => CreateCoherent(m, pid);
    case Touch(pid, v, write) => AccessCoherent(pol, m, pid, v, write, now);
    case Kill(pid) => RemoveCoherent(m, pid);
    case SetPin(i, on) => PinCoherent(m, i, on);
    case ResetAll =>
    case SetNuma(on) => BookkeepingCoherent(m, m.(numa := on));
    case SetCompression(on) => BookkeepingCoherent(m, m.(compression := on));
    case SetClustering(on) => BookkeepingCoherent(m, m.(clustering := on));
  }

  /** In every run without forks and huge pages, for every policy, frame count and clock: the three views
      of the mapping agree after each operation, and the compressed store is in order. */
  lemma {:induction false} CoherentInEveryRun<S(!new)>(pol: Policy<S>, start: S, numFrames: nat,
                                                       ops: seq<Op>, times: seq<int>)
    requires Lawful(pol) && |times| == |ops| && Forkless(ops)
    ensures Coherent(History(pol, start, numFrames, ops, times))
    ensures Compression.Valid(History(pol, start, numFrames, ops, times).store)
  {
    hide Compression.Valid, Perform;
    StoreInEveryRun(pol, start, numFrames, ops, times);
    if ops != [] {
      var n := |ops| - 1;
      CoherentInEveryRun(pol, start, numFrames, ops[..n], times[..n]);
      hide Coherent;
      PerformCoherent(pol, History(pol, start, numFrames, ops[..n], times[..n]), ops[n], times[n]);
    }
  }

  /** In every such run an access by a live process fails exactly when its page is absent and every frame
      is in use and pinned, and a failure changes nothing. */
  lemma FailuresInEveryRun<S(!new)>(pol: Policy<S>, start: S, numFrames: nat, ops: seq<Op>, times: seq<int>,
                                    pid: Pid, v: nat, write: bool, now: int)
    requires Lawful(pol) && |times| == |ops| && Forkless(ops)
    requires pid in History(pol, start, numFrames, ops, times).tables
    ensures var m := History(pol, start, numFrames, ops, times);
            var r := Access(pol, m, pid, v, write, now);
            && (!r.ok <==> !m.Resident(pid, v) && AllPinned(m.frames))
            && (!r.ok ==> Unaffected(m, r.mem, pid, v))
  {
    hide Lawful, Coherent, Access, Compression.Valid, AllPinned;
    CoherentInEveryRun(pol, start, numFrames, ops, times);
    var m := History(pol, start, numFrames, ops, times);
    AccessCoherent(pol, m, pid, v, write, now);
    if !Access(pol, m, pid, v, write, now).ok {
      FailedAccessChangesNothing(pol, m, pid, v, write, now);
    }
  }
}
