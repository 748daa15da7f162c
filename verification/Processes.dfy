/** In every run the manager's per-process maps have the same processes. */
module Processes {
  import opened Prelude
  import opened Frames
  import opened TwoLayerMap
  import opened MemoryModel
  import opened Runs
  import CowState

  ghost predicate SameProcesses<S>(m: Mem<S>) {
    m.tables.Keys == m.mpt.Keys == m.recent.Keys == m.huge.Keys
  }

  /** No map has gained or lost a process, and what the cluster detector remembers is as it was. */
  ghost predicate KeepsProcesses<S>(m: Mem<S>, r: Mem<S>) {
    && r.tables.Keys == m.tables.Keys && r.mpt.Keys == m.mpt.Keys && r.huge.Keys == m.huge.Keys
    && r.recent == m.recent && r.clusters == m.clusters
  }

  lemma EvictKeeps<S>(pol: Policy<S>, m: Mem<S>, i: nat)
    requires i < |m.frames|
    ensures KeepsProcesses(m, Evict(pol, m, i))
  {
    var f := m.frames[i];
    EvictIs(pol, m, i);
    DropMappingTables(m, f.processId, f.pageId);
    hide Evict, DropMapping;
    assert ForgetTranslation(m, f.processId, f.pageId).mpt.Keys == m.mpt.Keys;
  }

  lemma SlotKeeps<S(!new)>(pol: Policy<S>, m: Mem<S>, free: Option<nat>, now: int)
    requires Lawful(pol) && (free.Some? ==> free.value < |m.frames|)
    ensures KeepsProcesses(m, FreeSlot(pol, m, free, now).0)
  {
    hide Lawful, Evict;
    if free.None? {
      var (m1, victim) := Choose(pol, m, Used(m.frames), now);
      if victim.Some? {
        EvictKeeps(pol, m1, victim.value);
      }
    }
  }

  lemma AttachKeeps<S>(pol: Policy<S>, m: Mem<S>, i: nat, pid: Pid, v: nat, now: int)
    requires i < |m.frames| && m.Has(pid, v)
    ensures KeepsProcesses(m, Attach(pol, m, i, pid, v, now))
  {
  }

  lemma LoadKeeps<S(!new)>(pol: Policy<S>, m: Mem<S>, pid: Pid, v: nat, now: int)
    requires Lawful(pol) && m.Has(pid, v)
    ensures KeepsProcesses(m, Load(pol, m, pid, v, now).mem)
  {
    hide Lawful, Attach, FreeSlot, PickFree;
    SlotKeeps(pol, m, PickFree(m, pid), now);
    var (m1, slot) := FreeSlot(pol, m, PickFree(m, pid), now);
    if slot.Some? {
      AttachKeeps(pol, m1, slot.value, pid, v, now);
    }
  }

  lemma PlaceCopyKeeps<S>(pol: Policy<S>, m: Mem<S>, i: nat, pid: Pid, id: nat, newId: nat, now: int)
    requires i < |m.frames| && pid in m.tables
    ensures KeepsProcesses(m, PlaceCopy(pol, m, i, pid, id, newId, now))
  {
  }

  lemma CopyKeeps<S(!new)>(pol: Policy<S>, m: Mem<S>, pid: Pid, v: nat, newId: nat, now: int)
    requires Lawful(pol) && m.Has(pid, v)
    ensures KeepsProcesses(m, MakeCopy(pol, m, pid, v, newId, now).mem)
  {
    hide Lawful, FreeSlot, PlaceCopy;
    var free := FirstFree(m.frames, 0, |m.frames|);
    SlotKeeps(pol, m, free, now);
    var (m1, slot) := FreeSlot(pol, m, free, now);
    if slot.Some? {
      var i := slot.value;
      var m2 := m1.(frames := m1.frames[i := m1.frames[i].Allocate(newId, pid, now)]);
      PlaceCopyKeeps(pol, m2, i, pid, m.tables[pid][v].id, newId, now);
    }
  }

  lemma SettleKeeps<S(!new)>(pol: Policy<S>, m: Mem<S>, pid: Pid, v: nat, write: bool, now: int)
    requires Lawful(pol) && m.Has(pid, v)
    ensures KeepsProcesses(m, SettleWrite(pol, m, pid, v, write, now).mem)
  {
    hide Lawful, MakeCopy, CowState.HandleWrite;
    var page := m.tables[pid][v];
    if write && page.shared {
      var (cow, verdict) := CowState.HandleWrite(m.cow, page.id, pid, page.shared);
      if verdict.Copy? {
        CopyKeeps(pol, m.(cow := cow.(created := cow.created + 1)), pid, v, verdict.newId, now);
      }
    }
  }

  lemma FaultKeeps<S(!new)>(pol: Policy<S>, m: Mem<S>, pid: Pid, v: nat, write: bool, now: int)
    requires Lawful(pol) && m.Has(pid, v)
    ensures KeepsProcesses(m, Fault(pol, m, pid, v, write, now).mem)
  {
    var m1 := TakeOut(m, m.tables[pid][v].id).0;
    assert m1 == m.(store := m1.store);
    hide Lawful, Load, SettleWrite, TakeOut;
    LoadKeeps(pol, m1, pid, v, now);
    var l := Load(pol, m1, pid, v, now);
    if l.ok {
      SettleKeeps(pol, l.mem, pid, v, write, now);
    }
  }

  lemma {:induction false} EnforceKeeps<S(!new)>(pol: Policy<S>, m: Mem<S>, used: seq<nat>, target: int, now: int)
    requires Lawful(pol) && FrameList(m.frames, used)
    ensures KeepsProcesses(m, Enforce(pol, m, used, target, now))
    decreases |used|
  {
    hide Lawful, Evict;
    if target > 0 && |used| > target {
      var (m1, victim) := Choose(pol, m, used, now);
      if victim.Some? {
        EvictKeeps(pol, m1, victim.value);
        EnforceKeeps(pol, Evict(pol, m1, victim.value), Without(used, victim.value), target, now);
      }
    }
  }

  lemma TargetKeeps<S(!new)>(pol: Policy<S>, m: Mem<S>, now: int)
    requires Lawful(pol)
    ensures KeepsProcesses(m, EnforceTarget(pol, m, now))
  {
    hide Lawful, Enforce;
    if pol.target(m.policy).Some? {
      EnforceKeeps(pol, m, Used(m.frames), pol.target(m.policy).value, now);
    }
  }

  lemma {:induction false} PrefetchKeeps<S>(pol: Policy<S>, m: Mem<S>, pid: Pid, pages: seq<nat>, done: nat, now: int)
    requires pid in m.tables
    ensures KeepsProcesses(m, Prefetch(pol, m, pid, pages, done, now))
    decreases |pages|
  {
    hide EnsurePage, Attach, Prefetch, PickFree;
    PrefetchUnfold(pol, m, pid, pages, done, now);
    if pages != [] && done < MAX_PREFETCH {
      var m1 := EnsurePage(m, pid, pages[0]);
      EnsureKeeps(m, pid, pages[0]);
      var free := PickFree(m1, pid);
      if m1.tables[pid][pages[0]].present {
        PrefetchKeeps(pol, m1, pid, pages[1..], done, now);
      } else if free.Some? {
        AttachKeeps(pol, m1, free.value, pid, pages[0], now);
        PrefetchKeeps(pol, PrefetchOne(pol, m1, free.value, pid, pages[0], now), pid, pages[1..], done + 1, now);
      }
    }
  }

  lemma EnsureKeeps<S>(m: Mem<S>, pid: Pid, v: nat)
    requires pid in m.tables
    ensures KeepsProcesses(m, EnsurePage(m, pid, v))
  {
  }

  lemma MissKeeps<S(!new)>(pol: Policy<S>, m: Mem<S>, pid: Pid, v: nat, write: bool, now: int)
    requires Lawful(pol) && m.Has(pid, v)
    ensures KeepsProcesses(m, MissOutcome(pol, m, pid, v, write, now).mem)
  {
    hide Lawful, Fault, EnforceTarget, Prefetch;
    FaultKeeps(pol, m, pid, v, write, now);
    var c := CountFault(Fault(pol, m, pid, v, write, now).mem);
    TargetKeeps(pol, c, now);
    var m1 := EnforceTarget(pol, c, now);
    if pid in m1.tables && pid in m1.recent && |m1.recent[pid]| >= 3 {
      PrefetchKeeps(pol, m1, pid, Candidates(m1.recent[pid][|m1.recent[pid]| - 3]), 0, now);
    }
  }

  /** The state after trackAccess, if it is called. */
  function Tracked<S>(m: Mem<S>, pid: Pid, v: nat): Mem<S> {
    if m.clustering && pid in m.tables then Track(m, pid, v) else m
  }

  /** An access, failed or not, is tracked once and before anything else, and only if clustering is on and its process
      lives. */
  lemma AccessIsTracked<S(!new)>(pol: Policy<S>, m: Mem<S>, pid: Pid, v: nat, write: bool, now: int)
    requires Lawful(pol)
    ensures KeepsProcesses(Tracked(m, pid, v), Access(pol, m, pid, v, write, now).mem)
  {
    if pid in m.tables {
      var m1 := Prepared(m, pid, v);
      EnsureKeeps(Tracked(m, pid, v), pid, v);
      hide Lawful, Track, SettleWrite, MissOutcome;
      assert KeepsProcesses(Tracked(m, pid, v), m1);
      hide Prepared;
      if m1.Resident(pid, v) {
        SettleKeeps(pol, FastHit(pol, m1, m1.tables[pid][v].frame, write, now), pid, v, write, now);
      } else {
        MissKeeps(pol, m1, pid, v, write, now);
      }
    }
  }

  lemma HugeKeeps<S(!new)>(pol: Policy<S>, m: Mem<S>, pid: Pid, index: nat, now: int)
    requires Lawful(pol)
    ensures KeepsProcesses(m, MapHuge(pol, m, pid, index, now).mem)
  {
    hide Lawful, FreeSlot, PickFree;
    if index < HUGE_INDEX_LIMIT && pid in m.tables {
      SlotKeeps(pol, m, PickFree(m, pid), now);
    }
  }

  // ---- Coming and going ----

  /** Nothing is mapped, tracked or known of the process but its page table. */
  ghost predicate Unmapped<S>(m: Mem<S>, pid: Pid) {
    && pid in m.mpt && (forall va :: m.mpt[pid].Lookup(va).None?)
    && pid in m.recent && m.recent[pid] == []
    && pid in m.huge && m.huge[pid] == map[]
  }

  /** Everything of the process is in r as it was in m. */
  ghost predicate Untouched<S>(m: Mem<S>, r: Mem<S>, pid: Pid) {
    && (pid in r.tables <==> pid in m.tables) && (pid in m.tables ==> r.tables[pid] == m.tables[pid])
    && (pid in r.mpt <==> pid in m.mpt) && (pid in m.mpt ==> r.mpt[pid] == m.mpt[pid])
    && (pid in r.recent <==> pid in m.recent) && (pid in m.recent ==> r.recent[pid] == m.recent[pid])
    && (pid in r.huge <==> pid in m.huge) && (pid in m.huge ==> r.huge[pid] == m.huge[pid])
    && forall a: nat :: (pid, a) in r.clusters <==> (pid, a) in m.clusters
  }

  lemma CreatedIsUnmapped<S>(m: Mem<S>, pid: Pid)
    requires pid !in m.tables
    ensures var r := Create(m, pid).mem;
            Unmapped(r, pid) && pid in r.tables && r.tables[pid] == map[]
    ensures forall q :: q != pid ==> Untouched(m, Create(m, pid).mem, q)
  {
  }

  /** A forked process has the parent's pages, but no 4-level mapping and no huge page; of the other processes a fork
      changes the parent's page table only. */
  lemma ForkedIsUnmapped<S>(m: Mem<S>, parent: Pid, child: Pid, q: Pid)
    requires parent in m.tables
    ensures var r := Fork(m, parent, child).mem;
            && Unmapped(r, child) && child in r.tables && r.tables[child].Keys == m.tables[parent].Keys
            && (q != child && q != parent ==> Untouched(m, r, q))
  {
    hide CowState.ShareAll, SharePresent, PresentIds, Clone, Unmapped;
    var r := Fork(m, parent, child).mem;
    SamePages(m.tables[parent]);
    assert r.mpt[child] == EMPTY && r.recent[child] == [] && r.huge[child] == map[] && r.clusters == m.clusters;
    StartsUnmapped(r, child);
  }

  lemma SamePages(table: PageTable)
    ensures Clone(table).Keys == table.Keys
  {
  }

  lemma StartsUnmapped<S>(m: Mem<S>, pid: Pid)
    requires pid in m.mpt && m.mpt[pid] == EMPTY && pid in m.recent && m.recent[pid] == []
    requires pid in m.huge && m.huge[pid] == map[]
    ensures Unmapped(m, pid)
  {
  }

  /** A process that is removed leaves nothing behind, and nothing of another changes: unless its name is empty, which
      takes away every cluster. */
  lemma RemovalIsComplete<S>(m: Mem<S>, pid: Pid, q: Pid)
    requires pid in m.tables
    ensures var r := Remove(m, pid).mem;
            && pid !in r.tables && pid !in r.mpt && pid !in r.recent && pid !in r.huge
            && (forall a: nat :: (pid, a) !in r.clusters)
            && (q != pid && pid != "" ==> Untouched(m, r, q))
            && (pid == "" ==> r.clusters == {})
  {
    hide HoldsFrame, CowState.DropEverywhere;
  }

  // ---- In every run ----

  /** The processes of the per-process maps are the same, no more than sixteen pages are remembered of any, and every
      cluster is a living process's. */
  ghost predicate Orderly<S>(m: Mem<S>) {
    && SameProcesses(m)
    && (forall p :: p in m.recent ==> |m.recent[p]| <= RECENT)
    && (forall p, a: nat :: (p, a) in m.clusters ==> p in m.tables)
  }

  lemma TrackedIsOrderly<S>(m: Mem<S>, pid: Pid, v: nat)
    requires Orderly(m)
    ensures Orderly(Tracked(m, pid, v))
  {
  }

  lemma KeptIsOrderly<S>(m: Mem<S>, r: Mem<S>)
    requires Orderly(m) && KeepsProcesses(m, r)
    ensures Orderly(r)
  {
  }

  lemma ForkIsOrderly<S>(m: Mem<S>, parent: Pid, child: Pid)
    requires Orderly(m)
    ensures Orderly(Fork(m, parent, child).mem)
  {
    hide SharePresent, Clone, CowState.ShareAll;
  }

  lemma RemoveIsOrderly<S>(m: Mem<S>, pid: Pid)
    requires Orderly(m)
    ensures Orderly(Remove(m, pid).mem)
  {
    hide HoldsFrame, CowState.DropEverywhere;
    var r := Remove(m, pid).mem;
    if pid in m.tables {
      assert r.tables.Keys == m.tables.Keys - {pid} && r.mpt.Keys == m.mpt.Keys - {pid};
      assert r.recent.Keys == m.recent.Keys - {pid} && r.huge.Keys == m.huge.Keys - {pid};
    }
  }

  lemma PerformIsOrderly<S(!new)>(pol: Policy<S>, m: Mem<S>, op: Op, now: int)
    requires Lawful(pol) && Orderly(m)
    ensures Orderly(Perform(pol, m, op, now).mem)
  {
    hide Lawful, Access, MapHuge, Fork, Remove, Tracked, KeepsProcesses;
    match op
    case Touch(pid, v, write) =>
      AccessIsTracked(pol, m, pid, v, write, now);
      TrackedIsOrderly(m, pid, v);
      KeptIsOrderly(Tracked(m, pid, v), Access(pol, m, pid, v, write, now).mem);
    case Kill(pid) => RemoveIsOrderly(m, pid);
    case ForkTo(parent, child) => ForkIsOrderly(m, parent, child);
    case HugeMap(pid, index) =>
      HugeKeeps(pol, m, pid, index, now);
      KeptIsOrderly(m, MapHuge(pol, m, pid, index, now).mem);
    case _ =>
  }

  /** After every run, whatever was forked, removed or failed: a process has a page table exactly if it has a
      multi-level table, a list of recent pages, of at most sixteen, and a map of huge pages, and a removed process has
      left no cluster behind. */
  lemma {:induction false} ProcessesInEveryRun<S(!new)>(pol: Policy<S>, start: S, numFrames: nat, ops: seq<Op>,
                                                        times: seq<int>)
    requires Lawful(pol) && |times| == |ops|
    ensures Orderly(History(pol, start, numFrames, ops, times))
  {
    if ops != [] {
      var n := |ops| - 1;
      ProcessesInEveryRun(pol, start, numFrames, ops[..n], times[..n]);
      hide Lawful, Perform, Orderly;
      PerformIsOrderly(pol, History(pol, start, numFrames, ops[..n], times[..n]), ops[n], times[n]);
    }
  }
}
