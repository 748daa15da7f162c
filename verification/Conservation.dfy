/** Frames are conserved: every used frame came from a page fault, a copy or a prefetch and leaves by
    an eviction or a removal. Holds through forks, copies, huge pages, resident-set targets, pins and
    compression. */
module Conservation {
  import opened Prelude
  import opened Frames
  import opened MemoryModel
  import opened Runs
  import opened Failures
  import opened Pins
  import CowState

  function Weight(f: Frame): nat {
    if f.free then 0 else 1
  }

  function CountUpTo(fs: seq<Frame>, n: nat): nat
    requires n <= |fs|
  {
    if n == 0 then 0 else CountUpTo(fs, n - 1) + Weight(fs[n - 1])
  }

  /** GetUsedCount. */
  function UsedCount(frames: seq<Frame>): nat {
    CountUpTo(frames, |frames|)
  }

  /** Used frames and evictions against faults, copies and prefetched pages. */
  ghost function Balance<S>(m: Mem<S>): int {
    UsedCount(m.frames) + m.metrics.evictions - m.metrics.faults - m.metrics.cowCopies - m.metrics.prefetched
  }

  ghost predicate AccessesAdd(t: Metrics) {
    t.accesses == t.faults + t.hits
  }

  // ---- Counting used frames ----

  lemma {:induction false} CountUpdate(fs: seq<Frame>, i: nat, f: Frame, n: nat)
    requires i < |fs| && n <= |fs|
    ensures CountUpTo(fs[i := f], n) == CountUpTo(fs, n) + (if i < n then Weight(f) - Weight(fs[i]) else 0)
  {
    if n > 0 {
      CountUpdate(fs, i, f, n - 1);
    }
  }

  lemma {:induction false} CountSameOwners(a: seq<Frame>, b: seq<Frame>, n: nat)
    requires SameOwners(a, b) && n <= |a|
    ensures CountUpTo(a, n) == CountUpTo(b, n)
  {
    if n > 0 {
      CountSameOwners(a, b, n - 1);
    }
  }

  lemma {:induction false} CountNone(fs: seq<Frame>, n: nat)
    requires n <= |fs| && forall i :: 0 <= i < |fs| ==> fs[i].free
    ensures CountUpTo(fs, n) == 0
  {
    if n > 0 {
      CountNone(fs, n - 1);
    }
  }

  /** The count is the number of frames that GetUsedFrames lists. */
  lemma {:induction false} CountIsUsed(fs: seq<Frame>, n: nat)
    requires n <= |fs|
    ensures CountUpTo(fs, n) == |UsedUpTo(fs, n)|
  {
    if n > 0 {
      CountIsUsed(fs, n - 1);
      var before := UsedUpTo(fs, n - 1);
      assert UsedUpTo(fs, n) == if fs[n - 1].free then before + [] else before + [n - 1];
      hide UsedUpTo;
    }
  }

  // ---- The pieces ----

  /** Evicting a used frame moves one unit from the used frames to the evictions. */
  lemma EvictBalances<S>(pol: Policy<S>, m: Mem<S>, i: nat)
    requires i < |m.frames| && !m.frames[i].free
    ensures Balance(Evict(pol, m, i)) == Balance(m)
    ensures AccessesAdd(m.metrics) ==> AccessesAdd(Evict(pol, m, i).metrics)
  {
    EvictIs(pol, m, i);
    CountUpdate(m.frames, i, Evict(pol, m, i).frames[i], |m.frames|);
    hide Evict, DropMapping, ForgetTranslation, CountUpTo;
  }

  lemma ChooseBalances<S(!new)>(pol: Policy<S>, m: Mem<S>, ids: seq<nat>, now: int)
    requires Lawful(pol) && FrameList(m.frames, ids)
    ensures var r := Choose(pol, m, ids, now).0; Balance(r) == Balance(m) && r.metrics == m.metrics
  {
    CountSameOwners(Choose(pol, m, ids, now).0.frames, m.frames, |m.frames|);
  }

  /** A frame had by eviction costs nothing in the balance, and is free. */
  lemma FreeSlotBalances<S(!new)>(pol: Policy<S>, m: Mem<S>, free: Option<nat>, now: int)
    requires Lawful(pol) && (free.Some? ==> free.value < |m.frames| && m.frames[free.value].free)
    ensures var (r, slot) := FreeSlot(pol, m, free, now);
            && Balance(r) == Balance(m)
            && (slot.Some? ==> r.frames[slot.value].free)
            && (AccessesAdd(m.metrics) ==> AccessesAdd(r.metrics))
  {
    if free.None? {
      ChooseBalances(pol, m, Used(m.frames), now);
      var (m1, victim) := Choose(pol, m, Used(m.frames), now);
      if victim.Some? {
        EvictBalances(pol, m1, victim.value);
        EvictTables(pol, m1, victim.value);
      }
    }
    hide Evict, Balance, Lawful;
  }

  lemma AttachBalances<S(!new)>(pol: Policy<S>, m: Mem<S>, i: nat, pid: Pid, v: nat, now: int)
    requires Lawful(pol) && i < |m.frames| && m.frames[i].free && m.Has(pid, v)
    ensures var r := Attach(pol, m, i, pid, v, now); Balance(r) == Balance(m) + 1 && r.metrics == m.metrics
  {
    var r := Attach(pol, m, i, pid, v, now);
    assert r.frames == m.frames[i := r.frames[i]] && !r.frames[i].free;
    CountUpdate(m.frames, i, r.frames[i], |m.frames|);
  }

  lemma LoadBalances<S(!new)>(pol: Policy<S>, m: Mem<S>, pid: Pid, v: nat, now: int)
    requires Lawful(pol) && m.Has(pid, v)
    ensures var r := Load(pol, m, pid, v, now);
            && Balance(r.mem) == Balance(m) + (if r.ok then 1 else 0)
            && (AccessesAdd(m.metrics) ==> AccessesAdd(r.mem.metrics))
  {
    FreeSlotBalances(pol, m, PickFree(m, pid), now);
    var (m1, slot) := FreeSlot(pol, m, PickFree(m, pid), now);
    if slot.Some? {
      AttachBalances(pol, m1, slot.value, pid, v, now);
    }
    hide Attach, FreeSlot, PickFree, Balance, Lawful;
  }

  lemma PlaceCopyBalances<S(!new)>(pol: Policy<S>, m: Mem<S>, i: nat, pid: Pid, id: nat, newId: nat, now: int)
    requires Lawful(pol) && i < |m.frames| && m.frames[i].free && pid in m.tables
    ensures var m1 := m.(frames := m.frames[i := m.frames[i].Allocate(newId, pid, now)]);
            var r := PlaceCopy(pol, m1, i, pid, id, newId, now);
            Balance(r) == Balance(m) && (AccessesAdd(m.metrics) ==> AccessesAdd(r.metrics))
  {
    var m1 := m.(frames := m.frames[i := m.frames[i].Allocate(newId, pid, now)]);
    var r := PlaceCopy(pol, m1, i, pid, id, newId, now);
    assert r.frames == m.frames[i := r.frames[i]] && !r.frames[i].free;
    CountUpdate(m.frames, i, r.frames[i], |m.frames|);
  }

  /** A write to a shared page is balanced whether the copy is made, avoided or fails. */
  lemma SettleWriteBalances<S(!new)>(pol: Policy<S>, m: Mem<S>, pid: Pid, v: nat, write: bool, now: int)
    requires Lawful(pol) && m.Has(pid, v)
    ensures var r := SettleWrite(pol, m, pid, v, write, now);
            Balance(r.mem) == Balance(m) && (AccessesAdd(m.metrics) ==> AccessesAdd(r.mem.metrics))
  {
    if write && m.tables[pid][v].shared {
      var (cow, verdict) := CowState.HandleWrite(m.cow, m.tables[pid][v].id, pid, m.tables[pid][v].shared);
      hide CowState.HandleWrite, FinishWrite;
      FinishWriteBalances(pol, m.(cow := cow), pid, v, verdict, now);
    }
  }

  lemma FinishWriteBalances<S(!new)>(pol: Policy<S>, m: Mem<S>, pid: Pid, v: nat, verdict: CowState.Verdict, now: int)
    requires Lawful(pol) && m.Has(pid, v)
    ensures var r := FinishWrite(pol, m, pid, v, verdict, now);
            Balance(r.mem) == Balance(m) && (AccessesAdd(m.metrics) ==> AccessesAdd(r.mem.metrics))
  {
    hide FreeSlot, PlaceCopy, Lawful, CountUpTo;
    if verdict.Copy? {
      var m0 := m.(cow := m.cow.(created := m.cow.created + 1));
      var free := FirstFree(m0.frames, 0, |m0.frames|);
      FreeSlotBalances(pol, m0, free, now);
      var (m1, slot) := FreeSlot(pol, m0, free, now);
      if slot.Some? {
        PlaceCopyBalances(pol, m1, slot.value, pid, m.tables[pid][v].id, verdict.newId, now);
      }
    }
  }

  /** A fault keeps the balance, but for the one that loses a load: that load is never counted. */
  lemma FaultBalances<S(!new)>(pol: Policy<S>, m: Mem<S>, pid: Pid, v: nat, write: bool, now: int)
    requires Lawful(pol) && m.Has(pid, v)
    ensures var r := Fault(pol, m, pid, v, write, now);
            && Balance(r.mem) == Balance(m) + (if r.ok || LosesLoad(m, pid, v, write) then 1 else 0)
            && (r.ok ==> !LosesLoad(m, pid, v, write))
            && (AccessesAdd(m.metrics) ==> AccessesAdd(r.mem.metrics))
  {
    var m1 := TakeOut(m, m.tables[pid][v].id).0;
    assert m1 == m.(store := m1.store);
    FaultFails(pol, m, pid, v, write, now);
    LoadBalances(pol, m1, pid, v, now);
    var l := Load(pol, m1, pid, v, now);
    if l.ok {
      SettleWriteBalances(pol, l.mem, pid, v, write, now);
    }
    hide Load, SettleWrite, Lawful, TakeOut, CountUpTo, LosesLoad, AllPinned;
  }

  lemma {:induction false} EnforceBalances<S(!new)>(pol: Policy<S>, m: Mem<S>, used: seq<nat>, target: int, now: int)
    requires Lawful(pol) && FrameList(m.frames, used)
    ensures var r := Enforce(pol, m, used, target, now);
            Balance(r) == Balance(m) && (AccessesAdd(m.metrics) ==> AccessesAdd(r.metrics))
    decreases |used|
  {
    hide Balance, Evict;
    if target > 0 && |used| > target {
      ChooseBalances(pol, m, used, now);
      var (m1, victim) := Choose(pol, m, used, now);
      if victim.Some? {
        EvictBalances(pol, m1, victim.value);
        EnforceBalances(pol, Evict(pol, m1, victim.value), Without(used, victim.value), target, now);
      }
    }
  }

  lemma PrefetchOneBalances<S(!new)>(pol: Policy<S>, m: Mem<S>, i: nat, pid: Pid, v: nat, now: int)
    requires Lawful(pol) && i < |m.frames| && m.frames[i].free && m.Has(pid, v)
    ensures var r := PrefetchOne(pol, m, i, pid, v, now);
            Balance(r) == Balance(m) && (AccessesAdd(m.metrics) ==> AccessesAdd(r.metrics))
  {
    AttachBalances(pol, m, i, pid, v, now);
    hide Attach;
  }

  lemma EnsurePageBalances<S>(m: Mem<S>, pid: Pid, v: nat)
    requires pid in m.tables
    ensures EnsurePage(m, pid, v).frames == m.frames && EnsurePage(m, pid, v).metrics == m.metrics
  {
  }

  lemma {:induction false} PrefetchBalances<S(!new)>(pol: Policy<S>, m: Mem<S>, pid: Pid, pages: seq<nat>,
                                                     done: nat, now: int)
    requires Lawful(pol) && pid in m.tables
    ensures var r := Prefetch(pol, m, pid, pages, done, now);
            Balance(r) == Balance(m) && (AccessesAdd(m.metrics) ==> AccessesAdd(r.metrics))
    decreases |pages|
  {
    hide Lawful, PrefetchOne, EnsurePage, PickFree, CountUpTo;
    if pages != [] && done < MAX_PREFETCH {
      EnsurePageBalances(m, pid, pages[0]);
      var m1 := EnsurePage(m, pid, pages[0]);
      var free := PickFree(m1, pid);
      if m1.tables[pid][pages[0]].present {
        PrefetchBalances(pol, m1, pid, pages[1..], done, now);
      } else if free.Some? {
        PrefetchOneBalances(pol, m1, free.value, pid, pages[0], now);
        PrefetchBalances(pol, PrefetchOne(pol, m1, free.value, pid, pages[0], now), pid, pages[1..], done + 1, now);
      }
    }
  }

  // ---- The operations ----

  lemma MissBalances<S(!new)>(pol: Policy<S>, m: Mem<S>, pid: Pid, v: nat, write: bool, now: int)
    requires Lawful(pol) && m.Has(pid, v)
    ensures var r := MissOutcome(pol, m, pid, v, write, now);
            && Balance(r.mem) == Balance(m) + (if LosesLoad(m, pid, v, write) then 1 else 0)
            && (AccessesAdd(m.metrics) ==> AccessesAdd(r.mem.metrics))
  {
    hide Lawful, EnforceTarget, TryPrefetch, Fault, CountUpTo, LosesLoad;
    FaultBalances(pol, m, pid, v, write, now);
    var r := Fault(pol, m, pid, v, write, now);
    if r.ok {
      AfterFaultBalances(pol, r.mem, pid, now);
    }
  }

  /** The fault is counted; what follows it keeps the balance. */
  lemma AfterFaultBalances<S(!new)>(pol: Policy<S>, m: Mem<S>, pid: Pid, now: int)
    requires Lawful(pol)
    ensures var m1 := EnforceTarget(pol, CountFault(m), now);
            var r := if m1.clustering && pid in m1.tables then TryPrefetch(pol, m1, pid, now) else m1;
            Balance(r) == Balance(m) - 1 && (AccessesAdd(m.metrics) ==> AccessesAdd(r.metrics))
  {
    hide Lawful, Enforce, Prefetch, CountUpTo, Candidates;
    var c := CountFault(m);
    var target := pol.target(c.policy);
    if target.Some? {
      EnforceBalances(pol, c, Used(c.frames), target.value, now);
    }
    var m1 := EnforceTarget(pol, c, now);
    if pid in m1.tables && pid in m1.recent && |m1.recent[pid]| >= 3 {
      PrefetchBalances(pol, m1, pid, Candidates(m1.recent[pid][|m1.recent[pid]| - 3]), 0, now);
    }
  }

  lemma HitBalances<S(!new)>(pol: Policy<S>, m: Mem<S>, i: nat, write: bool, now: int)
    requires Lawful(pol) && i < |m.frames|
    ensures var r := FastHit(pol, m, i, write, now);
            && Balance(r) == Balance(m) && r.tables == m.tables
            && (AccessesAdd(m.metrics) ==> AccessesAdd(r.metrics))
  {
    CountSameOwners(FastHit(pol, m, i, write, now).frames, m.frames, |m.frames|);
  }

  lemma PreparedBalances<S>(m: Mem<S>, pid: Pid, v: nat)
    requires pid in m.tables
    ensures Prepared(m, pid, v).frames == m.frames && Prepared(m, pid, v).metrics == m.metrics
  {
  }

  /** The access that loses a load: an absent page marked shared is written, its process is one of several
      registered sharers, every frame is pinned and exactly one is free. */
  ghost predicate AccessLosesLoad<S>(m: Mem<S>, pid: Pid, v: nat, write: bool) {
    m.Has(pid, v) && !m.Resident(pid, v) && LosesLoad(m, pid, v, write)
  }

  /** An access keeps the balance exactly when it does not lose a load. */
  lemma AccessBalances<S(!new)>(pol: Policy<S>, m: Mem<S>, pid: Pid, v: nat, write: bool, now: int)
    requires Lawful(pol)
    ensures var r := Access(pol, m, pid, v, write, now);
            && Balance(r.mem) == Balance(m) + (if AccessLosesLoad(m, pid, v, write) then 1 else 0)
            && (AccessesAdd(m.metrics) ==> AccessesAdd(r.mem.metrics))
            && (AccessLosesLoad(m, pid, v, write) ==> !r.ok)
  {
    AccessFails(pol, m, pid, v, write, now);
    hide Lawful, Prepared, MissOutcome, SettleWrite, FastHit, CountUpTo, LastFrame, CowState.MustCopy, AllPinned;
    if pid in m.tables {
      PreparedBalances(m, pid, v);
      PreparedIs(m, pid, v);
      var m1 := Prepared(m, pid, v);
      if m1.Resident(pid, v) {
        HitBalances(pol, m1, m1.tables[pid][v].frame, write, now);
        SettleWriteBalances(pol, FastHit(pol, m1, m1.tables[pid][v].frame, write, now), pid, v, write, now);
      } else {
        MissBalances(pol, m1, pid, v, write, now);
      }
    }
  }

  lemma MapHugeBalances<S(!new)>(pol: Policy<S>, m: Mem<S>, pid: Pid, index: nat, now: int)
    requires Lawful(pol)
    ensures var r := MapHuge(pol, m, pid, index, now).mem;
            Balance(r) == Balance(m) && (AccessesAdd(m.metrics) ==> AccessesAdd(r.metrics))
  {
    hide FreeSlot, PickFree, CountUpTo;
    if index < HUGE_INDEX_LIMIT && pid in m.tables {
      FreeSlotBalances(pol, m, PickFree(m, pid), now);
      var (m1, slot) := FreeSlot(pol, m, PickFree(m, pid), now);
      if slot.Some? {
        var i := slot.value;
        var m2 := m1.(frames := m1.frames[i := m1.frames[i].Allocate(HUGE_PAGE_BASE + index, pid, now)]);
        var r := HugeMapped(pol, m2, i, pid, index, now);
        assert r.frames == m1.frames[i := r.frames[i]] && !r.frames[i].free;
        CountUpdate(m1.frames, i, r.frames[i], |m1.frames|);
      }
    }
  }

  // ---- Removing a process ----

  ghost function CountHeld(fs: seq<Frame>, table: PageTable, n: nat): nat
    requires n <= |fs|
  {
    if n == 0 then 0
    else CountHeld(fs, table, n - 1) + (if HoldsFrame(table, n - 1) then Weight(fs[n - 1]) else 0)
  }

  /** How many used frames a removal of pid releases: those its pages map. */
  ghost function Released<S>(m: Mem<S>, pid: Pid): nat {
    if pid in m.tables then CountHeld(m.frames, m.tables[pid], |m.frames|) else 0
  }

  lemma {:induction false} HeldLeave(before: seq<Frame>, after: seq<Frame>, table: PageTable, n: nat)
    requires |after| == |before| && n <= |before|
    requires forall i :: 0 <= i < |before| ==>
               after[i] == if HoldsFrame(table, i) then before[i].Release() else before[i]
    ensures CountUpTo(after, n) + CountHeld(before, table, n) == CountUpTo(before, n)
  {
    if n > 0 {
      HeldLeave(before, after, table, n - 1);
      assert after[n - 1] == if HoldsFrame(table, n - 1) then before[n - 1].Release() else before[n - 1];
    }
  }

  lemma RemoveBalances<S>(m: Mem<S>, pid: Pid)
    ensures var r := Remove(m, pid).mem; Balance(r) + Released(m, pid) == Balance(m) && r.metrics == m.metrics
  {
    if pid in m.tables {
      HeldLeave(m.frames, Remove(m, pid).mem.frames, m.tables[pid], |m.frames|);
    }
    hide HoldsFrame, CowState.DropEverywhere;
  }

  lemma PinBalances<S>(m: Mem<S>, i: nat, on: bool)
    ensures var r := PinFrame(m, i, on).mem; Balance(r) == Balance(m) && r.metrics == m.metrics
  {
    if i < |m.frames| {
      CountUpdate(m.frames, i, m.frames[i].SetPinned(on), |m.frames|);
    }
  }

  // ---- Whole runs ----

  ghost predicate ErrorFree<S(!new)>(pol: Policy<S>, start: S, numFrames: nat, ops: seq<Op>, times: seq<int>)
    requires Lawful(pol) && |times| == |ops|
  {
    ops == [] ||
    var n := |ops| - 1;
    && ErrorFree(pol, start, numFrames, ops[..n], times[..n])
    && Perform(pol, History(pol, start, numFrames, ops[..n], times[..n]), ops[n], times[n]).ok
  }

  /** How many loads were lost since the last reset. */
  ghost function LostLoads<S(!new)>(pol: Policy<S>, start: S, numFrames: nat, ops: seq<Op>, times: seq<int>): nat
    requires Lawful(pol) && |times| == |ops|
  {
    if ops == [] || ops[|ops| - 1].ResetAll? then 0
    else
      var n := |ops| - 1;
      var m, op := History(pol, start, numFrames, ops[..n], times[..n]), ops[n];
      LostLoads(pol, start, numFrames, ops[..n], times[..n])
      + if op.Touch? && AccessLosesLoad(m, op.pid, op.v, op.write) then 1 else 0
  }

  lemma LostLoadsSnoc<S(!new)>(pol: Policy<S>, start: S, numFrames: nat, ops: seq<Op>, times: seq<int>, op: Op,
                               now: int)
    requires Lawful(pol) && |times| == |ops| && op.Touch?
    ensures LostLoads(pol, start, numFrames, ops + [op], times + [now])
            == LostLoads(pol, start, numFrames, ops, times)
               + if AccessLosesLoad(History(pol, start, numFrames, ops, times), op.pid, op.v, op.write) then 1 else 0
  {
    hide AccessLosesLoad, Lawful, History;
    assert (ops + [op])[..|ops|] == ops && (times + [now])[..|times|] == times;
  }

  /** How many used frames removals released since the last reset. */
  ghost function FramesReleased<S(!new)>(pol: Policy<S>, start: S, numFrames: nat, ops: seq<Op>, times: seq<int>): nat
    requires Lawful(pol) && |times| == |ops|
  {
    if ops == [] || ops[|ops| - 1].ResetAll? then 0
    else
      var n := |ops| - 1;
      var m, op := History(pol, start, numFrames, ops[..n], times[..n]), ops[n];
      FramesReleased(pol, start, numFrames, ops[..n], times[..n]) + if op.Kill? then Released(m, op.pid) else 0
  }

  lemma PerformBalances<S(!new)>(pol: Policy<S>, m: Mem<S>, op: Op, now: int)
    requires Lawful(pol) && !op.ResetAll?
    ensures var r := Perform(pol, m, op, now);
            && Balance(r.mem) + (if op.Kill? then Released(m, op.pid) else 0)
               == Balance(m) + (if op.Touch? && AccessLosesLoad(m, op.pid, op.v, op.write) then 1 else 0)
            && (AccessesAdd(m.metrics) ==> AccessesAdd(r.mem.metrics))
            && (op.Touch? && AccessLosesLoad(m, op.pid, op.v, op.write) ==> !r.ok)
  {
    hide Access, MapHuge, Remove, PinFrame, AccessLosesLoad, Lawful, CountUpTo, Released;
    match op
    case Touch(pid, v, write) => AccessBalances(pol, m, pid, v, write, now);
    case HugeMap(pid, index) => MapHugeBalances(pol, m, pid, index, now);
    case Kill(pid) => RemoveBalances(m, pid);
    case SetPin(i, on) => PinBalances(m, i, on);
    case _ =>
  }

  /** In every run: used frames + evictions + frames released by removals == faults + copies + prefetched
      pages + lost loads, and accesses == faults + hits. */
  lemma {:induction false} FramesAreConserved<S(!new)>(pol: Policy<S>, start: S, numFrames: nat, ops: seq<Op>,
                                                       times: seq<int>)
    requires Lawful(pol) && |times| == |ops|
    ensures var m := History(pol, start, numFrames, ops, times);
            && UsedCount(m.frames) + m.metrics.evictions + FramesReleased(pol, start, numFrames, ops, times)
               == m.metrics.faults + m.metrics.cowCopies + m.metrics.prefetched
                  + LostLoads(pol, start, numFrames, ops, times)
            && m.metrics.accesses == m.metrics.faults + m.metrics.hits
  {
    var m := History(pol, start, numFrames, ops, times);
    if ops == [] || ops[|ops| - 1].ResetAll? {
      CountNone(m.frames, |m.frames|);
    } else {
      var n := |ops| - 1;
      hide Perform, CountUpTo, Released, AccessLosesLoad;
      FramesAreConserved(pol, start, numFrames, ops[..n], times[..n]);
      PerformBalances(pol, History(pol, start, numFrames, ops[..n], times[..n]), ops[n], times[n]);
    }
  }

  /** The counters balance without a correction. */
  ghost predicate Balanced<S(!new)>(pol: Policy<S>, start: S, numFrames: nat, ops: seq<Op>, times: seq<int>)
    requires Lawful(pol) && |times| == |ops|
  {
    var m := History(pol, start, numFrames, ops, times);
    UsedCount(m.frames) + m.metrics.evictions + FramesReleased(pol, start, numFrames, ops, times)
    == m.metrics.faults + m.metrics.cowCopies + m.metrics.prefetched
  }

  /** Without errors no load is lost. */
  lemma {:induction false} ErrorFreeRunsLoseNothing<S(!new)>(pol: Policy<S>, start: S, numFrames: nat, ops: seq<Op>,
                                                             times: seq<int>)
    requires Lawful(pol) && |times| == |ops| && ErrorFree(pol, start, numFrames, ops, times)
    ensures LostLoads(pol, start, numFrames, ops, times) == 0
    ensures Balanced(pol, start, numFrames, ops, times)
  {
    if ops != [] && !ops[|ops| - 1].ResetAll? {
      var n := |ops| - 1;
      hide Perform, CountUpTo, FramesReleased, AccessLosesLoad;
      ErrorFreeRunsLoseNothing(pol, start, numFrames, ops[..n], times[..n]);
      PerformBalances(pol, History(pol, start, numFrames, ops[..n], times[..n]), ops[n], times[n]);
    }
    FramesAreConserved(pol, start, numFrames, ops, times);
  }

  /** Runs that pin no frame lose no load, whatever fails in them. */
  lemma {:induction false} UnpinnedRunsLoseNothing<S(!new)>(pol: Policy<S>, start: S, numFrames: nat, ops: seq<Op>,
                                                            times: seq<int>)
    requires Lawful(pol) && |times| == |ops| && NeverPins(ops)
    ensures LostLoads(pol, start, numFrames, ops, times) == 0
    ensures Balanced(pol, start, numFrames, ops, times)
  {
    if ops != [] && !ops[|ops| - 1].ResetAll? {
      var n := |ops| - 1;
      hide Perform, CountUpTo, FramesReleased;
      UnpinnedRunsLoseNothing(pol, start, numFrames, ops[..n], times[..n]);
      NothingPinned(pol, start, numFrames, ops[..n], times[..n]);
    }
    FramesAreConserved(pol, start, numFrames, ops, times);
  }
}
