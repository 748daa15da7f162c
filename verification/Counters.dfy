/** What the counters of hits, faults and accesses count. */
module Counters {
  import opened Prelude
  import opened Frames
  import opened MemoryModel
  import opened Runs
  import Failures
  import CowState

  ghost predicate Uncounted<S>(m: Mem<S>, r: Mem<S>) {
    r.metrics.hits == m.metrics.hits && r.metrics.faults == m.metrics.faults && r.metrics.accesses == m.metrics.accesses
  }

  ghost predicate Counted<S>(m: Mem<S>, r: Mem<S>, hits: int, faults: int) {
    && r.metrics.hits == m.metrics.hits + hits && r.metrics.faults == m.metrics.faults + faults
    && r.metrics.accesses == m.metrics.accesses + hits + faults
  }

  lemma SlotUncounted<S(!new)>(pol: Policy<S>, m: Mem<S>, free: Option<nat>, now: int)
    requires Lawful(pol) && (free.Some? ==> free.value < |m.frames|)
    ensures Uncounted(m, FreeSlot(pol, m, free, now).0)
  {
    hide Lawful, Evict;
    if free.None? {
      var (m1, victim) := Choose(pol, m, Used(m.frames), now);
      if victim.Some? {
        EvictIs(pol, m1, victim.value);
      }
    }
  }

  lemma LoadUncounted<S(!new)>(pol: Policy<S>, m: Mem<S>, pid: Pid, v: nat, now: int)
    requires Lawful(pol) && m.Has(pid, v)
    ensures Uncounted(m, Load(pol, m, pid, v, now).mem)
  {
    hide Lawful, FreeSlot, PickFree;
    SlotUncounted(pol, m, PickFree(m, pid), now);
  }

  lemma CopyUncounted<S(!new)>(pol: Policy<S>, m: Mem<S>, pid: Pid, v: nat, newId: nat, now: int)
    requires Lawful(pol) && m.Has(pid, v)
    ensures Uncounted(m, MakeCopy(pol, m, pid, v, newId, now).mem)
  {
    hide Lawful, FreeSlot;
    SlotUncounted(pol, m, FirstFree(m.frames, 0, |m.frames|), now);
  }

  lemma SettleUncounted<S(!new)>(pol: Policy<S>, m: Mem<S>, pid: Pid, v: nat, write: bool, now: int)
    requires Lawful(pol) && m.Has(pid, v)
    ensures Uncounted(m, SettleWrite(pol, m, pid, v, write, now).mem)
  {
    hide Lawful, MakeCopy, CowState.HandleWrite;
    var page := m.tables[pid][v];
    if write && page.shared {
      var (cow, verdict) := CowState.HandleWrite(m.cow, page.id, pid, page.shared);
      if verdict.Copy? {
        CopyUncounted(pol, m.(cow := cow.(created := cow.created + 1)), pid, v, verdict.newId, now);
      }
    }
  }

  lemma FaultUncounted<S(!new)>(pol: Policy<S>, m: Mem<S>, pid: Pid, v: nat, write: bool, now: int)
    requires Lawful(pol) && m.Has(pid, v)
    ensures Uncounted(m, Fault(pol, m, pid, v, write, now).mem)
  {
    var m1 := TakeOut(m, m.tables[pid][v].id).0;
    assert m1 == m.(store := m1.store);
    hide Lawful, Load, SettleWrite, TakeOut;
    LoadUncounted(pol, m1, pid, v, now);
    var l := Load(pol, m1, pid, v, now);
    if l.ok {
      SettleUncounted(pol, l.mem, pid, v, write, now);
    }
  }

  lemma {:induction false} EnforceUncounted<S(!new)>(pol: Policy<S>, m: Mem<S>, used: seq<nat>, target: int, now: int)
    requires Lawful(pol) && FrameList(m.frames, used)
    ensures Uncounted(m, Enforce(pol, m, used, target, now))
    decreases |used|
  {
    hide Lawful, Evict;
    if target > 0 && |used| > target {
      var (m1, victim) := Choose(pol, m, used, now);
      if victim.Some? {
        EvictIs(pol, m1, victim.value);
        EnforceUncounted(pol, Evict(pol, m1, victim.value), Without(used, victim.value), target, now);
      }
    }
  }

  lemma {:induction false} PrefetchUncounted<S>(pol: Policy<S>, m: Mem<S>, pid: Pid, pages: seq<nat>, done: nat,
                                                now: int)
    requires pid in m.tables
    ensures Uncounted(m, Prefetch(pol, m, pid, pages, done, now))
    decreases |pages|
  {
    hide EnsurePage, PrefetchOne, Prefetch, PickFree;
    PrefetchUnfold(pol, m, pid, pages, done, now);
    if pages != [] && done < MAX_PREFETCH {
      var m1 := EnsurePage(m, pid, pages[0]);
      EnsureUncounted(m, pid, pages[0]);
      var free := PickFree(m1, pid);
      if m1.tables[pid][pages[0]].present {
        PrefetchUncounted(pol, m1, pid, pages[1..], done, now);
      } else if free.Some? {
        OneUncounted(pol, m1, free.value, pid, pages[0], now);
        PrefetchUncounted(pol, PrefetchOne(pol, m1, free.value, pid, pages[0], now), pid, pages[1..], done + 1, now);
      }
    }
  }

  lemma EnsureUncounted<S>(m: Mem<S>, pid: Pid, v: nat)
    requires pid in m.tables
    ensures Uncounted(m, EnsurePage(m, pid, v))
  {
  }

  lemma OneUncounted<S>(pol: Policy<S>, m: Mem<S>, i: nat, pid: Pid, v: nat, now: int)
    requires i < |m.frames| && m.Has(pid, v)
    ensures Uncounted(m, PrefetchOne(pol, m, i, pid, v, now))
  {
  }

  lemma FollowUncounted<S(!new)>(pol: Policy<S>, m: Mem<S>, pid: Pid, now: int)
    requires Lawful(pol)
    ensures var m1 := EnforceTarget(pol, m, now);
            Uncounted(m, if m1.clustering && pid in m1.tables then TryPrefetch(pol, m1, pid, now) else m1)
  {
    hide Lawful, Enforce, Prefetch;
    if pol.target(m.policy).Some? {
      EnforceUncounted(pol, m, Used(m.frames), pol.target(m.policy).value, now);
    }
    var m1 := EnforceTarget(pol, m, now);
    if pid in m1.tables && pid in m1.recent && |m1.recent[pid]| >= 3 {
      PrefetchUncounted(pol, m1, pid, Candidates(m1.recent[pid][|m1.recent[pid]| - 3]), 0, now);
    }
  }

  lemma HitCounted<S(!new)>(pol: Policy<S>, m: Mem<S>, pid: Pid, v: nat, write: bool, now: int)
    requires Lawful(pol) && m.Resident(pid, v)
    ensures Counted(m, SettleWrite(pol, FastHit(pol, m, m.tables[pid][v].frame, write, now), pid, v, write, now).mem,
                    1, 0)
  {
    hide Lawful, SettleWrite;
    SettleUncounted(pol, FastHit(pol, m, m.tables[pid][v].frame, write, now), pid, v, write, now);
  }

  lemma MissCounted<S(!new)>(pol: Policy<S>, m: Mem<S>, pid: Pid, v: nat, write: bool, now: int)
    requires Lawful(pol) && m.Has(pid, v)
    ensures var r := MissOutcome(pol, m, pid, v, write, now); Counted(m, r.mem, 0, if r.ok then 1 else 0)
  {
    hide Lawful, Fault, EnforceTarget, TryPrefetch;
    FaultUncounted(pol, m, pid, v, write, now);
    FollowUncounted(pol, CountFault(Fault(pol, m, pid, v, write, now).mem), pid, now);
  }

  /** An access is counted once: as a hit if its page is resident, even if the write then fails, and as a fault if
      the page is absent and can be had. Nothing else in it is counted. */
  lemma AccessIsCounted<S(!new)>(pol: Policy<S>, m: Mem<S>, pid: Pid, v: nat, write: bool, now: int)
    requires Lawful(pol)
    ensures var r := Access(pol, m, pid, v, write, now);
            Counted(m, r.mem, if m.Resident(pid, v) then 1 else 0, if r.ok && !m.Resident(pid, v) then 1 else 0)
  {
    hide Lawful, Prepared, SettleWrite, FastHit, MissOutcome;
    if pid in m.tables {
      Failures.PreparedIs(m, pid, v);
      PreparedMetrics(m, pid, v);
      var m1 := Prepared(m, pid, v);
      if m1.Resident(pid, v) {
        HitCounted(pol, m1, pid, v, write, now);
      } else {
        MissCounted(pol, m1, pid, v, write, now);
      }
    }
  }

  lemma PreparedMetrics<S>(m: Mem<S>, pid: Pid, v: nat)
    requires pid in m.tables
    ensures Prepared(m, pid, v).metrics == m.metrics
  {
    var m1 := if m.clustering then Track(m, pid, v) else m;
    assert m1 == m.(recent := m1.recent, clusters := m1.clusters);
    hide Track;
  }

  lemma HugeIsCounted<S(!new)>(pol: Policy<S>, m: Mem<S>, pid: Pid, index: nat, now: int)
    requires Lawful(pol)
    ensures var r := MapHuge(pol, m, pid, index, now); Counted(m, r.mem, 0, if r.ok then 1 else 0)
  {
    hide Lawful, FreeSlot, PickFree;
    if index < HUGE_INDEX_LIMIT && pid in m.tables {
      SlotUncounted(pol, m, PickFree(m, pid), now);
    }
  }

  // ---- Whole runs ----

  /** The operation finds its page resident. */
  ghost predicate Hits<S>(m: Mem<S>, op: Op) {
    op.Touch? && m.Resident(op.pid, op.v)
  }

  /** It brings a page in. */
  ghost predicate Faults<S(!new)>(pol: Policy<S>, m: Mem<S>, op: Op, now: int)
    requires Lawful(pol)
  {
    (op.HugeMap? || (op.Touch? && !m.Resident(op.pid, op.v))) && Perform(pol, m, op, now).ok
  }

  /** How many operations since the last reset were hits, and how many were faults. */
  ghost function Tally<S(!new)>(pol: Policy<S>, start: S, numFrames: nat, ops: seq<Op>, times: seq<int>): (int, int)
    requires Lawful(pol) && |times| == |ops|
  {
    if ops == [] || ops[|ops| - 1].ResetAll? then (0, 0)
    else
      var n := |ops| - 1;
      var m := History(pol, start, numFrames, ops[..n], times[..n]);
      var t := Tally(pol, start, numFrames, ops[..n], times[..n]);
      (t.0 + if Hits(m, ops[n]) then 1 else 0, t.1 + if Faults(pol, m, ops[n], times[n]) then 1 else 0)
  }

  lemma PerformIsCounted<S(!new)>(pol: Policy<S>, m: Mem<S>, op: Op, now: int)
    requires Lawful(pol) && !op.ResetAll?
    ensures Counted(m, Perform(pol, m, op, now).mem, if Hits(m, op) then 1 else 0,
                    if Faults(pol, m, op, now) then 1 else 0)
  {
    hide Lawful, Access, MapHuge, Fork, Remove;
    match op
    case Touch(pid, v, write) => AccessIsCounted(pol, m, pid, v, write, now);
    case HugeMap(pid, index) => HugeIsCounted(pol, m, pid, index, now);
    case Kill(pid) => RemoveMetrics(m, pid);
    case ForkTo(parent, child) => ForkMetrics(m, parent, child);
    case _ =>
  }

  lemma RemoveMetrics<S>(m: Mem<S>, pid: Pid)
    ensures Remove(m, pid).mem.metrics == m.metrics
  {
  }

  lemma ForkMetrics<S>(m: Mem<S>, parent: Pid, child: Pid)
    ensures Fork(m, parent, child).mem.metrics == m.metrics
  {
  }

  /** After every run, whatever failed in it: the hits are the accesses that found their page resident, the faults
      those that brought one in and the huge pages mapped, and the accesses are both together. */
  lemma {:induction false} CountersInEveryRun<S(!new)>(pol: Policy<S>, start: S, numFrames: nat, ops: seq<Op>,
                                                       times: seq<int>)
    requires Lawful(pol) && |times| == |ops|
    ensures var c, t := History(pol, start, numFrames, ops, times).metrics, Tally(pol, start, numFrames, ops, times);
            c.hits == t.0 && c.faults == t.1 && c.accesses == t.0 + t.1
  {
    if ops != [] && !ops[|ops| - 1].ResetAll? {
      var n := |ops| - 1;
      CountersInEveryRun(pol, start, numFrames, ops[..n], times[..n]);
      hide Lawful, Perform, Hits, Faults;
      PerformIsCounted(pol, History(pol, start, numFrames, ops[..n], times[..n]), ops[n], times[n]);
    }
  }
}
