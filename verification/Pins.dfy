/** Nothing but Pin and Unpin changes which frames are pinned: not even a release or a reset. */
module Pins {
  import opened Prelude
  import opened Frames
  import opened MemoryModel
  import opened Runs
  import CowState

  ghost predicate SamePins(before: seq<Frame>, after: seq<Frame>) {
    && |after| == |before|
    && forall i :: 0 <= i < |before| ==> after[i].pinned == before[i].pinned
  }

  lemma EvictPins<S(!new)>(pol: Policy<S>, m: Mem<S>, i: nat)
    requires Lawful(pol) && i < |m.frames|
    ensures SamePins(m.frames, Evict(pol, m, i).frames)
  {
    EvictIs(pol, m, i);
    assert pol.onEvict(m.policy, i, m.frames[i]).1.SameOwner(m.frames[i]);
    hide Evict;
  }

  lemma FreeSlotPins<S(!new)>(pol: Policy<S>, m: Mem<S>, free: Option<nat>, now: int)
    requires Lawful(pol) && (free.Some? ==> free.value < |m.frames|)
    ensures SamePins(m.frames, FreeSlot(pol, m, free, now).0.frames)
  {
    hide Evict, Lawful;
    if free.None? {
      var (m1, victim) := Choose(pol, m, Used(m.frames), now);
      if victim.Some? {
        EvictPins(pol, m1, victim.value);
      }
    }
  }

  lemma AttachPins<S(!new)>(pol: Policy<S>, m: Mem<S>, i: nat, pid: Pid, v: nat, now: int)
    requires Lawful(pol) && i < |m.frames| && m.Has(pid, v)
    ensures SamePins(m.frames, Attach(pol, m, i, pid, v, now).frames)
  {
  }

  lemma LoadPins<S(!new)>(pol: Policy<S>, m: Mem<S>, pid: Pid, v: nat, now: int)
    requires Lawful(pol) && m.Has(pid, v)
    ensures SamePins(m.frames, Load(pol, m, pid, v, now).mem.frames)
  {
    hide Lawful, Attach, FreeSlot, PickFree;
    FreeSlotPins(pol, m, PickFree(m, pid), now);
    var (m1, slot) := FreeSlot(pol, m, PickFree(m, pid), now);
    if slot.Some? {
      AttachPins(pol, m1, slot.value, pid, v, now);
    }
  }

  lemma PlaceCopyPins<S(!new)>(pol: Policy<S>, m: Mem<S>, i: nat, pid: Pid, id: nat, newId: nat, now: int)
    requires Lawful(pol) && i < |m.frames| && pid in m.tables
    ensures SamePins(m.frames, PlaceCopy(pol, m, i, pid, id, newId, now).frames)
  {
  }

  lemma MakeCopyPins<S(!new)>(pol: Policy<S>, m: Mem<S>, pid: Pid, v: nat, newId: nat, now: int)
    requires Lawful(pol) && m.Has(pid, v)
    ensures SamePins(m.frames, MakeCopy(pol, m, pid, v, newId, now).mem.frames)
  {
    hide Lawful, FreeSlot, PlaceCopy;
    var free := FirstFree(m.frames, 0, |m.frames|);
    FreeSlotPins(pol, m, free, now);
    var (m1, slot) := FreeSlot(pol, m, free, now);
    if slot.Some? {
      var m2 := m1.(frames := m1.frames[slot.value := m1.frames[slot.value].Allocate(newId, pid, now)]);
      PlaceCopyPins(pol, m2, slot.value, pid, m.tables[pid][v].id, newId, now);
    }
  }

  lemma SettlePins<S(!new)>(pol: Policy<S>, m: Mem<S>, pid: Pid, v: nat, write: bool, now: int)
    requires Lawful(pol) && m.Has(pid, v)
    ensures SamePins(m.frames, SettleWrite(pol, m, pid, v, write, now).mem.frames)
  {
    hide Lawful, MakeCopy, CowState.HandleWrite;
    if write && m.tables[pid][v].shared {
      var (cow, verdict) := CowState.HandleWrite(m.cow, m.tables[pid][v].id, pid, m.tables[pid][v].shared);
      if verdict.Copy? {
        var m1 := m.(cow := cow);
        MakeCopyPins(pol, m1.(cow := m1.cow.(created := m1.cow.created + 1)), pid, v, verdict.newId, now);
      }
    }
  }

  lemma FaultPins<S(!new)>(pol: Policy<S>, m: Mem<S>, pid: Pid, v: nat, write: bool, now: int)
    requires Lawful(pol) && m.Has(pid, v)
    ensures SamePins(m.frames, Fault(pol, m, pid, v, write, now).mem.frames)
  {
    var m1 := TakeOut(m, m.tables[pid][v].id).0;
    assert m1 == m.(store := m1.store);
    hide Lawful, Load, SettleWrite, TakeOut;
    LoadPins(pol, m1, pid, v, now);
    var l := Load(pol, m1, pid, v, now);
    if l.ok {
      SettlePins(pol, l.mem, pid, v, write, now);
    }
  }

  lemma {:induction false} EnforcePins<S(!new)>(pol: Policy<S>, m: Mem<S>, used: seq<nat>, target: int, now: int)
    requires Lawful(pol) && FrameList(m.frames, used)
    ensures SamePins(m.frames, Enforce(pol, m, used, target, now).frames)
    decreases |used|
  {
    hide Evict, Lawful;
    if target > 0 && |used| > target {
      var (m1, victim) := Choose(pol, m, used, now);
      if victim.Some? {
        EvictPins(pol, m1, victim.value);
        EnforcePins(pol, Evict(pol, m1, victim.value), Without(used, victim.value), target, now);
      }
    }
  }

  lemma {:induction false} PrefetchPins<S(!new)>(pol: Policy<S>, m: Mem<S>, pid: Pid, pages: seq<nat>, done: nat,
                                                 now: int)
    requires Lawful(pol) && pid in m.tables
    ensures SamePins(m.frames, Prefetch(pol, m, pid, pages, done, now).frames)
    decreases |pages|
  {
    hide Lawful, Attach, PickFree, Prefetch;
    PrefetchUnfold(pol, m, pid, pages, done, now);
    if pages != [] && done < MAX_PREFETCH {
      var m1 := EnsurePage(m, pid, pages[0]);
      assert m1.frames == m.frames;
      hide EnsurePage;
      var free := PickFree(m1, pid);
      if m1.tables[pid][pages[0]].present {
        PrefetchPins(pol, m1, pid, pages[1..], done, now);
      } else if free.Some? {
        AttachPins(pol, m1, free.value, pid, pages[0], now);
        PrefetchPins(pol, PrefetchOne(pol, m1, free.value, pid, pages[0], now), pid, pages[1..], done + 1, now);
      }
    }
  }

  lemma AfterFaultPins<S(!new)>(pol: Policy<S>, m: Mem<S>, pid: Pid, now: int)
    requires Lawful(pol)
    ensures var m1 := EnforceTarget(pol, CountFault(m), now);
            var r := if m1.clustering && pid in m1.tables then TryPrefetch(pol, m1, pid, now) else m1;
            SamePins(m.frames, r.frames)
  {
    hide Lawful, Enforce, Prefetch, Candidates;
    var c := CountFault(m);
    var target := pol.target(c.policy);
    if target.Some? {
      EnforcePins(pol, c, Used(c.frames), target.value, now);
    }
    var m1 := EnforceTarget(pol, c, now);
    if pid in m1.tables && pid in m1.recent && |m1.recent[pid]| >= 3 {
      PrefetchPins(pol, m1, pid, Candidates(m1.recent[pid][|m1.recent[pid]| - 3]), 0, now);
    }
  }

  lemma PreparedPins<S>(m: Mem<S>, pid: Pid, v: nat)
    requires pid in m.tables
    ensures Prepared(m, pid, v).frames == m.frames
  {
    hide Detect;
  }

  lemma FastHitPins<S(!new)>(pol: Policy<S>, m: Mem<S>, i: nat, write: bool, now: int)
    requires Lawful(pol) && i < |m.frames|
    ensures SamePins(m.frames, FastHit(pol, m, i, write, now).frames)
    ensures FastHit(pol, m, i, write, now).tables == m.tables
  {
  }

  lemma AccessPins<S(!new)>(pol: Policy<S>, m: Mem<S>, pid: Pid, v: nat, write: bool, now: int)
    requires Lawful(pol)
    ensures SamePins(m.frames, Access(pol, m, pid, v, write, now).mem.frames)
  {
    hide Lawful, Prepared, Fault, SettleWrite, FastHit, EnforceTarget, TryPrefetch;
    if pid in m.tables {
      PreparedPins(m, pid, v);
      var m1 := Prepared(m, pid, v);
      if m1.Resident(pid, v) {
        var i := m1.tables[pid][v].frame;
        FastHitPins(pol, m1, i, write, now);
        SettlePins(pol, FastHit(pol, m1, i, write, now), pid, v, write, now);
      } else {
        FaultPins(pol, m1, pid, v, write, now);
        AfterFaultPins(pol, Fault(pol, m1, pid, v, write, now).mem, pid, now);
      }
    }
  }

  lemma HugeMappedPins<S(!new)>(pol: Policy<S>, m: Mem<S>, i: nat, pid: Pid, index: nat, now: int)
    requires Lawful(pol) && i < |m.frames|
    ensures SamePins(m.frames, HugeMapped(pol, m, i, pid, index, now).frames)
  {
  }

  lemma MapHugePins<S(!new)>(pol: Policy<S>, m: Mem<S>, pid: Pid, index: nat, now: int)
    requires Lawful(pol)
    ensures SamePins(m.frames, MapHuge(pol, m, pid, index, now).mem.frames)
  {
    hide Lawful, FreeSlot, PickFree, HugeMapped;
    FreeSlotPins(pol, m, PickFree(m, pid), now);
    var (m1, slot) := FreeSlot(pol, m, PickFree(m, pid), now);
    if index < HUGE_INDEX_LIMIT && pid in m.tables && slot.Some? {
      var i := slot.value;
      var m2 := m1.(frames := m1.frames[i := m1.frames[i].Allocate(HUGE_PAGE_BASE + index, pid, now)]);
      HugeMappedPins(pol, m2, slot.value, pid, index, now);
    }
  }

  lemma RemovePins<S>(m: Mem<S>, pid: Pid)
    ensures SamePins(m.frames, Remove(m, pid).mem.frames)
  {
  }

  /** Every operation but Pin and Unpin leaves the pins alone. */
  lemma PinsStay<S(!new)>(pol: Policy<S>, m: Mem<S>, op: Op, now: int)
    requires Lawful(pol) && !op.SetPin?
    ensures SamePins(m.frames, Perform(pol, m, op, now).mem.frames)
  {
    hide Lawful, Access, MapHuge, Remove;
    match op
    case Touch(pid, v, write) => AccessPins(pol, m, pid, v, write, now);
    case HugeMap(pid, index) => MapHugePins(pol, m, pid, index, now);
    case Kill(pid) => RemovePins(m, pid);
    case _ =>
  }

  ghost predicate NeverPins(ops: seq<Op>) {
    forall k :: 0 <= k < |ops| && ops[k].SetPin? ==> !ops[k].on
  }

  /** A frame is pinned only by Pin. */
  lemma {:induction false} NothingPinned<S(!new)>(pol: Policy<S>, start: S, numFrames: nat, ops: seq<Op>,
                                                  times: seq<int>)
    requires Lawful(pol) && |times| == |ops| && NeverPins(ops)
    ensures forall i :: 0 <= i < |History(pol, start, numFrames, ops, times).frames| ==>
              !History(pol, start, numFrames, ops, times).frames[i].pinned
  {
    if ops != [] {
      var n := |ops| - 1;
      NothingPinned(pol, start, numFrames, ops[..n], times[..n]);
      if !ops[n].SetPin? {
        PinsStay(pol, History(pol, start, numFrames, ops[..n], times[..n]), ops[n], times[n]);
        hide Perform;
      }
    }
  }
}
