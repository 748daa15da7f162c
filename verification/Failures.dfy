/** Exactly when an access fails, in any state: no free frame and nothing to evict, either for the page
    itself or for the copy that a write to a shared page needs. */
module Failures {
  import opened Prelude
  import opened Frames
  import opened MemoryModel
  import CowState

  /** A frame cannot be had exactly when all are in use and pinned. */
  lemma NoSlot<S(!new)>(pol: Policy<S>, m: Mem<S>, free: Option<nat>, now: int)
    requires Lawful(pol)
    requires match free
             case Some(i) => i < |m.frames| && m.frames[i].free
             case None => forall j :: 0 <= j < |m.frames| ==> !m.frames[j].free
    ensures FreeSlot(pol, m, free, now).1.None? <==> AllPinned(m.frames)
  {
    hide Evict, Lawful;
    if free.None? {
      var used := Used(m.frames);
      assert forall j :: 0 <= j < |m.frames| ==> j in used;
      var victim := Choose(pol, m, used, now).1;
      if victim.None? {
        forall j | 0 <= j < |m.frames| ensures m.frames[j].pinned {
          assert j in used && !m.frames[j].Evictable();
        }
      }
    }
  }

  lemma LoadFails<S(!new)>(pol: Policy<S>, m: Mem<S>, pid: Pid, v: nat, now: int)
    requires Lawful(pol) && m.Has(pid, v)
    ensures !Load(pol, m, pid, v, now).ok <==> AllPinned(m.frames)
  {
    hide Lawful, Attach, FreeSlot, PickFree, AllPinned;
    NoSlot(pol, m, PickFree(m, pid), now);
  }

  lemma CopyFails<S(!new)>(pol: Policy<S>, m: Mem<S>, pid: Pid, v: nat, newId: nat, now: int)
    requires Lawful(pol) && m.Has(pid, v)
    ensures !MakeCopy(pol, m, pid, v, newId, now).ok <==> AllPinned(m.frames)
  {
    hide Lawful, PlaceCopy, FreeSlot, AllPinned;
    NoSlot(pol, m, FirstFree(m.frames, 0, |m.frames|), now);
  }

  /** The write needs a copy: the page is marked shared and its process is one of several registered sharers. */
  predicate NeedsCopy<S>(m: Mem<S>, pid: Pid, v: nat, write: bool)
    requires m.Has(pid, v)
  {
    write && m.tables[pid][v].shared && CowState.MustCopy(m.cow, m.tables[pid][v].id, pid)
  }

  lemma SettleFails<S(!new)>(pol: Policy<S>, m: Mem<S>, pid: Pid, v: nat, write: bool, now: int)
    requires Lawful(pol) && m.Has(pid, v)
    ensures !SettleWrite(pol, m, pid, v, write, now).ok <==> NeedsCopy(m, pid, v, write) && AllPinned(m.frames)
  {
    hide Lawful, FinishWrite, CowState.HandleWrite, CowState.MustCopy, AllPinned;
    if write && m.tables[pid][v].shared {
      var id := m.tables[pid][v].id;
      CowState.CopiesIffSeveral(m.cow, id, pid, true);
      var (cow, verdict) := CowState.HandleWrite(m.cow, id, pid, true);
      FinishFails(pol, m.(cow := cow), pid, v, verdict, now);
    }
  }

  lemma FinishFails<S(!new)>(pol: Policy<S>, m: Mem<S>, pid: Pid, v: nat, verdict: CowState.Verdict, now: int)
    requires Lawful(pol) && m.Has(pid, v)
    ensures !FinishWrite(pol, m, pid, v, verdict, now).ok <==> verdict.Copy? && AllPinned(m.frames)
  {
    hide Lawful, MakeCopy, AllPinned;
    if verdict.Copy? {
      CopyFails(pol, m.(cow := m.cow.(created := m.cow.created + 1)), pid, v, verdict.newId, now);
    }
  }

  ghost predicate OneFree(frames: seq<Frame>) {
    exists i :: 0 <= i < |frames| && frames[i].free && forall j :: 0 <= j < |frames| && j != i ==> !frames[j].free
  }

  /** Every frame is pinned, and one of them is free. */
  ghost predicate LastFrame(frames: seq<Frame>) {
    OneFree(frames) && forall i :: 0 <= i < |frames| ==> frames[i].pinned
  }

  lemma LastFrameTaken(fs: seq<Frame>, gs: seq<Frame>, i: nat)
    requires i < |fs| && fs[i].free && |gs| == |fs| && !gs[i].free && gs[i].pinned == fs[i].pinned
    requires forall k :: 0 <= k < |fs| && k != i ==> gs[k] == fs[k]
    ensures AllPinned(gs) <==> LastFrame(fs)
  {
    if LastFrame(fs) {
      forall j | 0 <= j < |fs| ensures !gs[j].free && gs[j].pinned {
      }
    }
    if AllPinned(gs) {
      forall j | 0 <= j < |fs| ensures fs[j].pinned && (j != i ==> !fs[j].free) {
        assert !gs[j].free && gs[j].pinned;
      }
    }
  }

  lemma AttachLeaves<S(!new)>(pol: Policy<S>, m: Mem<S>, i: nat, pid: Pid, v: nat, now: int)
    requires Lawful(pol) && i < |m.frames| && m.Has(pid, v)
    ensures var r := Attach(pol, m, i, pid, v, now);
            && r.cow == m.cow && r.Has(pid, v)
            && r.tables[pid][v].id == m.tables[pid][v].id && r.tables[pid][v].shared == m.tables[pid][v].shared
            && |r.frames| == |m.frames| && !r.frames[i].free && r.frames[i].pinned == m.frames[i].pinned
            && (forall k :: 0 <= k < |m.frames| && k != i ==> r.frames[k] == m.frames[k])
  {
  }

  /** What eviction for a frame leaves as it was. */
  lemma SlotLeaves<S(!new)>(pol: Policy<S>, m: Mem<S>, now: int, pid: Pid, v: nat)
    requires Lawful(pol) && m.Has(pid, v)
    ensures var (r, slot) := FreeSlot(pol, m, None, now);
            && r.cow == m.cow && r.Has(pid, v)
            && r.tables[pid][v].id == m.tables[pid][v].id && r.tables[pid][v].shared == m.tables[pid][v].shared
            && (slot.Some? ==> !r.frames[slot.value].pinned)
  {
    var (m1, victim) := Choose(pol, m, Used(m.frames), now);
    if victim.Some? {
      EvictIs(pol, m1, victim.value);
      DropMappingTables(m1, m1.frames[victim.value].processId, m1.frames[victim.value].pageId);
    }
    hide Evict, DropMapping;
  }

  /** A load that succeeds takes the last frame away exactly when that frame was the only free one and
      every frame is pinned; the page's sharing stays as it was. */
  lemma LoadLeaves<S(!new)>(pol: Policy<S>, m: Mem<S>, pid: Pid, v: nat, now: int)
    requires Lawful(pol) && m.Has(pid, v) && Load(pol, m, pid, v, now).ok
    ensures var r := Load(pol, m, pid, v, now).mem;
            && r.cow == m.cow
            && r.tables[pid][v].id == m.tables[pid][v].id && r.tables[pid][v].shared == m.tables[pid][v].shared
            && (AllPinned(r.frames) <==> LastFrame(m.frames))
  {
    hide Lawful, Attach, Evict, LastFrame, AllPinned;
    var free := PickFree(m, pid);
    if free.Some? {
      AttachLeaves(pol, m, free.value, pid, v, now);
      LastFrameTaken(m.frames, Attach(pol, m, free.value, pid, v, now).frames, free.value);
    } else {
      SlotLeaves(pol, m, now, pid, v);
      var (m1, slot) := FreeSlot(pol, m, None, now);
      AttachLeaves(pol, m1, slot.value, pid, v, now);
      var r := Attach(pol, m1, slot.value, pid, v, now);
      hide PickFree, FreeSlot;
      NotAllPinned(r.frames, slot.value);
      NoneFree(m.frames);
    }
  }

  lemma NotAllPinned(fs: seq<Frame>, i: nat)
    requires i < |fs| && !fs[i].pinned
    ensures !AllPinned(fs)
  {
  }

  lemma NoneFree(fs: seq<Frame>)
    requires forall j :: 0 <= j < |fs| ==> !fs[j].free
    ensures !LastFrame(fs)
  {
  }

  /** The one fault that loses count of a load: the page takes the last frame, and then its write needs a
      copy for which there is none. */
  ghost predicate LosesLoad<S>(m: Mem<S>, pid: Pid, v: nat, write: bool)
    requires m.Has(pid, v)
  {
    NeedsCopy(m, pid, v, write) && LastFrame(m.frames)
  }

  lemma FaultFails<S(!new)>(pol: Policy<S>, m: Mem<S>, pid: Pid, v: nat, write: bool, now: int)
    requires Lawful(pol) && m.Has(pid, v)
    ensures !Fault(pol, m, pid, v, write, now).ok <==> AllPinned(m.frames) || LosesLoad(m, pid, v, write)
    ensures LosesLoad(m, pid, v, write)
            <==> Load(pol, TakeOut(m, m.tables[pid][v].id).0, pid, v, now).ok && !Fault(pol, m, pid, v, write, now).ok
  {
    var m1 := TakeOut(m, m.tables[pid][v].id).0;
    assert m1 == m.(store := m1.store);
    hide Lawful, Load, SettleWrite, TakeOut, CowState.MustCopy;
    LoadFails(pol, m1, pid, v, now);
    var l := Load(pol, m1, pid, v, now);
    if l.ok {
      LoadLeaves(pol, m1, pid, v, now);
      SettleFails(pol, l.mem, pid, v, write, now);
    } else {
      PinnedHasNoFree(m.frames);
    }
    hide AllPinned, LastFrame;
  }

  lemma PinnedHasNoFree(fs: seq<Frame>)
    requires AllPinned(fs)
    ensures !LastFrame(fs)
  {
  }

  /** The guard of a failing access. */
  ghost predicate MustFail<S>(m: Mem<S>, pid: Pid, v: nat, write: bool) {
    || pid !in m.tables
    || (m.Resident(pid, v) && NeedsCopy(m, pid, v, write) && AllPinned(m.frames))
    || (!m.Resident(pid, v) && (AllPinned(m.frames) || (m.Has(pid, v) && LosesLoad(m, pid, v, write))))
  }

  lemma PreparedIs<S>(m: Mem<S>, pid: Pid, v: nat)
    requires pid in m.tables
    ensures var r := Prepared(m, pid, v);
            && r.frames == m.frames && r.cow == m.cow && (r.Resident(pid, v) <==> m.Resident(pid, v))
            && r.tables[pid][v] == if m.Has(pid, v) then m.tables[pid][v] else NewPage(v)
  {
    var m1 := if m.clustering then Track(m, pid, v) else m;
    assert m1 == m.(recent := m1.recent, clusters := m1.clusters);
    hide Track;
  }

  lemma FastHitLeaves<S(!new)>(pol: Policy<S>, m: Mem<S>, i: nat, write: bool, now: int)
    requires Lawful(pol) && i < |m.frames|
    ensures var r := FastHit(pol, m, i, write, now);
            r.tables == m.tables && r.cow == m.cow && (AllPinned(r.frames) <==> AllPinned(m.frames))
  {
    var r := FastHit(pol, m, i, write, now);
    assert SameOwners(r.frames, m.frames);
    hide Lawful, FastHit;
    assert forall k :: 0 <= k < |m.frames| ==> r.frames[k].SameOwner(m.frames[k]);
  }

  /** In any state, with forks, copies and pins: an access fails exactly under this guard. */
  lemma AccessFails<S(!new)>(pol: Policy<S>, m: Mem<S>, pid: Pid, v: nat, write: bool, now: int)
    requires Lawful(pol)
    ensures !Access(pol, m, pid, v, write, now).ok <==> MustFail(m, pid, v, write)
  {
    if pid in m.tables {
      PreparedIs(m, pid, v);
      var m1 := Prepared(m, pid, v);
      hide Lawful, Prepared, FastHit, SettleWrite, Fault, EnforceTarget, TryPrefetch, AllPinned, LastFrame,
           CowState.MustCopy;
      if m1.Resident(pid, v) {
        var i := m1.tables[pid][v].frame;
        FastHitLeaves(pol, m1, i, write, now);
        SettleFails(pol, FastHit(pol, m1, i, write, now), pid, v, write, now);
      } else {
        FaultFails(pol, m1, pid, v, write, now);
      }
    }
  }
}
