/** How to know that the guards of isolation hold without following the policy's choices: without forks
    they hold in every run, and with forks they hold for every policy exactly under a condition on the
    state. */
module CalmRuns {
  import opened Prelude
  import opened Frames
  import opened MemoryModel
  import opened Runs
  import opened Failures
  import opened Isolation
  import Coherence
  import CowState
  import LruStack

  // ---- Runs without forks and huge pages ----

  lemma CoherentSole<S>(m: Mem<S>, i: nat)
    requires Coherence.Coherent(m) && i < |m.frames|
    ensures Sole(m, i)
  {
    forall p, v | m.Maps(p, v, i) ensures p == m.frames[i].processId && v == m.frames[i].pageId {
      assert Coherence.PageOk(m, p, v);
    }
  }

  lemma CoherentSlot<S(!new)>(pol: Policy<S>, m: Mem<S>, free: Option<nat>, now: int)
    requires Lawful(pol) && Coherence.Coherent(m)
    ensures SlotSafe(pol, m, free, now)
  {
    hide Coherence.Coherent, Lawful, Sole;
    var (m1, victim) := Choose(pol, m, Used(m.frames), now);
    Coherence.ChooseCoherent(pol, m, Used(m.frames), now);
    if victim.Some? {
      CoherentSole(m1, victim.value);
    }
  }

  lemma CoherentUnshared<S>(m: Mem<S>, pid: Pid, v: nat, write: bool)
    requires Coherence.Coherent(m) && m.Has(pid, v)
    ensures !NeedsCopy(m, pid, v, write)
  {
    assert Coherence.PageOk(m, pid, v);
  }

  lemma CoherentFault<S(!new)>(pol: Policy<S>, m: Mem<S>, pid: Pid, v: nat, write: bool, now: int)
    requires Lawful(pol) && Coherence.Coherent(m) && m.Has(pid, v) && !m.tables[pid][v].present
    ensures FaultGuard(pol, m, pid, v, write, now)
  {
    hide Coherence.Coherent, Lawful, Load, TakeOut, SlotSafe, NeedsCopy;
    var m1 := TakeOut(m, m.tables[pid][v].id).0;
    TakeOutIs(m, m.tables[pid][v].id);
    Coherence.BookkeepingCoherent(m, m1);
    CoherentSlot(pol, m1, PickFree(m1, pid), now);
    Coherence.LoadCoherent(pol, m1, pid, v, now);
    CoherentUnshared(Load(pol, m1, pid, v, now).mem, pid, v, write);
  }

  lemma {:induction false} CoherentEnforce<S(!new)>(pol: Policy<S>, m: Mem<S>, used: seq<nat>, target: int, now: int)
    requires Lawful(pol) && Coherence.Coherent(m) && FrameList(m.frames, used)
    ensures EnforceGuard(pol, m, used, target, now)
    decreases |used|
  {
    hide Coherence.Coherent, Sole, Evict, Lawful;
    if target > 0 && |used| > target {
      Coherence.ChooseCoherent(pol, m, used, now);
      var (m1, victim) := Choose(pol, m, used, now);
      if victim.Some? {
        CoherentSole(m1, victim.value);
        Coherence.EvictCoherent(pol, m1, victim.value);
        CoherentEnforce(pol, Evict(pol, m1, victim.value), Without(used, victim.value), target, now);
      }
    }
  }

  lemma CoherentMiss<S(!new)>(pol: Policy<S>, m: Mem<S>, pid: Pid, v: nat, write: bool, now: int)
    requires Lawful(pol) && Coherence.Coherent(m) && m.Has(pid, v) && !m.tables[pid][v].present
    ensures MissGuard(pol, m, pid, v, write, now)
  {
    hide Coherence.Coherent, Lawful, Fault, FaultGuard, EnforceGuard;
    CoherentFault(pol, m, pid, v, write, now);
    Coherence.FaultCoherent(pol, m, pid, v, write, now);
    var f := Fault(pol, m, pid, v, write, now);
    var c := CountFault(f.mem);
    Coherence.BookkeepingCoherent(f.mem, c);
    if f.ok && pol.target(c.policy).Some? {
      CoherentEnforce(pol, c, Used(c.frames), pol.target(c.policy).value, now);
    }
  }

  lemma CoherentAccess<S(!new)>(pol: Policy<S>, m: Mem<S>, pid: Pid, v: nat, write: bool, now: int)
    requires Lawful(pol) && Coherence.Coherent(m)
    ensures AccessGuard(pol, m, pid, v, write, now)
  {
    hide Coherence.Coherent, Lawful, MissGuard, Prepared, FastHit, NeedsCopy;
    if pid in m.tables {
      Coherence.PreparedCoherent(m, pid, v);
      var m1 := Prepared(m, pid, v);
      if m1.Resident(pid, v) {
        Coherence.HitCoherent(pol, m1, pid, v, write, now);
        CoherentUnshared(FastHit(pol, m1, m1.tables[pid][v].frame, write, now), pid, v, write);
      } else {
        CoherentMiss(pol, m1, pid, v, write, now);
      }
    }
  }

  lemma CoherentKill<S>(m: Mem<S>, pid: Pid)
    requires Coherence.Coherent(m)
    ensures KillGuard(m, pid)
  {
    if pid in m.tables {
      forall q, w | q != pid && m.Has(q, w) && m.tables[q][w].present
        ensures !HoldsFrame(m.tables[pid], m.tables[q][w].frame)
      {
        assert Coherence.PageOk(m, q, w);
        Coherence.HeldIsTagged(m, pid, m.tables[q][w].frame);
      }
    }
  }

  /** Whatever is evicted, removed, pinned or fails: without forks and huge pages every guard holds. */
  lemma {:induction false} ForklessRunsAreCalm<S(!new)>(pol: Policy<S>, start: S, numFrames: nat, ops: seq<Op>,
                                                        times: seq<int>)
    requires Lawful(pol) && |times| == |ops| && Forkless(ops)
    ensures Calm(pol, start, numFrames, ops, times)
  {
    if ops != [] {
      var n := |ops| - 1;
      ForklessRunsAreCalm(pol, start, numFrames, ops[..n], times[..n]);
      Coherence.CoherentInEveryRun(pol, start, numFrames, ops[..n], times[..n]);
      var m := History(pol, start, numFrames, ops[..n], times[..n]);
      hide Coherence.Coherent, Lawful, AccessGuard, KillGuard, History;
      match ops[n]
      case Touch(pid, v, write) => CoherentAccess(pol, m, pid, v, write, times[n]);
      case Kill(pid) => CoherentKill(m, pid);
      case _ =>
    }
  }

  // ---- Pinned sharing ----

  /** Every used frame that may be evicted is mapped by its tagged page only. */
  ghost predicate PinnedSharing<S>(m: Mem<S>) {
    forall i :: 0 <= i < |m.frames| && m.frames[i].Evictable() ==> Sole(m, i)
  }

  lemma PinnedSlot<S(!new)>(pol: Policy<S>, m: Mem<S>, free: Option<nat>, now: int)
    requires Lawful(pol) && PinnedSharing(m)
    ensures SlotSafe(pol, m, free, now)
  {
    hide Lawful;
    var (m1, victim) := Choose(pol, m, Used(m.frames), now);
    if victim.Some? {
      assert Sole(m, victim.value);
      SameTablesSole(m, m1, victim.value);
    }
  }

  lemma SameTablesSole<S>(m: Mem<S>, r: Mem<S>, i: nat)
    requires r.tables == m.tables && SameOwners(r.frames, m.frames) && i < |m.frames| && Sole(m, i)
    ensures Sole(r, i)
  {
    forall p, v | r.Maps(p, v, i) ensures p == r.frames[i].processId && v == r.frames[i].pageId {
      assert m.Maps(p, v, i);
    }
  }

  lemma SameTablesPinned<S>(m: Mem<S>, r: Mem<S>)
    requires r.tables == m.tables && SameOwners(r.frames, m.frames) && PinnedSharing(m)
    ensures PinnedSharing(r)
  {
    forall i | 0 <= i < |r.frames| && r.frames[i].Evictable() ensures Sole(r, i) {
      assert m.frames[i].Evictable();
      SameTablesSole(m, r, i);
    }
  }

  lemma EvictPinned<S>(pol: Policy<S>, m: Mem<S>, i: nat)
    requires PinnedSharing(m) && i < |m.frames|
    ensures PinnedSharing(Evict(pol, m, i))
  {
    var r := Evict(pol, m, i);
    EvictPages(pol, m, i);
    assert r.frames == m.frames[i := r.frames[i]] && r.frames[i].free;
    hide Evict, Evicted;
    forall k | 0 <= k < |r.frames| && r.frames[k].Evictable() ensures Sole(r, k) {
      assert k != i && m.frames[k].Evictable() && Sole(m, k);
      forall p, v | r.Maps(p, v, k) ensures p == r.frames[k].processId && v == r.frames[k].pageId {
        EvictedPage(m, r, i, p, v);
        SoleMeans(m, k, p, v);
      }
    }
  }

  lemma AttachPinned<S(!new)>(pol: Policy<S>, m: Mem<S>, i: nat, pid: Pid, v: nat, now: int)
    requires Lawful(pol) && Isolated(m) && PinnedSharing(m) && i < |m.frames| && m.frames[i].free
    requires m.Has(pid, v) && !m.tables[pid][v].present && m.tables[pid][v].id == v
    ensures PinnedSharing(Attach(pol, m, i, pid, v, now))
  {
    var r := Attach(pol, m, i, pid, v, now);
    Coherence.AttachTables(pol, m, i, pid, v, now);
    AttachAlone(pol, m, i, pid, v, now);
    hide Attach, Lawful, Isolated;
    forall k | 0 <= k < |r.frames| && r.frames[k].Evictable() ensures Sole(r, k) {
      if k != i {
        assert m.frames[k].Evictable() && Sole(m, k);
        forall p, u | r.Maps(p, u, k) ensures p == r.frames[k].processId && u == r.frames[k].pageId {
          SoleMeans(m, k, p, u);
        }
      }
    }
  }

  lemma LoadPinned<S(!new)>(pol: Policy<S>, m: Mem<S>, pid: Pid, v: nat, now: int)
    requires Lawful(pol) && Isolated(m) && PinnedSharing(m)
    requires m.Has(pid, v) && !m.tables[pid][v].present && m.tables[pid][v].id == v
    ensures PinnedSharing(Load(pol, m, pid, v, now).mem)
  {
    hide Lawful, Attach, Evict, Isolated, PinnedSharing;
    var free := PickFree(m, pid);
    PinnedSlot(pol, m, free, now);
    FreeSlotIsolated(pol, m, free, now);
    if free.Some? {
      AttachPinned(pol, m, free.value, pid, v, now);
    } else {
      var (m1, victim) := Choose(pol, m, Used(m.frames), now);
      SameTablesPinned(m, m1);
      if victim.Some? {
        EvictPinned(pol, m1, victim.value);
        var m2 := Evict(pol, m1, victim.value);
        AbsentStaysAbsent(m, m2, pid, v);
        hide SlotSafe, AllYield;
        AttachPinned(pol, m2, victim.value, pid, v, now);
      }
    }
  }

  lemma PinnedFault<S(!new)>(pol: Policy<S>, m: Mem<S>, pid: Pid, v: nat, write: bool, now: int)
    requires Lawful(pol) && Isolated(m) && PinnedSharing(m) && m.Has(pid, v) && !m.tables[pid][v].present
    ensures FaultGuard(pol, m, pid, v, write, now)
  {
    assert PageSafe(m, pid, v);
    hide Lawful, Load, TakeOut, SlotSafe, Isolated, PinnedSharing, CowState.MustCopy, LastFrame, AllPinned;
    var m1 := TakeOut(m, m.tables[pid][v].id).0;
    TakeOutIs(m, m.tables[pid][v].id);
    SameTablesPinned(m, m1);
    SameTablesIsolated(m, m1);
    PinnedSlot(pol, m1, PickFree(m1, pid), now);
    var l := Load(pol, m1, pid, v, now);
    if l.ok && NeedsCopy(l.mem, pid, v, write) {
      LoadLeaves(pol, m1, pid, v, now);
      LoadPinned(pol, m1, pid, v, now);
      PinnedSlot(pol, l.mem, FirstFree(l.mem.frames, 0, |l.mem.frames|), now);
    }
  }

  /** While every frame that several pages map is pinned, a policy without a resident-set target may choose as
      it likes: an access passes its guard unless its write is left without a copy beside another page. */
  lemma PinnedSharingIsSafe<S(!new)>(pol: Policy<S>, m: Mem<S>, pid: Pid, v: nat, write: bool, now: int)
    requires Lawful(pol) && Isolated(m) && PinnedSharing(m) && NoTarget(pol)
    requires m.Resident(pid, v) && NeedsCopy(m, pid, v, write) && AllPinned(m.frames) ==> Alone(m, pid, v)
    ensures AccessGuard(pol, m, pid, v, write, now)
  {
    assert NoTarget(pol);
    if pid in m.tables {
      PreparedIs(m, pid, v);
      PreparedPinned(m, pid, v);
      PreparedGentle(m, pid, v);
      var m1 := Prepared(m, pid, v);
      GentleIsolated(m, m1, pid);
      hide Lawful, Isolated, Prepared, Fault, PinnedSharing, SlotSafe, CowState.MustCopy, AllPinned, Gentle;
      if m1.Resident(pid, v) {
        var i := m1.tables[pid][v].frame;
        var h := FastHit(pol, m1, i, write, now);
        FastHitLeaves(pol, m1, i, write, now);
        FastHitOwners(pol, m1, i, write, now);
        hide FastHit;
        SameTablesPinned(m1, h);
        PinnedSlot(pol, h, FirstFree(h.frames, 0, |h.frames|), now);
        if AllPinned(h.frames) && NeedsCopy(h, pid, v, write) {
          PreparedAlone(m, pid, v);
        }
      } else {
        PresentIsResident(m1, pid, v);
        PinnedFault(pol, m1, pid, v, write, now);
      }
    }
  }

  lemma FastHitOwners<S(!new)>(pol: Policy<S>, m: Mem<S>, i: nat, write: bool, now: int)
    requires Lawful(pol) && i < |m.frames|
    ensures SameOwners(FastHit(pol, m, i, write, now).frames, m.frames)
  {
  }

  /** Looking for a page's record adds at most an absent one. */
  lemma PreparedMaps<S>(m: Mem<S>, pid: Pid, v: nat, q: Pid, w: nat)
    requires pid in m.tables
    ensures var r := Prepared(m, pid, v);
            && (m.Has(q, w) ==> r.Has(q, w) && r.tables[q][w] == m.tables[q][w])
            && (r.Has(q, w) && r.tables[q][w].present ==> m.Has(q, w))
  {
    var m1 := if m.clustering then Track(m, pid, v) else m;
    assert m1 == m.(recent := m1.recent, clusters := m1.clusters);
    hide Track;
  }

  lemma PreparedPinned<S>(m: Mem<S>, pid: Pid, v: nat)
    requires pid in m.tables && PinnedSharing(m)
    ensures PinnedSharing(Prepared(m, pid, v))
  {
    PreparedIs(m, pid, v);
    hide Prepared;
    var r := Prepared(m, pid, v);
    forall i | 0 <= i < |r.frames| && r.frames[i].Evictable() ensures Sole(r, i) {
      assert Sole(m, i);
      forall p, u | r.Maps(p, u, i) ensures p == r.frames[i].processId && u == r.frames[i].pageId {
        PreparedMaps(m, pid, v, p, u);
        SoleMeans(m, i, p, u);
      }
    }
  }

  lemma PreparedAlone<S>(m: Mem<S>, pid: Pid, v: nat)
    requires m.Has(pid, v) && Alone(m, pid, v)
    ensures Alone(Prepared(m, pid, v), pid, v)
  {
    hide Prepared;
    var r := Prepared(m, pid, v);
    PreparedMaps(m, pid, v, pid, v);
    forall q, w | r.Has(q, w) && r.tables[q][w].present && (q != pid || w != v)
      ensures r.tables[q][w].frame != r.tables[pid][v].frame
    {
      PreparedMaps(m, pid, v, q, w);
    }
  }

  // ---- Room ----

  /** With two free frames nothing is evicted for a page and its copy. */
  lemma RoomIsSafe<S(!new)>(pol: Policy<S>, m: Mem<S>, pid: Pid, v: nat, write: bool, now: int, i: nat, j: nat)
    requires Lawful(pol) && NoTarget(pol)
    requires i < j < |m.frames| && m.frames[i].free && m.frames[j].free
    ensures AccessGuard(pol, m, pid, v, write, now)
  {
    assert NoTarget(pol);
    if pid in m.tables {
      PreparedIs(m, pid, v);
      var m1 := Prepared(m, pid, v);
      hide Prepared, CowState.MustCopy, Alone;
      if m1.Resident(pid, v) {
        var k := m1.tables[pid][v].frame;
        var h := FastHit(pol, m1, k, write, now);
        FastHitOwners(pol, m1, k, write, now);
        hide FastHit, Lawful;
        assert h.frames[i].SameOwner(m.frames[i]);
      } else {
        RoomForFault(pol, m1, pid, v, write, now, i, j);
        hide Lawful, Fault, FaultGuard;
      }
    }
  }

  lemma RoomForFault<S(!new)>(pol: Policy<S>, m: Mem<S>, pid: Pid, v: nat, write: bool, now: int, i: nat, j: nat)
    requires Lawful(pol) && m.Has(pid, v)
    requires i < j < |m.frames| && m.frames[i].free && m.frames[j].free
    ensures FaultGuard(pol, m, pid, v, write, now)
  {
    hide Lawful, Attach, TakeOut, NeedsCopy, Choose;
    var m1 := TakeOut(m, m.tables[pid][v].id).0;
    TakeOutIs(m, m.tables[pid][v].id);
    var free := PickFree(m1, pid);
    assert free.Some?;
    AttachLeaves(pol, m1, free.value, pid, v, now);
    var l := Load(pol, m1, pid, v, now).mem;
    assert l.frames[if free.value == i then j else i].free;
  }

  // ---- The write that is left without a copy ----

  /** A write to a resident page that needs a copy while every frame is in use and pinned fails, and keeps
      isolation exactly when no other page maps its frame. */
  lemma StrandedAccess<S(!new)>(pol: Policy<S>, m: Mem<S>, pid: Pid, v: nat, now: int)
    requires Lawful(pol) && Isolated(m) && m.Resident(pid, v)
    requires NeedsCopy(m, pid, v, true) && AllPinned(m.frames)
    ensures var r := Access(pol, m, pid, v, true, now); !r.ok && (Isolated(r.mem) <==> Alone(m, pid, v))
  {
    PreparedIs(m, pid, v);
    PreparedGentle(m, pid, v);
    var m1 := Prepared(m, pid, v);
    GentleIsolated(m, m1, pid);
    PreparedMaps(m, pid, v, pid, v);
    var i := m1.tables[pid][v].frame;
    var h := FastHit(pol, m1, i, true, now);
    FastHitLeaves(pol, m1, i, true, now);
    FastHitOwners(pol, m1, i, true, now);
    hide Lawful, Isolated, Prepared, FastHit, SettleWrite, CowState.MustCopy, AllPinned, Gentle, Alone;
    SameTablesIsolated(m1, h);
    StrandedWrite(pol, h, pid, v, now);
    SameTablesAlone(m1, h, pid, v);
    PreparedAloneToo(m, pid, v);
  }

  lemma SameTablesAlone<S>(m: Mem<S>, r: Mem<S>, pid: Pid, v: nat)
    requires r.tables == m.tables && m.Has(pid, v)
    ensures Alone(r, pid, v) <==> Alone(m, pid, v)
  {
    if Alone(m, pid, v) {
      forall q, w | r.Has(q, w) && r.tables[q][w].present && (q != pid || w != v)
        ensures r.tables[q][w].frame != r.tables[pid][v].frame
      {
        assert m.Has(q, w);
      }
    }
    if Alone(r, pid, v) {
      forall q, w | m.Has(q, w) && m.tables[q][w].present && (q != pid || w != v)
        ensures m.tables[q][w].frame != m.tables[pid][v].frame
      {
        assert r.Has(q, w);
      }
    }
  }

  lemma PreparedAloneToo<S>(m: Mem<S>, pid: Pid, v: nat)
    requires m.Has(pid, v)
    ensures Prepared(m, pid, v).Has(pid, v) && (Alone(Prepared(m, pid, v), pid, v) <==> Alone(m, pid, v))
  {
    hide Prepared;
    var r := Prepared(m, pid, v);
    PreparedMaps(m, pid, v, pid, v);
    if Alone(m, pid, v) {
      PreparedAlone(m, pid, v);
    }
    if Alone(r, pid, v) {
      forall q, w | m.Has(q, w) && m.tables[q][w].present && (q != pid || w != v)
        ensures m.tables[q][w].frame != m.tables[pid][v].frame
      {
        PreparedMaps(m, pid, v, q, w);
      }
    }
  }

  // ---- The guard of an access, for every policy at once ----

  ghost predicate NoFree(frames: seq<Frame>) {
    forall i :: 0 <= i < |frames| ==> !frames[i].free
  }

  ghost predicate TwoFree(frames: seq<Frame>) {
    exists i, j :: 0 <= i < j < |frames| && frames[i].free && frames[j].free
  }

  ghost predicate WriteCopies<S>(m: Mem<S>, pid: Pid, v: nat, write: bool) {
    m.Has(pid, v) && NeedsCopy(m, pid, v, write)
  }

  /** Whenever the access must evict, for its page or for the copy that its write makes, no evictable frame is
      mapped by several pages; and a write that cannot have its copy is to a page alone in its frame. */
  ghost predicate StateGuard<S>(m: Mem<S>, pid: Pid, v: nat, write: bool) {
    if m.Resident(pid, v)
    then WriteCopies(m, pid, v, write) ==>
           (NoFree(m.frames) ==> PinnedSharing(m)) && (AllPinned(m.frames) ==> Alone(m, pid, v))
    else pid in m.tables && (NoFree(m.frames) || (WriteCopies(m, pid, v, write) && !TwoFree(m.frames)))
         ==> PinnedSharing(m)
  }

  /** The guard holds whatever a policy without a resident-set target chooses. */
  ghost predicate SafeForAll<S(!new)>(m: Mem<S>, pid: Pid, v: nat, write: bool, now: int) {
    forall pol: Policy<S> :: Lawful(pol) && NoTarget(pol) ==> AccessGuard(pol, m, pid, v, write, now)
  }

  lemma FreeIsEnough<S(!new)>(pol: Policy<S>, m: Mem<S>, pid: Pid, v: nat, write: bool, now: int, i: nat)
    requires Lawful(pol) && NoTarget(pol) && i < |m.frames| && m.frames[i].free
    requires WriteCopies(m, pid, v, write) ==> m.Resident(pid, v)
    ensures AccessGuard(pol, m, pid, v, write, now)
  {
    assert NoTarget(pol);
    if pid in m.tables {
      PreparedIs(m, pid, v);
      var m1 := Prepared(m, pid, v);
      hide Prepared, CowState.MustCopy, Alone;
      if m1.Resident(pid, v) {
        var k := m1.tables[pid][v].frame;
        var h := FastHit(pol, m1, k, write, now);
        FastHitOwners(pol, m1, k, write, now);
        hide FastHit, Lawful;
        assert h.frames[i].SameOwner(m.frames[i]);
      } else {
        FreeForFault(pol, m1, pid, v, write, now);
        hide Lawful, Fault, FaultGuard;
      }
    }
  }

  lemma FreeForFault<S(!new)>(pol: Policy<S>, m: Mem<S>, pid: Pid, v: nat, write: bool, now: int)
    requires Lawful(pol) && m.Has(pid, v) && !NeedsCopy(m, pid, v, write) && !NoFree(m.frames)
    ensures FaultGuard(pol, m, pid, v, write, now)
  {
    hide Lawful, Load, TakeOut, CowState.MustCopy, Choose;
    var m1 := TakeOut(m, m.tables[pid][v].id).0;
    TakeOutIs(m, m.tables[pid][v].id);
    if Load(pol, m1, pid, v, now).ok {
      LoadLeaves(pol, m1, pid, v, now);
    }
  }

  lemma StateGuardSuffices<S(!new)>(pol: Policy<S>, m: Mem<S>, pid: Pid, v: nat, write: bool, now: int)
    requires Lawful(pol) && NoTarget(pol) && Isolated(m) && StateGuard(m, pid, v, write)
    ensures AccessGuard(pol, m, pid, v, write, now)
  {
    hide Lawful, NoTarget, Isolated, PinnedSharing, AccessGuard, CowState.MustCopy, Alone;
    if PinnedSharing(m)
       && (m.Resident(pid, v) && NeedsCopy(m, pid, v, write) && AllPinned(m.frames) ==> Alone(m, pid, v)) {
      PinnedSharingIsSafe(pol, m, pid, v, write, now);
    } else if !NoFree(m.frames) {
      var i :| 0 <= i < |m.frames| && m.frames[i].free;
      if WriteCopies(m, pid, v, write) && !m.Resident(pid, v) && TwoFree(m.frames) {
        var j, k :| 0 <= j < k < |m.frames| && m.frames[j].free && m.frames[k].free;
        RoomIsSafe(pol, m, pid, v, write, now, j, k);
      } else if WriteCopies(m, pid, v, write) && !m.Resident(pid, v) {
        assert false;
      } else {
        FreeIsEnough(pol, m, pid, v, write, now, i);
      }
    } else {
      NothingToCopy(pol, m, pid, v, write, now);
    }
  }

  /** Without a fault and without a copy there is nothing to guard. */
  lemma NothingToCopy<S(!new)>(pol: Policy<S>, m: Mem<S>, pid: Pid, v: nat, write: bool, now: int)
    requires Lawful(pol) && (pid in m.tables ==> m.Resident(pid, v) && !NeedsCopy(m, pid, v, write))
    ensures AccessGuard(pol, m, pid, v, write, now)
  {
    if pid in m.tables {
      PreparedIs(m, pid, v);
      var m1 := Prepared(m, pid, v);
      FastHitLeaves(pol, m1, m1.tables[pid][v].frame, write, now);
      hide Prepared, FastHit, Lawful, CowState.MustCopy, Alone, SlotSafe;
    }
  }

  /** A policy that takes frame i whenever it may and LRU's victim otherwise; it keeps nothing and touches no
      frame. */
  ghost function Favour<S(!new)>(i: nat): (p: Policy<S>)
    ensures Lawful(p) && NoTarget(p)
  {
    Policy(
      (s: S, fs: seq<Frame>, ids: seq<nat>, now: int) =>
        Selection(if !InRange(fs, ids) then None
                  else if i in ids && fs[i].Evictable() then Some(i)
                  else LruStack.LruVictim(fs, ids), s, fs),
      (s, k, f, write, now) => (s, f),
      (s, k, f, now) => (s, f),
      (s, k, f) => (s, f),
      s => None,
      s => s)
  }

  lemma FavourTakes<S(!new)>(m: Mem<S>, i: nat, now: int)
    requires i < |m.frames| && m.frames[i].Evictable()
    ensures Choose(Favour(i), m, Used(m.frames), now) == (m, Some(i))
  {
  }

  lemma FavourHit<S(!new)>(m: Mem<S>, i: nat, k: nat, write: bool, now: int)
    requires k < |m.frames|
    ensures var h := FastHit(Favour(i), m, k, write, now);
            h.frames == m.frames && h.tables == m.tables && h.cow == m.cow
  {
  }

  lemma FavourUnsafe<S(!new)>(m: Mem<S>, free: Option<nat>, i: nat, now: int)
    requires i < |m.frames| && m.frames[i].Evictable() && !Sole(m, i) && free.None?
    ensures !SlotSafe(Favour(i), m, free, now)
  {
    FavourTakes(m, i, now);
    hide Sole;
  }

  lemma PreparedSole<S>(m: Mem<S>, pid: Pid, v: nat, i: nat)
    requires pid in m.tables && i < |m.frames| && |Prepared(m, pid, v).frames| == |m.frames|
    requires Prepared(m, pid, v).frames == m.frames && !Sole(m, i)
    ensures !Sole(Prepared(m, pid, v), i)
  {
    var p, u :| m.Maps(p, u, i) && !(p == m.frames[i].processId && u == m.frames[i].pageId);
    PreparedMaps(m, pid, v, p, u);
    hide Prepared;
    assert Prepared(m, pid, v).Maps(p, u, i);
  }

  lemma SameTablesNotSole<S>(m: Mem<S>, r: Mem<S>, i: nat)
    requires r.tables == m.tables && r.frames == m.frames && i < |m.frames| && !Sole(m, i)
    ensures !Sole(r, i)
  {
    SameOwnersRefl(m.frames);
    if Sole(r, i) {
      SameTablesSole(r, m, i);
    }
  }

  lemma SameOwnersRefl(fs: seq<Frame>)
    ensures SameOwners(fs, fs)
  {
  }

  /** A load into a free frame leaves a frame that several pages map as it was. */
  lemma LoadNotSole<S(!new)>(pol: Policy<S>, m: Mem<S>, j: nat, pid: Pid, v: nat, now: int, i: nat)
    requires Lawful(pol) && j < |m.frames| && m.Has(pid, v) && !m.tables[pid][v].present
    requires i < |m.frames| && i != j && !Sole(m, i)
    ensures !Sole(Attach(pol, m, j, pid, v, now), i)
  {
    var r := Attach(pol, m, j, pid, v, now);
    Coherence.AttachTables(pol, m, j, pid, v, now);
    hide Attach, Lawful;
    var p, u :| m.Maps(p, u, i) && !(p == m.frames[i].processId && u == m.frames[i].pageId);
    assert r.Maps(p, u, i);
  }

  /** If a copy or a page needs an eviction, the policy that favours a frame of several pages takes it. */
  lemma FavourBreaksHit<S(!new)>(m: Mem<S>, pid: Pid, v: nat, write: bool, now: int, i: nat)
    requires m.Resident(pid, v) && WriteCopies(m, pid, v, write) && NoFree(m.frames)
    requires i < |m.frames| && m.frames[i].Evictable() && !Sole(m, i)
    ensures !AccessGuard(Favour(i), m, pid, v, write, now)
  {
    PreparedIs(m, pid, v);
    PreparedSole(m, pid, v, i);
    var m1 := Prepared(m, pid, v);
    var h := FastHit(Favour(i), m1, m1.tables[pid][v].frame, write, now);
    FavourHit(m1, i, m1.tables[pid][v].frame, write, now);
    hide Prepared, FastHit, CowState.MustCopy, Alone, Sole, SlotSafe;
    SameTablesNotSole(m1, h, i);
    FavourUnsafe(h, FirstFree(h.frames, 0, |h.frames|), i, now);
  }

  lemma StrandedBreaks<S(!new)>(m: Mem<S>, pid: Pid, v: nat, write: bool, now: int)
    requires m.Resident(pid, v) && WriteCopies(m, pid, v, write) && AllPinned(m.frames) && !Alone(m, pid, v)
    ensures !AccessGuard(Favour(0), m, pid, v, write, now)
  {
    PreparedIs(m, pid, v);
    PreparedAloneToo(m, pid, v);
    var m1 := Prepared(m, pid, v);
    var h := FastHit(Favour(0), m1, m1.tables[pid][v].frame, write, now);
    FavourHit(m1, 0, m1.tables[pid][v].frame, write, now);
    hide Prepared, FastHit, CowState.MustCopy, Alone, SlotSafe;
    SameTablesAlone(m1, h, pid, v);
  }

  lemma FavourBreaksMiss<S(!new)>(m: Mem<S>, pid: Pid, v: nat, write: bool, now: int, i: nat)
    requires Isolated(m) && pid in m.tables && !m.Resident(pid, v)
    requires NoFree(m.frames) || (WriteCopies(m, pid, v, write) && !TwoFree(m.frames))
    requires i < |m.frames| && m.frames[i].Evictable() && !Sole(m, i)
    ensures !AccessGuard(Favour(i), m, pid, v, write, now)
  {
    PreparedIs(m, pid, v);
    PreparedSole(m, pid, v, i);
    PreparedGentle(m, pid, v);
    var m1 := Prepared(m, pid, v);
    GentleIsolated(m, m1, pid);
    PresentIsResident(m1, pid, v);
    assert !m1.tables[pid][v].present;
    hide Prepared, CowState.MustCopy, Sole, Isolated, Fault, FaultGuard, Gentle;
    FavourBreaksFault(m1, pid, v, write, now, i);
  }

  lemma FavourBreaksFault<S(!new)>(m: Mem<S>, pid: Pid, v: nat, write: bool, now: int, i: nat)
    requires m.Has(pid, v) && !m.tables[pid][v].present
    requires NoFree(m.frames) || (NeedsCopy(m, pid, v, write) && !TwoFree(m.frames))
    requires i < |m.frames| && m.frames[i].Evictable() && !Sole(m, i)
    ensures !FaultGuard(Favour(i), m, pid, v, write, now)
  {
    var m1 := TakeOut(m, m.tables[pid][v].id).0;
    TakeOutIs(m, m.tables[pid][v].id);
    SameTablesNotSole(m, m1, i);
    hide TakeOut, Sole, SlotSafe, Attach, CowState.MustCopy, Lawful;
    var pol: Policy<S> := Favour(i);
    hide Favour;
    var free := PickFree(m1, pid);
    if free.None? {
      FavourUnsafe(m1, free, i, now);
    } else {
      var l := Load(pol, m1, pid, v, now);
      assert l == Outcome(true, Attach(pol, m1, free.value, pid, v, now));
      LoadNotSole(pol, m1, free.value, pid, v, now, i);
      AttachLeaves(pol, m1, free.value, pid, v, now);
      OnlyFree(m1.frames, l.mem.frames, free.value);
      FavourUnsafe(l.mem, FirstFree(l.mem.frames, 0, |l.mem.frames|), i, now);
    }
  }

  lemma OnlyFree(fs: seq<Frame>, gs: seq<Frame>, j: nat)
    requires j < |fs| && fs[j].free && !TwoFree(fs) && |gs| == |fs| && !gs[j].free
    requires forall k :: 0 <= k < |fs| && k != j ==> gs[k] == fs[k]
    ensures NoFree(gs)
  {
    forall k | 0 <= k < |gs| ensures !gs[k].free {
      if k < j {
        assert fs[k].free ==> TwoFree(fs);
      } else if j < k {
        assert fs[k].free ==> TwoFree(fs);
      }
    }
  }

  /** An access passes its guard under every policy exactly when the state meets the condition. */
  lemma StateGuardIsExact<S(!new)>(m: Mem<S>, pid: Pid, v: nat, write: bool, now: int)
    requires Isolated(m)
    ensures SafeForAll(m, pid, v, write, now) <==> StateGuard(m, pid, v, write)
  {
    hide Isolated, AccessGuard, CowState.MustCopy, Alone, AllPinned, Sole, NoFree, TwoFree;
    if StateGuard(m, pid, v, write) {
      forall pol: Policy<S> | Lawful(pol) && NoTarget(pol) ensures AccessGuard(pol, m, pid, v, write, now) {
        StateGuardSuffices(pol, m, pid, v, write, now);
      }
    } else if PinnedSharing(m) {
      StrandedBreaks(m, pid, v, write, now);
    } else {
      var i :| 0 <= i < |m.frames| && m.frames[i].Evictable() && !Sole(m, i);
      if !m.Resident(pid, v) {
        FavourBreaksMiss(m, pid, v, write, now, i);
      } else if NoFree(m.frames) {
        FavourBreaksHit(m, pid, v, write, now, i);
      } else {
        StrandedBreaks(m, pid, v, write, now);
      }
    }
  }

  /** So under the condition an access keeps isolation whatever the policy chooses, succeed or fail. */
  lemma StateGuardIsolates<S(!new)>(pol: Policy<S>, m: Mem<S>, pid: Pid, v: nat, write: bool, now: int)
    requires Lawful(pol) && NoTarget(pol) && Isolated(m) && StateGuard(m, pid, v, write)
    ensures StepIsolated(pol, m, Access(pol, m, pid, v, write, now), pid, v, write)
  {
    hide Isolated, StateGuard, AccessGuard, StepIsolated;
    StateGuardSuffices(pol, m, pid, v, write, now);
    AccessIsolated(pol, m, pid, v, write, now);
  }
}
