/** The TLB agrees with the page tables after every operation of a run, as long as no page is loaded that is
    filed under another number and no fork falls on a process that lives already. Without forks and huge pages
    that is every run. */
module TlbRuns {
  import opened Prelude
  import opened Frames
  import opened MemoryModel
  import opened Runs
  import opened Tlb
  import opened Transparency
  import opened TlbSteps
  import Coherence
  import CowState

  /** The TLB is within its capacity, files every entry under its own key, and agrees with the page tables. */
  ghost predicate InStep<S>(t: Entries, capacity: int, m: Mem<S>) {
    WellFiled(t, capacity) && TlbAgrees(t, m)
  }

  // ---- Single edits ----

  lemma FewerEntries(t: Entries, r: Entries, capacity: int)
    requires WellFiled(t, capacity) && r.Keys <= t.Keys && forall k :: k in r ==> r[k] == t[k]
    ensures WellFiled(r, capacity)
  {
    SubsetSize(r.Keys, t.Keys);
  }

  lemma RoomIsSmaller(t: Entries, room: Entries, capacity: int)
    requires MadeRoom(t, room, capacity)
    ensures forall k :: k in room ==> k in t && room[k] == t[k]
    ensures capacity > 0 && |t| <= capacity ==> |room| < capacity
  {
    if capacity > 0 && |t| >= capacity {
      var k :| k in t && room == t - {k};
      assert room.Keys == t.Keys - {k};
      assert |room| == |room.Keys| && |t| == |t.Keys|;
    }
  }

  lemma LearnedFiled(t: Entries, r: Entries, capacity: int, pid: Pid, v: nat, i: int, now: int)
    requires WellFiled(t, capacity) && Learned(t, r, capacity, pid, v, i, now)
    ensures WellFiled(r, capacity)
  {
    hide MadeRoom, MakeKey;
    var room :| MadeRoom(t, room, capacity) && r == room[MakeKey(pid, v) := Tlb.Entry(pid, v, i, true, now)];
    RoomIsSmaller(t, room, capacity);
    assert r.Keys == room.Keys + {MakeKey(pid, v)};
    assert |r| == |r.Keys| && |room| == |room.Keys|;
  }

  /** An insertion follows a change that maps page (pid, v) to frame i and leaves the other pages alone. */
  lemma LearnedAgrees<S>(t: Entries, r: Entries, capacity: int, m: Mem<S>, m1: Mem<S>, pid: Pid, v: nat, i: int,
                         now: int)
    requires WellFiled(t, capacity) && TlbAgrees(t, m) && Learned(t, r, capacity, pid, v, i, now)
    requires m1.Maps(pid, v, i)
    requires forall p, u, k :: m.Maps(p, u, k) && (p != pid || u != v) ==> m1.Maps(p, u, k)
    ensures TlbAgrees(r, m1)
  {
    hide MadeRoom, MakeKey;
    var room :| MadeRoom(t, room, capacity) && r == room[MakeKey(pid, v) := Tlb.Entry(pid, v, i, true, now)];
    RoomIsSmaller(t, room, capacity);
    forall k | k in r ensures m1.Maps(r[k].processId, r[k].virtualPage, r[k].frame) {
      if k != MakeKey(pid, v) {
        assert m.Maps(t[k].processId, t[k].virtualPage, t[k].frame);
        assert k == MakeKey(t[k].processId, t[k].virtualPage);
      }
    }
  }

  lemma LearnedInStep<S>(t: Entries, r: Entries, capacity: int, m: Mem<S>, m1: Mem<S>, pid: Pid, v: nat, i: int,
                         now: int)
    requires InStep(t, capacity, m) && Learned(t, r, capacity, pid, v, i, now)
    requires m1.Maps(pid, v, i)
    requires forall p, u, k :: m.Maps(p, u, k) && (p != pid || u != v) ==> m1.Maps(p, u, k)
    ensures InStep(r, capacity, m1)
  {
    LearnedFiled(t, r, capacity, pid, v, i, now);
    LearnedAgrees(t, r, capacity, m, m1, pid, v, i, now);
  }

  lemma SameTablesInStep<S>(t: Entries, capacity: int, m: Mem<S>, r: Mem<S>)
    requires InStep(t, capacity, m) && r.tables == m.tables
    ensures InStep(t, capacity, r)
  {
    hide WellFiled;
    forall k | k in t ensures r.Maps(t[k].processId, t[k].virtualPage, t[k].frame) {
      assert m.Maps(t[k].processId, t[k].virtualPage, t[k].frame);
    }
  }

  /** An eviction unmaps at most the page that the frame is tagged with, and the TLB drops just that one,
      whatever else maps the frame. */
  lemma EvictInStep<S>(pol: Policy<S>, t: Entries, capacity: int, m: Mem<S>, i: nat)
    requires InStep(t, capacity, m) && i < |m.frames|
    ensures InStep(Forgotten(t, m.frames[i]), capacity, Evict(pol, m, i))
  {
    var f, r := m.frames[i], Forgotten(t, m.frames[i]);
    FewerEntries(t, r, capacity);
    assert forall p, u, k :: m.Maps(p, u, k) && (p != f.processId || u != f.pageId) ==>
                               Evict(pol, m, i).Maps(p, u, k) by {
      EvictTables(pol, m, i);
      hide Evict, WellFiled, TlbAgrees;
    }
    hide Evict, MakeKey;
    DroppedAgrees(t, m, Evict(pol, m, i), f.processId, f.pageId);
  }

  lemma DroppedAgrees<S>(t: Entries, m: Mem<S>, m1: Mem<S>, pid: Pid, v: nat)
    requires (forall k :: k in t ==> k == MakeKey(t[k].processId, t[k].virtualPage)) && TlbAgrees(t, m)
    requires forall p, u, k :: m.Maps(p, u, k) && (p != pid || u != v) ==> m1.Maps(p, u, k)
    ensures TlbAgrees(t - {MakeKey(pid, v)}, m1)
  {
    hide MakeKey;
    var r := t - {MakeKey(pid, v)};
    forall k | k in r ensures m1.Maps(r[k].processId, r[k].virtualPage, r[k].frame) {
      assert m.Maps(t[k].processId, t[k].virtualPage, t[k].frame);
    }
  }

  lemma SlotInStep<S(!new)>(pol: Policy<S>, t: Entries, capacity: int, m: Mem<S>, free: Option<nat>, now: int)
    requires Lawful(pol) && InStep(t, capacity, m) && (free.Some? ==> free.value < |m.frames|)
    ensures InStep(AfterSlot(pol, m, t, free, now), capacity, FreeSlot(pol, m, free, now).0)
  {
    hide Lawful, Evict, InStep, Forgotten;
    if free.None? {
      var (m1, victim) := Choose(pol, m, Used(m.frames), now);
      SameTablesInStep(t, capacity, m, m1);
      if victim.Some? {
        EvictInStep(pol, t, capacity, m1, victim.value);
      }
    }
  }

  lemma AttachInStep<S(!new)>(pol: Policy<S>, t: Entries, r: Entries, capacity: int, m: Mem<S>, i: nat,
                              pid: Pid, v: nat, now: int)
    requires Lawful(pol) && InStep(t, capacity, m) && i < |m.frames| && m.Has(pid, v) && m.tables[pid][v].id == v
    requires Learned(t, r, capacity, pid, v, i, now)
    ensures InStep(r, capacity, Attach(pol, m, i, pid, v, now))
  {
    Coherence.AttachTables(pol, m, i, pid, v, now);
    var m1 := Attach(pol, m, i, pid, v, now);
    hide Attach, InStep, Learned, Lawful;
    LearnedInStep(t, r, capacity, m, m1, pid, v, i, now);
  }

  /** Loading an absent page into a frame that maps nothing: the TLB stays in agreement exactly if the page is
      filed under its own number. A copy that lost its page is not, and is cached under the wrong number. */
  lemma LoadAgreesIffOwnNumber<S(!new)>(pol: Policy<S>, t: Entries, r: Entries, capacity: int, m: Mem<S>, i: nat,
                                        pid: Pid, v: nat, now: int)
    requires Lawful(pol) && InStep(t, capacity, m) && i < |m.frames|
    requires m.Has(pid, v) && !m.tables[pid][v].present && !m.Maps(pid, m.tables[pid][v].id, i)
    requires Learned(t, r, capacity, pid, m.tables[pid][v].id, i, now)
    ensures TlbAgrees(r, Attach(pol, m, i, pid, v, now)) <==> m.tables[pid][v].id == v
  {
    var id := m.tables[pid][v].id;
    if id == v {
      AttachInStep(pol, t, r, capacity, m, i, pid, v, now);
    } else {
      Coherence.AttachTables(pol, m, i, pid, v, now);
      hide Attach, Lawful;
      var key := MakeKey(pid, id);
      assert key in r && r[key].processId == pid && r[key].virtualPage == id && r[key].frame == i;
    }
  }

  // ---- A fault ----

  lemma LoadInStep<S(!new)>(pol: Policy<S>, t: Entries, r: Entries, capacity: int, m: Mem<S>, pid: Pid, v: nat,
                            now: int)
    requires Lawful(pol) && InStep(t, capacity, m) && m.Has(pid, v) && m.tables[pid][v].id == v
    requires Loading(pol, m, t, r, capacity, pid, v, now)
    ensures InStep(r, capacity, Load(pol, m, pid, v, now).mem)
  {
    hide Lawful, InStep, Attach, FreeSlot, AfterSlot, PickFree, Learned;
    var free := PickFree(m, pid);
    SlotInStep(pol, t, capacity, m, free, now);
    var (m1, slot) := FreeSlot(pol, m, free, now);
    if slot.Some? {
      SlotKeepsNumber(pol, m, free, now, pid, v);
      AttachInStep(pol, AfterSlot(pol, m, t, free, now), r, capacity, m1, slot.value, pid, v, now);
    } else {
      NoSlotForgetsNothing(pol, m, t, free, now);
    }
  }

  lemma SlotKeepsNumber<S(!new)>(pol: Policy<S>, m: Mem<S>, free: Option<nat>, now: int, pid: Pid, v: nat)
    requires Lawful(pol) && (free.Some? ==> free.value < |m.frames|) && m.Has(pid, v)
    ensures var r := FreeSlot(pol, m, free, now).0; r.Has(pid, v) && r.tables[pid][v].id == m.tables[pid][v].id
  {
    if free.None? {
      var (m1, victim) := Choose(pol, m, Used(m.frames), now);
      if victim.Some? {
        EvictIs(pol, m1, victim.value);
        DropMappingTables(m1, m1.frames[victim.value].processId, m1.frames[victim.value].pageId);
      }
      hide Evict, DropMapping, Lawful;
    }
  }

  lemma CopyInStep<S(!new)>(pol: Policy<S>, t: Entries, r: Entries, capacity: int, m: Mem<S>, pid: Pid, v: nat,
                            newId: nat, now: int)
    requires Lawful(pol) && InStep(t, capacity, m) && m.Has(pid, v)
    requires Copying(pol, m, t, r, capacity, pid, m.tables[pid][v].id, now)
    ensures InStep(r, capacity, MakeCopy(pol, m, pid, v, newId, now).mem)
  {
    hide Lawful, InStep, FreeSlot, AfterSlot, Learned, PlaceCopy;
    var id := m.tables[pid][v].id;
    var free := FirstFree(m.frames, 0, |m.frames|);
    SlotInStep(pol, t, capacity, m, free, now);
    var (m1, slot) := FreeSlot(pol, m, free, now);
    if slot.Some? {
      var m2 := m1.(frames := m1.frames[slot.value := m1.frames[slot.value].Allocate(newId, pid, now)]);
      SameTablesInStep(AfterSlot(pol, m, t, free, now), capacity, m1, m2);
      PlacedInStep(pol, AfterSlot(pol, m, t, free, now), r, capacity, m2, slot.value, pid, id, newId, now);
    } else {
      NoSlotForgetsNothing(pol, m, t, free, now);
    }
  }

  lemma PlacedInStep<S(!new)>(pol: Policy<S>, t: Entries, r: Entries, capacity: int, m: Mem<S>, i: nat,
                              pid: Pid, id: nat, newId: nat, now: int)
    requires Lawful(pol) && InStep(t, capacity, m) && i < |m.frames| && pid in m.tables
    requires Learned(t - {MakeKey(pid, id)}, r, capacity, pid, id, i, now)
    ensures InStep(r, capacity, PlaceCopy(pol, m, i, pid, id, newId, now))
  {
    var m1 := PlaceCopy(pol, m, i, pid, id, newId, now);
    assert m1.Maps(pid, id, i);
    assert forall p, u, k :: m.Maps(p, u, k) && (p != pid || u != id) ==> m1.Maps(p, u, k);
    FewerEntries(t, t - {MakeKey(pid, id)}, capacity);
    hide PlaceCopy, Learned, Lawful;
    LearnedInStep(t - {MakeKey(pid, id)}, r, capacity, m, m1, pid, id, i, now);
  }

  /** A write to a shared page keeps agreement in any state: the copy is filed where its page was. */
  lemma SettleInStep<S(!new)>(pol: Policy<S>, t: Entries, r: Entries, capacity: int, m: Mem<S>, pid: Pid, v: nat,
                              write: bool, now: int)
    requires Lawful(pol) && InStep(t, capacity, m) && m.Has(pid, v)
    requires Settling(pol, m, t, r, capacity, pid, v, write, now)
    ensures InStep(r, capacity, SettleWrite(pol, m, pid, v, write, now).mem)
  {
    hide Lawful, InStep, Copying, MakeCopy, CowState.HandleWrite;
    if write && m.tables[pid][v].shared {
      var (cow, verdict) := CowState.HandleWrite(m.cow, m.tables[pid][v].id, pid, m.tables[pid][v].shared);
      match verdict
      case NoCopy => PrivateInStep(t, capacity, m, cow, pid, v);
      case Copy(newId) =>
        var m1 := m.(cow := cow.(created := cow.created + 1));
        SameTablesInStep(t, capacity, m, m1);
        CopyInStep(pol, t, r, capacity, m1, pid, v, newId, now);
    }
  }

  lemma PrivateInStep<S>(t: Entries, capacity: int, m: Mem<S>, cow: CowState.Cow, pid: Pid, v: nat)
    requires InStep(t, capacity, m) && m.Has(pid, v)
    ensures InStep(t, capacity, m.(cow := cow).PutPage(pid, v, m.tables[pid][v].MakePrivate()))
  {
    hide WellFiled;
    var r := m.(cow := cow).PutPage(pid, v, m.tables[pid][v].MakePrivate());
    forall k | k in t ensures r.Maps(t[k].processId, t[k].virtualPage, t[k].frame) {
      assert m.Maps(t[k].processId, t[k].virtualPage, t[k].frame);
    }
  }

  lemma FaultInStep<S(!new)>(pol: Policy<S>, t: Entries, r: Entries, capacity: int, m: Mem<S>, pid: Pid, v: nat,
                             write: bool, now: int)
    requires Lawful(pol) && InStep(t, capacity, m) && m.Has(pid, v) && m.tables[pid][v].id == v
    requires Faulting(pol, m, t, r, capacity, pid, v, write, now)
    ensures InStep(r, capacity, Fault(pol, m, pid, v, write, now).mem)
  {
    var (m1, page) := TakeOut(m, m.tables[pid][v].id);
    assert m1.tables == m.tables;
    hide Lawful, InStep, Load, Loading, SettleWrite, Settling, TakeOut;
    SameTablesInStep(t, capacity, m, m1);
    var l := Load(pol, m1, pid, v, now);
    var t1 :| Loading(pol, m1, t, t1, capacity, pid, v, now)
              && if l.ok then Settling(pol, l.mem, t1, r, capacity, pid, v, write, now) else r == t1;
    LoadInStep(pol, t, t1, capacity, m1, pid, v, now);
    if l.ok {
      SettleInStep(pol, t1, r, capacity, l.mem, pid, v, write, now);
    } else {
      SameTablesInStep(t1, capacity, l.mem, PutBack(l.mem, page));
    }
  }

  // ---- After a fault ----

  lemma {:induction false} EnforceInStep<S(!new)>(pol: Policy<S>, t: Entries, capacity: int, m: Mem<S>,
                                                  used: seq<nat>, target: int, now: int)
    requires Lawful(pol) && InStep(t, capacity, m) && FrameList(m.frames, used)
    ensures InStep(AfterEnforce(pol, m, t, used, target, now), capacity, Enforce(pol, m, used, target, now))
    decreases |used|
  {
    hide Lawful, InStep, Evict, Forgotten;
    if target > 0 && |used| > target {
      var (m1, victim) := Choose(pol, m, used, now);
      SameTablesInStep(t, capacity, m, m1);
      if victim.Some? {
        var i := victim.value;
        EvictInStep(pol, t, capacity, m1, i);
        EnforceInStep(pol, Forgotten(t, m1.frames[i]), capacity, Evict(pol, m1, i), Without(used, i), target, now);
      }
    }
  }

  lemma TargetInStep<S(!new)>(pol: Policy<S>, t: Entries, capacity: int, m: Mem<S>, now: int)
    requires Lawful(pol) && InStep(t, capacity, m)
    ensures InStep(AfterTarget(pol, m, t, now), capacity, EnforceTarget(pol, m, now))
  {
    hide Lawful, InStep, Enforce, AfterEnforce;
    if pol.target(m.policy).Some? {
      EnforceInStep(pol, t, capacity, m, Used(m.frames), pol.target(m.policy).value, now);
    }
  }

  /** Every page that the prefetch loop loads is filed under its own number. */
  ghost predicate OwnPrefetch<S(!new)>(pol: Policy<S>, m: Mem<S>, pid: Pid, pages: seq<nat>, done: nat, now: int)
    requires pid in m.tables
    decreases |pages|
  {
    pages != [] && done < MAX_PREFETCH ==>
      var m1 := EnsurePage(m, pid, pages[0]);
      if m1.tables[pid][pages[0]].present then OwnPrefetch(pol, m1, pid, pages[1..], done, now)
      else
        match PickFree(m1, pid)
        case None => true
        case Some(i) =>
          && m1.tables[pid][pages[0]].id == pages[0]
          && OwnPrefetch(pol, PrefetchOne(pol, m1, i, pid, pages[0], now), pid, pages[1..], done + 1, now)
  }

  lemma EnsuredInStep<S>(t: Entries, capacity: int, m: Mem<S>, pid: Pid, v: nat)
    requires InStep(t, capacity, m) && pid in m.tables
    ensures InStep(t, capacity, EnsurePage(m, pid, v))
  {
    hide WellFiled;
    var r := EnsurePage(m, pid, v);
    forall k | k in t ensures r.Maps(t[k].processId, t[k].virtualPage, t[k].frame) {
      assert m.Maps(t[k].processId, t[k].virtualPage, t[k].frame);
    }
  }

  lemma PrefetchOneInStep<S(!new)>(pol: Policy<S>, t: Entries, r: Entries, capacity: int, m: Mem<S>, i: nat,
                                   pid: Pid, v: nat, now: int)
    requires Lawful(pol) && InStep(t, capacity, m) && i < |m.frames| && m.Has(pid, v) && m.tables[pid][v].id == v
    requires Learned(t, r, capacity, pid, v, i, now)
    ensures InStep(r, capacity, PrefetchOne(pol, m, i, pid, v, now))
  {
    hide Lawful, InStep, Attach, Learned;
    AttachInStep(pol, t, r, capacity, m, i, pid, v, now);
    SameTablesInStep(r, capacity, Attach(pol, m, i, pid, v, now), PrefetchOne(pol, m, i, pid, v, now));
  }

  /** One turn of the loop, as the relation and its guard tell it. */
  lemma PrefetchTurn<S(!new)>(pol: Policy<S>, t: Entries, r: Entries, capacity: int, m: Mem<S>,
                              pid: Pid, pages: seq<nat>, done: nat, now: int, i: nat) returns (t1: Entries)
    requires pid in m.tables && OwnPrefetch(pol, m, pid, pages, done, now)
    requires Prefetching(pol, m, t, r, capacity, pid, pages, done, now)
    requires pages != [] && done < MAX_PREFETCH
    requires !EnsurePage(m, pid, pages[0]).tables[pid][pages[0]].present
    requires PickFree(EnsurePage(m, pid, pages[0]), pid) == Some(i)
    ensures var m1 := EnsurePage(m, pid, pages[0]);
            var m2 := PrefetchOne(pol, m1, i, pid, pages[0], now);
            && m1.tables[pid][pages[0]].id == pages[0] && Learned(t, t1, capacity, pid, pages[0], i, now)
            && OwnPrefetch(pol, m2, pid, pages[1..], done + 1, now)
            && Prefetching(pol, m2, t1, r, capacity, pid, pages[1..], done + 1, now)
  {
    hide EnsurePage, PrefetchOne, PickFree, Learned;
    var m1 := EnsurePage(m, pid, pages[0]);
    var m2 := PrefetchOne(pol, m1, i, pid, pages[0], now);
    t1 :| Learned(t, t1, capacity, pid, m1.tables[pid][pages[0]].id, i, now)
          && Prefetching(pol, m2, t1, r, capacity, pid, pages[1..], done + 1, now);
  }

  lemma {:induction false} PrefetchInStep<S(!new)>(pol: Policy<S>, t: Entries, r: Entries, capacity: int, m: Mem<S>,
                                                   pid: Pid, pages: seq<nat>, done: nat, now: int)
    requires Lawful(pol) && InStep(t, capacity, m) && pid in m.tables && OwnPrefetch(pol, m, pid, pages, done, now)
    requires Prefetching(pol, m, t, r, capacity, pid, pages, done, now)
    ensures InStep(r, capacity, Prefetch(pol, m, pid, pages, done, now))
    decreases |pages|
  {
    PrefetchUnfold(pol, m, pid, pages, done, now);
    if pages == [] || done >= MAX_PREFETCH {
      return;
    }
    EnsuredInStep(t, capacity, m, pid, pages[0]);
    var m1 := EnsurePage(m, pid, pages[0]);
    var free := PickFree(m1, pid);
    hide Lawful, InStep, EnsurePage, PrefetchOne, Prefetch, PickFree, Learned;
    if m1.tables[pid][pages[0]].present {
      PrefetchInStep(pol, t, r, capacity, m1, pid, pages[1..], done, now);
    } else if free.Some? {
      hide Prefetching, OwnPrefetch;
      var t1 := PrefetchTurn(pol, t, r, capacity, m, pid, pages, done, now, free.value);
      PrefetchOneInStep(pol, t, t1, capacity, m1, free.value, pid, pages[0], now);
      PrefetchInStep(pol, t1, r, capacity, PrefetchOne(pol, m1, free.value, pid, pages[0], now),
                     pid, pages[1..], done + 1, now);
    }
  }

  ghost predicate OwnTryPrefetch<S(!new)>(pol: Policy<S>, m: Mem<S>, pid: Pid, now: int)
    requires pid in m.tables
  {
    pid in m.recent && |m.recent[pid]| >= 3 ==>
      var anchor := m.recent[pid][|m.recent[pid]| - 3];
      (pid, anchor) in m.clusters ==> OwnPrefetch(pol, m, pid, Candidates(anchor), 0, now)
  }

  lemma TryPrefetchInStep<S(!new)>(pol: Policy<S>, t: Entries, r: Entries, capacity: int, m: Mem<S>, pid: Pid, now: int)
    requires Lawful(pol) && InStep(t, capacity, m) && pid in m.tables && OwnTryPrefetch(pol, m, pid, now)
    requires TryPrefetching(pol, m, t, r, capacity, pid, now)
    ensures InStep(r, capacity, TryPrefetch(pol, m, pid, now))
  {
    hide Lawful, InStep, Prefetch, Prefetching, OwnPrefetch;
    if pid in m.recent && |m.recent[pid]| >= 3 {
      var anchor := m.recent[pid][|m.recent[pid]| - 3];
      if (pid, anchor) in m.clusters {
        PrefetchInStep(pol, t, r, capacity, m, pid, Candidates(anchor), 0, now);
      }
    }
  }

  /** Every page that is loaded because of a miss is filed under its own number. */
  ghost predicate OwnMiss<S(!new)>(pol: Policy<S>, m: Mem<S>, pid: Pid, v: nat, write: bool, now: int)
    requires Lawful(pol) && m.Has(pid, v)
  {
    var f := Fault(pol, m, pid, v, write, now);
    && m.tables[pid][v].id == v
    && (f.ok ==> OwnAfter(pol, EnforceTarget(pol, CountFault(f.mem), now), pid, now))
  }

  ghost predicate OwnAfter<S(!new)>(pol: Policy<S>, m: Mem<S>, pid: Pid, now: int) {
    m.clustering && pid in m.tables ==> OwnTryPrefetch(pol, m, pid, now)
  }

  /** What the TLB's agreement needs of an operation. */
  ghost predicate OwnStep<S(!new)>(pol: Policy<S>, m: Mem<S>, op: Op, now: int)
    requires Lawful(pol)
  {
    match op
    case Touch(pid, v, write) =>
      pid in m.tables && !m.Resident(pid, v) ==> OwnMiss(pol, Prepared(m, pid, v), pid, v, write, now)
    case ForkTo(parent, child) => parent in m.tables ==> child !in m.tables
    case _ => true
  }

  lemma MissInStep<S(!new)>(pol: Policy<S>, t: Entries, r: Entries, capacity: int, m: Mem<S>, pid: Pid, v: nat,
                            write: bool, now: int)
    requires Lawful(pol) && InStep(t, capacity, m) && m.Has(pid, v) && OwnMiss(pol, m, pid, v, write, now)
    requires Missing(pol, m, t, r, capacity, pid, v, write, now)
    ensures InStep(r, capacity, MissOutcome(pol, m, pid, v, write, now).mem)
  {
    hide Lawful, InStep, Fault, Faulting, OwnTryPrefetch, TryPrefetch, TryPrefetching, EnforceTarget, AfterTarget,
         CountFault;
    var f := Fault(pol, m, pid, v, write, now);
    var t1 :| Faulting(pol, m, t, t1, capacity, pid, v, write, now)
              && if f.ok then Following(pol, f.mem, t1, r, capacity, pid, now) else r == t1;
    FaultInStep(pol, t, t1, capacity, m, pid, v, write, now);
    if f.ok {
      var c := CountFault(f.mem);
      CountedTables(f.mem);
      SameTablesInStep(t1, capacity, f.mem, c);
      TargetInStep(pol, t1, capacity, c, now);
      var m1 := EnforceTarget(pol, c, now);
      if m1.clustering && pid in m1.tables {
        TryPrefetchInStep(pol, AfterTarget(pol, c, t1, now), r, capacity, m1, pid, now);
      }
    }
  }

  lemma CountedTables<S>(m: Mem<S>)
    ensures CountFault(m).tables == m.tables
  {
  }

  lemma HitInStep<S(!new)>(pol: Policy<S>, t: Entries, r: Entries, capacity: int, m: Mem<S>, pid: Pid, v: nat,
                           write: bool, now: int)
    requires Lawful(pol) && InStep(t, capacity, m) && m.Resident(pid, v)
    requires Hitting(pol, m, t, r, capacity, pid, v, write, now)
    ensures var h := FastHit(pol, m, m.tables[pid][v].frame, write, now);
            h.Has(pid, v) && InStep(r, capacity, SettleWrite(pol, h, pid, v, write, now).mem)
  {
    hide Lawful, InStep, Learned, Settling, SettleWrite;
    var i := m.tables[pid][v].frame;
    var h := FastHit(pol, m, i, write, now);
    assert h.tables == m.tables;
    var t1 :| Learned(t, t1, capacity, pid, v, i, now) && Settling(pol, h, t1, r, capacity, pid, v, write, now);
    hide FastHit;
    LearnedInStep(t, t1, capacity, m, h, pid, v, i, now);
    SettleInStep(pol, t1, r, capacity, h, pid, v, write, now);
  }

  lemma PreparedInStep<S>(t: Entries, capacity: int, m: Mem<S>, pid: Pid, v: nat)
    requires InStep(t, capacity, m) && pid in m.tables
    ensures InStep(t, capacity, Prepared(m, pid, v))
    ensures Prepared(m, pid, v).Resident(pid, v) <==> m.Resident(pid, v)
  {
    var m1 := if m.clustering then Track(m, pid, v) else m;
    assert m1 == m.(recent := m1.recent, clusters := m1.clusters);
    hide Track, InStep;
    SameTablesInStep(t, capacity, m, m1);
    EnsuredInStep(t, capacity, m1, pid, v);
  }

  lemma LookedUpInStep<S>(t: Entries, capacity: int, m: Mem<S>, pid: Pid, v: nat, now: int)
    requires InStep(t, capacity, m)
    ensures InStep(LookedUp(t, pid, v, now), capacity, m)
  {
    hide MakeKey;
    var r := LookedUp(t, pid, v, now);
    assert r.Keys == t.Keys;
    assert |r| == |r.Keys| && |t| == |t.Keys|;
    forall k | k in r ensures m.Maps(r[k].processId, r[k].virtualPage, r[k].frame) {
      assert m.Maps(t[k].processId, t[k].virtualPage, t[k].frame);
    }
  }

  lemma AccessInStep<S(!new)>(pol: Policy<S>, t: Entries, r: Entries, capacity: int, m: Mem<S>, pid: Pid, v: nat,
                              write: bool, now: int)
    requires Lawful(pol) && InStep(t, capacity, m) && pid in m.tables && OwnStep(pol, m, Touch(pid, v, write), now)
    requires Accessing(pol, m, t, r, capacity, pid, v, write, now)
    ensures InStep(r, capacity, Access(pol, m, pid, v, write, now).mem)
  {
    PreparedInStep(t, capacity, m, pid, v);
    var m1 := Prepared(m, pid, v);
    hide Lawful, InStep, Prepared, Hitting, Missing, MissOutcome, SettleWrite, FastHit, OwnMiss;
    if m1.Resident(pid, v) {
      HitInStep(pol, t, r, capacity, m1, pid, v, write, now);
    } else {
      MissInStep(pol, t, r, capacity, m1, pid, v, write, now);
    }
  }

  lemma TouchInStep<S(!new)>(pol: Policy<S>, t: Entries, r: Entries, capacity: int, m: Mem<S>, pid: Pid, v: nat,
                             write: bool, now: int)
    requires Lawful(pol) && InStep(t, capacity, m) && OwnStep(pol, m, Touch(pid, v, write), now)
    requires Touching(pol, m, t, r, capacity, pid, v, write, now)
    ensures InStep(r, capacity, CachedStep(pol, m, t, Touch(pid, v, write), now))
  {
    if pid !in m.tables {
      assert Access(pol, m, pid, v, write, now).mem == m;
    } else {
      var t1 := if write then t else LookedUp(t, pid, v, now);
      LookedUpInStep(t, capacity, m, pid, v, now);
      hide Lawful, InStep, Access, Accessing, LookedUp, Cached, OwnStep, MakeKey;
      if !write && Cached(t, m, pid, v) {
        CachedFrame(t, m, pid, v);
        var h := FastHit(pol, m, t[MakeKey(pid, v)].frame, false, now);
        assert h.tables == m.tables;
        SameTablesInStep(t1, capacity, m, h);
      } else {
        AccessInStep(pol, t1, r, capacity, m, pid, v, write, now);
      }
    }
  }

  lemma CachedFrame<S>(t: Entries, m: Mem<S>, pid: Pid, v: nat)
    requires Cached(t, m, pid, v)
    ensures MakeKey(pid, v) in t && 0 <= t[MakeKey(pid, v)].frame < |m.frames|
  {
  }

  // ---- The other operations ----

  lemma RemoveInStep<S>(t: Entries, capacity: int, m: Mem<S>, pid: Pid)
    requires InStep(t, capacity, m)
    ensures InStep(WithoutProcess(t, pid), capacity, Remove(m, pid).mem)
  {
    var r := WithoutProcess(t, pid);
    assert WellFiled(r, capacity) by {
      FewerEntries(t, r, capacity);
    }
    hide WellFiled;
    forall k | k in r ensures Remove(m, pid).mem.Maps(r[k].processId, r[k].virtualPage, r[k].frame) {
      assert m.Maps(t[k].processId, t[k].virtualPage, t[k].frame);
    }
  }

  /** A fork keeps the TLB in agreement exactly if every translation still cached for the child is one that the
      parent has: for a fresh child, always. */
  lemma ForkAgreesIff<S>(t: Entries, m: Mem<S>, parent: Pid, child: Pid)
    requires TlbAgrees(t, m) && parent in m.tables
    ensures TlbAgrees(t, Fork(m, parent, child).mem)
            <==> forall k :: k in t && t[k].processId == child ==> m.Maps(parent, t[k].virtualPage, t[k].frame)
    ensures child !in m.tables ==> TlbAgrees(t, Fork(m, parent, child).mem)
  {
    var r := Fork(m, parent, child).mem;
    forall k | k in t
      ensures r.Maps(t[k].processId, t[k].virtualPage, t[k].frame)
              <==> t[k].processId != child || m.Maps(parent, t[k].virtualPage, t[k].frame)
    {
      assert m.Maps(t[k].processId, t[k].virtualPage, t[k].frame);
    }
  }

  lemma HugeInStep<S(!new)>(pol: Policy<S>, t: Entries, capacity: int, m: Mem<S>, pid: Pid, index: nat, now: int)
    requires Lawful(pol) && InStep(t, capacity, m) && index < HUGE_INDEX_LIMIT && pid in m.tables
    ensures InStep(AfterSlot(pol, m, t, PickFree(m, pid), now), capacity, MapHuge(pol, m, pid, index, now).mem)
  {
    hide Lawful, InStep, FreeSlot, AfterSlot, PickFree;
    var free := PickFree(m, pid);
    SlotInStep(pol, t, capacity, m, free, now);
    SameTablesInStep(AfterSlot(pol, m, t, free, now), capacity, FreeSlot(pol, m, free, now).0,
                     MapHuge(pol, m, pid, index, now).mem);
  }

  lemma CreateInStep<S>(t: Entries, capacity: int, m: Mem<S>, pid: Pid)
    requires InStep(t, capacity, m)
    ensures InStep(t, capacity, Create(m, pid).mem)
  {
    hide WellFiled;
    forall k | k in t ensures Create(m, pid).mem.Maps(t[k].processId, t[k].virtualPage, t[k].frame) {
      assert m.Maps(t[k].processId, t[k].virtualPage, t[k].frame);
    }
  }

  /** One operation of a manager with a TLB, whatever its state: evictions, copies, huge pages, removals. */
  lemma StepInStep<S(!new)>(pol: Policy<S>, t: Entries, r: Entries, capacity: int, m: Mem<S>, op: Op, now: int)
    requires Lawful(pol) && InStep(t, capacity, m) && OwnStep(pol, m, op, now)
    requires TlbStep(pol, m, t, r, capacity, op, now)
    ensures InStep(r, capacity, CachedStep(pol, m, t, op, now))
  {
    hide Lawful, Touching, Access, Remove, MapHuge, AfterSlot, PickFree, Create, WithoutProcess;
    match op
    case Touch(pid, v, write) => TouchInStep(pol, t, r, capacity, m, pid, v, write, now);
    case Spawn(pid) => CreateInStep(t, capacity, m, pid);
    case Kill(pid) => KillInStep(t, capacity, m, pid);
    case ForkTo(parent, child) => ForkInStep(t, capacity, m, parent, child);
    case HugeMap(pid, index) => HugeMapInStep(pol, t, capacity, m, pid, index, now);
    case ResetAll =>
    case _ => SameTablesInStep(t, capacity, m, Perform(pol, m, op, now).mem);
  }

  lemma KillInStep<S>(t: Entries, capacity: int, m: Mem<S>, pid: Pid)
    requires InStep(t, capacity, m)
    ensures InStep(if pid in m.tables then WithoutProcess(t, pid) else t, capacity, Remove(m, pid).mem)
  {
    hide InStep;
    if pid in m.tables {
      RemoveInStep(t, capacity, m, pid);
    }
  }

  lemma ForkInStep<S>(t: Entries, capacity: int, m: Mem<S>, parent: Pid, child: Pid)
    requires InStep(t, capacity, m) && (parent in m.tables ==> child !in m.tables)
    ensures InStep(t, capacity, Fork(m, parent, child).mem)
  {
    hide TlbAgrees, WellFiled;
    if parent in m.tables {
      ForkAgreesIff(t, m, parent, child);
    }
  }

  lemma HugeMapInStep<S(!new)>(pol: Policy<S>, t: Entries, capacity: int, m: Mem<S>, pid: Pid, index: nat, now: int)
    requires Lawful(pol) && InStep(t, capacity, m)
    ensures var r := if index < HUGE_INDEX_LIMIT && pid in m.tables
                     then AfterSlot(pol, m, t, PickFree(m, pid), now) else t;
            InStep(r, capacity, MapHuge(pol, m, pid, index, now).mem)
  {
    hide InStep, AfterSlot, PickFree;
    if index < HUGE_INDEX_LIMIT && pid in m.tables {
      HugeInStep(pol, t, capacity, m, pid, index, now);
    }
  }

  // ---- Whole runs ----

  /** A run whose TLB, empty at first, held tlbs[k] before operation k. */
  ghost predicate Produced<S(!new)>(pol: Policy<S>, start: S, numFrames: nat, ops: seq<Op>, times: seq<int>,
                                    tlbs: seq<Entries>, capacity: int)
    requires Lawful(pol) && |times| == |ops| && |tlbs| == |ops| + 1
  {
    if ops == [] then tlbs[0] == map[]
    else
      var n := |ops| - 1;
      && Produced(pol, start, numFrames, ops[..n], times[..n], tlbs[..n + 1], capacity)
      && TlbStep(pol, CachedHistory(pol, start, numFrames, ops[..n], times[..n], tlbs[..n]),
                 tlbs[n], tlbs[n + 1], capacity, ops[n], times[n])
  }

  /** Every operation of the run, without a TLB, loads pages under their own numbers and forks to fresh
      processes. */
  ghost predicate OwnRun<S(!new)>(pol: Policy<S>, start: S, numFrames: nat, ops: seq<Op>, times: seq<int>)
    requires Lawful(pol) && |times| == |ops|
  {
    ops == [] ||
    var n := |ops| - 1;
    && OwnRun(pol, start, numFrames, ops[..n], times[..n])
    && OwnStep(pol, History(pol, start, numFrames, ops[..n], times[..n]), ops[n], times[n])
  }

  // ---- Runs without forks and huge pages ----

  lemma {:induction false} CoherentOwnPrefetch<S(!new)>(pol: Policy<S>, m: Mem<S>, pid: Pid, pages: seq<nat>,
                                                        done: nat, now: int)
    requires Lawful(pol) && Coherence.Coherent(m) && pid in m.tables
    ensures OwnPrefetch(pol, m, pid, pages, done, now)
    decreases |pages|
  {
    hide Coherence.Coherent, Lawful, PrefetchOne, EnsurePage, PickFree;
    if pages != [] && done < MAX_PREFETCH {
      Coherence.EnsurePageCoherent(m, pid, pages[0]);
      var m1 := EnsurePage(m, pid, pages[0]);
      CoherentNumber(m1, pid, pages[0]);
      var free := PickFree(m1, pid);
      if m1.tables[pid][pages[0]].present {
        CoherentOwnPrefetch(pol, m1, pid, pages[1..], done, now);
      } else if free.Some? {
        Coherence.PrefetchOneCoherent(pol, m1, free.value, pid, pages[0], now);
        CoherentOwnPrefetch(pol, PrefetchOne(pol, m1, free.value, pid, pages[0], now), pid, pages[1..], done + 1, now);
      }
    }
  }

  lemma CoherentNumber<S>(m: Mem<S>, pid: Pid, v: nat)
    requires Coherence.Coherent(m) && m.Has(pid, v)
    ensures m.tables[pid][v].id == v && (m.tables[pid][v].present ==> m.Resident(pid, v))
  {
    assert Coherence.PageOk(m, pid, v);
  }

  lemma CoherentOwnTry<S(!new)>(pol: Policy<S>, m: Mem<S>, pid: Pid, now: int)
    requires Lawful(pol) && Coherence.Coherent(m) && pid in m.tables
    ensures OwnTryPrefetch(pol, m, pid, now)
  {
    hide Coherence.Coherent, Lawful, OwnPrefetch;
    if pid in m.recent && |m.recent[pid]| >= 3 {
      CoherentOwnPrefetch(pol, m, pid, Candidates(m.recent[pid][|m.recent[pid]| - 3]), 0, now);
    }
  }

  lemma CoherentOwnMiss<S(!new)>(pol: Policy<S>, m: Mem<S>, pid: Pid, v: nat, write: bool, now: int)
    requires Lawful(pol) && Coherence.Coherent(m) && m.Has(pid, v) && !m.tables[pid][v].present
    ensures OwnMiss(pol, m, pid, v, write, now)
  {
    hide Coherence.Coherent, Lawful, Fault, EnforceTarget, OwnTryPrefetch, TryPrefetch;
    CoherentNumber(m, pid, v);
    Coherence.FaultCoherent(pol, m, pid, v, write, now);
    var f := Fault(pol, m, pid, v, write, now);
    if f.ok {
      Coherence.AfterFaultCoherent(pol, f.mem, pid, now);
      CoherentOwnTry(pol, EnforceTarget(pol, CountFault(f.mem), now), pid, now);
    }
  }

  lemma CoherentOwnStep<S(!new)>(pol: Policy<S>, m: Mem<S>, op: Op, now: int)
    requires Lawful(pol) && Coherence.Coherent(m) && !op.ForkTo?
    ensures OwnStep(pol, m, op, now)
  {
    hide Coherence.Coherent, Lawful, OwnMiss, Prepared;
    if op.Touch? && op.pid in m.tables && !m.Resident(op.pid, op.v) {
      Coherence.PreparedCoherent(m, op.pid, op.v);
      CoherentOwnMiss(pol, Prepared(m, op.pid, op.v), op.pid, op.v, op.write, now);
    }
  }

  lemma CachedStepCoherent<S(!new)>(pol: Policy<S>, m: Mem<S>, t: Entries, op: Op, now: int)
    requires Lawful(pol) && Coherence.Coherent(m) && !op.ForkTo? && !op.HugeMap?
    ensures Coherence.Coherent(CachedStep(pol, m, t, op, now))
  {
    hide Coherence.Coherent, Lawful, Perform, MakeKey, Cached;
    if op.Touch? && !op.write && op.pid in m.tables && Cached(t, m, op.pid, op.v) {
      CachedFrame(t, m, op.pid, op.v);
      Coherence.FastHitCoherent(pol, m, t[MakeKey(op.pid, op.v)].frame, false, now);
    } else {
      Coherence.PerformCoherent(pol, m, op, now);
    }
  }

  lemma ForklessRunsAreOwn<S(!new)>(pol: Policy<S>, start: S, numFrames: nat, ops: seq<Op>, times: seq<int>)
    requires Lawful(pol) && |times| == |ops| && Forkless(ops)
    ensures OwnRun(pol, start, numFrames, ops, times)
  {
    if ops != [] {
      var n := |ops| - 1;
      ForklessRunsAreOwn(pol, start, numFrames, ops[..n], times[..n]);
      Coherence.CoherentInEveryRun(pol, start, numFrames, ops[..n], times[..n]);
      hide Coherence.Coherent, Lawful, OwnStep, History;
      CoherentOwnStep(pol, History(pol, start, numFrames, ops[..n], times[..n]), ops[n], times[n]);
    }
  }

  /** The contents that a run produces, up to its last operation, are those of its first part. */
  lemma FirstPart(tlbs: seq<Entries>, n: nat)
    requires |tlbs| == n + 2
    ensures tlbs[..n + 1][..n] == tlbs[..n] && tlbs[..n + 1][n] == tlbs[n]
    ensures |tlbs[..n + 1]| == n + 1
  {
  }

  /** In every run without forks and huge pages, with clustering or without it, for every capacity: after each
      operation the TLB agrees with the page tables, these with the frames and the multi-level tables, and the
      TLB is within its capacity. */
  lemma {:induction false} TlbAgreesInEveryRun<S(!new)>(pol: Policy<S>, start: S, numFrames: nat, ops: seq<Op>,
                                                        times: seq<int>, tlbs: seq<Entries>, capacity: int)
    requires Lawful(pol) && |times| == |ops| && |tlbs| == |ops| + 1 && Forkless(ops)
    requires Produced(pol, start, numFrames, ops, times, tlbs, capacity)
    ensures var m := CachedHistory(pol, start, numFrames, ops, times, tlbs[..|ops|]);
            Coherence.Coherent(m) && InStep(tlbs[|ops|], capacity, m)
    ensures KeptTlbs(pol, start, numFrames, ops, times, tlbs[..|ops|], capacity)
  {
    if ops != [] {
      var n := |ops| - 1;
      FirstPart(tlbs, n);
      TlbAgreesInEveryRun(pol, start, numFrames, ops[..n], times[..n], tlbs[..n + 1], capacity);
      hide Lawful, TlbStep, CachedStep, OwnStep, Coherence.Coherent;
      var m := CachedHistory(pol, start, numFrames, ops[..n], times[..n], tlbs[..n]);
      CoherentOwnStep(pol, m, ops[n], times[n]);
      CachedStepCoherent(pol, m, tlbs[n], ops[n], times[n]);
      StepInStep(pol, tlbs[n], tlbs[n + 1], capacity, m, ops[n], times[n]);
      assert tlbs[..|ops|][..n] == tlbs[..n];
    }
  }

  /** With forks, copies and huge pages, and clustering off: as long as every page is loaded under its own number
      and every fork has a fresh child, the TLB agrees after each operation, and so changes nothing. */
  lemma {:induction false} OwnRunsKeepTlb<S(!new)>(pol: Policy<S>, start: S, numFrames: nat, ops: seq<Op>,
                                                   times: seq<int>, tlbs: seq<Entries>, capacity: int)
    requires Lawful(pol) && |times| == |ops| && |tlbs| == |ops| + 1 && ClusteringStaysOff(ops)
    requires OwnRun(pol, start, numFrames, ops, times)
    requires Produced(pol, start, numFrames, ops, times, tlbs, capacity)
    ensures CachedHistory(pol, start, numFrames, ops, times, tlbs[..|ops|])
            == History(pol, start, numFrames, ops, times)
    ensures InStep(tlbs[|ops|], capacity, History(pol, start, numFrames, ops, times))
    ensures KeptTlbs(pol, start, numFrames, ops, times, tlbs[..|ops|], capacity)
  {
    hide Lawful, TlbStep, CachedStep, OwnStep, Perform, InStep, Produced, OwnRun;
    if ops == [] {
      StartsInStep(pol, start, numFrames, times, tlbs, capacity);
    } else {
      var n := |ops| - 1;
      FirstPart(tlbs, n);
      OneMoreOwn(pol, start, numFrames, ops, times, tlbs, capacity);
      OwnRunsKeepTlb(pol, start, numFrames, ops[..n], times[..n], tlbs[..n + 1], capacity);
      var m := History(pol, start, numFrames, ops[..n], times[..n]);
      StepInStep(pol, tlbs[n], tlbs[n + 1], capacity, m, ops[n], times[n]);
      assert tlbs[..|ops|][..n] == tlbs[..n];
      Agrees(tlbs[n], capacity, m);
      hide WellFiled, TlbAgrees;
      TlbIsTransparent(pol, start, numFrames, ops, times, tlbs[..|ops|], capacity);
    }
  }

  lemma StartsInStep<S(!new)>(pol: Policy<S>, start: S, numFrames: nat, times: seq<int>, tlbs: seq<Entries>,
                              capacity: int)
    requires Lawful(pol) && times == [] && |tlbs| == 1 && Produced(pol, start, numFrames, [], times, tlbs, capacity)
    ensures InStep(tlbs[0], capacity, History(pol, start, numFrames, [], times))
  {
  }

  lemma Agrees<S>(t: Entries, capacity: int, m: Mem<S>)
    requires InStep(t, capacity, m)
    ensures WellFiled(t, capacity) && TlbAgrees(t, m)
  {
  }

  lemma OneMoreOwn<S(!new)>(pol: Policy<S>, start: S, numFrames: nat, ops: seq<Op>, times: seq<int>,
                            tlbs: seq<Entries>, capacity: int)
    requires Lawful(pol) && |times| == |ops| > 0 && |tlbs| == |ops| + 1
    requires OwnRun(pol, start, numFrames, ops, times) && Produced(pol, start, numFrames, ops, times, tlbs, capacity)
    ensures var n := |ops| - 1;
            && OwnRun(pol, start, numFrames, ops[..n], times[..n])
            && OwnStep(pol, History(pol, start, numFrames, ops[..n], times[..n]), ops[n], times[n])
            && Produced(pol, start, numFrames, ops[..n], times[..n], tlbs[..n + 1], capacity)
            && TlbStep(pol, CachedHistory(pol, start, numFrames, ops[..n], times[..n], tlbs[..n]),
                       tlbs[n], tlbs[n + 1], capacity, ops[n], times[n])
  {
    hide Lawful, TlbStep, CachedStep, OwnStep, Perform, CachedHistory, History;
  }

  /** Managers that differ in the capacity of their TLBs, and in which of the oldest entries these drop, agree
      after the same operations. */
  lemma CapacityIsTransparent<S(!new)>(pol: Policy<S>, start: S, numFrames: nat, ops: seq<Op>, times: seq<int>,
                                       small: seq<Entries>, smallSize: int, large: seq<Entries>, largeSize: int)
    requires Lawful(pol) && |times| == |ops| && |small| == |large| == |ops| + 1 && ClusteringStaysOff(ops)
    requires Forkless(ops) || OwnRun(pol, start, numFrames, ops, times)
    requires Produced(pol, start, numFrames, ops, times, small, smallSize)
    requires Produced(pol, start, numFrames, ops, times, large, largeSize)
    ensures CachedHistory(pol, start, numFrames, ops, times, small[..|ops|])
            == CachedHistory(pol, start, numFrames, ops, times, large[..|ops|])
            == History(pol, start, numFrames, ops, times)
  {
    if Forkless(ops) {
      ForklessRunsAreOwn(pol, start, numFrames, ops, times);
    }
    hide Lawful, Produced, OwnRun, InStep, KeptTlbs;
    OwnRunsKeepTlb(pol, start, numFrames, ops, times, small, smallSize);
    OwnRunsKeepTlb(pol, start, numFrames, ops, times, large, largeSize);
  }
}
