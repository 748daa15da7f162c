/** What each operation of the memory manager does to the contents of the TLB, beside what it does to everything
    else: a map that loads and copies insert into and evictions drop from. An insertion into a full TLB drops
    one of the oldest entries, so the steps are relations. */
module TlbSteps {
  import opened Prelude
  import opened Frames
  import opened MemoryModel
  import opened Runs
  import opened Tlb
  import opened Transparency
  import CowState

  type Entries = map<string, Tlb.Entry>

  // ---- Single edits ----

  /** Insert. */
  ghost predicate Learned(t: Entries, r: Entries, capacity: int, pid: Pid, v: nat, frame: int, now: int) {
    exists room :: MadeRoom(t, room, capacity) && r == room[MakeKey(pid, v) := Tlb.Entry(pid, v, frame, true, now)]
  }

  /** Invalidate, for the page that an evicted frame is tagged with. */
  function Forgotten(t: Entries, f: Frame): Entries {
    t - {MakeKey(f.processId, f.pageId)}
  }

  // ---- A fault ----

  /** After a frame has been had, by eviction if none was free. */
  ghost function AfterSlot<S(!new)>(pol: Policy<S>, m: Mem<S>, t: Entries, free: Option<nat>, now: int): Entries
    requires Lawful(pol)
  {
    if free.Some? then t
    else
      var (m1, victim) := Choose(pol, m, Used(m.frames), now);
      match victim
      case None => t
      case Some(i) => Forgotten(t, m1.frames[i])
  }

  lemma NoSlotForgetsNothing<S(!new)>(pol: Policy<S>, m: Mem<S>, t: Entries, free: Option<nat>, now: int)
    requires Lawful(pol) && (free.Some? ==> free.value < |m.frames|) && FreeSlot(pol, m, free, now).1.None?
    ensures AfterSlot(pol, m, t, free, now) == t
  {
    hide Evict, Lawful;
  }

  ghost predicate Loading<S(!new)>(pol: Policy<S>, m: Mem<S>, t: Entries, r: Entries, capacity: int,
                                   pid: Pid, v: nat, now: int)
    requires Lawful(pol) && m.Has(pid, v)
  {
    var free := PickFree(m, pid);
    match FreeSlot(pol, m, free, now).1
    case None => r == t
    case Some(i) => Learned(AfterSlot(pol, m, t, free, now), r, capacity, pid, m.tables[pid][v].id, i, now)
  }

  /** handleCoW files the copy under the number of the page that it replaces. */
  ghost predicate Copying<S(!new)>(pol: Policy<S>, m: Mem<S>, t: Entries, r: Entries, capacity: int,
                                   pid: Pid, id: nat, now: int)
    requires Lawful(pol)
  {
    var free := FirstFree(m.frames, 0, |m.frames|);
    match FreeSlot(pol, m, free, now).1
    case None => r == t
    case Some(i) => Learned(AfterSlot(pol, m, t, free, now) - {MakeKey(pid, id)}, r, capacity, pid, id, i, now)
  }

  ghost predicate Finishing<S(!new)>(pol: Policy<S>, m: Mem<S>, t: Entries, r: Entries, capacity: int,
                                     pid: Pid, v: nat, verdict: CowState.Verdict, now: int)
    requires Lawful(pol) && m.Has(pid, v)
  {
    match verdict
    case NoCopy => r == t
    case Copy(_) =>
      Copying(pol, m.(cow := m.cow.(created := m.cow.created + 1)), t, r, capacity, pid, m.tables[pid][v].id, now)
  }

  ghost predicate Sharing<S(!new)>(pol: Policy<S>, m: Mem<S>, t: Entries, r: Entries, capacity: int,
                                   pid: Pid, v: nat, now: int)
    requires Lawful(pol) && m.Has(pid, v)
  {
    var page := m.tables[pid][v];
    var (cow, verdict) := CowState.HandleWrite(m.cow, page.id, pid, page.shared);
    Finishing(pol, m.(cow := cow), t, r, capacity, pid, v, verdict, now)
  }

  ghost predicate Settling<S(!new)>(pol: Policy<S>, m: Mem<S>, t: Entries, r: Entries, capacity: int,
                                    pid: Pid, v: nat, write: bool, now: int)
    requires Lawful(pol) && m.Has(pid, v)
  {
    if write && m.tables[pid][v].shared then Sharing(pol, m, t, r, capacity, pid, v, now) else r == t
  }

  ghost predicate Faulting<S(!new)>(pol: Policy<S>, m: Mem<S>, t: Entries, r: Entries, capacity: int,
                                    pid: Pid, v: nat, write: bool, now: int)
    requires Lawful(pol) && m.Has(pid, v)
  {
    var m1 := TakeOut(m, m.tables[pid][v].id).0;
    var l := Load(pol, m1, pid, v, now);
    exists t1 :: Loading(pol, m1, t, t1, capacity, pid, v, now)
                 && if l.ok then Settling(pol, l.mem, t1, r, capacity, pid, v, write, now) else r == t1
  }

  // ---- After a fault ----

  ghost function AfterEnforce<S(!new)>(pol: Policy<S>, m: Mem<S>, t: Entries, used: seq<nat>, target: int,
                                       now: int): Entries
    requires Lawful(pol) && FrameList(m.frames, used)
    decreases |used|
  {
    if target <= 0 || |used| <= target then t
    else
      var (m1, victim) := Choose(pol, m, used, now);
      match victim
      case None => t
      case Some(i) => AfterEnforce(pol, Evict(pol, m1, i), Forgotten(t, m1.frames[i]), Without(used, i), target, now)
  }

  ghost function AfterTarget<S(!new)>(pol: Policy<S>, m: Mem<S>, t: Entries, now: int): Entries
    requires Lawful(pol)
  {
    match pol.target(m.policy)
    case None => t
    case Some(target) => AfterEnforce(pol, m, t, Used(m.frames), target, now)
  }

  ghost predicate Prefetching<S(!new)>(pol: Policy<S>, m: Mem<S>, t: Entries, r: Entries, capacity: int,
                                       pid: Pid, pages: seq<nat>, done: nat, now: int)
    requires pid in m.tables
    decreases |pages|
  {
    if pages == [] || done >= MAX_PREFETCH then r == t
    else
      var m1 := EnsurePage(m, pid, pages[0]);
      if m1.tables[pid][pages[0]].present then Prefetching(pol, m1, t, r, capacity, pid, pages[1..], done, now)
      else
        match PickFree(m1, pid)
        case None => r == t
        case Some(i) =>
          exists t1 :: Learned(t, t1, capacity, pid, m1.tables[pid][pages[0]].id, i, now)
                       && Prefetching(pol, PrefetchOne(pol, m1, i, pid, pages[0], now), t1, r, capacity,
                                      pid, pages[1..], done + 1, now)
  }

  /** Whatever the rest of the loop may leave from here, the whole loop may leave from its start. */
  ghost predicate Continues<S(!new)>(pol: Policy<S>, m0: Mem<S>, t0: Entries, pages: seq<nat>, m: Mem<S>, t: Entries,
                                     todo: seq<nat>, done: nat, capacity: int, pid: Pid, now: int)
    requires pid in m0.tables && pid in m.tables
  {
    forall r :: Prefetching(pol, m, t, r, capacity, pid, todo, done, now)
                ==> Prefetching(pol, m0, t0, r, capacity, pid, pages, 0, now)
  }

  lemma PrefetchingStarts<S(!new)>(pol: Policy<S>, m: Mem<S>, t: Entries, pages: seq<nat>, capacity: int, pid: Pid,
                                   now: int)
    requires pid in m.tables
    ensures Continues(pol, m, t, pages, m, t, pages, 0, capacity, pid, now)
  {
    hide Prefetching;
  }

  /** The loop ends here. */
  lemma PrefetchingEnds<S(!new)>(pol: Policy<S>, m0: Mem<S>, t0: Entries, pages: seq<nat>, m: Mem<S>, t: Entries,
                                 todo: seq<nat>, done: nat, capacity: int, pid: Pid, now: int)
    requires pid in m0.tables && pid in m.tables
    requires Continues(pol, m0, t0, pages, m, t, todo, done, capacity, pid, now)
    requires todo != [] && done < MAX_PREFETCH ==>
               var m1 := EnsurePage(m, pid, todo[0]);
               !m1.tables[pid][todo[0]].present && PickFree(m1, pid).None?
    ensures Prefetching(pol, m0, t0, t, capacity, pid, pages, 0, now)
  {
    hide EnsurePage, PickFree;
    assert Prefetching(pol, m, t, t, capacity, pid, todo, done, now);
    hide Prefetching;
  }

  /** One turn of the loop. */
  lemma PrefetchingTurns<S(!new)>(pol: Policy<S>, m0: Mem<S>, t0: Entries, pages: seq<nat>, m: Mem<S>, t: Entries,
                                  m2: Mem<S>, t2: Entries, todo: seq<nat>, done: nat, capacity: int, pid: Pid, now: int)
    requires pid in m0.tables && pid in m.tables && todo != [] && done < MAX_PREFETCH
    requires Continues(pol, m0, t0, pages, m, t, todo, done, capacity, pid, now)
    requires var m1 := EnsurePage(m, pid, todo[0]);
             var free := PickFree(m1, pid);
             if m1.tables[pid][todo[0]].present then m2 == m1 && t2 == t
             else free.Some? && m2 == PrefetchOne(pol, m1, free.value, pid, todo[0], now)
                  && Learned(t, t2, capacity, pid, m1.tables[pid][todo[0]].id, free.value, now)
    ensures pid in m2.tables
    ensures var n := if EnsurePage(m, pid, todo[0]).tables[pid][todo[0]].present then done else done + 1;
            Continues(pol, m0, t0, pages, m2, t2, todo[1..], n, capacity, pid, now)
  {
    hide EnsurePage, PickFree, PrefetchOne, Learned;
    var n := if EnsurePage(m, pid, todo[0]).tables[pid][todo[0]].present then done else done + 1;
    forall r | Prefetching(pol, m2, t2, r, capacity, pid, todo[1..], n, now)
      ensures Prefetching(pol, m0, t0, r, capacity, pid, pages, 0, now)
    {
      assert Prefetching(pol, m, t, r, capacity, pid, todo, done, now);
    }
  }

  ghost predicate TryPrefetching<S(!new)>(pol: Policy<S>, m: Mem<S>, t: Entries, r: Entries, capacity: int,
                                          pid: Pid, now: int)
    requires pid in m.tables
  {
    if pid !in m.recent || |m.recent[pid]| < 3 then r == t
    else
      var anchor := m.recent[pid][|m.recent[pid]| - 3];
      if (pid, anchor) !in m.clusters then r == t
      else Prefetching(pol, m, t, r, capacity, pid, Candidates(anchor), 0, now)
  }

  /** What follows the fault, from the state m that it left. */
  ghost predicate Following<S(!new)>(pol: Policy<S>, m: Mem<S>, t: Entries, r: Entries, capacity: int,
                                     pid: Pid, now: int)
    requires Lawful(pol)
  {
    var c := CountFault(m);
    var m1 := EnforceTarget(pol, c, now);
    var t1 := AfterTarget(pol, c, t, now);
    if m1.clustering && pid in m1.tables then TryPrefetching(pol, m1, t1, r, capacity, pid, now) else r == t1
  }

  ghost predicate Missing<S(!new)>(pol: Policy<S>, m: Mem<S>, t: Entries, r: Entries, capacity: int,
                                   pid: Pid, v: nat, write: bool, now: int)
    requires Lawful(pol) && m.Has(pid, v)
  {
    var f := Fault(pol, m, pid, v, write, now);
    exists t1 :: Faulting(pol, m, t, t1, capacity, pid, v, write, now)
                 && if f.ok then Following(pol, f.mem, t1, r, capacity, pid, now) else r == t1
  }

  // ---- The operations ----

  ghost predicate Hitting<S(!new)>(pol: Policy<S>, m: Mem<S>, t: Entries, r: Entries, capacity: int,
                                   pid: Pid, v: nat, write: bool, now: int)
    requires Lawful(pol) && m.Resident(pid, v)
  {
    var i := m.tables[pid][v].frame;
    exists t1 :: Learned(t, t1, capacity, pid, v, i, now)
                 && Settling(pol, FastHit(pol, m, i, write, now), t1, r, capacity, pid, v, write, now)
  }

  /** AccessMemory's write-locked section. */
  ghost predicate Accessing<S(!new)>(pol: Policy<S>, m: Mem<S>, t: Entries, r: Entries, capacity: int,
                                     pid: Pid, v: nat, write: bool, now: int)
    requires Lawful(pol) && pid in m.tables
  {
    var m1 := Prepared(m, pid, v);
    if m1.Resident(pid, v) then Hitting(pol, m1, t, r, capacity, pid, v, write, now)
    else Missing(pol, m1, t, r, capacity, pid, v, write, now)
  }

  /** AccessMemory: a read looks into the TLB first, which stamps the entry that it finds. */
  ghost predicate Touching<S(!new)>(pol: Policy<S>, m: Mem<S>, t: Entries, r: Entries, capacity: int,
                                    pid: Pid, v: nat, write: bool, now: int)
    requires Lawful(pol)
  {
    if pid !in m.tables then r == t
    else
      var t1 := if write then t else LookedUp(t, pid, v, now);
      if !write && Cached(t, m, pid, v) then r == t1
      else Accessing(pol, m, t1, r, capacity, pid, v, write, now)
  }

  function WithoutProcess(t: Entries, pid: Pid): Entries {
    map k | k in t && t[k].processId != pid :: t[k]
  }

  /** One operation: a TLB of the given capacity that holds t before it may hold r after it. */
  ghost predicate TlbStep<S(!new)>(pol: Policy<S>, m: Mem<S>, t: Entries, r: Entries, capacity: int, op: Op, now: int)
    requires Lawful(pol)
  {
    match op
    case Touch(pid, v, write) => Touching(pol, m, t, r, capacity, pid, v, write, now)
    case Kill(pid) => r == if pid in m.tables then WithoutProcess(t, pid) else t
    case HugeMap(pid, index) =>
      r == if index < HUGE_INDEX_LIMIT && pid in m.tables then AfterSlot(pol, m, t, PickFree(m, pid), now) else t
    case ResetAll => r == map[]
    case _ => r == t
  }
}
