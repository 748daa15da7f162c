/** What the fields of a frame record: a log of the accesses to each frame since it was last allocated is kept
    beside a run of the manager, and the frame's stamps, count and dirty bit are read off it. */
module FrameLogs {
  import opened Prelude
  import opened Frames
  import opened MemoryModel
  import opened Runs
  import CowState
  import LruStack
  import ArcPolicy

  // ---- The log ----

  datatype Event = Event(at: int, write: bool)

  /** The events at each frame since its last allocation, and how many frames went out that had been written. */
  datatype Ledger = Ledger(logs: map<nat, seq<Event>>, dirtyOut: nat)

  const NO_EVENTS := Ledger(map[], 0)

  function Log(l: Ledger, i: nat): seq<Event> {
    if i in l.logs then l.logs[i] else []
  }

  ghost predicate Written(log: seq<Event>) {
    exists k :: 0 <= k < |log| && log[k].write
  }

  /** The load, with which a log begins, is no write. */
  function Taken(l: Ledger, i: nat, now: int): Ledger {
    l.(logs := l.logs[i := [Event(now, false)]])
  }

  function Hit(l: Ledger, i: nat, write: bool, now: int): Ledger {
    l.(logs := l.logs[i := Log(l, i) + [Event(now, write)]])
  }

  ghost function Out(l: Ledger, i: nat): Ledger {
    l.(dirtyOut := l.dirtyOut + if Written(Log(l, i)) then 1 else 0)
  }

  /** The frame's fields are the first and the last stamp of its log, its length, and whether it holds a write. */
  ghost predicate Tells(f: Frame, log: seq<Event>) {
    && log != []
    && f.loadedAt == log[0].at && f.lastAccess == log[|log| - 1].at
    && f.accessCount == |log|
    && (f.modified <==> Written(log))
  }

  // ---- Policies that record ----

  ghost predicate SameHistory(f: Frame, g: Frame) {
    && f.loadedAt == g.loadedAt && f.lastAccess == g.lastAccess
    && f.accessCount == g.accessCount && f.modified == g.modified
  }

  /** The frame has been accessed once more. */
  ghost predicate Recorded(f: Frame, g: Frame, write: bool, now: int) {
    && g.loadedAt == f.loadedAt && g.lastAccess == now && g.accessCount == f.accessCount + 1
    && (g.modified <==> f.modified || write)
  }

  ghost predicate LeavesHistory<S>(r: Selection<S>, fs: seq<Frame>) {
    |r.frames| == |fs| && forall k :: 0 <= k < |fs| ==> SameHistory(r.frames[k], fs[k])
  }

  /** A policy that records every access and load on its frame, and otherwise touches no record. */
  ghost predicate Recording<S(!new)>(p: Policy<S>) {
    && (forall s, fs, ids, now :: FrameList(fs, ids) ==> LeavesHistory(p.select(s, fs, ids, now), fs))
    && (forall s, i, f, w, now :: Recorded(f, p.onAccess(s, i, f, w, now).1, w, now))
    && (forall s, i, f, now :: Recorded(f, p.onFault(s, i, f, now).1, false, now))
    && (forall s, i, f :: SameHistory(p.onEvict(s, i, f).1, f))
  }

  lemma LruRecords()
    ensures Recording(LruStack.LruPolicy())
  {
  }

  lemma ArcRecords()
    ensures Recording(ArcPolicy.ArcPolicy())
  {
    forall s: ArcPolicy.ArcState, fs, ids, now | FrameList(fs, ids)
      ensures LeavesHistory(ArcPolicy.ArcPolicy().select(s, fs, ids, now), fs)
    {
    }
  }

  // ---- The log beside the manager ----

  ghost function SlotLog<S(!new)>(pol: Policy<S>, m: Mem<S>, l: Ledger, free: Option<nat>, now: int): Ledger
    requires Lawful(pol)
  {
    if free.Some? then l
    else
      match Choose(pol, m, Used(m.frames), now).1
      case None => l
      case Some(i) => Out(l, i)
  }

  /** A frame is had, if it can be, and allocated. */
  ghost function TakingLog<S(!new)>(pol: Policy<S>, m: Mem<S>, l: Ledger, free: Option<nat>, now: int): Ledger
    requires Lawful(pol) && (free.Some? ==> free.value < |m.frames|)
  {
    match FreeSlot(pol, m, free, now).1
    case None => SlotLog(pol, m, l, free, now)
    case Some(i) => Taken(SlotLog(pol, m, l, free, now), i, now)
  }

  ghost function SettleLog<S(!new)>(pol: Policy<S>, m: Mem<S>, l: Ledger, pid: Pid, v: nat, write: bool,
                                    now: int): Ledger
    requires Lawful(pol) && m.Has(pid, v)
  {
    var page := m.tables[pid][v];
    if write && page.shared then
      var (cow, verdict) := CowState.HandleWrite(m.cow, page.id, pid, page.shared);
      match verdict
      case NoCopy => l
      case Copy(_) =>
        TakingLog(pol, m.(cow := cow.(created := cow.created + 1)), l, FirstFree(m.frames, 0, |m.frames|), now)
    else l
  }

  ghost function FaultLog<S(!new)>(pol: Policy<S>, m: Mem<S>, l: Ledger, pid: Pid, v: nat, write: bool,
                                   now: int): Ledger
    requires Lawful(pol) && m.Has(pid, v)
  {
    var m1 := TakeOut(m, m.tables[pid][v].id).0;
    var l1 := TakingLog(pol, m1, l, PickFree(m1, pid), now);
    var r := Load(pol, m1, pid, v, now);
    if r.ok then SettleLog(pol, r.mem, l1, pid, v, write, now) else l1
  }

  ghost function EnforceLog<S(!new)>(pol: Policy<S>, m: Mem<S>, l: Ledger, used: seq<nat>, target: int,
                                     now: int): Ledger
    requires Lawful(pol) && FrameList(m.frames, used)
    decreases |used|
  {
    if target <= 0 || |used| <= target then l
    else
      var (m1, victim) := Choose(pol, m, used, now);
      match victim
      case None => l
      case Some(i) => EnforceLog(pol, Evict(pol, m1, i), Out(l, i), Without(used, i), target, now)
  }

  ghost function TargetLog<S(!new)>(pol: Policy<S>, m: Mem<S>, l: Ledger, now: int): Ledger
    requires Lawful(pol)
  {
    match pol.target(m.policy)
    case None => l
    case Some(target) => EnforceLog(pol, m, l, Used(m.frames), target, now)
  }

  ghost function PrefetchLog<S(!new)>(pol: Policy<S>, m: Mem<S>, l: Ledger, pid: Pid, pages: seq<nat>, done: nat,
                                      now: int): Ledger
    requires pid in m.tables
    decreases |pages|
  {
    if pages == [] || done >= MAX_PREFETCH then l
    else
      var m1 := EnsurePage(m, pid, pages[0]);
      if m1.tables[pid][pages[0]].present then PrefetchLog(pol, m1, l, pid, pages[1..], done, now)
      else
        match PickFree(m1, pid)
        case None => l
        case Some(i) =>
          PrefetchLog(pol, PrefetchOne(pol, m1, i, pid, pages[0], now), Taken(l, i, now), pid, pages[1..], done + 1,
                      now)
  }

  ghost function TryPrefetchLog<S(!new)>(pol: Policy<S>, m: Mem<S>, l: Ledger, pid: Pid, now: int): Ledger
    requires pid in m.tables
  {
    if pid !in m.recent || |m.recent[pid]| < 3 then l
    else
      var anchor := m.recent[pid][|m.recent[pid]| - 3];
      if (pid, anchor) !in m.clusters then l
      else PrefetchLog(pol, m, l, pid, Candidates(anchor), 0, now)
  }

  ghost function FollowLog<S(!new)>(pol: Policy<S>, m: Mem<S>, l: Ledger, pid: Pid, now: int): Ledger
    requires Lawful(pol)
  {
    var c := CountFault(m);
    var m1, l1 := EnforceTarget(pol, c, now), TargetLog(pol, c, l, now);
    if m1.clustering && pid in m1.tables then TryPrefetchLog(pol, m1, l1, pid, now) else l1
  }

  ghost function MissLog<S(!new)>(pol: Policy<S>, m: Mem<S>, l: Ledger, pid: Pid, v: nat, write: bool, now: int): Ledger
    requires Lawful(pol) && m.Has(pid, v)
  {
    var r, l1 := Fault(pol, m, pid, v, write, now), FaultLog(pol, m, l, pid, v, write, now);
    if r.ok then FollowLog(pol, r.mem, l1, pid, now) else l1
  }

  ghost function AccessLog<S(!new)>(pol: Policy<S>, m: Mem<S>, l: Ledger, pid: Pid, v: nat, write: bool,
                                    now: int): Ledger
    requires Lawful(pol)
  {
    if pid !in m.tables then l
    else
      var m1 := Prepared(m, pid, v);
      if m1.Resident(pid, v) then
        var i := m1.tables[pid][v].frame;
        SettleLog(pol, FastHit(pol, m1, i, write, now), Hit(l, i, write, now), pid, v, write, now)
      else MissLog(pol, m1, l, pid, v, write, now)
  }

  ghost function OpLog<S(!new)>(pol: Policy<S>, m: Mem<S>, l: Ledger, op: Op, now: int): Ledger
    requires Lawful(pol)
  {
    match op
    case Touch(pid, v, write) => AccessLog(pol, m, l, pid, v, write, now)
    case HugeMap(pid, index) =>
      if index >= HUGE_INDEX_LIMIT || pid !in m.tables then l else TakingLog(pol, m, l, PickFree(m, pid), now)
    case ResetAll => NO_EVENTS
    case _ => l
  }

  ghost function RunLog<S(!new)>(pol: Policy<S>, start: S, numFrames: nat, ops: seq<Op>, times: seq<int>): Ledger
    requires Lawful(pol) && |times| == |ops|
  {
    if ops == [] then NO_EVENTS
    else
      var n := |ops| - 1;
      OpLog(pol, History(pol, start, numFrames, ops[..n], times[..n]),
            RunLog(pol, start, numFrames, ops[..n], times[..n]), ops[n], times[n])
  }

  // ---- Frames tell their log ----

  /** Every used frame tells its log, and dirty evictions are those of written frames. */
  ghost predicate Kept<S>(l: Ledger, m: Mem<S>) {
    && (forall i :: 0 <= i < |m.frames| && !m.frames[i].free ==> Tells(m.frames[i], Log(l, i)))
    && m.metrics.dirtyEvictions == l.dirtyOut
  }

  lemma SameFramesKept<S>(l: Ledger, m: Mem<S>, r: Mem<S>)
    requires Kept(l, m) && r.frames == m.frames && r.metrics.dirtyEvictions == m.metrics.dirtyEvictions
    ensures Kept(l, r)
  {
  }

  lemma TellsAlike(f: Frame, g: Frame, log: seq<Event>)
    requires Tells(f, log) && SameHistory(g, f)
    ensures Tells(g, log)
  {
  }

  lemma ChooseKept<S(!new)>(pol: Policy<S>, l: Ledger, m: Mem<S>, ids: seq<nat>, now: int)
    requires Lawful(pol) && Recording(pol) && Kept(l, m) && FrameList(m.frames, ids)
    ensures Kept(l, Choose(pol, m, ids, now).0)
  {
    var r := Choose(pol, m, ids, now).0;
    assert LeavesHistory(pol.select(m.policy, m.frames, ids, now), m.frames);
    hide Lawful, Recording, Tells;
    forall i | 0 <= i < |r.frames| && !r.frames[i].free ensures Tells(r.frames[i], Log(l, i)) {
      assert r.frames[i].SameOwner(m.frames[i]) && SameHistory(r.frames[i], m.frames[i]);
      TellsAlike(m.frames[i], r.frames[i], Log(l, i));
    }
  }

  /** An eviction counts as dirty exactly if the frame was written since it was allocated; with compression on the
      page of such a frame is then in the store, and no other eviction changes the store. */
  lemma EvictionsOfWritten<S(!new)>(pol: Policy<S>, l: Ledger, m: Mem<S>, i: nat)
    requires Recording(pol) && Kept(l, m) && i < |m.frames| && !m.frames[i].free
    ensures var r := Evict(pol, m, i);
            && Kept(Out(l, i), r)
            && r.metrics.dirtyEvictions == m.metrics.dirtyEvictions + (if Written(Log(l, i)) then 1 else 0)
            && (m.compression && Written(Log(l, i)) ==> m.frames[i].pageId in r.store.pages)
            && (!m.compression || !Written(Log(l, i)) ==> r.store == m.store)
  {
    var r, f := Evict(pol, m, i), m.frames[i];
    assert SameHistory(pol.onEvict(m.policy, i, f).1, f);
    assert Tells(f, Log(l, i));
    EvictIs(pol, m, i);
    EvictStore(pol, m, i);
    hide Evict, Recording, Tells;
    forall k | 0 <= k < |r.frames| && !r.frames[k].free ensures Tells(r.frames[k], Log(Out(l, i), k)) {
      assert k != i && r.frames[k] == m.frames[k];
    }
  }

  lemma EvictStore<S(!new)>(pol: Policy<S>, m: Mem<S>, i: nat)
    requires i < |m.frames| && SameHistory(pol.onEvict(m.policy, i, m.frames[i]).1, m.frames[i])
    ensures var r, f := Evict(pol, m, i), m.frames[i];
            && r.metrics.dirtyEvictions == m.metrics.dirtyEvictions + (if f.modified then 1 else 0)
            && (m.compression && f.modified ==> f.pageId in r.store.pages)
            && (!m.compression || !f.modified ==> r.store == m.store)
  {
    var f := m.frames[i];
    var m1 := CompressDirty(m, f);
    assert m1 == m.(store := m1.store);
    assert m.compression && f.modified ==> f.pageId in m1.store.pages;
    hide CompressDirty;
    UnmappingKeeps(m1, f.processId, f.pageId);
    hide DropMapping, ForgetTranslation;
  }

  lemma UnmappingKeeps<S>(m: Mem<S>, pid: Pid, v: nat)
    ensures var r := ForgetTranslation(DropMapping(m, pid, v), pid, v);
            r.store == m.store && r.frames == m.frames && r.metrics == m.metrics && r.policy == m.policy
  {
    var d := DropMapping(m, pid, v);
    assert d == m.(tables := d.tables);
    hide DropMapping;
  }

  lemma SlotKept<S(!new)>(pol: Policy<S>, l: Ledger, m: Mem<S>, free: Option<nat>, now: int)
    requires Lawful(pol) && Recording(pol) && Kept(l, m) && (free.Some? ==> free.value < |m.frames|)
    ensures Kept(SlotLog(pol, m, l, free, now), FreeSlot(pol, m, free, now).0)
  {
    hide Lawful, Recording, Kept, Evict, Out;
    if free.None? {
      ChooseKept(pol, l, m, Used(m.frames), now);
      var (m1, victim) := Choose(pol, m, Used(m.frames), now);
      if victim.Some? {
        EvictionsOfWritten(pol, l, m1, victim.value);
      }
    }
  }

  /** Allocation, and the policy's hearing of it, begin a new log. */
  lemma TakenKept<S(!new)>(pol: Policy<S>, l: Ledger, m: Mem<S>, r: Mem<S>, i: nat, page: nat, pid: Pid, s: S, now: int)
    requires Recording(pol) && Kept(l, m) && i < |m.frames|
    requires r.frames == m.frames[i := pol.onFault(s, i, m.frames[i].Allocate(page, pid, now), now).1]
    requires r.metrics.dirtyEvictions == m.metrics.dirtyEvictions
    ensures Kept(Taken(l, i, now), r)
  {
    var f := m.frames[i].Allocate(page, pid, now);
    var g := pol.onFault(s, i, f, now).1;
    assert Recorded(f, g, false, now);
    assert Tells(g, [Event(now, false)]);
    hide Recording, Tells;
    forall k | 0 <= k < |r.frames| && !r.frames[k].free ensures Tells(r.frames[k], Log(Taken(l, i, now), k)) {
      if k != i {
        assert r.frames[k] == m.frames[k];
      }
    }
  }

  lemma AttachKept<S(!new)>(pol: Policy<S>, l: Ledger, m: Mem<S>, i: nat, pid: Pid, v: nat, now: int)
    requires Recording(pol) && Kept(l, m) && i < |m.frames| && m.Has(pid, v)
    ensures Kept(Taken(l, i, now), Attach(pol, m, i, pid, v, now))
  {
    var r := Attach(pol, m, i, pid, v, now);
    var id := m.tables[pid][v].id;
    assert r.frames == m.frames[i := pol.onFault(m.policy, i, m.frames[i].Allocate(id, pid, now), now).1];
    hide Attach, Recording, Kept;
    TakenKept(pol, l, m, r, i, id, pid, m.policy, now);
  }

  lemma LoadKept<S(!new)>(pol: Policy<S>, l: Ledger, m: Mem<S>, pid: Pid, v: nat, now: int)
    requires Lawful(pol) && Recording(pol) && Kept(l, m) && m.Has(pid, v)
    ensures Kept(TakingLog(pol, m, l, PickFree(m, pid), now), Load(pol, m, pid, v, now).mem)
  {
    hide Lawful, Recording, Kept, Attach, FreeSlot, SlotLog, PickFree, Taken;
    var free := PickFree(m, pid);
    SlotKept(pol, l, m, free, now);
    var (m1, slot) := FreeSlot(pol, m, free, now);
    if slot.Some? {
      AttachKept(pol, SlotLog(pol, m, l, free, now), m1, slot.value, pid, v, now);
    }
  }

  lemma PlaceCopyKept<S(!new)>(pol: Policy<S>, l: Ledger, m: Mem<S>, m2: Mem<S>, i: nat, pid: Pid, id: nat, newId: nat,
                               now: int)
    requires Recording(pol) && Kept(l, m) && i < |m.frames| && pid in m.tables
    requires m2 == m.(frames := m.frames[i := m.frames[i].Allocate(newId, pid, now)])
    ensures Kept(Taken(l, i, now), PlaceCopy(pol, m2, i, pid, id, newId, now))
  {
    var r := PlaceCopy(pol, m2, i, pid, id, newId, now);
    assert r.frames == m.frames[i := pol.onFault(m.policy, i, m.frames[i].Allocate(newId, pid, now), now).1];
    assert r.metrics.dirtyEvictions == m.metrics.dirtyEvictions;
    hide PlaceCopy, Recording, Kept;
    TakenKept(pol, l, m, r, i, newId, pid, m.policy, now);
  }

  lemma CopyKept<S(!new)>(pol: Policy<S>, l: Ledger, m: Mem<S>, pid: Pid, v: nat, newId: nat, now: int)
    requires Lawful(pol) && Recording(pol) && Kept(l, m) && m.Has(pid, v)
    ensures Kept(TakingLog(pol, m, l, FirstFree(m.frames, 0, |m.frames|), now),
                 MakeCopy(pol, m, pid, v, newId, now).mem)
  {
    hide Lawful, Recording, Kept, FreeSlot, SlotLog, PlaceCopy, Taken;
    var free := FirstFree(m.frames, 0, |m.frames|);
    SlotKept(pol, l, m, free, now);
    var (m1, slot) := FreeSlot(pol, m, free, now);
    if slot.Some? {
      var i := slot.value;
      PlaceCopyKept(pol, SlotLog(pol, m, l, free, now), m1,
                    m1.(frames := m1.frames[i := m1.frames[i].Allocate(newId, pid, now)]), i, pid, m.tables[pid][v].id,
                    newId, now);
    }
  }

  lemma SettleKept<S(!new)>(pol: Policy<S>, l: Ledger, m: Mem<S>, pid: Pid, v: nat, write: bool, now: int)
    requires Lawful(pol) && Recording(pol) && Kept(l, m) && m.Has(pid, v)
    ensures Kept(SettleLog(pol, m, l, pid, v, write, now), SettleWrite(pol, m, pid, v, write, now).mem)
  {
    hide Lawful, Recording, Kept, MakeCopy, TakingLog, CowState.HandleWrite;
    var page := m.tables[pid][v];
    if write && page.shared {
      var (cow, verdict) := CowState.HandleWrite(m.cow, page.id, pid, page.shared);
      match verdict
      case NoCopy => SameFramesKept(l, m, m.(cow := cow).PutPage(pid, v, page.MakePrivate()));
      case Copy(newId) =>
        var m1 := m.(cow := cow.(created := cow.created + 1));
        SameFramesKept(l, m, m1);
        CopyKept(pol, l, m1, pid, v, newId, now);
    }
  }

  lemma FaultKept<S(!new)>(pol: Policy<S>, l: Ledger, m: Mem<S>, pid: Pid, v: nat, write: bool, now: int)
    requires Lawful(pol) && Recording(pol) && Kept(l, m) && m.Has(pid, v)
    ensures Kept(FaultLog(pol, m, l, pid, v, write, now), Fault(pol, m, pid, v, write, now).mem)
  {
    var (m1, page) := TakeOut(m, m.tables[pid][v].id);
    assert m1 == m.(store := m1.store);
    hide Lawful, Recording, Kept, Load, TakingLog, SettleLog, SettleWrite, TakeOut, PickFree;
    SameFramesKept(l, m, m1);
    LoadKept(pol, l, m1, pid, v, now);
    var l1, r := TakingLog(pol, m1, l, PickFree(m1, pid), now), Load(pol, m1, pid, v, now);
    if r.ok {
      SettleKept(pol, l1, r.mem, pid, v, write, now);
    } else {
      SameFramesKept(l1, r.mem, PutBack(r.mem, page));
    }
  }

  lemma {:induction false} EnforceKept<S(!new)>(pol: Policy<S>, l: Ledger, m: Mem<S>, used: seq<nat>, target: int,
                                                now: int)
    requires Lawful(pol) && Recording(pol) && Kept(l, m) && FrameList(m.frames, used)
    requires forall k :: 0 <= k < |used| ==> !m.frames[used[k]].free
    ensures Kept(EnforceLog(pol, m, l, used, target, now), Enforce(pol, m, used, target, now))
    decreases |used|
  {
    hide Lawful, Recording, Kept, Evict, Out;
    if target > 0 && |used| > target {
      ChooseKept(pol, l, m, used, now);
      var (m1, victim) := Choose(pol, m, used, now);
      if victim.Some? {
        var i := victim.value;
        EvictionsOfWritten(pol, l, m1, i);
        var m2, rest := Evict(pol, m1, i), Without(used, i);
        EvictTables(pol, m1, i);
        NotWithin(used, i);
        hide Without;
        EnforceKept(pol, Out(l, i), m2, rest, target, now);
      }
    }
  }

  lemma {:induction false} NotWithin(ids: seq<nat>, i: nat)
    requires Different(ids)
    ensures i !in Without(ids, i)
  {
    if ids != [] && ids[0] != i {
      NotWithin(ids[1..], i);
    }
  }

  lemma TargetKept<S(!new)>(pol: Policy<S>, l: Ledger, m: Mem<S>, now: int)
    requires Lawful(pol) && Recording(pol) && Kept(l, m)
    ensures Kept(TargetLog(pol, m, l, now), EnforceTarget(pol, m, now))
  {
    hide Lawful, Recording, Kept, Enforce, EnforceLog;
    if pol.target(m.policy).Some? {
      var used := Used(m.frames);
      assert forall k :: 0 <= k < |used| ==> used[k] in used && !m.frames[used[k]].free;
      EnforceKept(pol, l, m, used, pol.target(m.policy).value, now);
    }
  }

  lemma PrefetchOneKept<S(!new)>(pol: Policy<S>, l: Ledger, m: Mem<S>, i: nat, pid: Pid, v: nat, now: int)
    requires Recording(pol) && Kept(l, m) && i < |m.frames| && m.Has(pid, v)
    ensures Kept(Taken(l, i, now), PrefetchOne(pol, m, i, pid, v, now))
  {
    hide Recording, Kept, Attach, Taken;
    AttachKept(pol, l, m, i, pid, v, now);
    SameFramesKept(Taken(l, i, now), Attach(pol, m, i, pid, v, now), PrefetchOne(pol, m, i, pid, v, now));
  }

  lemma EnsureKept<S>(l: Ledger, m: Mem<S>, pid: Pid, v: nat)
    requires Kept(l, m) && pid in m.tables
    ensures Kept(l, EnsurePage(m, pid, v))
  {
    hide Tells;
  }

  lemma {:induction false} PrefetchKept<S(!new)>(pol: Policy<S>, l: Ledger, m: Mem<S>, pid: Pid, pages: seq<nat>,
                                                 done: nat, now: int)
    requires Recording(pol) && Kept(l, m) && pid in m.tables
    ensures Kept(PrefetchLog(pol, m, l, pid, pages, done, now), Prefetch(pol, m, pid, pages, done, now))
    decreases |pages|
  {
    hide Recording, Kept, EnsurePage, PrefetchOne, Prefetch, PickFree, Taken;
    PrefetchUnfold(pol, m, pid, pages, done, now);
    if pages != [] && done < MAX_PREFETCH {
      var m1 := EnsurePage(m, pid, pages[0]);
      EnsureKept(l, m, pid, pages[0]);
      var free := PickFree(m1, pid);
      if m1.tables[pid][pages[0]].present {
        PrefetchKept(pol, l, m1, pid, pages[1..], done, now);
      } else if free.Some? {
        PrefetchOneKept(pol, l, m1, free.value, pid, pages[0], now);
        PrefetchKept(pol, Taken(l, free.value, now), PrefetchOne(pol, m1, free.value, pid, pages[0], now),
                     pid, pages[1..], done + 1, now);
      }
    }
  }

  lemma FollowKept<S(!new)>(pol: Policy<S>, l: Ledger, m: Mem<S>, pid: Pid, now: int)
    requires Lawful(pol) && Recording(pol) && Kept(l, m)
    ensures var m1 := EnforceTarget(pol, CountFault(m), now);
            Kept(FollowLog(pol, m, l, pid, now),
                 if m1.clustering && pid in m1.tables then TryPrefetch(pol, m1, pid, now) else m1)
  {
    hide Lawful, Recording, Kept, EnforceTarget, TargetLog, TryPrefetch, TryPrefetchLog;
    var c := CountFault(m);
    SameFramesKept(l, m, c);
    TargetKept(pol, l, c, now);
    var m1, l1 := EnforceTarget(pol, c, now), TargetLog(pol, c, l, now);
    if m1.clustering && pid in m1.tables {
      TryKept(pol, l1, m1, pid, now);
    }
  }

  lemma TryKept<S(!new)>(pol: Policy<S>, l: Ledger, m: Mem<S>, pid: Pid, now: int)
    requires Recording(pol) && Kept(l, m) && pid in m.tables
    ensures Kept(TryPrefetchLog(pol, m, l, pid, now), TryPrefetch(pol, m, pid, now))
  {
    hide Recording, Kept, Prefetch, PrefetchLog;
    if pid in m.recent && |m.recent[pid]| >= 3 {
      PrefetchKept(pol, l, m, pid, Candidates(m.recent[pid][|m.recent[pid]| - 3]), 0, now);
    }
  }

  lemma MissKept<S(!new)>(pol: Policy<S>, l: Ledger, m: Mem<S>, pid: Pid, v: nat, write: bool, now: int)
    requires Lawful(pol) && Recording(pol) && Kept(l, m) && m.Has(pid, v)
    ensures Kept(MissLog(pol, m, l, pid, v, write, now), MissOutcome(pol, m, pid, v, write, now).mem)
  {
    hide Lawful, Recording, Kept, Fault, FaultLog, EnforceTarget, TryPrefetch, FollowLog, CountFault;
    FaultKept(pol, l, m, pid, v, write, now);
    var r := Fault(pol, m, pid, v, write, now);
    if r.ok {
      FollowKept(pol, FaultLog(pol, m, l, pid, v, write, now), r.mem, pid, now);
    }
  }

  lemma TellsOneMore(f: Frame, g: Frame, log: seq<Event>, write: bool, now: int)
    requires Tells(f, log) && Recorded(f, g, write, now)
    ensures Tells(g, log + [Event(now, write)])
  {
    var more := log + [Event(now, write)];
    assert more[|log|] == Event(now, write);
    assert forall k :: 0 <= k < |log| ==> more[k] == log[k];
  }

  lemma HitKept<S(!new)>(pol: Policy<S>, l: Ledger, m: Mem<S>, i: nat, write: bool, now: int)
    requires Lawful(pol) && Recording(pol) && Kept(l, m) && i < |m.frames|
    ensures Kept(Hit(l, i, write, now), FastHit(pol, m, i, write, now))
  {
    var r := FastHit(pol, m, i, write, now);
    var g := pol.onAccess(m.policy, i, m.frames[i], write, now).1;
    assert Recorded(m.frames[i], g, write, now) && g.SameOwner(m.frames[i]);
    assert r.frames == m.frames[i := g];
    assert r.metrics.dirtyEvictions == m.metrics.dirtyEvictions;
    hide FastHit, Recording, Lawful, Tells;
    forall k | 0 <= k < |r.frames| && !r.frames[k].free ensures Tells(r.frames[k], Log(Hit(l, i, write, now), k)) {
      assert !m.frames[k].free && Tells(m.frames[k], Log(l, k));
      if k == i {
        TellsOneMore(m.frames[i], g, Log(l, i), write, now);
      }
    }
  }

  lemma AccessKept<S(!new)>(pol: Policy<S>, l: Ledger, m: Mem<S>, pid: Pid, v: nat, write: bool, now: int)
    requires Lawful(pol) && Recording(pol) && Kept(l, m)
    ensures Kept(AccessLog(pol, m, l, pid, v, write, now), Access(pol, m, pid, v, write, now).mem)
  {
    if pid in m.tables {
      PreparedFrames(m, pid, v);
      var m1 := Prepared(m, pid, v);
      hide Lawful, Recording, Kept, Prepared, FastHit, SettleLog, SettleWrite, MissLog, MissOutcome, Hit;
      SameFramesKept(l, m, m1);
      if m1.Resident(pid, v) {
        var i := m1.tables[pid][v].frame;
        HitKept(pol, l, m1, i, write, now);
        HitHas(pol, m1, i, pid, v, write, now);
        SettleKept(pol, Hit(l, i, write, now), FastHit(pol, m1, i, write, now), pid, v, write, now);
      } else {
        MissKept(pol, l, m1, pid, v, write, now);
      }
    }
  }

  lemma HitHas<S>(pol: Policy<S>, m: Mem<S>, i: nat, pid: Pid, v: nat, write: bool, now: int)
    requires i < |m.frames| && m.Has(pid, v)
    ensures FastHit(pol, m, i, write, now).Has(pid, v)
  {
  }

  lemma PreparedFrames<S>(m: Mem<S>, pid: Pid, v: nat)
    requires pid in m.tables
    ensures Prepared(m, pid, v).frames == m.frames && Prepared(m, pid, v).metrics == m.metrics
  {
    var m1 := if m.clustering then Track(m, pid, v) else m;
    assert m1 == m.(recent := m1.recent, clusters := m1.clusters);
    hide Track;
  }

  lemma HugeKept<S(!new)>(pol: Policy<S>, l: Ledger, m: Mem<S>, pid: Pid, index: nat, now: int)
    requires Lawful(pol) && Recording(pol) && Kept(l, m) && index < HUGE_INDEX_LIMIT && pid in m.tables
    ensures Kept(TakingLog(pol, m, l, PickFree(m, pid), now), MapHuge(pol, m, pid, index, now).mem)
  {
    hide Lawful, Recording, Kept, FreeSlot, SlotLog, PickFree, Taken, HugeMapped;
    var free := PickFree(m, pid);
    SlotKept(pol, l, m, free, now);
    var (m1, slot) := FreeSlot(pol, m, free, now);
    if slot.Some? {
      var i := slot.value;
      var m2 := m1.(frames := m1.frames[i := m1.frames[i].Allocate(HUGE_PAGE_BASE + index, pid, now)]);
      HugeFrames(pol, m2, i, pid, index, now);
      TakenKept(pol, SlotLog(pol, m, l, free, now), m1, HugeMapped(pol, m2, i, pid, index, now), i,
                HUGE_PAGE_BASE + index, pid, m1.policy, now);
    }
  }

  lemma HugeFrames<S>(pol: Policy<S>, m: Mem<S>, i: nat, pid: Pid, index: nat, now: int)
    requires i < |m.frames|
    ensures var r := HugeMapped(pol, m, i, pid, index, now);
            && r.frames == m.frames[i := pol.onFault(m.policy, i, m.frames[i], now).1]
            && r.metrics.dirtyEvictions == m.metrics.dirtyEvictions
  {
  }

  lemma RemoveKept<S>(l: Ledger, m: Mem<S>, pid: Pid)
    requires Kept(l, m)
    ensures Kept(l, Remove(m, pid).mem)
  {
    hide Tells, HoldsFrame, CowState.DropEverywhere;
  }

  lemma PinKept<S>(l: Ledger, m: Mem<S>, i: nat, on: bool)
    requires Kept(l, m)
    ensures Kept(l, PinFrame(m, i, on).mem)
  {
  }

  lemma OpKept<S(!new)>(pol: Policy<S>, l: Ledger, m: Mem<S>, op: Op, now: int)
    requires Lawful(pol) && Recording(pol) && Kept(l, m)
    ensures Kept(OpLog(pol, m, l, op, now), Perform(pol, m, op, now).mem)
  {
    hide Lawful, Recording, Access, AccessLog, Remove, Fork, MapHuge, TakingLog, PickFree, Tells;
    match op
    case Touch(pid, v, write) => AccessKept(pol, l, m, pid, v, write, now);
    case Kill(pid) => RemoveKept(l, m, pid);
    case ForkTo(parent, child) => ForkFrames(m, parent, child);
    case HugeMap(pid, index) => HugeOrNot(pol, l, m, pid, index, now);
    case SetPin(i, on) => PinKept(l, m, i, on);
    case ResetAll =>
    case _ => SameFramesKept(l, m, Perform(pol, m, op, now).mem);
  }

  lemma ForkFrames<S>(m: Mem<S>, parent: Pid, child: Pid)
    ensures Fork(m, parent, child).mem.frames == m.frames && Fork(m, parent, child).mem.metrics == m.metrics
  {
  }

  lemma HugeOrNot<S(!new)>(pol: Policy<S>, l: Ledger, m: Mem<S>, pid: Pid, index: nat, now: int)
    requires Lawful(pol) && Recording(pol) && Kept(l, m)
    ensures Kept(OpLog(pol, m, l, HugeMap(pid, index), now), MapHuge(pol, m, pid, index, now).mem)
  {
    hide Recording, Kept, TakingLog, PickFree;
    if index < HUGE_INDEX_LIMIT && pid in m.tables {
      HugeKept(pol, l, m, pid, index, now);
    }
  }

  /** In every run, with forks, copies, pins and huge pages, under a policy that records: a used frame is dirty
      exactly if a write hit it since it was last allocated, its stamps are those of its allocation and of its
      last access, its count is that of its accesses, and dirty evictions are the evictions of written frames. */
  lemma {:induction false} FramesTellTheirLog<S(!new)>(pol: Policy<S>, start: S, numFrames: nat, ops: seq<Op>,
                                                       times: seq<int>)
    requires Lawful(pol) && Recording(pol) && |times| == |ops|
    ensures Kept(RunLog(pol, start, numFrames, ops, times), History(pol, start, numFrames, ops, times))
  {
    if ops != [] {
      var n := |ops| - 1;
      FramesTellTheirLog(pol, start, numFrames, ops[..n], times[..n]);
      hide Lawful, Recording, Kept, OpLog, Perform;
      OpKept(pol, RunLog(pol, start, numFrames, ops[..n], times[..n]),
             History(pol, start, numFrames, ops[..n], times[..n]), ops[n], times[n]);
    }
  }
}
