/** The compressed-page store is in order in every run: its totals are those of the pages it holds. */
module StoreRuns {
  import opened Prelude
  import opened Frames
  import opened MemoryModel
  import opened Runs
  import CowState
  import Compression

  ghost predicate StoreOk<S>(m: Mem<S>) {
    Compression.Valid(m.store) && Compression.HalfImages(m.store)
  }

  lemma EvictStore<S>(pol: Policy<S>, m: Mem<S>, i: nat)
    requires i < |m.frames| && StoreOk(m)
    ensures StoreOk(Evict(pol, m, i))
  {
    var f := m.frames[i];
    if CompressDirty(m, f) != m {
      var step := Compression.Squeeze(Compression.MIN_RATIO, f.pageId, Compression.PAGE_BYTES);
      Compression.ApplyValid(m.store, step);
      Compression.ApplyHalfImages(m.store, step);
    }
    EvictStoreIs(pol, m, i);
    hide Evict, Compression.Valid, Compression.HalfImages;
  }

  lemma EvictStoreIs<S>(pol: Policy<S>, m: Mem<S>, i: nat)
    requires i < |m.frames|
    ensures Evict(pol, m, i).store == CompressDirty(m, m.frames[i]).store
  {
    hide CompressDirty;
  }

  lemma FreeSlotStore<S(!new)>(pol: Policy<S>, m: Mem<S>, free: Option<nat>, now: int)
    requires Lawful(pol) && (free.Some? ==> free.value < |m.frames|) && StoreOk(m)
    ensures StoreOk(FreeSlot(pol, m, free, now).0)
  {
    hide Evict, Lawful, Compression.Valid, Compression.HalfImages;
    if free.None? {
      var (m1, victim) := Choose(pol, m, Used(m.frames), now);
      if victim.Some? {
        EvictStore(pol, m1, victim.value);
      }
    }
  }

  lemma AttachStore<S>(pol: Policy<S>, m: Mem<S>, i: nat, pid: Pid, v: nat, now: int)
    requires i < |m.frames| && m.Has(pid, v)
    ensures Attach(pol, m, i, pid, v, now).store == m.store
  {
  }

  lemma LoadStore<S(!new)>(pol: Policy<S>, m: Mem<S>, pid: Pid, v: nat, now: int)
    requires Lawful(pol) && m.Has(pid, v) && StoreOk(m)
    ensures StoreOk(Load(pol, m, pid, v, now).mem)
  {
    hide Lawful, Attach, FreeSlot, PickFree, Compression.Valid, Compression.HalfImages;
    FreeSlotStore(pol, m, PickFree(m, pid), now);
    var (m1, slot) := FreeSlot(pol, m, PickFree(m, pid), now);
    if slot.Some? {
      AttachStore(pol, m1, slot.value, pid, v, now);
    }
  }

  lemma PlaceCopyStore<S>(pol: Policy<S>, m: Mem<S>, i: nat, pid: Pid, id: nat, newId: nat, now: int)
    requires i < |m.frames| && pid in m.tables
    ensures PlaceCopy(pol, m, i, pid, id, newId, now).store == m.store
  {
  }

  lemma MakeCopyStore<S(!new)>(pol: Policy<S>, m: Mem<S>, pid: Pid, v: nat, newId: nat, now: int)
    requires Lawful(pol) && m.Has(pid, v) && StoreOk(m)
    ensures StoreOk(MakeCopy(pol, m, pid, v, newId, now).mem)
  {
    hide Lawful, FreeSlot, PlaceCopy, Compression.Valid, Compression.HalfImages;
    var free := FirstFree(m.frames, 0, |m.frames|);
    FreeSlotStore(pol, m, free, now);
    var (m1, slot) := FreeSlot(pol, m, free, now);
    if slot.Some? {
      var m2 := m1.(frames := m1.frames[slot.value := m1.frames[slot.value].Allocate(newId, pid, now)]);
      PlaceCopyStore(pol, m2, slot.value, pid, m.tables[pid][v].id, newId, now);
    }
  }

  lemma SettleStore<S(!new)>(pol: Policy<S>, m: Mem<S>, pid: Pid, v: nat, write: bool, now: int)
    requires Lawful(pol) && m.Has(pid, v) && StoreOk(m)
    ensures StoreOk(SettleWrite(pol, m, pid, v, write, now).mem)
  {
    hide Lawful, MakeCopy, CowState.HandleWrite, Compression.Valid, Compression.HalfImages;
    if write && m.tables[pid][v].shared {
      var (cow, verdict) := CowState.HandleWrite(m.cow, m.tables[pid][v].id, pid, m.tables[pid][v].shared);
      if verdict.Copy? {
        var m1 := m.(cow := cow);
        MakeCopyStore(pol, m1.(cow := m1.cow.(created := m1.cow.created + 1)), pid, v, verdict.newId, now);
      }
    }
  }

  lemma FaultStore<S(!new)>(pol: Policy<S>, m: Mem<S>, pid: Pid, v: nat, write: bool, now: int)
    requires Lawful(pol) && m.Has(pid, v) && StoreOk(m)
    ensures StoreOk(Fault(pol, m, pid, v, write, now).mem)
  {
    var id := m.tables[pid][v].id;
    var (m1, page) := TakeOut(m, id);
    if page.Some? {
      Compression.ApplyValid(m.store, Compression.Unsqueeze(id));
      Compression.ApplyHalfImages(m.store, Compression.Unsqueeze(id));
    }
    LoadStore(pol, m1, pid, v, now);
    var l := Load(pol, m1, pid, v, now);
    if l.ok {
      SettleStore(pol, l.mem, pid, v, write, now);
    } else if page.Some? {
      Compression.ApplyValid(l.mem.store, Compression.Undo(page.value));
      Compression.ApplyHalfImages(l.mem.store, Compression.Undo(page.value));
    }
    hide Lawful, Load, SettleWrite, Compression.Valid, Compression.Decompress, Compression.Restore;
  }

  lemma {:induction false} EnforceStore<S(!new)>(pol: Policy<S>, m: Mem<S>, used: seq<nat>, target: int, now: int)
    requires Lawful(pol) && FrameList(m.frames, used) && StoreOk(m)
    ensures StoreOk(Enforce(pol, m, used, target, now))
    decreases |used|
  {
    hide Evict, Lawful, Compression.Valid, Compression.HalfImages;
    if target > 0 && |used| > target {
      var (m1, victim) := Choose(pol, m, used, now);
      if victim.Some? {
        EvictStore(pol, m1, victim.value);
        EnforceStore(pol, Evict(pol, m1, victim.value), Without(used, victim.value), target, now);
      }
    }
  }

  /** A prefetch evicts nothing, so it compresses nothing. */
  lemma {:induction false} PrefetchStore<S>(pol: Policy<S>, m: Mem<S>, pid: Pid, pages: seq<nat>, done: nat, now: int)
    requires pid in m.tables
    ensures Prefetch(pol, m, pid, pages, done, now).store == m.store
    decreases |pages|
  {
    hide Attach, PickFree, Prefetch;
    PrefetchUnfold(pol, m, pid, pages, done, now);
    if pages != [] && done < MAX_PREFETCH {
      var m1 := EnsurePage(m, pid, pages[0]);
      assert m1.store == m.store;
      hide EnsurePage;
      var free := PickFree(m1, pid);
      if m1.tables[pid][pages[0]].present {
        PrefetchStore(pol, m1, pid, pages[1..], done, now);
      } else if free.Some? {
        AttachStore(pol, m1, free.value, pid, pages[0], now);
        PrefetchStore(pol, PrefetchOne(pol, m1, free.value, pid, pages[0], now), pid, pages[1..], done + 1, now);
      }
    }
  }

  lemma MissStore<S(!new)>(pol: Policy<S>, m: Mem<S>, pid: Pid, v: nat, write: bool, now: int)
    requires Lawful(pol) && m.Has(pid, v) && StoreOk(m)
    ensures StoreOk(MissOutcome(pol, m, pid, v, write, now).mem)
  {
    hide Lawful, Fault, Enforce, Prefetch, Candidates, Compression.Valid, Compression.HalfImages;
    FaultStore(pol, m, pid, v, write, now);
    var r := Fault(pol, m, pid, v, write, now);
    if r.ok {
      var c := CountFault(r.mem);
      var target := pol.target(c.policy);
      if target.Some? {
        EnforceStore(pol, c, Used(c.frames), target.value, now);
      }
      var m1 := EnforceTarget(pol, c, now);
      if pid in m1.tables && pid in m1.recent && |m1.recent[pid]| >= 3 {
        PrefetchStore(pol, m1, pid, Candidates(m1.recent[pid][|m1.recent[pid]| - 3]), 0, now);
      }
    }
  }

  lemma PreparedStore<S>(m: Mem<S>, pid: Pid, v: nat)
    requires pid in m.tables
    ensures Prepared(m, pid, v).store == m.store
  {
  }

  lemma AccessStore<S(!new)>(pol: Policy<S>, m: Mem<S>, pid: Pid, v: nat, write: bool, now: int)
    requires Lawful(pol) && StoreOk(m)
    ensures StoreOk(Access(pol, m, pid, v, write, now).mem)
  {
    hide Lawful, Prepared, MissOutcome, SettleWrite, Compression.Valid, Compression.HalfImages;
    if pid in m.tables {
      PreparedStore(m, pid, v);
      var m1 := Prepared(m, pid, v);
      if m1.Resident(pid, v) {
        SettleStore(pol, FastHit(pol, m1, m1.tables[pid][v].frame, write, now), pid, v, write, now);
      } else {
        MissStore(pol, m1, pid, v, write, now);
      }
    }
  }

  lemma MapHugeStore<S(!new)>(pol: Policy<S>, m: Mem<S>, pid: Pid, index: nat, now: int)
    requires Lawful(pol) && StoreOk(m)
    ensures StoreOk(MapHuge(pol, m, pid, index, now).mem)
  {
    hide Lawful, FreeSlot, PickFree, Compression.Valid, Compression.HalfImages;
    FreeSlotStore(pol, m, PickFree(m, pid), now);
  }

  lemma EmptyIsOk()
    ensures Compression.Valid(Compression.EMPTY_STORE) && Compression.HalfImages(Compression.EMPTY_STORE)
  {
    Compression.EmptyIsValid();
  }

  /** In every run, forks and huge pages included. */
  lemma {:induction false} StoreInEveryRun<S(!new)>(pol: Policy<S>, start: S, numFrames: nat, ops: seq<Op>,
                                                    times: seq<int>)
    requires Lawful(pol) && |times| == |ops|
    ensures StoreOk(History(pol, start, numFrames, ops, times))
  {
    hide Lawful, Compression.Valid, Compression.HalfImages, Access, MapHuge, Remove, Fork;
    EmptyIsOk();
    if ops != [] {
      var n := |ops| - 1;
      StoreInEveryRun(pol, start, numFrames, ops[..n], times[..n]);
      var m := History(pol, start, numFrames, ops[..n], times[..n]);
      match ops[n]
      case Touch(pid, v, write) => AccessStore(pol, m, pid, v, write, times[n]);
      case HugeMap(pid, index) => MapHugeStore(pol, m, pid, index, times[n]);
      case Kill(pid) => RemoveStore(m, pid);
      case ForkTo(parent, child) => ForkStore(m, parent, child);
      case _ =>
    }
  }

  lemma RemoveStore<S>(m: Mem<S>, pid: Pid)
    ensures Remove(m, pid).mem.store == m.store
  {
  }

  lemma ForkStore<S>(m: Mem<S>, parent: Pid, child: Pid)
    ensures Fork(m, parent, child).mem.store == m.store
  {
  }

  /** So in every run the store counts 4096 bytes in and 2048 out for each of its pages, and its ratio is one half
      unless it is empty. */
  lemma StoreHalvesInEveryRun<S(!new)>(pol: Policy<S>, start: S, numFrames: nat, ops: seq<Op>, times: seq<int>)
    requires Lawful(pol) && |times| == |ops|
    ensures var s := History(pol, start, numFrames, ops, times).store;
            && s.totalOriginal == 4096 * |s.pages| && s.totalCompressed == 2048 * |s.pages|
            && s.ratio == if s.pages == map[] then 0.0 else 0.5
  {
    hide Lawful, History, Compression.Valid, Compression.HalfImages;
    StoreInEveryRun(pol, start, numFrames, ops, times);
    Compression.HalfImagesHalve(History(pol, start, numFrames, ops, times).store);
  }
}
