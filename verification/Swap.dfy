/** A dirty page that is evicted goes through the compressed store and comes back out of it. */
module Swap {
  import opened Prelude
  import opened Frames
  import opened MemoryModel
  import opened Coherence
  import StoreRuns

  /** The page an eviction of the frame adds to the store. */
  function Saved(f: Frame): set<nat> {
    if f.modified then {f.pageId} else {}
  }

  lemma EvictSaves<S>(pol: Policy<S>, m: Mem<S>, i: nat)
    requires i < |m.frames| && m.compression
    ensures Evict(pol, m, i).store.pages.Keys == m.store.pages.Keys + Saved(m.frames[i])
  {
    StoreRuns.EvictStoreIs(pol, m, i);
    hide Evict;
  }

  lemma LoadSaves<S(!new)>(pol: Policy<S>, m: Mem<S>, pid: Pid, v: nat, now: int)
    requires Lawful(pol) && m.compression && m.Has(pid, v) && Load(pol, m, pid, v, now).ok
    ensures var r := Load(pol, m, pid, v, now).mem;
            match PickFree(m, pid)
            case Some(_) => r.store == m.store
            case None =>
              var (m1, victim) := Choose(pol, m, Used(m.frames), now);
              victim.Some? && r.store.pages.Keys == m.store.pages.Keys + Saved(m1.frames[victim.value])
  {
    hide Lawful, Attach, Evict, PickFree, Saved;
    var (m1, slot) := FreeSlot(pol, m, PickFree(m, pid), now);
    StoreRuns.AttachStore(pol, m1, slot.value, pid, v, now);
    if PickFree(m, pid).None? {
      EvictSaves(pol, Choose(pol, m, Used(m.frames), now).0, slot.value);
    }
  }

  lemma ImageOut<S>(m: Mem<S>, pid: Pid, id: nat)
    requires m.compression
    ensures var r := TakeOut(m, id).0;
            r == m.(store := r.store) && r.store.pages == m.store.pages - {id} && PickFree(r, pid) == PickFree(m, pid)
  {
  }

  /** A fault takes the page's image out of the store before a victim's goes in: the page in memory is not in the
      store afterwards, unless the victim is a dirty page of another process with the same number. */
  lemma FaultTakesOut<S(!new)>(pol: Policy<S>, m: Mem<S>, pid: Pid, v: nat, write: bool, now: int)
    requires Lawful(pol) && Coherent(m) && m.compression && m.Has(pid, v) && !m.tables[pid][v].present
    requires !AllPinned(m.frames)
    ensures var r := Fault(pol, m, pid, v, write, now);
            && r.ok && r.mem.Resident(pid, v)
            && match PickFree(m, pid)
               case Some(_) => r.mem.store.pages == m.store.pages - {v}
               case None =>
                 var (m1, victim) := Choose(pol, m, Used(m.frames), now);
                 victim.Some? && r.mem.store.pages.Keys == m.store.pages.Keys - {v} + Saved(m1.frames[victim.value])
  {
    assert PageOk(m, pid, v);
    hide Coherent, Lawful, TakeOut, Load, SettleWrite, PickFree, AllPinned, Saved, Used;
    var m1 := TakeOut(m, v).0;
    ImageOut(m, pid, v);
    BookkeepingCoherent(m, m1);
    LoadCoherent(pol, m1, pid, v, now);
    LoadSaves(pol, m1, pid, v, now);
    SettleUnshared(pol, Load(pol, m1, pid, v, now).mem, pid, v, write, now);
  }

  lemma NotAllPinned(frames: seq<Frame>, i: nat)
    requires i < |frames| && frames[i].free
    ensures !AllPinned(frames)
  {
  }

  lemma HasFree<S>(m: Mem<S>, pid: Pid, i: nat)
    requires i < |m.frames| && m.frames[i].free
    ensures PickFree(m, pid).Some?
  {
  }

  /** With compression on: a dirty page that is not in the store is there after its eviction, and the next fault
      for it brings it back and leaves the store's pages as they were before. */
  lemma OutAndIn<S(!new)>(pol: Policy<S>, m: Mem<S>, i: nat, write: bool, now: int)
    requires Lawful(pol) && Coherent(m) && m.compression
    requires i < |m.frames| && !m.frames[i].free && m.frames[i].modified && m.frames[i].pageId !in m.store.pages
    ensures var p, v, e := m.frames[i].processId, m.frames[i].pageId, Evict(pol, m, i);
            && e.Has(p, v) && !e.tables[p][v].present && v in e.store.pages
            && var r := Fault(pol, e, p, v, write, now);
               r.ok && r.mem.Resident(p, v) && r.mem.store.pages == m.store.pages
  {
    var p, v, e := m.frames[i].processId, m.frames[i].pageId, Evict(pol, m, i);
    EvictCoherent(pol, m, i);
    EvictTables(pol, m, i);
    EvictIs(pol, m, i);
    StoreRuns.EvictStoreIs(pol, m, i);
    Stored(m, m.frames[i]);
    hide Evict, Coherent, CompressDirty, DropMapping, ForgetTranslation, PickFree, AllPinned, Lawful;
    NotAllPinned(e.frames, i);
    FaultTakesOut(pol, e, p, v, write, now);
    HasFree(e, p, i);
    assert e.store.pages - {v} == m.store.pages;
  }

  lemma Stored<S>(m: Mem<S>, f: Frame)
    requires m.compression && f.modified && f.pageId !in m.store.pages
    ensures f.pageId in CompressDirty(m, f).store.pages
    ensures CompressDirty(m, f).store.pages - {f.pageId} == m.store.pages
  {
  }
}
