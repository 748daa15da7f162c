/** What the TLB keeps: the page just accessed, and nothing older before it goes. */
module TlbRecency {
  import opened Prelude
  import opened MemoryModel
  import opened Runs
  import opened Tlb
  import opened Transparency
  import opened TlbSteps
  import Coherence
  import TlbRuns

  /** The TLB files frame for the page, stamped now. */
  ghost predicate FilesNow(t: Entries, pid: Pid, v: nat, frame: int, now: int) {
    var key := MakeKey(pid, v);
    key in t && t[key] == Tlb.Entry(pid, v, frame, true, now)
  }

  lemma LearnedFiles(t: Entries, r: Entries, capacity: int, pid: Pid, v: nat, frame: int, now: int)
    requires Learned(t, r, capacity, pid, v, frame, now)
    ensures FilesNow(r, pid, v, frame, now)
  {
    hide MadeRoom, MakeKey;
  }

  /** An entry outlasts an insertion as long as another entry has an older stamp. */
  lemma UsedStays(t: Entries, r: Entries, capacity: int, pid: Pid, v: nat, frame: int, now: int, key: string,
                  other: string)
    requires Learned(t, r, capacity, pid, v, frame, now)
    requires key in t && other in t && t[other].lastAccess < t[key].lastAccess
    ensures key in r && (key != MakeKey(pid, v) ==> r[key] == t[key])
  {
    hide MakeKey;
  }

  /** A page just found stays over the next insertion, if any other entry is older. */
  lemma FoundStays(t: Entries, r: Entries, capacity: int, pid: Pid, v: nat, found: int, q: Pid, w: nat, frame: int,
                   now: int, other: string)
    requires MakeKey(pid, v) in t && t[MakeKey(pid, v)].valid
    requires other in t && other != MakeKey(pid, v) && t[other].lastAccess < found
    requires Learned(LookedUp(t, pid, v, found), r, capacity, q, w, frame, now)
    ensures MakeKey(pid, v) in r
  {
    hide MakeKey, Learned;
    UsedStays(LookedUp(t, pid, v, found), r, capacity, q, w, frame, now, MakeKey(pid, v), other);
  }

  // ---- The page just accessed ----

  lemma HitFiles<S(!new)>(pol: Policy<S>, m: Mem<S>, t: Entries, r: Entries, capacity: int, pid: Pid, v: nat,
                          write: bool, now: int)
    requires Lawful(pol) && Coherence.Coherent(m) && m.Resident(pid, v)
    requires Hitting(pol, m, t, r, capacity, pid, v, write, now)
    ensures FilesNow(r, pid, v, m.tables[pid][v].frame, now)
  {
    assert Coherence.PageOk(m, pid, v);
    var i := m.tables[pid][v].frame;
    var h := FastHit(pol, m, i, write, now);
    assert h.tables == m.tables;
    hide Lawful, Coherence.Coherent, Learned, FastHit;
    var t1 :| Learned(t, t1, capacity, pid, v, i, now) && Settling(pol, h, t1, r, capacity, pid, v, write, now);
    LearnedFiles(t, t1, capacity, pid, v, i, now);
  }

  /** The fault files its page under the frame that it mapped it in. */
  lemma FaultFiles<S(!new)>(pol: Policy<S>, m: Mem<S>, t: Entries, r: Entries, capacity: int, pid: Pid, v: nat,
                            write: bool, now: int)
    requires Lawful(pol) && Coherence.Coherent(m) && m.Has(pid, v) && !m.tables[pid][v].present
    requires Faulting(pol, m, t, r, capacity, pid, v, write, now) && Fault(pol, m, pid, v, write, now).ok
    ensures var f := Fault(pol, m, pid, v, write, now).mem;
            f.Resident(pid, v) && FilesNow(r, pid, v, f.tables[pid][v].frame, now)
  {
    OwnId(m, pid, v);
    hide Lawful, Coherence.Coherent, FilesNow, Learned, TakeOut, Load, SettleWrite, Loading, Settling;
    var m1 := TakeOut(m, v).0;
    OnlyTheStore(m, v);
    Coherence.BookkeepingCoherent(m, m1);
    var l := Load(pol, m1, pid, v, now);
    Coherence.LoadCoherent(pol, m1, pid, v, now);
    Coherence.SettleUnshared(pol, l.mem, pid, v, write, now);
    var t1 :| Loading(pol, m1, t, t1, capacity, pid, v, now)
              && if l.ok then Settling(pol, l.mem, t1, r, capacity, pid, v, write, now) else r == t1;
    LoadFiles(pol, m1, t, t1, capacity, pid, v, now);
    SettlesToo(pol, l.mem, t1, r, capacity, pid, v, write, now);
  }

  lemma OwnId<S>(m: Mem<S>, pid: Pid, v: nat)
    requires Coherence.Coherent(m) && m.Has(pid, v)
    ensures m.tables[pid][v].id == v
  {
    assert Coherence.PageOk(m, pid, v);
  }

  lemma OnlyTheStore<S>(m: Mem<S>, id: nat)
    ensures var r := TakeOut(m, id).0; r == m.(store := r.store)
  {
  }

  lemma SettlesToo<S(!new)>(pol: Policy<S>, m: Mem<S>, t: Entries, r: Entries, capacity: int, pid: Pid, v: nat,
                            write: bool, now: int)
    requires Lawful(pol) && Coherence.Coherent(m) && m.Has(pid, v)
    requires Settling(pol, m, t, r, capacity, pid, v, write, now)
    ensures r == t
  {
    hide Lawful;
    assert Coherence.PageOk(m, pid, v);
  }

  lemma LoadFiles<S(!new)>(pol: Policy<S>, m: Mem<S>, t: Entries, r: Entries, capacity: int, pid: Pid, v: nat, now: int)
    requires Lawful(pol) && m.Has(pid, v) && m.tables[pid][v].id == v
    requires Load(pol, m, pid, v, now).ok && Loading(pol, m, t, r, capacity, pid, v, now)
    requires Coherence.Coherent(m) && !m.tables[pid][v].present
    ensures FilesNow(r, pid, v, Load(pol, m, pid, v, now).mem.tables[pid][v].frame, now)
  {
    hide Lawful, Learned, FreeSlot, PickFree, AfterSlot, Coherence.Coherent, FilesNow;
    var free := PickFree(m, pid);
    var (m1, slot) := FreeSlot(pol, m, free, now);
    LearnedFiles(AfterSlot(pol, m, t, free, now), r, capacity, pid, v, slot.value, now);
    Coherence.AttachTables(pol, m1, slot.value, pid, v, now);
    hide Attach;
  }

  /** Whoever accesses a page finds it in the TLB afterwards, under the frame it is in and stamped with the access:
      after every access that does not fail, from every coherent state with a TLB that agrees with it, without
      clustering and under every policy without a resident-set target. */
  lemma AccessIsFiled<S(!new)>(pol: Policy<S>, m: Mem<S>, t: Entries, r: Entries, capacity: int, pid: Pid, v: nat,
                               write: bool, now: int)
    requires Lawful(pol) && (forall s :: pol.target(s).None?)
    requires Coherence.Coherent(m) && TlbRuns.InStep(t, capacity, m) && !m.clustering && pid in m.tables
    requires Touching(pol, m, t, r, capacity, pid, v, write, now) && Access(pol, m, pid, v, write, now).ok
    ensures var a := CachedStep(pol, m, t, Touch(pid, v, write), now);
            a.Resident(pid, v) && FilesNow(r, pid, v, a.tables[pid][v].frame, now)
  {
    hide Lawful, Coherence.Coherent, TlbRuns.InStep, Access, Accessing, MakeKey;
    if !write && Cached(t, m, pid, v) {
      FoundIsFiled(pol, m, t, capacity, pid, v, now);
    } else {
      var t1 := if write then t else LookedUp(t, pid, v, now);
      AccessingFiles(pol, m, t1, r, capacity, pid, v, write, now);
    }
  }

  lemma FoundIsFiled<S(!new)>(pol: Policy<S>, m: Mem<S>, t: Entries, capacity: int, pid: Pid, v: nat, now: int)
    requires Lawful(pol) && TlbRuns.InStep(t, capacity, m) && pid in m.tables && Cached(t, m, pid, v)
    ensures var a := CachedStep(pol, m, t, Touch(pid, v, false), now);
            a.Resident(pid, v) && FilesNow(LookedUp(t, pid, v, now), pid, v, a.tables[pid][v].frame, now)
  {
    hide Lawful, MakeKey;
    var key := MakeKey(pid, v);
    var e := t[key];
    MakeKeyInjective(pid, v, e.processId, e.virtualPage);
    assert m.Maps(e.processId, e.virtualPage, e.frame);
  }

  lemma AccessingFiles<S(!new)>(pol: Policy<S>, m: Mem<S>, t: Entries, r: Entries, capacity: int, pid: Pid, v: nat,
                                write: bool, now: int)
    requires Lawful(pol) && (forall s :: pol.target(s).None?)
    requires Coherence.Coherent(m) && !m.clustering && pid in m.tables
    requires Accessing(pol, m, t, r, capacity, pid, v, write, now) && Access(pol, m, pid, v, write, now).ok
    ensures var a := Access(pol, m, pid, v, write, now).mem;
            a.Resident(pid, v) && FilesNow(r, pid, v, a.tables[pid][v].frame, now)
  {
    Coherence.PreparedCoherent(m, pid, v);
    var m1 := Prepared(m, pid, v);
    hide Lawful, Coherence.Coherent, Prepared, Hitting, Missing, FilesNow, FastHit, SettleWrite, MissOutcome;
    if m1.Resident(pid, v) {
      HitFiles(pol, m1, t, r, capacity, pid, v, write, now);
      HitStays(pol, m1, pid, v, write, now);
    } else {
      MissFiles(pol, m1, t, r, capacity, pid, v, write, now);
    }
  }

  lemma HitStays<S(!new)>(pol: Policy<S>, m: Mem<S>, pid: Pid, v: nat, write: bool, now: int)
    requires Lawful(pol) && Coherence.Coherent(m) && m.Resident(pid, v)
    ensures var h := FastHit(pol, m, m.tables[pid][v].frame, write, now);
            var a := SettleWrite(pol, h, pid, v, write, now).mem;
            a.Resident(pid, v) && a.tables == m.tables
  {
    hide Lawful;
    assert Coherence.PageOk(m, pid, v);
  }

  lemma MissFiles<S(!new)>(pol: Policy<S>, m: Mem<S>, t: Entries, r: Entries, capacity: int, pid: Pid, v: nat,
                           write: bool, now: int)
    requires Lawful(pol) && (forall s :: pol.target(s).None?)
    requires Coherence.Coherent(m) && !m.clustering && m.Has(pid, v) && !m.Resident(pid, v)
    requires Missing(pol, m, t, r, capacity, pid, v, write, now) && MissOutcome(pol, m, pid, v, write, now).ok
    ensures var a := MissOutcome(pol, m, pid, v, write, now).mem;
            a.Resident(pid, v) && FilesNow(r, pid, v, a.tables[pid][v].frame, now)
  {
    hide Lawful, Coherence.Coherent, Faulting, Fault, FilesNow, Following, EnforceTarget, TryPrefetch, CountFault;
    AbsentThere(m, pid, v);
    var f := Fault(pol, m, pid, v, write, now);
    var t1 :| Faulting(pol, m, t, t1, capacity, pid, v, write, now)
              && if f.ok then Following(pol, f.mem, t1, r, capacity, pid, now) else r == t1;
    FaultFiles(pol, m, t, t1, capacity, pid, v, write, now);
    NothingFollows(pol, f.mem, t1, r, capacity, pid, now);
    SameMaps(f.mem);
  }

  lemma SameMaps<S>(m: Mem<S>)
    ensures var c := CountFault(m); c.tables == m.tables && c.frames == m.frames && c.clustering == m.clustering
  {
  }

  lemma AbsentThere<S>(m: Mem<S>, pid: Pid, v: nat)
    requires Coherence.Coherent(m) && m.Has(pid, v) && !m.Resident(pid, v)
    ensures !m.tables[pid][v].present
  {
    assert Coherence.PageOk(m, pid, v);
  }

  lemma NothingFollows<S(!new)>(pol: Policy<S>, m: Mem<S>, t: Entries, r: Entries, capacity: int, pid: Pid, now: int)
    requires Lawful(pol) && (forall s :: pol.target(s).None?) && !m.clustering
    requires Following(pol, m, t, r, capacity, pid, now)
    ensures r == t && EnforceTarget(pol, CountFault(m), now) == CountFault(m)
  {
    hide Lawful;
  }
}
