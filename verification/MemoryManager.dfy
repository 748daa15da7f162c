/** The memory manager (internal/memory/manager.go) over its mutable parts. Every method does to the state
    what the model in MemoryModel says, and to the TLB what TlbSteps says. */
module MemoryManager {
  import opened Prelude
  import opened Frames
  import opened TwoLayerMap
  import opened MemoryModel
  import Runs
  import opened Coherence
  import opened FrameTable
  import opened CopyOnWrite
  import opened Compression
  import opened Transparency
  import opened Tlb
  import opened TlbSteps
  import opened TlbRuns
  import CowState

  ghost predicate SameProcesses(processes: set<Pid>, tables: map<Pid, PageTable>, multiLevel: map<Pid, TwoLayer>,
                                recent: map<Pid, seq<nat>>, huge: map<Pid, map<nat, int>>) {
    processes == tables.Keys == multiLevel.Keys == recent.Keys == huge.Keys
  }

  lemma KeysAdd<V>(m: map<Pid, V>, pid: Pid, v: V)
    ensures m[pid := v].Keys == m.Keys + {pid}
  {
  }

  lemma KeysDrop<V>(m: map<Pid, V>, pid: Pid)
    ensures (m - {pid}).Keys == m.Keys - {pid}
  {
  }

  lemma ProcessAdded(ps: set<Pid>, a: map<Pid, PageTable>, b: map<Pid, TwoLayer>, c: map<Pid, seq<nat>>,
                     d: map<Pid, map<nat, int>>, pid: Pid, t: PageTable)
    requires SameProcesses(ps, a, b, c, d)
    ensures SameProcesses(ps + {pid}, a[pid := t], b[pid := EMPTY], c[pid := []], d[pid := map[]])
  {
    KeysAdd(a, pid, t);
    KeysAdd(b, pid, EMPTY);
    KeysAdd(c, pid, []);
    KeysAdd(d, pid, map[]);
  }

  lemma ProcessForked(ps: set<Pid>, a: map<Pid, PageTable>, b: map<Pid, TwoLayer>, c: map<Pid, seq<nat>>,
                      d: map<Pid, map<nat, int>>, parent: Pid, t: PageTable, child: Pid, u: PageTable)
    requires SameProcesses(ps, a, b, c, d) && parent in a
    ensures SameProcesses(ps + {child}, a[parent := t][child := u], b[child := EMPTY], c[child := []],
                          d[child := map[]])
  {
    SameKeys(a, parent, t);
    ProcessAdded(ps, a[parent := t], b, c, d, child, u);
  }

  lemma NothingToRemove<S>(m: Mem<S>, pid: Pid)
    requires pid !in m.tables
    ensures Remove(m, pid) == Outcome(false, m)
  {
  }

  lemma ProcessDropped(ps: set<Pid>, a: map<Pid, PageTable>, b: map<Pid, TwoLayer>, c: map<Pid, seq<nat>>,
                       d: map<Pid, map<nat, int>>, pid: Pid)
    requires SameProcesses(ps, a, b, c, d)
    ensures SameProcesses(ps - {pid}, a - {pid}, b - {pid}, c - {pid}, d - {pid})
  {
    KeysDrop(a, pid);
    KeysDrop(b, pid);
    KeysDrop(c, pid);
    KeysDrop(d, pid);
  }

  lemma SameKeys<V>(m: map<Pid, V>, pid: Pid, v: V)
    requires pid in m
    ensures m[pid := v].Keys == m.Keys
  {
  }

  lemma UnknownProcess<S(!new)>(pol: Policy<S>, m: Mem<S>, pid: Pid, v: nat, write: bool, now: int)
    requires Lawful(pol) && pid !in m.tables
    ensures Access(pol, m, pid, v, write, now) == Outcome(false, m)
  {
  }

  // ---- Removing a process, page by page ----

  ghost function ReleasedIf(frames: seq<Frame>, page: Page): seq<Frame> {
    if page.present && 0 <= page.frame < |frames|
    then frames[page.frame := frames[page.frame].Release()] else frames
  }

  ghost function FramesReleased(frames: seq<Frame>, table: PageTable): seq<Frame> {
    seq(|frames|, i requires 0 <= i < |frames| => if HoldsFrame(table, i) then frames[i].Release() else frames[i])
  }

  ghost predicate HeldBy(table: PageTable, pages: set<nat>, i: int) {
    exists v :: v in pages && v in table && table[v].present && table[v].frame == i
  }

  ghost predicate ReleasedSoFar(before: seq<Frame>, after: seq<Frame>, table: PageTable, pages: set<nat>) {
    && |after| == |before|
    && forall i :: 0 <= i < |before| ==>
         after[i] == if HeldBy(table, pages, i) then before[i].Release() else before[i]
  }

  lemma ReleaseOneMore(before: seq<Frame>, after: seq<Frame>, table: PageTable, pages: set<nat>, v: nat)
    requires ReleasedSoFar(before, after, table, pages) && v in table
    ensures ReleasedSoFar(before, ReleasedIf(after, table[v]), table, pages + {v})
  {
    var r := ReleasedIf(after, table[v]);
    forall i | 0 <= i < |before|
      ensures r[i] == if HeldBy(table, pages + {v}, i) then before[i].Release() else before[i]
    {
      assert HeldBy(table, pages + {v}, i)
             <==> HeldBy(table, pages, i) || (table[v].present && table[v].frame == i) by {
        assert v in pages + {v};
        if HeldBy(table, pages, i) {
          var u :| u in pages && u in table && table[u].present && table[u].frame == i;
          assert u in pages + {v};
        }
      }
    }
  }

  lemma AllReleased(before: seq<Frame>, after: seq<Frame>, table: PageTable)
    requires ReleasedSoFar(before, after, table, table.Keys)
    ensures after == FramesReleased(before, table)
  {
    forall i | 0 <= i < |before| ensures after[i] == FramesReleased(before, table)[i] {
      assert HeldBy(table, table.Keys, i) <==> HoldsFrame(table, i);
    }
  }

  lemma {:induction false} WithoutPrefix(ids: seq<nat>, i: nat, k: nat)
    requires k < |ids| && i !in ids[..k]
    ensures ids[k] == i ==> Without(ids, i) == ids[..k] + ids[k + 1..]
    ensures k + 1 == |ids| && ids[k] != i ==> Without(ids, i) == ids
  {
    if k > 0 {
      var rest := ids[1..];
      assert rest[..k - 1] == ids[..k][1..];
      WithoutPrefix(rest, i, k - 1);
      assert ids[0] != i by {
        assert ids[0] == ids[..k][0];
      }
      assert Without(ids, i) == [ids[0]] + Without(rest, i);
      hide Without;
      assert [ids[0]] + (rest[..k - 1] + rest[k..]) == ids[..k] + ids[k + 1..];
    }
  }

  /** Dropping the victim from the local list of used frames, as enforcePFFResident does. */
  method RemoveFrom(ids: seq<nat>, i: nat) returns (r: seq<nat>)
    ensures r == Without(ids, i)
  {
    for k := 0 to |ids|
      invariant i !in ids[..k]
    {
      WithoutPrefix(ids, i, k);
      if ids[k] == i {
        return ids[..k] + ids[k + 1..];
      }
    }
    if ids != [] {
      WithoutPrefix(ids, i, |ids| - 1);
    }
    return ids;
  }

  lemma SettingsGood<S>(t: Entries, capacity: int, m: Mem<S>, r: Mem<S>)
    requires Coherent(m) && InStep(t, capacity, m)
    requires r == m.(numa := r.numa, compression := r.compression, clustering := r.clustering)
    ensures Coherent(r) && InStep(t, capacity, r)
  {
    hide Coherent, InStep;
    BookkeepingCoherent(m, r);
    SameTablesInStep(t, capacity, m, r);
  }

  lemma LoadedGood<S(!new)>(pol: Policy<S>, t: Entries, r: Entries, capacity: int, m: Mem<S>, i: nat,
                            pid: Pid, v: nat, now: int)
    requires Lawful(pol) && Coherent(m) && InStep(t, capacity, m) && i < |m.frames| && m.frames[i].free
    requires m.Has(pid, v) && !m.tables[pid][v].present && Learned(t, r, capacity, pid, m.tables[pid][v].id, i, now)
    ensures var m1 := Attach(pol, m, i, pid, v, now); Coherent(m1) && InStep(r, capacity, m1)
  {
    CoherentNumber(m, pid, v);
    hide Coherent, InStep, Learned, Attach, Lawful;
    AttachCoherent(pol, m, i, pid, v, now);
    AttachInStep(pol, t, r, capacity, m, i, pid, v, now);
  }

  lemma CachedIsMapped<S>(t: Entries, capacity: int, m: Mem<S>, pid: Pid, v: nat)
    requires InStep(t, capacity, m) && MakeKey(pid, v) in t && t[MakeKey(pid, v)].valid
    ensures m.Maps(pid, v, t[MakeKey(pid, v)].frame)
  {
    hide MakeKey, WellFiled, TlbAgrees;
    FiledIsMapped(t, capacity, m, pid, v);
  }

  lemma MappedIsResident<S>(m: Mem<S>, pid: Pid, v: nat)
    requires Coherent(m) && m.Has(pid, v) && m.tables[pid][v].present
    ensures m.Resident(pid, v)
  {
    assert PageOk(m, pid, v);
  }

  const WINDOW := 10

  function Window(ws: seq<nat>): seq<nat> {
    if |ws| > WINDOW then ws[|ws| - WINDOW..] else ws
  }

  /** The window after a process's accesses, in their order. */
  function WindowAfter(pages: seq<nat>): seq<nat> {
    if pages == [] then [] else Window(WindowAfter(pages[..|pages| - 1]) + [pages[|pages| - 1]])
  }

  /** It holds the last ten of them. */
  lemma {:induction false} WindowIsLastTen(pages: seq<nat>)
    ensures WindowAfter(pages) == pages[if |pages| > 10 then |pages| - 10 else 0..]
  {
    if pages != [] {
      var before, last := pages[..|pages| - 1], pages[|pages| - 1];
      WindowIsLastTen(before);
      assert pages == before + [last];
    }
  }

  function Elements(s: seq<nat>): set<nat> {
    set x | x in s
  }

  lemma ElementsSnoc(s: seq<nat>, x: nat)
    ensures Elements(s + [x]) == Elements(s) + {x}
  {
  }

  /** The uniqueness count of updateWorkingSet is the number of different pages. */
  method CountUnique(ws: seq<nat>) returns (unique: nat)
    ensures unique == |Elements(ws)|
  {
    unique := 0;
    for i := 0 to |ws|
      invariant unique == |Elements(ws[..i])|
    {
      var dup := false;
      var j := 0;
      while j < i && !dup
        invariant j <= i
        invariant dup <==> exists k :: 0 <= k < j && ws[k] == ws[i]
      {
        if ws[j] == ws[i] {
          dup := true;
        }
        j := j + 1;
      }
      assert dup <==> ws[i] in ws[..i];
      assert ws[..i + 1] == ws[..i] + [ws[i]];
      ElementsSnoc(ws[..i], ws[i]);
      assert ws[i] in Elements(ws[..i]) <==> dup;
      if dup {
        assert Elements(ws[..i + 1]) == Elements(ws[..i]);
      } else {
        unique := unique + 1;
      }
    }
    assert ws[..|ws|] == ws;
  }

  class MemoryManager<S(!new)> {
    const frameTable: FrameTable
    const tlb: TLB
    const cow: CopyOnWrite
    const compression: CompressionManager
    const policy: Policy<S>

    var policyState: S
    var processes: set<Pid>
    var pageTables: map<Pid, PageTable>
    var multiLevel: map<Pid, TwoLayer>
    var recent: map<Pid, seq<nat>>
    var clusters: set<(Pid, nat)>
    var huge: map<Pid, map<nat, int>>
    var metrics: Metrics
    var numaEnabled: bool
    var compressionEnabled: bool
    var clusteringEnabled: bool
    var workingSets: map<Pid, seq<nat>>
    var workingSetSizes: map<Pid, nat>

    /** Everything but the TLB. */
    ghost function Memory(): Mem<S>
      reads this, frameTable.frames, cow, cow.refCounter, compression
    {
      Mem(frameTable.frames[..], pageTables, multiLevel, policyState, cow.State(), compression.State(),
          recent, clusters, huge, metrics, numaEnabled, compressionEnabled, clusteringEnabled)
    }

    /** The per-process maps have the same processes, the TLB is well formed, the policy lawful. */
    ghost predicate Wired()
      reads this, tlb
    {
      && tlb.Valid()
      && Lawful(policy)
      && compression.minRatio == MIN_RATIO
      && SameProcesses(processes, pageTables, multiLevel, recent, huge)
    }

    constructor (numFrames: nat, tlbSize: int, policy: Policy<S>, startState: S)
      requires Lawful(policy)
      ensures Wired() && Memory() == Boot(numFrames, startState) && tlb.entries == map[]
      ensures tlb.capacity == tlbSize && this.policy == policy
      ensures Good()
    {
      frameTable := new FrameTable(numFrames);
      tlb := new TLB(tlbSize);
      cow := new CopyOnWrite();
      compression := new CompressionManager(MIN_RATIO);
      this.policy, policyState := policy, startState;
      processes, pageTables, multiLevel, recent, clusters, huge := {}, map[], map[], map[], {}, map[];
      metrics := NO_METRICS;
      numaEnabled, compressionEnabled, clusteringEnabled := false, false, false;
      workingSets, workingSetSizes := map[], map[];
    }

    /** The TLB agrees with the page tables, and these with the frames. */
    ghost predicate Good()
      reads this, frameTable.frames, cow, cow.refCounter, compression, tlb
    {
      Coherent(Memory()) && InStep(tlb.entries, tlb.capacity, Memory())
    }

    /** Pin or unpin a frame had from the frame table. */
    method SetPinned(i: nat, on: bool) returns (ok: bool)
      requires Wired()
      modifies frameTable.frames
      ensures Wired() && Outcome(ok, Memory()) == Runs.PinFrame(old(Memory()), i, on)
      ensures old(Good()) ==> Good()
    {
      hide Lawful, MakeKey, Coherent, InStep;
      ghost var m := Memory();
      ok := frameTable.SetPinned(i, on);
      if old(Good()) {
        PinCoherent(m, i, on);
        SameTablesInStep(tlb.entries, tlb.capacity, m, Memory());
      }
    }

    method EnableNuma(on: bool)
      requires Wired()
      modifies this`numaEnabled
      ensures Wired() && Memory() == old(Memory()).(numa := on)
      ensures old(Good()) ==> Good()
    {
      hide Lawful, MakeKey, Coherent, InStep;
      ghost var m := Memory();
      numaEnabled := on;
      if old(Good()) {
        SettingsGood(tlb.entries, tlb.capacity, m, Memory());
      }
    }

    method EnableCompression(on: bool)
      requires Wired()
      modifies this`compressionEnabled
      ensures Wired() && Memory() == old(Memory()).(compression := on)
      ensures old(Good()) ==> Good()
    {
      hide Lawful, MakeKey, Coherent, InStep;
      ghost var m := Memory();
      compressionEnabled := on;
      if old(Good()) {
        SettingsGood(tlb.entries, tlb.capacity, m, Memory());
      }
    }

    method EnableClustering(on: bool)
      requires Wired()
      modifies this`clusteringEnabled
      ensures Wired() && Memory() == old(Memory()).(clustering := on)
      ensures old(Good()) ==> Good()
    {
      hide Lawful, MakeKey, Coherent, InStep;
      ghost var m := Memory();
      clusteringEnabled := on;
      if old(Good()) {
        SettingsGood(tlb.entries, tlb.capacity, m, Memory());
      }
    }

    /** allocateFrameForPage. */
    method AllocateFrameForPage(pageId: nat, pid: Pid, now: int) returns (r: Option<nat>)
      requires Wired()
      modifies frameTable.frames
      ensures Wired()
      ensures r == PickFree(old(Memory()), pid)
      ensures var m := old(Memory());
              Memory() == if r.Some?
                          then m.(frames := m.frames[r.value := m.frames[r.value].Allocate(pageId, pid, now)]) else m
    {
      if numaEnabled {
        var n := frameTable.frames.Length;
        var (start, end) := NodeRange(pid, n);
        r := frameTable.AllocateFrameInRange(start, end, pageId, pid, now);
        if r.Some? {
          return r;
        }
      }
      r := frameTable.AllocateFrame(pageId, pid, now);
    }

    /** The page-table part of evictPage. */
    method UnmapPage(pid: Pid, v: nat)
      requires Wired()
      modifies this`pageTables
      ensures Wired() && Memory() == DropMapping(old(Memory()), pid, v)
    {
      if pid in pageTables && v in pageTables[pid] {
        var page := pageTables[pid][v];
        if page.present {
          var table: PageTable := pageTables[pid][v := page.SetFrame(-1)];
          SameKeys(pageTables, pid, table);
          pageTables := pageTables[pid := table];
        }
      }
    }

    /** The compression part of evictPage. */
    method CompressIfDirty(f: Frame)
      requires Wired()
      modifies compression
      ensures Wired()
      ensures Memory() == CompressDirty(old(Memory()), f)
    {
      if compressionEnabled && f.modified {
        var _ := compression.CompressPage(f.pageId, PAGE_BYTES);
      }
    }

    method InvalidateMultiLevel(pid: Pid, v: nat)
      requires Wired()
      modifies this`multiLevel
      ensures Wired()
      ensures Memory() == ForgetTranslation(old(Memory()), pid, v)
    {
      if pid in multiLevel {
        multiLevel := multiLevel[pid := multiLevel[pid].Invalidate(v * L1_SPAN % WORD)];
      }
    }

    /** The end of evictPage: the policy hears of the eviction, it is counted, the frame is freed. */
    method Retire(i: nat)
      requires Wired() && i < frameTable.frames.Length
      modifies this`policyState, this`metrics, frameTable.frames
      ensures Wired()
      ensures Memory() == MemoryModel.Retire(policy, old(Memory()), i)
    {
      var (state, g) := policy.onEvict(policyState, i, frameTable.frames[i]);
      policyState := state;
      metrics := metrics.(evictions := metrics.evictions + 1,
                          dirtyEvictions := metrics.dirtyEvictions + (if g.modified then 1 else 0));
      frameTable.frames[i] := g.Release();
    }

    /** evictPage. */
    method EvictPage(i: nat)
      requires Wired() && i < frameTable.frames.Length
      modifies this`pageTables, this`multiLevel, this`policyState, this`metrics, frameTable.frames, tlb`entries,
               compression
      ensures Wired()
      ensures Memory() == Evict(policy, old(Memory()), i)
      ensures var f := old(frameTable.frames[i]); tlb.entries == old(tlb.entries) - {MakeKey(f.processId, f.pageId)}
    {
      hide Lawful, Tlb.MakeKey, DropMapping, CompressDirty, ForgetTranslation, MemoryModel.Retire;
      ghost var m := Memory();
      var f := frameTable.frames[i];
      assert f == m.frames[i];
      CompressIfDirty(f);
      UnmapPage(f.processId, f.pageId);
      tlb.Invalidate(f.processId, f.pageId);
      InvalidateMultiLevel(f.processId, f.pageId);
      Retire(i);
    }

    /** SelectVictim among the listed frames, with whatever the policy notes on the side. */
    method SelectVictim(ids: seq<nat>, now: int) returns (victim: Option<nat>)
      requires Wired() && FrameList(frameTable.frames[..], ids)
      modifies this`policyState, frameTable.frames
      ensures Wired()
      ensures (Memory(), victim) == Choose(policy, old(Memory()), ids, now)
    {
      ghost var before := Memory();
      var r := policy.select(policyState, frameTable.frames[..], ids, now);
      victim, policyState := r.victim, r.state;
      assert LawfulSelection(before.frames, ids, r);
      forall k | 0 <= k < frameTable.frames.Length {
        frameTable.frames[k] := r.frames[k];
      }
      assert frameTable.frames[..] == r.frames;
    }

    method SetPageFrame(pid: Pid, v: nat, i: nat)
      requires Wired() && Memory().Has(pid, v)
      modifies this`pageTables
      ensures Wired()
      ensures Memory() == old(Memory()).PutPage(pid, v, old(pageTables)[pid][v].SetFrame(i))
    {
      var table: PageTable := pageTables[pid][v := pageTables[pid][v].SetFrame(i)];
      pageTables := pageTables[pid := table];
    }

    method SetMultiLevel(pid: Pid, va: nat, i: int, isHuge: bool)
      requires Wired()
      modifies this`multiLevel
      ensures Wired()
      ensures Memory() == old(Memory()).(mpt := if pid in old(multiLevel)
                            then old(multiLevel)[pid := old(multiLevel)[pid].Set(va, i, isHuge)] else old(multiLevel))
    {
      if pid in multiLevel {
        multiLevel := multiLevel[pid := multiLevel[pid].Set(va, i, isHuge)];
      }
    }

    method NotifyFault(i: nat, now: int)
      requires Wired() && i < frameTable.frames.Length
      modifies this`policyState, frameTable.frames
      ensures Wired()
      ensures var m := old(Memory());
              var (s, f) := policy.onFault(m.policy, i, m.frames[i], now);
              Memory() == m.(policy := s, frames := m.frames[i := f])
    {
      var (state, f) := policy.onFault(policyState, i, frameTable.frames[i], now);
      policyState := state;
      frameTable.frames[i] := f;
    }

    /** Frame i was just allocated, in state m, to page (pid, v): map the page to it in both tables,
        tell the policy and fill the TLB. */
    method MapAndCache(ghost m: Mem<S>, i: nat, pid: Pid, v: nat, now: int)
      requires Wired() && i < |m.frames| && m.Has(pid, v)
      requires Memory() == m.(frames := m.frames[i := m.frames[i].Allocate(m.tables[pid][v].id, pid, now)])
      modifies this`pageTables, this`multiLevel, this`policyState, frameTable.frames, tlb`entries
      ensures Wired()
      ensures Memory() == Attach(policy, m, i, pid, v, now)
      ensures Learned(old(tlb.entries), tlb.entries, tlb.capacity, pid, m.tables[pid][v].id, i, now)
    {
      hide Lawful, Tlb.MakeKey, TwoLayer.Set, MadeRoom, SameProcesses, WellFiled;
      assert |Memory().frames| == |m.frames|;
      var page := pageTables[pid][v];
      SetPageFrame(pid, v, i);
      SetMultiLevel(pid, page.id * L1_SPAN % WORD, i, false);
      NotifyFault(i, now);
      CacheLoaded(pid, page.id, i, now);
    }

    method CacheLoaded(pid: Pid, page: nat, i: nat, now: int)
      requires Wired()
      modifies tlb`entries
      ensures Wired() && Memory() == old(Memory())
      ensures Learned(old(tlb.entries), tlb.entries, tlb.capacity, pid, page, i, now)
    {
      hide Lawful, Tlb.MakeKey, MadeRoom, SameProcesses, WellFiled;
      tlb.Insert(pid, page, i, now);
    }

    method MapLoaded(ghost m: Mem<S>, i: nat, pid: Pid, v: nat, now: int)
      requires Wired() && i < |m.frames| && m.Has(pid, v)
      requires Memory() == m.(frames := m.frames[i := m.frames[i].Allocate(m.tables[pid][v].id, pid, now)])
      modifies this`pageTables, this`multiLevel, this`policyState, frameTable.frames, tlb`entries
      ensures Wired()
      ensures Memory() == Attach(policy, m, i, pid, v, now)
      ensures Learned(old(tlb.entries), tlb.entries, tlb.capacity, pid, m.tables[pid][v].id, i, now)
      ensures Coherent(m) && InStep(old(tlb.entries), tlb.capacity, m) && m.frames[i].free && !m.tables[pid][v].present
              ==> Good()
    {
      MapAndCache(m, i, pid, v, now);
      hide Lawful, MakeKey, Learned, Coherent, InStep, Attach;
      if Coherent(m) && InStep(old(tlb.entries), tlb.capacity, m) && m.frames[i].free && !m.tables[pid][v].present {
        LoadedGood(policy, old(tlb.entries), tlb.entries, tlb.capacity, m, i, pid, v, now);
      }
    }

    /** Give a victim's frame to page pageId of pid. */
    method Reassign(i: nat, pageId: nat, pid: Pid, now: int)
      requires Wired() && i < frameTable.frames.Length
      modifies frameTable.frames
      ensures Wired()
      ensures var m := old(Memory()); Memory() == m.(frames := m.frames[i := m.frames[i].Allocate(pageId, pid, now)])
    {
      frameTable.frames[i] := frameTable.frames[i].Allocate(pageId, pid, now);
    }

    /** Evict a used frame's page, keeping the TLB in step. */
    method EvictUsed(i: nat)
      requires Wired() && i < frameTable.frames.Length && !frameTable.frames[i].free
      modifies this`pageTables, this`multiLevel, this`policyState, this`metrics, frameTable.frames, tlb`entries,
               compression
      ensures Wired()
      ensures Memory() == Evict(policy, old(Memory()), i)
      ensures tlb.entries == Forgotten(old(tlb.entries), old(frameTable.frames[i]))
      ensures old(Good()) ==> Good()
    {
      ghost var m, entries := Memory(), tlb.entries;
      EvictPage(i);
      if old(Good()) {
        EvictCoherent(policy, m, i);
        EvictInStep(policy, entries, tlb.capacity, m, i);
      }
      hide Evict, MakeKey, Coherent, InStep, Lawful;
    }


    /** SelectVictim leaves the mapping alone. */
    method SelectGood(ids: seq<nat>, now: int) returns (victim: Option<nat>)
      requires Wired() && FrameList(frameTable.frames[..], ids)
      modifies this`policyState, frameTable.frames
      ensures Wired()
      ensures (Memory(), victim) == Choose(policy, old(Memory()), ids, now)
      ensures old(Good()) ==> Good()
    {
      ghost var m := Memory();
      victim := SelectVictim(ids, now);
      hide Coherent, InStep;
      if old(Good()) {
        ChooseCoherent(policy, m, ids, now);
        SameTablesInStep(tlb.entries, tlb.capacity, m, Memory());
      }
    }

    /** Choose a victim among the used frames and evict it: how a frame is had when none is free. */
    method EvictForFrame(now: int) returns (slot: Option<nat>)
      requires Wired()
      modifies this`pageTables, this`multiLevel, this`policyState, this`metrics, frameTable.frames, tlb`entries,
               compression
      ensures Wired()
      ensures (Memory(), slot) == FreeSlot(policy, old(Memory()), None, now)
      ensures tlb.entries == AfterSlot(policy, old(Memory()), old(tlb.entries), None, now)
      ensures slot.None? ==> tlb.entries == old(tlb.entries)
      ensures old(Good()) ==> Good() && (slot.Some? ==> Memory().frames[slot.value].free)
    {
      hide Lawful, MakeKey, Coherent, InStep, Evict;
      var used := frameTable.GetUsedFrames();
      slot := SelectGood(used, now);
      if slot.Some? {
        ghost var m := Memory();
        EvictUsed(slot.value);
        EvictTables(policy, m, slot.value);
      }
    }

    /** handlePageFault's allocation: a free frame, or atomicEvictAndAlloc. */
    method LoadPage(pid: Pid, v: nat, now: int) returns (ok: bool)
      requires Wired() && Memory().Has(pid, v)
      modifies this`pageTables, this`multiLevel, this`policyState, this`metrics, frameTable.frames, tlb`entries,
               compression
      ensures Wired()
      ensures Outcome(ok, Memory()) == Load(policy, old(Memory()), pid, v, now)
      ensures Loading(policy, old(Memory()), old(tlb.entries), tlb.entries, tlb.capacity, pid, v, now)
      ensures !ok ==> tlb.entries == old(tlb.entries)
      ensures old(Good() && !pageTables[pid][v].present) ==> Good()
    {
      hide Lawful, MakeKey, Coherent, InStep, PickFree, Attach, FreeSlot, Learned;
      ghost var m := Memory();
      var free := AllocateFrameForPage(pageTables[pid][v].id, pid, now);
      if free.Some? {
        FreeSlotFound(policy, m, free, now);
        MapLoaded(m, free.value, pid, v, now);
        return true;
      }
      ok := EvictAndLoad(pid, v, now);
    }

    /** atomicEvictAndAlloc, when no frame is free. */
    method EvictAndLoad(pid: Pid, v: nat, now: int) returns (ok: bool)
      requires Wired() && Memory().Has(pid, v)
      modifies this`pageTables, this`multiLevel, this`policyState, this`metrics, frameTable.frames, tlb`entries,
               compression
      ensures Wired()
      ensures var (m1, slot) := FreeSlot(policy, old(Memory()), None, now);
              Outcome(ok, Memory()) == if slot.None? then Outcome(false, m1)
                                       else Outcome(true, Attach(policy, m1, slot.value, pid, v, now))
      ensures !ok ==> tlb.entries == old(tlb.entries)
      ensures var (m, t) := (old(Memory()), old(tlb.entries));
              var slot := FreeSlot(policy, m, None, now).1;
              ok ==> slot.Some? && Learned(AfterSlot(policy, m, t, None, now), tlb.entries, tlb.capacity,
                                           pid, m.tables[pid][v].id, slot.value, now)
      ensures old(Good() && !pageTables[pid][v].present) ==> Good()
    {
      hide Lawful, MakeKey, Coherent, InStep, Attach, FreeSlot, AfterSlot, Learned, SameProcesses, WellFiled;
      ghost var m := Memory();
      var slot := EvictForFrame(now);
      if slot.None? {
        return false;
      }
      ghost var m1 := Memory();
      SlotKeepsNumber(policy, m, None, now, pid, v);
      if old(Good() && !pageTables[pid][v].present) {
        FreeSlotKeepsAbsent(policy, m, now, pid, v);
      }
      Reassign(slot.value, pageTables[pid][v].id, pid, now);
      MapLoaded(m1, slot.value, pid, v, now);
      return true;
    }

    // ---- Copy on write ----

    /** The allocating part of handleCoW: a free frame of the whole table, or a victim's. */
    method FrameForCopy(newId: nat, pid: Pid, now: int) returns (slot: Option<nat>)
      requires Wired()
      modifies this`pageTables, this`multiLevel, this`policyState, this`metrics, frameTable.frames, tlb`entries,
               compression
      ensures Wired()
      ensures var m := old(Memory());
              var (m1, s) := FreeSlot(policy, m, FirstFree(m.frames, 0, |m.frames|), now);
              && slot == s
              && Memory() == if s.Some?
                             then m1.(frames := m1.frames[s.value := m1.frames[s.value].Allocate(newId, pid, now)])
                             else m1
      ensures var m := old(Memory());
              tlb.entries == AfterSlot(policy, m, old(tlb.entries), FirstFree(m.frames, 0, |m.frames|), now)
    {
      hide Lawful, MakeKey, Coherent, InStep, FreeSlot;
      ghost var m := Memory();
      slot := frameTable.AllocateFrame(newId, pid, now);
      if slot.Some? {
        FreeSlotFound(policy, m, slot, now);
      } else {
        slot := EvictForFrame(now);
        if slot.Some? {
          Reassign(slot.value, newId, pid, now);
        }
      }
    }

    /** handleCoW. The copy gets a frame of its own and takes the page's place in the table. */
    method HandleCoW(pid: Pid, v: nat, now: int) returns (ok: bool)
      requires Wired() && Memory().Has(pid, v)
      modifies this`pageTables, this`multiLevel, this`policyState, this`metrics, frameTable.frames, tlb`entries,
               compression, cow, cow.refCounter
      ensures Wired() && cow.refCounter == old(cow.refCounter)
      ensures Outcome(ok, Memory()) == WriteShared(policy, old(Memory()), pid, v, now)
      ensures Sharing(policy, old(Memory()), old(tlb.entries), tlb.entries, tlb.capacity, pid, v, now)
    {
      hide Lawful, MakeKey, CowState.HandleWrite, FinishWrite;
      var verdict := AskCoW(pid, v);
      ok := FinishSharedWrite(pid, v, verdict, now);
    }

    method AskCoW(pid: Pid, v: nat) returns (verdict: CowState.Verdict)
      requires Wired() && Memory().Has(pid, v)
      modifies cow, cow.refCounter
      ensures Wired() && cow.refCounter == old(cow.refCounter)
      ensures var m := old(Memory());
              var (c, w) := CowState.HandleWrite(m.cow, m.tables[pid][v].id, pid, m.tables[pid][v].shared);
              verdict == w && Memory() == m.(cow := c)
    {
      verdict := cow.HandleWrite(pageTables[pid][v].id, pid, pageTables[pid][v].shared);
    }

    method FinishSharedWrite(pid: Pid, v: nat, verdict: CowState.Verdict, now: int) returns (ok: bool)
      requires Wired() && Memory().Has(pid, v)
      modifies this`pageTables, this`multiLevel, this`policyState, this`metrics, frameTable.frames, tlb`entries,
               compression, cow
      ensures Wired() && cow.refCounter == old(cow.refCounter)
      ensures Outcome(ok, Memory()) == FinishWrite(policy, old(Memory()), pid, v, verdict, now)
      ensures Finishing(policy, old(Memory()), old(tlb.entries), tlb.entries, tlb.capacity, pid, v, verdict, now)
    {
      hide Lawful, MakeKey, MakeCopy, Copying;
      if verdict.NoCopy? {
        PutPage(pid, v, pageTables[pid][v].MakePrivate());
        ok := true;
      } else {
        cow.CopyPage();
        ok := InstallCopy(pid, v, verdict.newId, now);
      }
    }

    method PutPage(pid: Pid, v: nat, page: Page)
      requires Wired() && pid in pageTables
      modifies this`pageTables
      ensures Wired() && Memory() == old(Memory()).PutPage(pid, v, page)
    {
      var table: PageTable := pageTables[pid][v := page];
      pageTables := pageTables[pid := table];
    }

    /** The rest of handleCoW, once the copy has its number. */
    method InstallCopy(pid: Pid, v: nat, newId: nat, now: int) returns (ok: bool)
      requires Wired() && Memory().Has(pid, v)
      modifies this`pageTables, this`multiLevel, this`policyState, this`metrics, frameTable.frames, tlb`entries,
               compression
      ensures Wired()
      ensures Outcome(ok, Memory()) == MakeCopy(policy, old(Memory()), pid, v, newId, now)
      ensures Copying(policy, old(Memory()), old(tlb.entries), tlb.entries, tlb.capacity,
                      pid, old(pageTables)[pid][v].id, now)
    {
      hide Lawful, MakeKey, FreeSlot, PlaceCopy, AfterSlot, Learned;
      ghost var m := Memory();
      var id := pageTables[pid][v].id;
      var slot := FrameForCopy(newId, pid, now);
      if slot.None? {
        NoSlotForgetsNothing(policy, m, old(tlb.entries), FirstFree(m.frames, 0, |m.frames|), now);
        return false;
      }
      MoveCopyIn(slot.value, pid, id, newId, now);
      return true;
    }

    method MoveCopyIn(i: nat, pid: Pid, id: nat, newId: nat, now: int)
      requires Wired() && i < frameTable.frames.Length && pid in pageTables
      modifies this`pageTables, this`policyState, this`metrics, frameTable.frames, tlb`entries
      ensures Wired()
      ensures Memory() == PlaceCopy(policy, old(Memory()), i, pid, id, newId, now)
      ensures Learned(old(tlb.entries) - {MakeKey(pid, id)}, tlb.entries, tlb.capacity, pid, id, i, now)
    {
      hide Lawful, MakeKey, MadeRoom, SameProcesses, WellFiled;
      NotifyFault(i, now);
      PutPage(pid, id, Page(newId, i, true, false, false, id));
      tlb.Invalidate(pid, id);
      CacheLoaded(pid, id, i, now);
      CountCopy();
    }

    method CountCopy()
      requires Wired()
      modifies this`metrics
      ensures Wired()
      ensures Memory() == old(Memory()).(metrics := old(metrics).(cowCopies := old(metrics).cowCopies + 1))
    {
      metrics := metrics.(cowCopies := metrics.cowCopies + 1);
    }

    // ---- Page faults ----

    /** A write to a shared page goes through handleCoW; without shared pages it does nothing. */
    method SettleSharedWrite(pid: Pid, v: nat, write: bool, now: int) returns (ok: bool)
      requires Wired() && Memory().Has(pid, v)
      modifies this`pageTables, this`multiLevel, this`policyState, this`metrics, frameTable.frames, tlb`entries,
               compression, cow, cow.refCounter
      ensures Wired() && cow.refCounter == old(cow.refCounter)
      ensures Outcome(ok, Memory()) == SettleWrite(policy, old(Memory()), pid, v, write, now)
      ensures Settling(policy, old(Memory()), old(tlb.entries), tlb.entries, tlb.capacity, pid, v, write, now)
      ensures old(Good()) ==> Good() && ok && tlb.entries == old(tlb.entries)
    {
      if old(Good()) {
        SettleUnshared(policy, Memory(), pid, v, write, now);
      }
      hide Lawful, MakeKey, Coherent, InStep, WriteShared;
      if write && pageTables[pid][v].shared {
        ok := HandleCoW(pid, v, now);
      } else {
        ok := true;
      }
    }

    /** With compression on, take the page's compressed copy out of the store. */
    method TakeCompressed(id: nat) returns (page: Option<Compressed>)
      requires Wired()
      modifies compression
      ensures Wired()
      ensures (Memory(), page) == TakeOut(old(Memory()), id)
      ensures old(Good()) ==> Good()
    {
      ghost var m := Memory();
      page := None;
      if compressionEnabled {
        page := compression.DecompressPage(id);
      }
      hide Coherent;
      if old(Good()) {
        BookkeepingCoherent(m, Memory());
      }
    }

    method PutCompressedBack(page: Option<Compressed>)
      requires Wired()
      modifies compression
      ensures Wired()
      ensures Memory() == PutBack(old(Memory()), page)
      ensures old(Good()) ==> Good()
    {
      ghost var m := Memory();
      if page.Some? {
        compression.RestoreCompressed(page.value);
      }
      hide Coherent;
      if old(Good()) {
        BookkeepingCoherent(m, Memory());
      }
    }

    /** handlePageFault. */
    method HandlePageFault(pid: Pid, v: nat, write: bool, now: int) returns (ok: bool)
      requires Wired() && Memory().Has(pid, v)
      modifies this`pageTables, this`multiLevel, this`policyState, this`metrics, frameTable.frames, tlb`entries,
               compression, cow, cow.refCounter
      ensures Wired() && cow.refCounter == old(cow.refCounter)
      ensures Outcome(ok, Memory()) == Fault(policy, old(Memory()), pid, v, write, now)
      ensures Faulting(policy, old(Memory()), old(tlb.entries), tlb.entries, tlb.capacity, pid, v, write, now)
      ensures old(Good() && !pageTables[pid][v].present) ==> Good() && (!ok ==> tlb.entries == old(tlb.entries))
    {
      hide Lawful, MakeKey, Good, Load, SettleWrite, TakeOut, PutBack, Loading, Settling, SameProcesses, WellFiled;
      var page := TakeCompressed(pageTables[pid][v].id);
      ok := LoadPage(pid, v, now);
      if !ok {
        PutCompressedBack(page);
        return false;
      }
      ok := SettleSharedWrite(pid, v, write, now);
    }

    // ---- After a fault ----

    /** enforcePFFResident. */
    method EnforceResident(target: int, now: int)
      requires Wired()
      modifies this`pageTables, this`multiLevel, this`policyState, this`metrics, frameTable.frames, tlb`entries,
               compression
      ensures Wired()
      ensures Memory() == Enforce(policy, old(Memory()), Used(old(frameTable.frames[..])), target, now)
      ensures tlb.entries
              == AfterEnforce(policy, old(Memory()), old(tlb.entries), Used(old(frameTable.frames[..])), target, now)
      ensures old(Good()) ==> Good()
    {
      hide Lawful, MakeKey, Good, Evict, Forgotten, SameProcesses, WellFiled;
      if target <= 0 {
        return;
      }
      var used := frameTable.GetUsedFrames();
      while |used| > target
        invariant Wired() && FrameList(frameTable.frames[..], used)
        invariant Enforce(policy, Memory(), used, target, now)
                  == Enforce(policy, old(Memory()), Used(old(frameTable.frames[..])), target, now)
        invariant AfterEnforce(policy, Memory(), tlb.entries, used, target, now)
                  == AfterEnforce(policy, old(Memory()), old(tlb.entries), Used(old(frameTable.frames[..])),
                                  target, now)
        invariant old(Good()) ==> Good()
        decreases |used|
      {
        var victim := SelectGood(used, now);
        if victim.None? {
          return;
        }
        EvictUsed(victim.value);
        used := RemoveFrom(used, victim.value);
      }
    }

    /** trackAccess. */
    method TrackAccess(pid: Pid, page: nat)
      requires Wired()
      modifies this`recent, this`clusters
      ensures Wired()
      ensures Memory() == Track(old(Memory()), pid, page)
    {
      hide Lawful, MakeKey, Detect;
      if pid !in recent {
        return;
      }
      var accesses := recent[pid] + [page];
      if |accesses| > RECENT {
        accesses := accesses[1..];
      }
      Remember(pid, accesses);
      var n := |accesses|;
      if n >= 3 {
        DetectSequential(pid, accesses[n - 3..]);
      }
    }

    method Remember(pid: Pid, accesses: seq<nat>)
      requires Wired() && pid in recent
      modifies this`recent
      ensures Wired()
      ensures Memory() == old(Memory()).(recent := old(recent)[pid := accesses])
    {
      recent := recent[pid := accesses];
    }

    /** DetectSequential, for the three pages it is called with. */
    method DetectSequential(pid: Pid, pages: seq<nat>)
      requires Wired() && |pages| == 3
      modifies this`clusters
      ensures Wired()
      ensures Memory() == old(Memory()).(clusters := Detect(old(clusters), pid, pages))
    {
      var i := 1;
      while i < |pages| - 1
        invariant 1 <= i <= 2
        invariant i == 2 ==> pages[1] == (pages[0] + 1) % WORD && pages[2] == (pages[1] + 1) % WORD
      {
        if pages[i] != (pages[i - 1] + 1) % WORD || pages[i + 1] != (pages[i] + 1) % WORD {
          return;
        }
        i := i + 1;
      }
      clusters := clusters + {(pid, pages[0])};
    }

    method EnsureRecord(pid: Pid, v: nat)
      requires Wired() && pid in pageTables
      modifies this`pageTables
      ensures Wired() && Memory() == EnsurePage(old(Memory()), pid, v)
      ensures old(Good()) ==> Good()
    {
      ghost var m := Memory();
      if v !in pageTables[pid] {
        PutPage(pid, v, NewPage(v));
      }
      if old(Good()) {
        EnsurePageCoherent(m, pid, v);
        EnsuredInStep(tlb.entries, tlb.capacity, m, pid, v);
      }
      hide Coherent, InStep;
    }

    /** Load an absent page into a free frame, if there is one. */
    method LoadAhead(pid: Pid, v: nat, now: int) returns (ok: bool)
      requires Wired() && Memory().Has(pid, v) && !pageTables[pid][v].present
      modifies this`pageTables, this`multiLevel, this`policyState, this`metrics, frameTable.frames, tlb`entries
      ensures Wired()
      ensures var m := old(Memory());
              var free := PickFree(m, pid);
              && ok == free.Some? && Memory() == (if ok then PrefetchOne(policy, m, free.value, pid, v, now) else m)
              && if ok
                 then Learned(old(tlb.entries), tlb.entries, tlb.capacity, pid, m.tables[pid][v].id, free.value, now)
                 else tlb.entries == old(tlb.entries)
      ensures old(Good()) ==> Good()
    {
      hide Lawful, MakeKey, Coherent, InStep, Attach, PickFree;
      ghost var m := Memory();
      var free := AllocateFrameForPage(pageTables[pid][v].id, pid, now);
      if free.None? {
        return false;
      }
      MapLoaded(m, free.value, pid, v, now);
      CountPrefetch();
      return true;
    }

    method CountPrefetch()
      requires Wired()
      modifies this`metrics
      ensures Wired()
      ensures Memory() == old(Memory()).(metrics := old(metrics).(prefetched := old(metrics).prefetched + 1))
      ensures old(Good()) ==> Good()
    {
      ghost var m := Memory();
      metrics := metrics.(prefetched := metrics.prefetched + 1);
      hide Coherent;
      if old(Good()) {
        BookkeepingCoherent(m, Memory());
      }
    }

    /** One turn of the loop of tryPrefetch: nothing is done for a page already there. */
    method PrefetchPage(pid: Pid, v: nat, now: int) returns (present: bool, ok: bool)
      requires Wired() && pid in pageTables
      modifies this`pageTables, this`multiLevel, this`policyState, this`metrics, frameTable.frames, tlb`entries
      ensures Wired()
      ensures var m := EnsurePage(old(Memory()), pid, v);
              var free := PickFree(m, pid);
              && present == m.tables[pid][v].present
              && ok == (present || free.Some?)
              && Memory() == (if present || !ok then m else PrefetchOne(policy, m, free.value, pid, v, now))
              && if present || !ok then tlb.entries == old(tlb.entries)
                 else Learned(old(tlb.entries), tlb.entries, tlb.capacity, pid, m.tables[pid][v].id, free.value, now)
      ensures old(Good()) ==> Good()
    {
      hide Lawful, MakeKey, Good, EnsurePage, PrefetchOne, PickFree;
      EnsureRecord(pid, v);
      present := pageTables[pid][v].present;
      ok := true;
      if !present {
        ok := LoadAhead(pid, v, now);
      }
    }

    /** The loop of tryPrefetch: at most two absent pages, as long as frames are free. */
    method PrefetchPages(pid: Pid, pages: seq<nat>, now: int)
      requires Wired() && pid in pageTables
      modifies this`pageTables, this`multiLevel, this`policyState, this`metrics, frameTable.frames, tlb`entries
      ensures Wired()
      ensures Memory() == Prefetch(policy, old(Memory()), pid, pages, 0, now)
      ensures Prefetching(policy, old(Memory()), old(tlb.entries), tlb.entries, tlb.capacity, pid, pages, 0, now)
      ensures old(Good()) ==> Good()
    {
      hide Lawful, MakeKey, Good, EnsurePage, PrefetchOne, PickFree, Prefetch, Prefetching, Learned, Continues,
           SameProcesses, WellFiled;
      ghost var start, entries := Memory(), tlb.entries;
      PrefetchingStarts(policy, start, entries, pages, tlb.capacity, pid, now);
      var done, todo := 0, pages;
      while todo != [] && done < MAX_PREFETCH
        invariant Wired() && pid in pageTables
        invariant Prefetch(policy, Memory(), pid, todo, done, now) == Prefetch(policy, start, pid, pages, 0, now)
        invariant Continues(policy, start, entries, pages, Memory(), tlb.entries, todo, done, tlb.capacity, pid, now)
        invariant old(Good()) ==> Good()
        decreases |todo|
      {
        ghost var m, t := Memory(), tlb.entries;
        PrefetchUnfold(policy, m, pid, todo, done, now);
        var present, ok := PrefetchPage(pid, todo[0], now);
        if !ok {
          PrefetchingEnds(policy, start, entries, pages, m, t, todo, done, tlb.capacity, pid, now);
          return;
        }
        PrefetchingTurns(policy, start, entries, pages, m, t, Memory(), tlb.entries,
                         todo, done, tlb.capacity, pid, now);
        if !present {
          done := done + 1;
        }
        todo := todo[1..];
      }
      PrefetchUnfold(policy, Memory(), pid, todo, done, now);
      PrefetchingEnds(policy, start, entries, pages, Memory(), tlb.entries, todo, done, tlb.capacity, pid, now);
    }

    /** tryPrefetch. */
    method PrefetchCluster(pid: Pid, now: int)
      requires Wired() && pid in pageTables
      modifies this`pageTables, this`multiLevel, this`policyState, this`metrics, frameTable.frames, tlb`entries
      ensures Wired()
      ensures Memory() == TryPrefetch(policy, old(Memory()), pid, now)
      ensures TryPrefetching(policy, old(Memory()), old(tlb.entries), tlb.entries, tlb.capacity, pid, now)
      ensures old(Good()) ==> Good()
    {
      hide Lawful, MakeKey, Good, Prefetch;
      var pages := recent[pid];
      if |pages| < 3 {
        return;
      }
      var anchor := pages[|pages| - 3];
      if (pid, anchor) !in clusters {
        return;
      }
      PrefetchPages(pid, Candidates(anchor), now);
    }

    // ---- The operations ----

    /** updateWorkingSet: the last ten accesses and how many different pages they touch. */
    method UpdateWorkingSet(pid: Pid, page: nat)
      requires Wired()
      modifies this`workingSets, this`workingSetSizes
      ensures Wired() && Memory() == old(Memory()) && (old(Good()) ==> Good())
      ensures pid !in old(workingSets) ==> workingSets == old(workingSets) && workingSetSizes == old(workingSetSizes)
      ensures pid in old(workingSets) ==>
                && workingSets == old(workingSets)[pid := Window(old(workingSets)[pid] + [page])]
                && workingSetSizes == old(workingSetSizes)[pid := |Elements(workingSets[pid])|]
    {
      if pid in workingSets {
        workingSets := workingSets[pid := Window(workingSets[pid] + [page])];
        var unique := CountUnique(workingSets[pid]);
        workingSetSizes := workingSetSizes[pid := unique];
      }
    }

    /** The bookkeeping of a hit in frame i. */
    method Touch(i: nat, write: bool, now: int)
      requires Wired() && i < frameTable.frames.Length
      modifies this`policyState, this`metrics, frameTable.frames
      ensures Wired()
      ensures Memory() == FastHit(policy, old(Memory()), i, write, now)
      ensures old(Good()) ==> Good()
    {
      ghost var m := Memory();
      var (state, f) := policy.onAccess(policyState, i, frameTable.frames[i], write, now);
      policyState := state;
      frameTable.frames[i] := f;
      metrics := metrics.(hits := metrics.hits + 1, accesses := metrics.accesses + 1);
      assert frameTable.frames[..] == m.frames[i := f];
      assert Memory() == FastHit(policy, m, i, write, now);
      hide FastHit, Coherent, Lawful, MakeKey;
      if old(Good()) {
        FastHitCoherent(policy, m, i, write, now);
        SameTablesInStep(tlb.entries, tlb.capacity, m, Memory());
      }
    }

    /** Look the page up in the TLB; a TLB that agrees gives the page's own frame. */
    method LookUp(pid: Pid, v: nat, now: int) returns (frame: Option<int>)
      requires Wired()
      modifies tlb
      ensures Wired() && Memory() == old(Memory())
      ensures var key := MakeKey(pid, v);
              frame == if key in old(tlb.entries) && old(tlb.entries)[key].valid then Some(old(tlb.entries)[key].frame)
                       else None
      ensures tlb.entries == LookedUp(old(tlb.entries), pid, v, now)
      ensures frame.None? ==> tlb.entries == old(tlb.entries)
      ensures old(Good()) ==>
                Good() && (frame.Some? ==> Memory().Resident(pid, v) && Memory().Maps(pid, v, frame.value))
    {
      hide Lawful, MakeKey, SameProcesses, WellFiled, Coherent, InStep;
      ghost var m, entries := Memory(), tlb.entries;
      frame := tlb.Lookup(pid, v, now);
      if old(Good()) {
        LookedUpInStep(entries, tlb.capacity, m, pid, v, now);
        if frame.Some? {
          CachedIsMapped(entries, tlb.capacity, m, pid, v);
          MappedIsResident(m, pid, v);
        }
      }
    }

    /** AccessMemory's read-locked section, for a read. */
    method TryFastPath(pid: Pid, v: nat, now: int) returns (hit: bool)
      requires Wired()
      modifies this`policyState, this`metrics, frameTable.frames, tlb
      ensures Wired()
      ensures hit == Cached(old(tlb.entries), old(Memory()), pid, v)
      ensures var m := old(Memory());
              Memory() == if hit then FastHit(policy, m, old(tlb.entries)[MakeKey(pid, v)].frame, false, now) else m
      ensures tlb.entries == LookedUp(old(tlb.entries), pid, v, now)
      ensures old(Good()) ==> Good()
      ensures old(Good()) && hit ==>
                && old(Memory()).Resident(pid, v)
                && Memory() == FastHit(policy, old(Memory()), old(Memory()).tables[pid][v].frame, false, now)
      ensures old(Good()) && !hit ==> tlb.entries == old(tlb.entries)
    {
      hide Lawful, MakeKey, FastHit, SameProcesses, WellFiled, Good;
      var frame := LookUp(pid, v, now);
      if frame.None? || frame.value < 0 || frame.value >= frameTable.frames.Length {
        return false;
      }
      Touch(frame.value, false, now);
      return true;
    }

    /** Track the access if clustering is on, and find or make the page's record. */
    method FindRecord(pid: Pid, v: nat, ghost m: Mem<S>)
      requires Wired() && pid in pageTables && m == Memory()
      modifies this`recent, this`clusters, this`pageTables
      ensures Wired() && Memory() == Prepared(m, pid, v)
      ensures var page := pageTables[pid][v];
              old(Good()) ==> Good() && (page.present ==> 0 <= page.frame < frameTable.frames.Length)
    {
      hide Lawful, MakeKey, Coherent, InStep, EnsurePage, Track;
      if clusteringEnabled {
        TrackAccess(pid, v);
      }
      EnsureRecord(pid, v);
      if old(Good()) {
        PreparedCoherent(m, pid, v);
        PreparedInStep(tlb.entries, tlb.capacity, m, pid, v);
      }
    }

    /** A hit: the page is resident in the given frame. */
    method Hit(frame: nat, pid: Pid, v: nat, write: bool, now: int) returns (ok: bool)
      requires Wired() && frame < frameTable.frames.Length && Memory().Maps(pid, v, frame)
      modifies this`pageTables, this`multiLevel, this`policyState, this`metrics, frameTable.frames, tlb`entries,
               compression, cow, cow.refCounter
      ensures Wired() && cow.refCounter == old(cow.refCounter)
      ensures Outcome(ok, Memory())
              == SettleWrite(policy, FastHit(policy, old(Memory()), frame, write, now), pid, v, write, now)
      ensures Hitting(policy, old(Memory()), old(tlb.entries), tlb.entries, tlb.capacity, pid, v, write, now)
      ensures old(Good()) ==> Good() && ok
    {
      hide Lawful, MakeKey, Coherent, Learned, SettleWrite;
      Touch(frame, write, now);
      Cache(pid, v, frame, now);
      ok := SettleSharedWrite(pid, v, write, now);
    }

    /** Remember a mapping in the TLB. */
    method Cache(pid: Pid, v: nat, frame: nat, now: int)
      requires Wired() && Memory().Maps(pid, v, frame)
      modifies tlb`entries
      ensures Wired() && Memory() == old(Memory())
      ensures Learned(old(tlb.entries), tlb.entries, tlb.capacity, pid, v, frame, now)
      ensures old(Good()) ==> Good()
    {
      ghost var entries, m := tlb.entries, Memory();
      CacheLoaded(pid, v, frame, now);
      hide Lawful, MakeKey, Coherent, Learned, InStep;
      if old(Good()) {
        LearnedInStep(entries, tlb.entries, tlb.capacity, m, m, pid, v, frame, now);
      }
    }

    method CountPageFault()
      requires Wired()
      modifies this`metrics
      ensures Wired() && Memory() == CountFault(old(Memory()))
      ensures old(Good()) ==> Good()
    {
      hide Coherent, Lawful, MakeKey, InStep;
      ghost var m := Memory();
      metrics := metrics.(faults := metrics.faults + 1, accesses := metrics.accesses + 1);
      if old(Good()) {
        BookkeepingCoherent(m, Memory());
        SameTablesInStep(tlb.entries, tlb.capacity, m, Memory());
      }
    }

    /** What follows a page fault: the count, PFF's resident-set target, the prefetch. */
    method AfterFault(pid: Pid, now: int)
      requires Wired()
      modifies this`pageTables, this`multiLevel, this`policyState, this`metrics, frameTable.frames, tlb`entries,
               compression
      ensures Wired()
      ensures var m := EnforceTarget(policy, CountFault(old(Memory())), now);
              Memory() == if m.clustering && pid in m.tables then TryPrefetch(policy, m, pid, now) else m
      ensures Following(policy, old(Memory()), old(tlb.entries), tlb.entries, tlb.capacity, pid, now)
      ensures old(Good()) ==> Good()
    {
      hide Lawful, MakeKey, Good, TryPrefetch, Enforce;
      CountPageFault();
      var target := policy.target(policyState);
      if target.Some? {
        EnforceResident(target.value, now);
      }
      if clusteringEnabled && pid in pageTables {
        PrefetchCluster(pid, now);
      }
    }

    /** AccessMemory's write-locked section: what remains when the fast path was not taken. */
    method AccessSlow(pid: Pid, v: nat, write: bool, now: int) returns (ok: bool)
      requires Wired() && pid in pageTables
      modifies this`workingSets, this`workingSetSizes, this`recent, this`clusters,
               this`pageTables, this`multiLevel, this`policyState, this`metrics, frameTable.frames, tlb`entries,
               compression, cow, cow.refCounter
      ensures Wired() && cow.refCounter == old(cow.refCounter)
      ensures Outcome(ok, Memory()) == Access(policy, old(Memory()), pid, v, write, now)
      ensures Accessing(policy, old(Memory()), old(tlb.entries), tlb.entries, tlb.capacity, pid, v, write, now)
      ensures old(Good()) ==> Good() && (!ok ==> tlb.entries == old(tlb.entries))
    {
      hide Lawful, MakeKey, Good, Fault, FastHit, SettleWrite, Prepared, EnforceTarget, TryPrefetch, Hitting, Missing,
           WellFiled;
      ghost var m := Memory();
      UpdateWorkingSet(pid, v);
      FindRecord(pid, v, m);
      var page := pageTables[pid][v];
      if page.present && 0 <= page.frame < frameTable.frames.Length {
        ok := Hit(page.frame, pid, v, write, now);
        return;
      }
      ok := Resolve(pid, v, write, now);
    }

    /** The miss part of AccessMemory. */
    method Resolve(pid: Pid, v: nat, write: bool, now: int) returns (ok: bool)
      requires Wired() && Memory().Has(pid, v)
      modifies this`pageTables, this`multiLevel, this`policyState, this`metrics, frameTable.frames, tlb`entries,
               compression, cow, cow.refCounter
      ensures Wired() && cow.refCounter == old(cow.refCounter)
      ensures Outcome(ok, Memory()) == MissOutcome(policy, old(Memory()), pid, v, write, now)
      ensures Missing(policy, old(Memory()), old(tlb.entries), tlb.entries, tlb.capacity, pid, v, write, now)
      ensures old(Good() && !pageTables[pid][v].present) ==> Good() && (!ok ==> tlb.entries == old(tlb.entries))
    {
      hide Lawful, MakeKey, Good, Fault, EnforceTarget, TryPrefetch, Faulting, Following, SameProcesses, WellFiled;
      ok := HandlePageFault(pid, v, write, now);
      if ok {
        AfterFault(pid, now);
      }
    }

    /** AccessMemory: the step of a manager with this TLB. With clustering off and no fork or huge page so
        far it is what the write-locked section alone would have done. */
    method AccessMemory(pid: Pid, v: nat, write: bool, now: int) returns (ok: bool)
      requires Wired()
      modifies this`workingSets, this`workingSetSizes, this`recent, this`clusters,
               this`pageTables, this`multiLevel, this`policyState, this`metrics, frameTable.frames, tlb,
               compression, cow, cow.refCounter
      ensures Wired() && cow.refCounter == old(cow.refCounter)
      ensures pid !in old(pageTables) ==> !ok && Memory() == old(Memory()) && tlb.entries == old(tlb.entries)
      ensures Memory() == CachedStep(policy, old(Memory()), old(tlb.entries), Runs.Touch(pid, v, write), now)
      ensures TlbStep(policy, old(Memory()), old(tlb.entries), tlb.entries, tlb.capacity,
                      Runs.Touch(pid, v, write), now)
      ensures ok == (pid in old(pageTables)
                     && ((!write && Cached(old(tlb.entries), old(Memory()), pid, v))
                         || Access(policy, old(Memory()), pid, v, write, now).ok))
      ensures old(Good()) ==> Good() && (!ok ==> tlb.entries == old(tlb.entries))
      ensures old(Good() && !clusteringEnabled) ==>
                Outcome(ok, Memory()) == Access(policy, old(Memory()), pid, v, write, now)
    {
      hide Lawful, MakeKey, Good, FastHit, Access, Cached, Accessing, LookedUp;
      ghost var m := Memory();
      if pid !in processes {
        UnknownProcess(policy, m, pid, v, write, now);
        return false;
      }
      if !write {
        var hit := TryFastPath(pid, v, now);
        if hit {
          if old(Good() && !clusteringEnabled) {
            GoodIsCoherent();
            FastPathIsSlowPath(policy, m, pid, v, now);
          }
          return true;
        }
      }
      ok := AccessSlow(pid, v, write, now);
    }

    twostate lemma GoodIsCoherent()
      requires old(Good())
      ensures old(Coherent(Memory()))
    {
    }

    /** Every per-process map at once. */
    method PutProcesses(ps: set<Pid>, tables: map<Pid, PageTable>, mpt: map<Pid, TwoLayer>,
                        accesses: map<Pid, seq<nat>>,
                        hugeMaps: map<Pid, map<nat, int>>, windows: map<Pid, seq<nat>>)
      modifies this`processes, this`pageTables, this`multiLevel, this`recent, this`huge, this`workingSets
      ensures processes == ps && pageTables == tables && multiLevel == mpt && recent == accesses && huge == hugeMaps
      ensures workingSets == windows
    {
      processes, pageTables, multiLevel, recent, huge, workingSets := ps, tables, mpt, accesses, hugeMaps, windows;
    }

    /** CreateProcess. */
    method CreateProcess(pid: Pid) returns (ok: bool)
      requires Wired()
      modifies this`processes, this`pageTables, this`multiLevel, this`recent, this`huge, this`workingSets
      ensures Wired()
      ensures Outcome(ok, Memory()) == Create(old(Memory()), pid)
      ensures old(Good()) ==> Good()
    {
      ghost var m := Memory();
      hide Lawful, MakeKey, Coherent, InStep;
      if pid in processes {
        return false;
      }
      AddProcess(pid);
      if old(Good()) {
        CreateCoherent(m, pid);
        CreateInStep(tlb.entries, tlb.capacity, m, pid);
      }
      return true;
    }

    method AddProcess(pid: Pid)
      requires Wired() && pid !in pageTables
      modifies this`processes, this`pageTables, this`multiLevel, this`recent, this`huge, this`workingSets
      ensures Wired() && Memory() == Create(old(Memory()), pid).mem
    {
      hide Lawful, MakeKey, SameProcesses;
      ProcessAdded(processes, pageTables, multiLevel, recent, huge, pid, map[]);
      PutProcesses(processes + {pid}, pageTables[pid := map[]], multiLevel[pid := EMPTY], recent[pid := []],
                   huge[pid := map[]], workingSets[pid := []]);
    }

    /** One page of a process that is going away: its frame is released, its sharing ends. */
    method LeavePage(pid: Pid, page: Page)
      requires Wired()
      modifies frameTable.frames, cow, cow.refCounter
      ensures Wired() && cow.refCounter == old(cow.refCounter)
      ensures frameTable.frames[..] == ReleasedIf(old(frameTable.frames[..]), page)
      ensures var c := old(cow.State());
              cow.State() == if page.shared then CowState.DropSharer(c, page.id, pid) else c
    {
      if page.present && page.frame >= 0 {
        var _ := frameTable.ReleaseFrame(page.frame);
      }
      if page.shared {
        cow.UnsharePage(page.id, pid);
      }
    }

    /** RemoveProcess's loop over the table's pages, in any order, and the rest of the sharing. */
    method LeavePages(pid: Pid)
      requires Wired() && pid in pageTables
      modifies frameTable.frames, cow, cow.refCounter
      ensures Wired() && cow.refCounter == old(cow.refCounter)
      ensures frameTable.frames[..] == FramesReleased(old(frameTable.frames[..]), pageTables[pid])
      ensures cow.State() == CowState.DropEverywhere(old(cow.State()), old(cow.sharedPages).Keys, pid)
    {
      var table := pageTables[pid];
      ghost var ids := cow.sharedPages.Keys;
      var todo := table.Keys;
      while todo != {}
        invariant todo <= table.Keys && Wired() && cow.refCounter == old(cow.refCounter)
        invariant ReleasedSoFar(old(frameTable.frames[..]), frameTable.frames[..], table, table.Keys - todo)
        invariant cow.sharedPages.Keys <= ids
        invariant CowState.DropEverywhere(cow.State(), ids, pid) == CowState.DropEverywhere(old(cow.State()), ids, pid)
        decreases todo
      {
        var v :| v in todo;
        ReleaseOneMore(old(frameTable.frames[..]), frameTable.frames[..], table, table.Keys - todo, v);
        CowState.DropEverywhereAbsorbs(cow.State(), ids, pid, table[v].id);
        LeavePage(pid, table[v]);
        assert table.Keys - (todo - {v}) == table.Keys - todo + {v};
        todo := todo - {v};
      }
      hide CowState.DropEverywhere, Lawful, MakeKey;
      assert table.Keys - {} == table.Keys;
      AllReleased(old(frameTable.frames[..]), frameTable.frames[..], table);
      CowState.DropEverywhereOverAll(cow.State(), ids, pid);
      cow.RemoveProcess(pid);
    }

    /** RemoveProcess. */
    method RemoveProcess(pid: Pid) returns (ok: bool)
      requires Wired()
      modifies this`processes, this`pageTables, this`multiLevel, this`recent, this`huge, this`workingSets,
               this`clusters,
               frameTable.frames, tlb`entries, cow, cow.refCounter
      ensures Wired() && cow.refCounter == old(cow.refCounter)
      ensures Outcome(ok, Memory()) == Remove(old(Memory()), pid)
      ensures tlb.entries == if ok then WithoutProcess(old(tlb.entries), pid) else old(tlb.entries)
      ensures old(Good()) ==> Good()
    {
      ghost var m, entries := Memory(), tlb.entries;
      hide Lawful, MakeKey, Coherent, InStep, Remove;
      if pid !in pageTables {
        NothingToRemove(m, pid);
        return false;
      }
      DropProcess(pid);
      if old(Good()) {
        RemoveCoherent(m, pid);
        RemoveInStep(entries, tlb.capacity, m, pid);
      }
      return true;
    }

    method DropProcess(pid: Pid)
      requires Wired() && pid in pageTables
      modifies this`processes, this`pageTables, this`multiLevel, this`recent, this`huge, this`workingSets,
               this`clusters,
               frameTable.frames, tlb`entries, cow, cow.refCounter
      ensures Wired() && cow.refCounter == old(cow.refCounter)
      ensures Outcome(true, Memory()) == Remove(old(Memory()), pid)
      ensures tlb.entries == WithoutProcess(old(tlb.entries), pid)
    {
      hide Lawful, MakeKey, SameProcesses, HoldsFrame, CowState.DropEverywhere;
      LeavePages(pid);
      tlb.InvalidateProcess(pid);
      ForgetProcess(pid);
    }

    /** ClearClusters: every cluster of the process, or of all processes for the empty name. */
    method ClearClusters(pid: Pid)
      modifies this`clusters
      ensures clusters == if pid == "" then {} else (set c | c in old(clusters) && c.0 != pid)
    {
      clusters := if pid == "" then {} else (set c | c in clusters && c.0 != pid);
    }

    method ForgetProcess(pid: Pid)
      requires Wired()
      modifies this`processes, this`pageTables, this`multiLevel, this`recent, this`huge, this`workingSets, this`clusters
      ensures Wired()
      ensures var m := old(Memory());
              Memory() == m.(clusters := if pid == "" then {} else (set c | c in m.clusters && c.0 != pid),
                             tables := m.tables - {pid}, mpt := m.mpt - {pid},
                             recent := m.recent - {pid}, huge := m.huge - {pid})
    {
      hide Lawful, MakeKey, SameProcesses;
      ProcessDropped(processes, pageTables, multiLevel, recent, huge, pid);
      ClearClusters(pid);
      PutProcesses(processes - {pid}, pageTables - {pid}, multiLevel - {pid}, recent - {pid}, huge - {pid},
                   workingSets - {pid});
    }

    /** ForkProcess. */
    method ForkProcess(parent: Pid, child: Pid) returns (ok: bool)
      requires Wired()
      modifies this`processes, this`pageTables, this`multiLevel, this`recent, this`huge, this`workingSets,
               cow, cow.refCounter
      ensures Wired() && cow.refCounter == old(cow.refCounter)
      ensures Outcome(ok, Memory()) == Fork(old(Memory()), parent, child)
    {
      if parent !in pageTables {
        return false;
      }
      var table := pageTables[parent];
      ForkTables(parent, child);
      cow.ForkProcess(parent, child, PresentIds(table));
      return true;
    }

    method ForkTables(parent: Pid, child: Pid)
      requires Wired() && parent in pageTables
      modifies this`processes, this`pageTables, this`multiLevel, this`recent, this`huge, this`workingSets
      ensures Wired()
      ensures var m := old(Memory());
              var table := m.tables[parent];
              Memory() == m.(tables := m.tables[parent := SharePresent(table)][child := Clone(table)],
                             mpt := m.mpt[child := EMPTY], recent := m.recent[child := []],
                             huge := m.huge[child := map[]])
    {
      hide Lawful, MakeKey, Clone, SharePresent, SameProcesses;
      var table := pageTables[parent];
      ProcessForked(processes, pageTables, multiLevel, recent, huge, parent, SharePresent(table), child, Clone(table));
      PutProcesses(processes + {child}, pageTables[parent := SharePresent(table)][child := Clone(table)],
                   multiLevel[child := EMPTY], recent[child := []], huge[child := map[]], workingSets[child := []]);
    }

    /** MapHugePage. */
    method MapHugePage(pid: Pid, index: nat, now: int) returns (ok: bool)
      requires Wired()
      modifies this`pageTables, this`multiLevel, this`huge, this`policyState, this`metrics, frameTable.frames,
               tlb`entries, compression
      ensures Wired()
      ensures Outcome(ok, Memory()) == MapHuge(policy, old(Memory()), pid, index, now)
      ensures tlb.entries == if index < HUGE_INDEX_LIMIT && pid in old(pageTables)
                             then AfterSlot(policy, old(Memory()), old(tlb.entries), PickFree(old(Memory()), pid), now)
                             else old(tlb.entries)
    {
      hide Lawful, MakeKey, FreeSlot, HugeMapped, AfterSlot, PickFree;
      if index >= HUGE_INDEX_LIMIT || pid !in pageTables {
        return false;
      }
      var slot := FrameForHuge(HUGE_PAGE_BASE + index, pid, now);
      if slot.None? {
        return false;
      }
      MapHugeFrame(slot.value, pid, index, now);
      return true;
    }

    method MapHugeFrame(i: nat, pid: Pid, index: nat, now: int)
      requires Wired() && i < frameTable.frames.Length
      modifies this`multiLevel, this`huge, this`policyState, this`metrics, frameTable.frames
      ensures Wired()
      ensures Memory() == HugeMapped(policy, old(Memory()), i, pid, index, now)
    {
      hide Lawful, MakeKey, PutHuge, TwoLayer.Set;
      SetMultiLevel(pid, index * L2_SPAN, i, true);
      RecordHuge(pid, index, i);
      NotifyFault(i, now);
      CountPageFault();
    }

    method RecordHuge(pid: Pid, index: nat, frame: nat)
      requires Wired()
      modifies this`huge
      ensures Wired()
      ensures var m := old(Memory());
              Memory() == m.(huge := if pid in m.huge then PutHuge(m.huge, pid, index, frame) else m.huge)
    {
      if pid in huge {
        huge := PutHuge(huge, pid, index, frame);
      }
    }

    method FrameForHuge(pageId: nat, pid: Pid, now: int) returns (slot: Option<nat>)
      requires Wired()
      modifies this`pageTables, this`multiLevel, this`policyState, this`metrics, frameTable.frames, tlb`entries,
               compression
      ensures Wired()
      ensures var m := old(Memory());
              var (m1, s) := FreeSlot(policy, m, PickFree(m, pid), now);
              && slot == s
              && Memory() == if s.Some?
                             then m1.(frames := m1.frames[s.value := m1.frames[s.value].Allocate(pageId, pid, now)])
                             else m1
      ensures var m := old(Memory()); tlb.entries == AfterSlot(policy, m, old(tlb.entries), PickFree(m, pid), now)
    {
      hide Lawful, MakeKey, Coherent, InStep, FreeSlot, PickFree;
      ghost var m := Memory();
      slot := AllocateFrameForPage(pageId, pid, now);
      if slot.Some? {
        FreeSlotFound(policy, m, slot, now);
      } else {
        slot := EvictForFrame(now);
        if slot.Some? {
          Reassign(slot.value, pageId, pid, now);
        }
      }
    }

    /** Reset: everything is forgotten but the settings, the pins, the numbering of copies and what the policy's
        own Reset keeps. */
    method Reset()
      requires Wired()
      modifies this`processes, this`pageTables, this`multiLevel, this`recent, this`huge, this`workingSets,
               this`clusters,
               this`policyState, this`metrics, frameTable.frames, tlb, cow, compression
      ensures Wired() && tlb.entries == map[]
      ensures Memory() == MemoryModel.Reset(old(Memory()), policy.reset(old(policyState)))
      ensures Good()
    {
      hide Lawful, MakeKey, SameProcesses;
      ResetParts();
      ResetMaps();
      AllEmpty();
      assert Good();
    }

    method ResetParts()
      requires tlb.Valid()
      modifies frameTable.frames, tlb, cow, compression
      ensures tlb.Valid() && tlb.entries == map[]
      ensures frameTable.frames[..] == MemoryModel.Reset(old(Memory()), policy.reset(old(policyState))).frames
      ensures cow.State() == MemoryModel.Reset(old(Memory()), policy.reset(old(policyState))).cow
      ensures fresh(cow.refCounter)
      ensures compression.State() == EMPTY_STORE
    {
      hide MakeKey;
      frameTable.Clear();
      tlb.Clear();
      cow.Reset();
      compression.Reset();
    }

    method ResetMaps()
      modifies this`processes, this`pageTables, this`multiLevel, this`recent, this`huge, this`workingSets,
               this`clusters,
               this`policyState, this`metrics
      ensures processes == {} && pageTables == map[] && multiLevel == map[] && recent == map[] && huge == map[]
      ensures workingSets == map[] && clusters == {} && metrics == NO_METRICS
      ensures policyState == policy.reset(old(policyState))
    {
      PutProcesses({}, map[], map[], map[], map[], map[]);
      ClearClusters("");
      metrics := NO_METRICS;
      policyState := policy.reset(policyState);
    }
  }

  lemma AllEmpty()
    ensures SameProcesses({}, map[], map[], map[], map[])
  {
  }
}
