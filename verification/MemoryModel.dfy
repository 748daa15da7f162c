/** What each operation of the memory manager (internal/memory/manager.go) does to everything but
    the TLB, for any replacement policy. Each operation happens at one instant `now`. */
module MemoryModel {
  import opened Prelude
  import opened Frames
  import opened TwoLayerMap
  import CowState
  import Compression

  // ---- Replacement policies as the manager sees them ----

  datatype Selection<+S> = Selection(victim: Option<nat>, state: S, frames: seq<Frame>)

  /** A policy: its victim choice among the listed frames of the table, and its reactions to an
      access, a load and an eviction of one frame. `target` is PFF's resident-set target, and `reset` what
      the policy's own Reset leaves of its state. */
  datatype Policy<!S> = Policy(
    select: (S, seq<Frame>, seq<nat>, int) -> Selection<S>,
    onAccess: (S, nat, Frame, bool, int) -> (S, Frame),
    onFault: (S, nat, Frame, int) -> (S, Frame),
    onEvict: (S, nat, Frame) -> (S, Frame),
    target: S -> Option<int>,
    reset: S -> S)

  ghost predicate LawfulSelection<S>(frames: seq<Frame>, ids: seq<nat>, r: Selection<S>)
    requires InRange(frames, ids)
  {
    && SameOwners(r.frames, frames)
    && match r.victim
       case Some(v) => v in ids && frames[v].Evictable()
       case None => forall i :: i in ids ==> !frames[i].Evictable()
  }

  /** The shared victim contract, and that a policy never retags, frees or pins a frame. */
  ghost predicate Lawful<S(!new)>(p: Policy<S>) {
    && (forall s, fs, ids, now :: FrameList(fs, ids) ==> LawfulSelection(fs, ids, p.select(s, fs, ids, now)))
    && (forall s, i, f, w, now :: p.onAccess(s, i, f, w, now).1.SameOwner(f))
    && (forall s, i, f, now :: p.onFault(s, i, f, now).1.SameOwner(f))
    && (forall s, i, f :: p.onEvict(s, i, f).1.SameOwner(f))
  }

  // ---- State ----

  datatype Page = Page(id: nat, frame: int, present: bool, shared: bool, readOnly: bool, original: nat)
  {
    function SetFrame(f: int): Page {
      this.(frame := f, present := f >= 0)
    }

    function MakeShared(): Page {
      this.(shared := true, readOnly := true)
    }

    function MakePrivate(): Page {
      this.(shared := false, readOnly := false)
    }
  }

  function NewPage(v: nat): Page {
    Page(v, -1, false, false, false, 0)
  }

  type PageTable = map<nat, Page>

  datatype Metrics = Metrics(
    faults: int, hits: int, accesses: int, evictions: int, dirtyEvictions: int, cowCopies: int,
    prefetched: int)

  const NO_METRICS := Metrics(0, 0, 0, 0, 0, 0, 0)

  datatype Mem<S> = Mem(
    frames: seq<Frame>,
    tables: map<Pid, PageTable>,
    mpt: map<Pid, TwoLayer>,
    policy: S,
    cow: CowState.Cow,
    store: Compression.Store,
    recent: map<Pid, seq<nat>>,
    clusters: set<(Pid, nat)>,
    huge: map<Pid, map<nat, int>>,
    metrics: Metrics,
    numa: bool, compression: bool, clustering: bool)
  {
    predicate Has(pid: Pid, v: nat) {
      pid in tables && v in tables[pid]
    }

    /** Page v of pid is resident in frame i. */
    predicate Maps(pid: Pid, v: nat, i: int) {
      Has(pid, v) && tables[pid][v].present && tables[pid][v].frame == i
    }

    predicate Resident(pid: Pid, v: nat) {
      Has(pid, v) && tables[pid][v].present && 0 <= tables[pid][v].frame < |frames|
    }

    function PutPage(pid: Pid, v: nat, page: Page): Mem<S>
      requires pid in tables
    {
      var table: PageTable := tables[pid][v := page];
      this.(tables := tables[pid := table])
    }
  }

  datatype Outcome<S> = Outcome(ok: bool, mem: Mem<S>)

  // ---- Frames ----

  function FirstFree(fs: seq<Frame>, lo: nat, hi: nat): (r: Option<nat>)
    requires lo <= hi <= |fs|
    ensures match r
            case Some(i) => lo <= i < hi && fs[i].free && forall j :: lo <= j < i ==> !fs[j].free
            case None => forall j :: lo <= j < hi ==> !fs[j].free
    decreases hi - lo
  {
    if lo == hi then None
    else if fs[lo].free then Some(lo)
    else FirstFree(fs, lo + 1, hi)
  }

  function HashString(s: string): nat {
    if s == [] then 0
    else (HashString(s[..|s| - 1]) * 31 + s[|s| - 1] as int) % WORD
  }

  /** The NUMA node range of a process: the lower or the upper half of the table. */
  function NodeRange(pid: Pid, n: nat): (nat, nat) {
    if HashString(pid) % 2 == 0 then (0, n / 2) else (n / 2, n)
  }

  /** allocateFrameForPage: the process's node first when NUMA is on, then the whole table. */
  function PickFree<S>(m: Mem<S>, pid: Pid): (r: Option<nat>)
    ensures match r
            case Some(i) => i < |m.frames| && m.frames[i].free
            case None => forall j :: 0 <= j < |m.frames| ==> !m.frames[j].free
  {
    var n := |m.frames|;
    var local := if m.numa then FirstFree(m.frames, NodeRange(pid, n).0, NodeRange(pid, n).1) else None;
    if local.Some? then local else FirstFree(m.frames, 0, n)
  }

  /** GetUsedFrames. */
  function Used(fs: seq<Frame>): (ids: seq<nat>)
    ensures FrameList(fs, ids)
    ensures forall i :: i in ids <==> 0 <= i < |fs| && !fs[i].free
  {
    UsedUpTo(fs, |fs|)
  }

  function UsedUpTo(fs: seq<Frame>, n: nat): (ids: seq<nat>)
    requires n <= |fs|
    ensures |ids| <= n
    ensures forall k :: 0 <= k < |ids| ==> ids[k] < n
    ensures Different(ids)
    ensures forall i :: i in ids <==> 0 <= i < n && !fs[i].free
  {
    if n == 0 then []
    else UsedUpTo(fs, n - 1) + (if fs[n - 1].free then [] else [n - 1])
  }

  function Without(ids: seq<nat>, i: nat): (r: seq<nat>)
    ensures |r| == if i in ids then |ids| - 1 else |ids|
    ensures forall k :: 0 <= k < |r| ==> r[k] in ids
    ensures forall k :: k in ids && k != i ==> k in r
    ensures Different(ids) ==> Different(r)
  {
    if ids == [] then []
    else if ids[0] == i then ids[1..]
    else [ids[0]] + Without(ids[1..], i)
  }

  // ---- Pieces of a page fault ----

  function Choose<S(!new)>(pol: Policy<S>, m: Mem<S>, ids: seq<nat>, now: int): (r: (Mem<S>, Option<nat>))
    requires Lawful(pol) && FrameList(m.frames, ids)
    ensures SameOwners(r.0.frames, m.frames)
    ensures r.0 == m.(frames := r.0.frames, policy := r.0.policy)
    ensures match r.1
            case Some(v) => v in ids && v < |m.frames| && m.frames[v].Evictable()
            case None => forall i :: i in ids ==> !m.frames[i].Evictable()
  {
    var r := pol.select(m.policy, m.frames, ids, now);
    (m.(policy := r.state, frames := r.frames), r.victim)
  }

  function DropMapping<S>(m: Mem<S>, pid: Pid, v: nat): Mem<S> {
    if m.Has(pid, v) && m.tables[pid][v].present then m.PutPage(pid, v, m.tables[pid][v].SetFrame(-1)) else m
  }

  function ForgetTranslation<S>(m: Mem<S>, pid: Pid, v: nat): Mem<S> {
    m.(mpt := if pid in m.mpt then m.mpt[pid := m.mpt[pid].Invalidate(v * L1_SPAN % WORD)] else m.mpt)
  }

  /** The policy hears of the eviction, it is counted, the frame is freed. */
  function Retire<S>(pol: Policy<S>, m: Mem<S>, i: nat): (r: Mem<S>)
    requires i < |m.frames|
  {
    var (s, g) := pol.onEvict(m.policy, i, m.frames[i]);
    m.(policy := s, frames := m.frames[i := g.Release()],
       metrics := m.metrics.(evictions := m.metrics.evictions + 1,
                             dirtyEvictions := m.metrics.dirtyEvictions + (if g.modified then 1 else 0)))
  }

  /** A dirty page is compressed on its way out. */
  function CompressDirty<S>(m: Mem<S>, f: Frame): Mem<S> {
    if m.compression && f.modified
    then m.(store := Compression.Compress(m.store, Compression.MIN_RATIO, f.pageId, Compression.PAGE_BYTES))
    else m
  }

  /** evictPage. */
  function Evict<S>(pol: Policy<S>, m: Mem<S>, i: nat): (r: Mem<S>)
    requires i < |m.frames|
    ensures |r.frames| == |m.frames|
    ensures r.clustering == m.clustering
  {
    var f := m.frames[i];
    Retire(pol, ForgetTranslation(DropMapping(CompressDirty(m, f), f.processId, f.pageId), f.processId, f.pageId), i)
  }

  lemma DropMappingTables<S>(m: Mem<S>, pid: Pid, v: nat)
    ensures var r := DropMapping(m, pid, v);
            && r.tables.Keys == m.tables.Keys
            && (forall p, u :: r.Has(p, u) <==> m.Has(p, u))
            && (forall p, u :: m.Has(p, u) && (p != pid || u != v) ==> r.tables[p][u] == m.tables[p][u])
            && (m.Has(pid, v) && m.tables[pid][v].present ==> r.tables[pid][v] == m.tables[pid][v].SetFrame(-1))
  {
  }

  /** The fields an eviction touches, and how. */
  lemma EvictIs<S>(pol: Policy<S>, m: Mem<S>, i: nat)
    requires i < |m.frames|
    ensures var r, f := Evict(pol, m, i), m.frames[i];
            && r == m.(frames := r.frames, policy := r.policy, store := r.store, metrics := r.metrics,
                       tables := DropMapping(m, f.processId, f.pageId).tables,
                       mpt := ForgetTranslation(m, f.processId, f.pageId).mpt)
            && r.frames == m.frames[i := r.frames[i]] && r.frames[i].free
            && (r.frames[i].pinned == pol.onEvict(m.policy, i, f).1.pinned)
            && r.metrics == m.metrics.(evictions := m.metrics.evictions + 1, dirtyEvictions := r.metrics.dirtyEvictions)
  {
    var f := m.frames[i];
    DropMappingFrame(m, CompressDirty(m, f).store, f.processId, f.pageId);
    assert CompressDirty(m, f) == m.(store := CompressDirty(m, f).store);
    hide CompressDirty, DropMapping;
  }

  lemma DropMappingFrame<S>(m: Mem<S>, store: Compression.Store, pid: Pid, v: nat)
    ensures var m0 := m.(store := store);
            DropMapping(m0, pid, v) == m0.(tables := DropMapping(m, pid, v).tables)
  {
  }

  lemma EvictTables<S>(pol: Policy<S>, m: Mem<S>, i: nat)
    requires i < |m.frames|
    ensures var r, f := Evict(pol, m, i), m.frames[i];
            && r.frames[i].free
            && (forall k :: 0 <= k < |m.frames| && k != i ==> r.frames[k] == m.frames[k])
            && r.tables.Keys == m.tables.Keys
            && (forall p, v :: r.Has(p, v) <==> m.Has(p, v))
            && (forall p, v :: m.Has(p, v) && (p != f.processId || v != f.pageId)
                               ==> r.tables[p][v] == m.tables[p][v])
            && (m.Maps(f.processId, f.pageId, i) ==>
                  r.tables[f.processId][f.pageId] == m.tables[f.processId][f.pageId].SetFrame(-1))
  {
    EvictIs(pol, m, i);
    DropMappingTables(m, m.frames[i].processId, m.frames[i].pageId);
    hide Evict, DropMapping, ForgetTranslation;
  }

  /** Allocate frame i to page (pid, v), map it in both tables and tell the policy. */
  function Attach<S>(pol: Policy<S>, m: Mem<S>, i: nat, pid: Pid, v: nat, now: int): (r: Mem<S>)
    requires i < |m.frames| && m.Has(pid, v)
    ensures |r.frames| == |m.frames|
    ensures r.tables.Keys == m.tables.Keys && r.tables[pid].Keys == m.tables[pid].Keys
    ensures r.clustering == m.clustering
  {
    var page := m.tables[pid][v];
    var m1 := m.(frames := m.frames[i := m.frames[i].Allocate(page.id, pid, now)]).PutPage(pid, v, page.SetFrame(i));
    var m2 := m1.(mpt := if pid in m1.mpt
                         then m1.mpt[pid := m1.mpt[pid].Set(page.id * L1_SPAN % WORD, i, false)] else m1.mpt);
    var (s, f) := pol.onFault(m2.policy, i, m2.frames[i], now);
    m2.(policy := s, frames := m2.frames[i := f])
  }

  /** The given free frame, or else a victim's frame after its eviction. */
  function FreeSlot<S(!new)>(pol: Policy<S>, m: Mem<S>, free: Option<nat>, now: int): (r: (Mem<S>, Option<nat>))
    requires Lawful(pol) && (free.Some? ==> free.value < |m.frames|)
    ensures |r.0.frames| == |m.frames| && r.0.clustering == m.clustering
    ensures forall p, u: nat :: r.0.Has(p, u) <==> m.Has(p, u)
    ensures r.0.tables.Keys == m.tables.Keys
    ensures r.1.Some? ==> r.1.value < |m.frames|
  {
    if free.Some? then (m, free)
    else
      var (m1, victim) := Choose(pol, m, Used(m.frames), now);
      if victim.None? then (m1, victim)
      else
        EvictTables(pol, m1, victim.value);
        hide Evict;
        (Evict(pol, m1, victim.value), victim)
  }

  /** A free frame or a victim's, for page (pid, v). */
  function Load<S(!new)>(pol: Policy<S>, m: Mem<S>, pid: Pid, v: nat, now: int): (r: Outcome<S>)
    requires Lawful(pol) && m.Has(pid, v)
    ensures r.mem.Has(pid, v)
    ensures r.mem.clustering == m.clustering
  {
    var (m1, slot) := FreeSlot(pol, m, PickFree(m, pid), now);
    match slot
    case None => Outcome(false, m1)
    case Some(i) => Outcome(true, Attach(pol, m1, i, pid, v, now))
  }

  /** The copy numbered newId moves into frame i and takes the place of page id. */
  function PlaceCopy<S>(pol: Policy<S>, m: Mem<S>, i: nat, pid: Pid, id: nat, newId: nat, now: int): (r: Mem<S>)
    requires i < |m.frames| && pid in m.tables
    ensures r.clustering == m.clustering && |r.frames| == |m.frames|
  {
    var (s, f) := pol.onFault(m.policy, i, m.frames[i], now);
    var m1 := m.(policy := s, frames := m.frames[i := f]).PutPage(pid, id, Page(newId, i, true, false, false, id));
    m1.(metrics := m1.metrics.(cowCopies := m1.metrics.cowCopies + 1))
  }

  /** The part of handleCoW after the copy-on-write manager asked for a copy numbered newId. */
  function MakeCopy<S(!new)>(pol: Policy<S>, m: Mem<S>, pid: Pid, v: nat, newId: nat, now: int): (r: Outcome<S>)
    requires Lawful(pol) && m.Has(pid, v)
    ensures r.mem.clustering == m.clustering
  {
    var id := m.tables[pid][v].id;
    var (m1, slot) := FreeSlot(pol, m, FirstFree(m.frames, 0, |m.frames|), now);
    match slot
    case None => Outcome(false, m1)
    case Some(i) =>
      var m2 := m1.(frames := m1.frames[i := m1.frames[i].Allocate(newId, pid, now)]);
      Outcome(true, PlaceCopy(pol, m2, i, pid, id, newId, now))
  }

  function FinishWrite<S(!new)>(pol: Policy<S>, m: Mem<S>, pid: Pid, v: nat, verdict: CowState.Verdict,
                                now: int): (r: Outcome<S>)
    requires Lawful(pol) && m.Has(pid, v)
    ensures r.mem.clustering == m.clustering
  {
    match verdict
    case NoCopy => Outcome(true, m.PutPage(pid, v, m.tables[pid][v].MakePrivate()))
    case Copy(newId) => MakeCopy(pol, m.(cow := m.cow.(created := m.cow.created + 1)), pid, v, newId, now)
  }

  /** handleCoW, for a write to the shared page (pid, v). */
  function WriteShared<S(!new)>(pol: Policy<S>, m: Mem<S>, pid: Pid, v: nat, now: int): (r: Outcome<S>)
    requires Lawful(pol) && m.Has(pid, v)
    ensures r.mem.clustering == m.clustering
  {
    var page := m.tables[pid][v];
    var (cow, verdict) := CowState.HandleWrite(m.cow, page.id, pid, page.shared);
    FinishWrite(pol, m.(cow := cow), pid, v, verdict, now)
  }

  function SettleWrite<S(!new)>(pol: Policy<S>, m: Mem<S>, pid: Pid, v: nat, write: bool, now: int): (r: Outcome<S>)
    requires Lawful(pol) && m.Has(pid, v)
    ensures r.mem.clustering == m.clustering
  {
    if write && m.tables[pid][v].shared then WriteShared(pol, m, pid, v, now) else Outcome(true, m)
  }

  /** With compression on, a page's compressed copy leaves the store. */
  function TakeOut<S>(m: Mem<S>, id: nat): (Mem<S>, Option<Compression.Compressed>) {
    if m.compression && id in m.store.pages
    then (m.(store := Compression.Decompress(m.store, id)), Some(m.store.pages[id])) else (m, None)
  }

  function PutBack<S>(m: Mem<S>, page: Option<Compression.Compressed>): Mem<S> {
    if page.Some? then m.(store := Compression.Restore(m.store, page.value)) else m
  }

  /** handlePageFault: a compressed page is taken out of the store first, and put back if no frame
      can be had. */
  function Fault<S(!new)>(pol: Policy<S>, m: Mem<S>, pid: Pid, v: nat, write: bool, now: int): (r: Outcome<S>)
    requires Lawful(pol) && m.Has(pid, v)
    ensures r.mem.clustering == m.clustering
  {
    var (m1, page) := TakeOut(m, m.tables[pid][v].id);
    var r := Load(pol, m1, pid, v, now);
    if !r.ok then Outcome(false, PutBack(r.mem, page))
    else SettleWrite(pol, r.mem, pid, v, write, now)
  }

  // ---- After a fault ----

  /** enforcePFFResident: evict until at most target frames are in use. */
  function Enforce<S(!new)>(pol: Policy<S>, m: Mem<S>, used: seq<nat>, target: int, now: int): (r: Mem<S>)
    requires Lawful(pol) && FrameList(m.frames, used)
    ensures |r.frames| == |m.frames|
    ensures r.clustering == m.clustering
    decreases |used|
  {
    if target <= 0 || |used| <= target then m
    else
      var (m1, victim) := Choose(pol, m, used, now);
      match victim
      case None => m1
      case Some(i) => Enforce(pol, Evict(pol, m1, i), Without(used, i), target, now)
  }

  function EnforceTarget<S(!new)>(pol: Policy<S>, m: Mem<S>, now: int): (r: Mem<S>)
    requires Lawful(pol)
    ensures r.clustering == m.clustering
  {
    match pol.target(m.policy)
    case None => m
    case Some(target) => Enforce(pol, m, Used(m.frames), target, now)
  }

  const CLUSTER := 16
  const MAX_PREFETCH := 2
  const RECENT := 16

  /** DetectSequential: three pages that follow each other, as 64-bit numbers, start a cluster. */
  function Detect(clusters: set<(Pid, nat)>, pid: Pid, pages: seq<nat>): set<(Pid, nat)>
    requires |pages| == 3
  {
    if pages[1] == (pages[0] + 1) % WORD && pages[2] == (pages[1] + 1) % WORD
    then clusters + {(pid, pages[0])} else clusters
  }

  /** trackAccess: the last 16 pages, and a cluster when the last three follow each other. */
  function Track<S>(m: Mem<S>, pid: Pid, v: nat): Mem<S> {
    if pid !in m.recent then m
    else
      var r := m.recent[pid] + [v];
      var recent := if |r| > RECENT then r[1..] else r;
      var n := |recent|;
      m.(recent := m.recent[pid := recent],
         clusters := if n >= 3 then Detect(m.clusters, pid, recent[n - 3..]) else m.clusters)
  }

  function EnsurePage<S>(m: Mem<S>, pid: Pid, v: nat): (r: Mem<S>)
    requires pid in m.tables
    ensures r.Has(pid, v) && r.tables.Keys == m.tables.Keys
  {
    if v in m.tables[pid] then m else m.PutPage(pid, v, NewPage(v))
  }

  /** One page loaded by the prefetch loop. */
  function PrefetchOne<S>(pol: Policy<S>, m: Mem<S>, i: nat, pid: Pid, v: nat, now: int): (r: Mem<S>)
    requires i < |m.frames| && m.Has(pid, v)
    ensures r.tables.Keys == m.tables.Keys
  {
    var r := Attach(pol, m, i, pid, v, now);
    r.(metrics := r.metrics.(prefetched := r.metrics.prefetched + 1))
  }

  /** The loop of tryPrefetch over the candidate pages; it gives up when no frame is free. */
  function Prefetch<S>(pol: Policy<S>, m: Mem<S>, pid: Pid, pages: seq<nat>, done: nat, now: int): (r: Mem<S>)
    requires pid in m.tables
    ensures r.clustering == m.clustering
    decreases |pages|
  {
    if pages == [] || done >= MAX_PREFETCH then m
    else
      var m1 := EnsurePage(m, pid, pages[0]);
      if m1.tables[pid][pages[0]].present then Prefetch(pol, m1, pid, pages[1..], done, now)
      else
        match PickFree(m1, pid)
        case None => m1
        case Some(i) => Prefetch(pol, PrefetchOne(pol, m1, i, pid, pages[0], now), pid, pages[1..], done + 1, now)
  }

  lemma PrefetchUnfold<S>(pol: Policy<S>, m: Mem<S>, pid: Pid, pages: seq<nat>, done: nat, now: int)
    requires pid in m.tables
    ensures Prefetch(pol, m, pid, pages, done, now) ==
            if pages == [] || done >= MAX_PREFETCH then m
            else
              var m1 := EnsurePage(m, pid, pages[0]);
              if m1.tables[pid][pages[0]].present then Prefetch(pol, m1, pid, pages[1..], done, now)
              else
                match PickFree(m1, pid)
                case None => m1
                case Some(i) => Prefetch(pol, PrefetchOne(pol, m1, i, pid, pages[0], now),
                                         pid, pages[1..], done + 1, now)
  {
  }

  function Candidates(anchor: nat): (pages: seq<nat>)
    ensures |pages| == CLUSTER
  {
    seq(CLUSTER, i requires 0 <= i < CLUSTER => (anchor + i + 1) % WORD)
  }

  function TryPrefetch<S>(pol: Policy<S>, m: Mem<S>, pid: Pid, now: int): (r: Mem<S>)
    requires pid in m.tables
    ensures r.clustering == m.clustering
  {
    if pid !in m.recent || |m.recent[pid]| < 3 then m
    else
      var anchor := m.recent[pid][|m.recent[pid]| - 3];
      if (pid, anchor) !in m.clusters then m
      else Prefetch(pol, m, pid, Candidates(anchor), 0, now)
  }

  // ---- The operations ----

  /** The TLB fast path: the frame is known, nothing but the policy and the hit counters move. */
  function FastHit<S>(pol: Policy<S>, m: Mem<S>, i: nat, write: bool, now: int): Mem<S>
    requires i < |m.frames|
  {
    var (s, f) := pol.onAccess(m.policy, i, m.frames[i], write, now);
    m.(policy := s, frames := m.frames[i := f],
       metrics := m.metrics.(hits := m.metrics.hits + 1, accesses := m.metrics.accesses + 1))
  }

  function CountFault<S>(m: Mem<S>): Mem<S> {
    m.(metrics := m.metrics.(faults := m.metrics.faults + 1, accesses := m.metrics.accesses + 1))
  }

  /** The state in which an access looks for its page. */
  function Prepared<S>(m: Mem<S>, pid: Pid, v: nat): (r: Mem<S>)
    requires pid in m.tables
    ensures r.Has(pid, v) && r.tables.Keys == m.tables.Keys
  {
    EnsurePage(if m.clustering then Track(m, pid, v) else m, pid, v)
  }

  /** A miss: the fault, its count, PFF's resident-set target, the prefetch. */
  function MissOutcome<S(!new)>(pol: Policy<S>, m: Mem<S>, pid: Pid, v: nat, write: bool, now: int): (r: Outcome<S>)
    requires Lawful(pol) && m.Has(pid, v)
    ensures r.mem.clustering == m.clustering
  {
    var r := Fault(pol, m, pid, v, write, now);
    if !r.ok then r
    else
      var m1 := EnforceTarget(pol, CountFault(r.mem), now);
      Outcome(true, if m1.clustering && pid in m1.tables then TryPrefetch(pol, m1, pid, now) else m1)
  }

  /** AccessMemory's write-locked section, which is the whole of it when the TLB misses. */
  function Access<S(!new)>(pol: Policy<S>, m: Mem<S>, pid: Pid, v: nat, write: bool, now: int): (r: Outcome<S>)
    requires Lawful(pol)
    ensures r.mem.clustering == m.clustering
  {
    if pid !in m.tables then Outcome(false, m)
    else
      var m1 := Prepared(m, pid, v);
      if m1.Resident(pid, v) then
        SettleWrite(pol, FastHit(pol, m1, m1.tables[pid][v].frame, write, now), pid, v, write, now)
      else MissOutcome(pol, m1, pid, v, write, now)
  }

  function Create<S>(m: Mem<S>, pid: Pid): Outcome<S> {
    if pid in m.tables then Outcome(false, m)
    else Outcome(true, m.(tables := m.tables[pid := map[]], mpt := m.mpt[pid := EMPTY],
                          recent := m.recent[pid := []], huge := m.huge[pid := map[]]))
  }

  predicate HoldsFrame(table: PageTable, i: int) {
    exists v | v in table :: table[v].present && table[v].frame == i
  }

  ghost function Remove<S>(m: Mem<S>, pid: Pid): Outcome<S> {
    if pid !in m.tables then Outcome(false, m)
    else
      Outcome(true, m.(
        frames := seq(|m.frames|, i requires 0 <= i < |m.frames| =>
                    if HoldsFrame(m.tables[pid], i) then m.frames[i].Release() else m.frames[i]),
        cow := CowState.DropEverywhere(m.cow, m.cow.shared.Keys, pid),
        clusters := if pid == "" then {} else (set c | c in m.clusters && c.0 != pid),
        tables := m.tables - {pid}, mpt := m.mpt - {pid},
        recent := m.recent - {pid}, huge := m.huge - {pid}))
  }

  function ClonePage(p: Page): Page {
    p.(original := p.id).MakeShared()
  }

  /** PageTable.Clone: the same pages, marked shared and read-only. */
  function Clone(table: PageTable): PageTable {
    map v | v in table :: ClonePage(table[v])
  }

  /** Every page present in the parent becomes shared there too. */
  function SharePresent(table: PageTable): PageTable {
    map v | v in table :: if table[v].present then table[v].MakeShared() else table[v]
  }

  function PresentIds(table: PageTable): set<nat> {
    set v | v in table && table[v].present :: table[v].id
  }

  ghost function Fork<S>(m: Mem<S>, parent: Pid, child: Pid): Outcome<S> {
    if parent !in m.tables then Outcome(false, m)
    else
      var table := m.tables[parent];
      var tables := m.tables[parent := SharePresent(table)][child := Clone(table)];
      Outcome(true, m.(
        tables := tables,
        mpt := m.mpt[child := EMPTY], recent := m.recent[child := []], huge := m.huge[child := map[]],
        cow := CowState.ShareAll(m.cow, PresentIds(table), parent, child)))
  }

  const HUGE_INDEX_LIMIT := 0x800_0000_0000 // 2^43
  const HUGE_PAGE_BASE := 0x1_0000_0000     // 2^32

  function PutHuge(huge: map<Pid, map<nat, int>>, pid: Pid, index: nat, frame: int): map<Pid, map<nat, int>>
    requires pid in huge
  {
    var mine: map<nat, int> := huge[pid][index := frame];
    huge[pid := mine]
  }

  /** Frame i, already allocated, becomes huge page `index` of pid. */
  function HugeMapped<S>(pol: Policy<S>, m: Mem<S>, i: nat, pid: Pid, index: nat, now: int): Mem<S>
    requires i < |m.frames|
  {
    var (s, f) := pol.onFault(m.policy, i, m.frames[i], now);
    CountFault(m.(
      frames := m.frames[i := f], policy := s,
      mpt := if pid in m.mpt then m.mpt[pid := m.mpt[pid].Set(index * L2_SPAN, i, true)] else m.mpt,
      huge := if pid in m.huge then PutHuge(m.huge, pid, index, i) else m.huge))
  }

  function MapHuge<S(!new)>(pol: Policy<S>, m: Mem<S>, pid: Pid, index: nat, now: int): Outcome<S>
    requires Lawful(pol)
  {
    if index >= HUGE_INDEX_LIMIT || pid !in m.tables then Outcome(false, m)
    else
      var (m1, slot) := FreeSlot(pol, m, PickFree(m, pid), now);
      match slot
      case None => Outcome(false, m1)
      case Some(i) =>
        var m2 := m1.(frames := m1.frames[i := m1.frames[i].Allocate(HUGE_PAGE_BASE + index, pid, now)]);
        Outcome(true, HugeMapped(pol, m2, i, pid, index, now))
  }

  function Reset<S>(m: Mem<S>, policy: S): Mem<S> {
    Mem(seq(|m.frames|, i requires 0 <= i < |m.frames| => m.frames[i].Release()),
        map[], map[], policy, CowState.NO_SHARING.(nextId := m.cow.nextId), Compression.EMPTY_STORE,
        map[], {}, map[], NO_METRICS, m.numa, m.compression, m.clustering)
  }

  /** A manager just constructed. */
  function Boot<S>(numFrames: nat, policy: S): Mem<S> {
    Mem(seq(numFrames, _ => NEW_FRAME), map[], map[], policy, CowState.NO_SHARING, Compression.EMPTY_STORE,
        map[], {}, map[], NO_METRICS, false, false, false)
  }
}
