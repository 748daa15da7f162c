/** Short runs, under any lawful policy without a resident-set target. One passes every guard of isolation
    and copies a page on a write. In each of the others one operation misses its guard: the eviction or the
    removal of a sharer whose frame another process still maps, a write that finds no frame for its copy,
    the fork of a process that holds a copy. In the last run a load is lost. */
module SharingRuns {
  import opened Prelude
  import opened Frames
  import opened MemoryModel
  import opened Runs
  import opened Failures
  import opened Isolation
  import opened CalmRuns
  import Conservation
  import CowState
  import Tlb
  import Transparency
  import TlbSteps
  import TlbRuns

  const P := "p"
  const C := "c"
  const D := "d"
  const Q := "q"

  const OWN := OwnIn(0)
  const PARENTS := OWN.MakeShared()

  function OwnIn(i: int): Page {
    Page(0, i, true, false, false, 0)
  }

  function CopyOf(id: nat): Page {
    Page(id, 1, true, false, false, 0)
  }

  /** n frames, no settings. */
  ghost predicate Plain<S>(m: Mem<S>, n: nat) {
    |m.frames| == n && !m.numa && !m.compression && !m.clustering
  }

  /** Frame i was taken, the others were left alone. */
  ghost predicate Took(before: seq<Frame>, after: seq<Frame>, i: nat) {
    && i < |before| == |after|
    && !after[i].free && after[i].pinned == before[i].pinned
    && forall k :: 0 <= k < |before| && k != i ==> after[k] == before[k]
  }

  /** pid's page 0 was read into frame i. */
  ghost predicate ReadInto<S>(m: Mem<S>, r: Mem<S>, pid: Pid, i: nat) {
    && r.tables == m.tables[pid := map[0 := OwnIn(i)]] && r.cow == m.cow
    && Took(m.frames, r.frames, i)
    && r.frames[i].processId == pid && r.frames[i].pageId == 0
    && r.metrics.evictions == m.metrics.evictions
  }

  // ---- Reads ----

  lemma AttachFirst<S(!new)>(pol: Policy<S>, m: Mem<S>, n: nat, i: nat, pid: Pid, now: int)
    requires Lawful(pol) && Plain(m, n) && i < n && pid in m.tables && m.tables[pid] == map[0 := NewPage(0)]
    ensures var r := Attach(pol, m, i, pid, 0, now); Plain(r, n) && ReadInto(m, r, pid, i)
  {
    var r := Attach(pol, m, i, pid, 0, now);
    assert r.tables[pid] == m.tables[pid][0 := OwnIn(i)];
    assert r.tables[pid] == map[0 := OwnIn(i)];
  }

  lemma FirstRecord<S>(m: Mem<S>, pid: Pid)
    requires !m.clustering && pid in m.tables && m.tables[pid] == map[]
    ensures Prepared(m, pid, 0) == m.(tables := m.tables[pid := map[0 := NewPage(0)]])
  {
    assert m.tables[pid][0 := NewPage(0)] == map[0 := NewPage(0)];
  }

  /** Reading an absent page, given how it is loaded. */
  lemma ReadIs<S(!new)>(pol: Policy<S>, m: Mem<S>, m1: Mem<S>, pid: Pid, v: nat, now: int)
    requires Lawful(pol) && NoTarget(pol) && !m.compression && !m.clustering && pid in m.tables
    requires m1 == Prepared(m, pid, v) && m1.Has(pid, v) && !m1.Resident(pid, v) && !m1.compression && !m1.clustering
    requires Load(pol, m1, pid, v, now).ok
    ensures Access(pol, m, pid, v, false, now) == Outcome(true, CountFault(Load(pol, m1, pid, v, now).mem))
  {
    assert NoTarget(pol);
    hide Load, Prepared, Lawful;
  }

  /** A read while frame i is the first free one. */
  lemma ReadFree<S(!new)>(pol: Policy<S>, m: Mem<S>, n: nat, i: nat, pid: Pid, now: int)
    requires Lawful(pol) && NoTarget(pol) && Plain(m, n) && pid in m.tables && m.tables[pid] == map[]
    requires FirstFree(m.frames, 0, n) == Some(i)
    ensures var r := Access(pol, m, pid, 0, false, now); r.ok && Plain(r.mem, n) && ReadInto(m, r.mem, pid, i)
  {
    FirstRecord(m, pid);
    var m1 := Prepared(m, pid, 0);
    assert PickFree(m1, pid) == Some(i);
    AttachFirst(pol, m1, n, i, pid, now);
    var m2 := Attach(pol, m1, i, pid, 0, now);
    hide Attach, Prepared, Lawful, PickFree, NoTarget, Access;
    assert Load(pol, m1, pid, 0, now) == Outcome(true, m2);
    ReadIs(pol, m, m1, pid, 0, now);
    assert m1.tables[pid := map[0 := OwnIn(i)]] == m.tables[pid := map[0 := OwnIn(i)]];
  }

  /** With one frame, in use and not pinned, there is no choice of a victim. */
  lemma OnlyVictim<S(!new)>(pol: Policy<S>, m: Mem<S>, now: int)
    requires Lawful(pol) && |m.frames| == 1 && m.frames[0].Evictable()
    ensures var (r, victim) := Choose(pol, m, Used(m.frames), now);
            && victim == Some(0) && r == m.(policy := r.policy, frames := r.frames)
            && SameOwners(r.frames, m.frames)
  {
    assert 0 in Used(m.frames);
    hide Lawful;
  }

  /** The frame is taken from p's page 0; c's page still maps it. */
  lemma FrameTaken<S(!new)>(pol: Policy<S>, m: Mem<S>, now: int)
    requires Lawful(pol) && Plain(m, 1) && m.frames[0].Evictable()
    requires m.frames[0].processId == P && m.frames[0].pageId == 0
    requires m.tables == map[P := map[0 := PARENTS], C := map[0 := PARENTS], Q := map[0 := NewPage(0)]]
    ensures var (r, slot) := FreeSlot(pol, m, None, now);
            && slot == Some(0) && Plain(r, 1) && r.frames[0].free && r.cow == m.cow
            && r.tables == map[P := map[0 := PARENTS.SetFrame(-1)], C := map[0 := PARENTS], Q := map[0 := NewPage(0)]]
  {
    OnlyVictim(pol, m, now);
    var m1 := Choose(pol, m, Used(m.frames), now).0;
    assert m1.frames[0].SameOwner(m.frames[0]);
    EvictIs(pol, m1, 0);
    Unmapped(m1);
    hide Lawful, Evict, DropMapping, Choose;
  }

  lemma Unmapped<S>(m: Mem<S>)
    requires m.tables == map[P := map[0 := PARENTS], C := map[0 := PARENTS], Q := map[0 := NewPage(0)]]
    ensures DropMapping(m, P, 0).tables
            == map[P := map[0 := PARENTS.SetFrame(-1)], C := map[0 := PARENTS], Q := map[0 := NewPage(0)]]
  {
    hide DropMapping;
    GiveP(m.tables, map[0 := PARENTS], map[0 := PARENTS.SetFrame(-1)], map[0 := NewPage(0)]);
    assert m.tables[P][0 := PARENTS.SetFrame(-1)] == map[0 := PARENTS.SetFrame(-1)];
    DropMappingIs(m, P, 0, map[0 := PARENTS.SetFrame(-1)]);
  }

  lemma GiveP(tables: map<Pid, PageTable>, before: PageTable, after: PageTable, q: PageTable)
    requires tables == map[P := before, C := map[0 := PARENTS], Q := q]
    ensures P in tables && tables[P] == before
    ensures tables[P := after] == map[P := after, C := map[0 := PARENTS], Q := q]
  {
    assert P != C && P != Q;
  }

  lemma GiveQ(tables: map<Pid, PageTable>, p: PageTable, before: PageTable, after: PageTable)
    requires tables == map[P := p, C := map[0 := PARENTS], Q := before]
    ensures Q in tables && tables[Q] == before
    ensures tables[Q := after] == map[P := p, C := map[0 := PARENTS], Q := after]
  {
  }

  /** It is given to q's page. */
  lemma ReadEvicting<S(!new)>(pol: Policy<S>, m: Mem<S>, now: int)
    requires Lawful(pol) && NoTarget(pol) && Plain(m, 1) && m.frames[0].Evictable()
    requires m.frames[0].processId == P && m.frames[0].pageId == 0
    requires m.tables == map[P := map[0 := PARENTS], C := map[0 := PARENTS], Q := map[]]
    ensures var r := Access(pol, m, Q, 0, false, now);
            && r.ok && Plain(r.mem, 1) && r.mem.cow == m.cow && !r.mem.frames[0].free
            && r.mem.tables == map[P := map[0 := PARENTS.SetFrame(-1)], C := map[0 := PARENTS], Q := map[0 := OWN]]
  {
    FirstRecord(m, Q);
    var m1 := Prepared(m, Q, 0);
    assert PickFree(m1, Q) == None;
    hide Prepared, Lawful, PickFree, NoTarget, Access, FreeSlot, Attach;
    GiveQ(m.tables, map[0 := PARENTS], map[], map[0 := NewPage(0)]);
    FrameTaken(pol, m1, now);
    var m2 := FreeSlot(pol, m1, None, now).0;
    GiveQ(m2.tables, map[0 := PARENTS.SetFrame(-1)], map[0 := NewPage(0)], map[0 := OWN]);
    AttachFirst(pol, m2, 1, 0, Q, now);
    var m3 := Attach(pol, m2, 0, Q, 0, now);
    assert Load(pol, m1, Q, 0, now) == Outcome(true, m3);
    ReadIs(pol, m, m1, Q, 0, now);
  }

  // ---- The fork ----

  /** Both processes map frame 0, marked shared and on record. */
  ghost predicate Forked<S>(m: Mem<S>) {
    && m.tables == map[P := map[0 := PARENTS], C := map[0 := PARENTS]]
    && CowState.Valid(m.cow) && CowState.Entry(m.cow, 0).processes == {P, C}
    && (forall id :: id != 0 ==> CowState.Entry(m.cow, id).processes == {})
  }

  lemma ForkedTables<S>(m: Mem<S>)
    requires m.tables == map[P := map[0 := OWN]]
    ensures var r := Fork(m, P, C).mem; r.tables == map[P := map[0 := PARENTS], C := map[0 := PARENTS]]
    ensures 0 in PresentIds(m.tables[P]) && forall id :: id != 0 ==> id !in PresentIds(m.tables[P])
  {
    assert SharePresent(m.tables[P]) == map[0 := PARENTS];
    assert Clone(m.tables[P]) == map[0 := PARENTS];
    assert m.tables[P][0].id in PresentIds(m.tables[P]);
    hide CowState.ShareAll;
  }

  lemma ThenFork<S>(m: Mem<S>, n: nat)
    requires Plain(m, n) && m.tables == map[P := map[0 := OWN]] && m.cow == CowState.NO_SHARING
    ensures var r := Fork(m, P, C).mem; Plain(r, n) && r.frames == m.frames && r.metrics == m.metrics && Forked(r)
    ensures OwnPages(m.tables[P])
  {
    var r := Fork(m, P, C).mem;
    ForkedTables(m);
    var ids := PresentIds(m.tables[P]);
    hide Clone, SharePresent, PresentIds, CowState.ShareAll, CowState.Entry;
    NoSharingIsValid();
    CowState.ShareAllValid(m.cow, ids, P, C);
    forall id ensures CowState.Entry(r.cow, id).processes == if id == 0 then {P, C} else {} {
      CowState.ShareAllRegisters(m.cow, ids, P, C, id);
      NobodyShares(id);
    }
  }

  lemma NobodyShares(id: nat)
    ensures CowState.Entry(CowState.NO_SHARING, id).processes == {}
  {
  }

  lemma NoSharingIsValid()
    ensures CowState.Valid(CowState.NO_SHARING)
  {
  }

  const SHARED := [Spawn(P)] + [Touch(P, 0, false)] + [ForkTo(P, C)]

  /** Create, read, fork, with any number of frames. */
  lemma SharedRun<S(!new)>(pol: Policy<S>, start: S, n: nat, t1: int, t2: int, t3: int)
    requires Lawful(pol) && NoTarget(pol) && n > 0
    ensures var m := History(pol, start, n, SHARED, [t1] + [t2] + [t3]);
            && Plain(m, n) && Forked(m) && m.metrics.evictions == 0
            && !m.frames[0].free && m.frames[0].processId == P && m.frames[0].pageId == 0
            && (forall k :: 0 < k < n ==> m.frames[k].free)
            && (forall k :: 0 <= k < n ==> !m.frames[k].pinned)
    ensures n >= 2 ==> Calm(pol, start, n, SHARED, [t1] + [t2] + [t3])
  {
    hide Calm, Access, Fork, CowState.Valid, CowState.Entry, OwnPages, Lawful, AccessGuard, NoTarget, History;
    var m0: Mem<S> := Boot(n, start);
    RunStarts(pol, start, n);
    RunSnoc(pol, start, n, [], [], Spawn(P), t1);
    var m1 := Create(m0, P).mem;
    assert m1.tables == map[P := map[]];
    assert [] + [Spawn(P)] == [Spawn(P)] && [] + [t1] == [t1];
    ReadFree(pol, m1, n, 0, P, t2);
    var m2 := Access(pol, m1, P, 0, false, t2).mem;
    if n >= 2 {
      RoomIsSafe(pol, m1, P, 0, false, t2, 0, 1);
    }
    RunSnoc(pol, start, n, [Spawn(P)], [t1], Touch(P, 0, false), t2);
    assert m2.tables == map[P := map[0 := OWN]];
    ThenFork(m2, n);
    RunSnoc(pol, start, n, [Spawn(P)] + [Touch(P, 0, false)], [t1] + [t2], ForkTo(P, C), t3);
  }

  lemma RunStarts<S(!new)>(pol: Policy<S>, start: S, n: nat)
    requires Lawful(pol)
    ensures Calm(pol, start, n, [], []) && History(pol, start, n, [], []) == Boot(n, start)
  {
  }

  /** One more operation of a run. */
  lemma RunSnoc<S(!new)>(pol: Policy<S>, start: S, n: nat, ops: seq<Op>, times: seq<int>, op: Op, now: int)
    requires Lawful(pol) && |times| == |ops|
    ensures var m := History(pol, start, n, ops, times);
            && History(pol, start, n, ops + [op], times + [now]) == Perform(pol, m, op, now).mem
            && (Calm(pol, start, n, ops + [op], times + [now])
                <==> Calm(pol, start, n, ops, times) && Guard(pol, m, op, now))
  {
    assert (ops + [op])[..|ops|] == ops && (times + [now])[..|times|] == times;
    hide Perform, Guard, Lawful;
  }

  // ---- A run that passes every guard ----

  /** The first of two sharers to write is told to copy. */
  lemma FirstOfTwo(c: CowState.Cow, id: nat, other: Pid)
    requires CowState.Valid(c) && other != P && CowState.Entry(c, id).processes == {P, other}
    ensures CowState.MustCopy(c, id, P)
    ensures var (d, verdict) := CowState.HandleWrite(c, id, P, true);
            && verdict == CowState.Copy(c.nextId + 1)
            && CowState.Valid(d) && CowState.Entry(d, id).processes == {other}
            && (CowState.Entry(c, c.nextId + 1).processes == {} ==> CowState.Entry(d, c.nextId + 1).processes == {})
  {
    assert |{P, other}| == 2;
    CowState.HandleWriteValid(c, id, P, true);
    CowState.DropSharerValid(c, id, P);
    assert {P, other} - {P} == {other};
    HandleWriteOnlyDrops(c, id, P, true, c.nextId + 1);
  }

  lemma HandleWriteOnlyDrops(c: CowState.Cow, v: nat, pid: Pid, flag: bool, w: nat)
    requires CowState.Valid(c)
    ensures CowState.Entry(CowState.HandleWrite(c, v, pid, flag).0, w).processes <= CowState.Entry(c, w).processes
  {
    CowState.DropSharerValid(c, v, pid);
  }

  lemma HitKeeps<S(!new)>(pol: Policy<S>, m: Mem<S>, n: nat, i: nat, now: int)
    requires Lawful(pol) && Plain(m, n) && i < n
    ensures var h := FastHit(pol, m, i, true, now);
            && Plain(h, n) && h.tables == m.tables && h.cow == m.cow && h.metrics.evictions == m.metrics.evictions
            && (forall k :: 0 <= k < n ==> h.frames[k].free == m.frames[k].free)
  {
  }

  /** A write to a resident shared page, as the copy-on-write manager sees it. */
  lemma WriteIs<S(!new)>(pol: Policy<S>, m: Mem<S>, pid: Pid, i: nat, now: int)
    requires Lawful(pol) && !m.clustering && m.Maps(pid, 0, i) && i < |m.frames| && m.tables[pid][0].shared
    ensures var h := FastHit(pol, m, i, true, now);
            var (cow, verdict) := CowState.HandleWrite(m.cow, m.tables[pid][0].id, pid, true);
            && h.Has(pid, 0)
            && Access(pol, m, pid, 0, true, now) == FinishWrite(pol, h.(cow := cow), pid, 0, verdict, now)
  {
    assert Prepared(m, pid, 0) == m;
    hide Prepared, CowState.HandleWrite, FinishWrite, Lawful;
  }

  /** Where a copy goes when frame i is the first free one: under its page's number, which need not be the
      page written to. */
  lemma CopyGoesTo<S(!new)>(pol: Policy<S>, m: Mem<S>, n: nat, i: nat, v: nat, page: Page, newId: nat, now: int)
    requires Lawful(pol) && Plain(m, n) && m.Has(P, v) && m.tables[P][v] == page
    requires FirstFree(m.frames, 0, n) == Some(i)
    ensures var r := MakeCopy(pol, m, P, v, newId, now);
            && r.ok && Plain(r.mem, n) && r.mem.cow == m.cow && r.mem.metrics.evictions == m.metrics.evictions
            && r.mem.tables == m.PutPage(P, page.id, Page(newId, i, true, false, false, page.id)).tables
            && !r.mem.frames[i].free && (forall k :: 0 <= k < n && k != i ==> r.mem.frames[k] == m.frames[k])
  {
    var m2 := m.(frames := m.frames[i := m.frames[i].Allocate(newId, P, now)]);
    PlaceCopyShape(pol, m2, i, P, page.id, newId, now);
    PlaceCopySettings(pol, m2, i, page.id, newId, now);
    hide PlaceCopy, Lawful;
  }

  lemma PlaceCopySettings<S>(pol: Policy<S>, m: Mem<S>, i: nat, id: nat, newId: nat, now: int)
    requires i < |m.frames| && P in m.tables
    ensures var r := PlaceCopy(pol, m, i, P, id, newId, now);
            r.numa == m.numa && r.compression == m.compression && r.clustering == m.clustering
  {
  }

  /** What the write of a run leaves behind: p's page 0 is a copy numbered id, in frame 1. */
  ghost predicate Copied<S>(m: Mem<S>, id: nat) {
    && Plain(m, 3) && m.tables == map[P := map[0 := CopyOf(id)], C := map[0 := PARENTS]]
    && CowState.Valid(m.cow) && CowState.Entry(m.cow, id).processes == {}
    && !m.frames[0].free && !m.frames[1].free && m.frames[2].free
    && m.metrics.evictions == 0
  }

  /** The write copies the page into a free frame. */
  lemma ThenWrite<S(!new)>(pol: Policy<S>, m: Mem<S>, now: int)
    requires Lawful(pol) && Plain(m, 3) && Forked(m) && m.metrics.evictions == 0
    requires !m.frames[0].free && m.frames[1].free && m.frames[2].free
    ensures var r := Access(pol, m, P, 0, true, now);
            r.ok && m.cow.nextId + 1 != 0 && Copied(r.mem, m.cow.nextId + 1)
  {
    hide Access, CowState.HandleWrite, FastHit, CowState.Valid, CowState.Entry, Lawful, Prepared, FinishWrite, MakeCopy;
    assert P != C;
    WriteIs(pol, m, P, 0, now);
    HitKeeps(pol, m, 3, 0, now);
    FirstOfTwo(m.cow, 0, C);
    var h := FastHit(pol, m, 0, true, now);
    var (cow, verdict) := CowState.HandleWrite(h.cow, 0, P, true);
    var c := cow.(created := cow.created + 1);
    CreatedIrrelevant(cow, c);
    assert FirstFree(h.frames, 0, 3) == Some(1);
    FinishIs(pol, h, cow, P, 0, verdict, now);
    CopyGoesTo(pol, h.(cow := c), 3, 1, 0, PARENTS, verdict.newId, now);
    SecondTable(map[P := map[0 := PARENTS], C := map[0 := PARENTS]], CopyOf(verdict.newId));
  }

  lemma SecondTable(tables: map<Pid, PageTable>, page: Page)
    requires tables == map[P := map[0 := PARENTS], C := map[0 := PARENTS]]
    ensures var table: PageTable := tables[P][0 := page];
            tables[P := table] == map[P := map[0 := page], C := map[0 := PARENTS]]
  {
    assert tables[P][0 := page] == map[0 := page];
  }

  const COPIED := SHARED + [Touch(P, 0, true)]

  lemma CopiedRun<S(!new)>(pol: Policy<S>, start: S, t1: int, t2: int, t3: int, t4: int)
    requires Lawful(pol) && NoTarget(pol)
    ensures var before := History(pol, start, 3, SHARED, [t1] + [t2] + [t3]);
            var m := History(pol, start, 3, COPIED, [t1] + [t2] + [t3] + [t4]);
            && Calm(pol, start, 3, COPIED, [t1] + [t2] + [t3] + [t4])
            && Forked(before) && Copied(m, before.cow.nextId + 1)
  {
    hide Calm, History, Access, CowState.Valid, CowState.Entry, Lawful, AccessGuard, NoTarget;
    SharedRun(pol, start, 3, t1, t2, t3);
    var m := History(pol, start, 3, SHARED, [t1] + [t2] + [t3]);
    ThenWrite(pol, m, t4);
    RoomIsSafe(pol, m, P, 0, true, t4, 1, 2);
    RunSnoc(pol, start, 3, SHARED, [t1] + [t2] + [t3], Touch(P, 0, true), t4);
  }

  /** Create, read, fork, write: a run that passes every guard, in which parent and child share a frame before
      the write and no longer after it. */
  lemma CalmRunsCopy<S(!new)>(pol: Policy<S>, start: S, t1: int, t2: int, t3: int, t4: int)
    requires Lawful(pol) && NoTarget(pol)
    ensures var before := History(pol, start, 3, SHARED, [t1] + [t2] + [t3]);
            var after := History(pol, start, 3, COPIED, [t1] + [t2] + [t3] + [t4]);
            && Calm(pol, start, 3, COPIED, [t1] + [t2] + [t3] + [t4])
            && before.Maps(P, 0, 0) && before.Maps(C, 0, 0)
            && after.Maps(P, 0, 1) && after.Maps(C, 0, 0)
  {
    hide History, Calm, CowState.Valid, CowState.Entry, Lawful, NoTarget;
    CopiedRun(pol, start, t1, t2, t3, t4);
    assert P != C;
  }

  // ---- Sharing under memory pressure ----

  const SETTLED := SHARED + [SetPin(0, true)] + [Spawn(Q)] + [Touch(Q, 0, false)]

  /** p and c share the pinned frame 0; frame 1 is q's. */
  ghost predicate Settled<S>(m: Mem<S>) {
    && Plain(m, 2)
    && m.tables == map[P := map[0 := PARENTS], C := map[0 := PARENTS]][Q := map[0 := OwnIn(1)]]
    && !m.frames[0].free && m.frames[0].pinned
    && m.frames[1].Evictable() && m.frames[1].processId == Q && m.frames[1].pageId == 0
    && m.metrics.evictions == 0
  }

  lemma SettledRun<S(!new)>(pol: Policy<S>, start: S, t1: int, t2: int, t3: int, t4: int, t5: int, t6: int)
    requires Lawful(pol) && NoTarget(pol)
    ensures var times := [t1] + [t2] + [t3] + [t4] + [t5] + [t6];
            Calm(pol, start, 2, SETTLED, times) && Settled(History(pol, start, 2, SETTLED, times))
  {
    hide Access, CowState.Valid, CowState.Entry, Lawful, NoTarget, History, Calm, AccessGuard, Isolated;
    var three := [t1] + [t2] + [t3];
    SharedRun(pol, start, 2, t1, t2, t3);
    RunSnoc(pol, start, 2, SHARED, three, SetPin(0, true), t4);
    RunSnoc(pol, start, 2, SHARED + [SetPin(0, true)], three + [t4], Spawn(Q), t5);
    RunSnoc(pol, start, 2, SHARED + [SetPin(0, true)] + [Spawn(Q)], three + [t4] + [t5], Touch(Q, 0, false), t6);
    assert P != Q && C != Q;
    var m := Create(PinFrame(History(pol, start, 2, SHARED, three), 0, true).mem, Q).mem;
    assert FirstFree(m.frames, 0, 2) == Some(1);
    ReadFree(pol, m, 2, 1, Q, t6);
    CalmRunsAreIsolated(pol, start, 2, SHARED + [SetPin(0, true)] + [Spawn(Q)], three + [t4] + [t5]);
    assert PinnedSharing(m);
    PinnedSharingIsSafe(pol, m, Q, 0, false, t6);
    GiveThird(map[P := map[0 := PARENTS], C := map[0 := PARENTS]], map[], map[0 := OwnIn(1)]);
  }

  lemma GiveThird(tables: map<Pid, PageTable>, before: PageTable, after: PageTable)
    ensures tables[Q := before][Q := after] == tables[Q := after]
  {
  }

  lemma SettledIsPinned<S>(m: Mem<S>)
    requires Settled(m)
    ensures PinnedSharing(m) && !m.Has(Q, 1) && FirstFree(m.frames, 0, 2) == None
  {
    assert P != Q && C != Q;
    assert Sole(m, 1);
  }

  /** With no frame free, a load evicts. */
  lemma LoadEvicts<S(!new)>(pol: Policy<S>, m: Mem<S>, pid: Pid, v: nat, now: int)
    requires Lawful(pol) && m.Has(pid, v) && FirstFree(m.frames, 0, |m.frames|) == None
    ensures var r := Load(pol, m, pid, v, now); r.ok ==> r.mem.metrics.evictions == m.metrics.evictions + 1
  {
    hide Lawful, Attach, Evict;
    assert PickFree(m, pid) == None;
    var (m1, victim) := Choose(pol, m, Used(m.frames), now);
    if victim.Some? {
      EvictPages(pol, m1, victim.value);
      AttachShape(pol, Evict(pol, m1, victim.value), victim.value, pid, v, now);
    }
  }

  /** After a fork, with the shared frame pinned, another process reads one page more than there are frames: the
      run passes every guard, and evicts. */
  lemma CalmRunsEvict<S(!new)>(pol: Policy<S>, start: S, t1: int, t2: int, t3: int, t4: int, t5: int, t6: int, t7: int)
    requires Lawful(pol) && NoTarget(pol)
    ensures var ops, times := SETTLED + [Touch(Q, 1, false)], [t1] + [t2] + [t3] + [t4] + [t5] + [t6] + [t7];
            Calm(pol, start, 2, ops, times) && History(pol, start, 2, ops, times).metrics.evictions > 0
  {
    hide Access, Lawful, NoTarget, History, Calm, AccessGuard, Isolated, Settled;
    var times := [t1] + [t2] + [t3] + [t4] + [t5] + [t6];
    SettledRun(pol, start, t1, t2, t3, t4, t5, t6);
    RunSnoc(pol, start, 2, SETTLED, times, Touch(Q, 1, false), t7);
    CalmRunsAreIsolated(pol, start, 2, SETTLED, times);
    var m := History(pol, start, 2, SETTLED, times);
    SettledIsPinned(m);
    PinnedSharingIsSafe(pol, m, Q, 1, false, t7);
    SettledReads(pol, m, t7);
  }

  lemma SettledReads<S(!new)>(pol: Policy<S>, m: Mem<S>, now: int)
    requires Lawful(pol) && NoTarget(pol) && Settled(m)
    ensures Access(pol, m, Q, 1, false, now).mem.metrics.evictions > 0
  {
    SettledIsPinned(m);
    PreparedIs(m, Q, 1);
    var m1 := Prepared(m, Q, 1);
    assert m1 == m.(tables := m1.tables);
    hide Lawful, NoTarget, Prepared, Load, Access;
    LoadFails(pol, m1, Q, 1, now);
    LoadEvicts(pol, m1, Q, 1, now);
    ReadIs(pol, m, m1, Q, 1, now);
  }

  // ---- A fork of a process that holds a copy ----

  lemma ForkCopyTables<S>(m: Mem<S>, id: nat)
    requires m.tables == map[P := map[0 := CopyOf(id)], C := map[0 := PARENTS]]
    ensures var r := Fork(m, P, D).mem;
            r.Maps(D, 0, 1) && r.Has(P, 0) && r.tables[P] == map[0 := CopyOf(id).MakeShared()]
    ensures id in PresentIds(m.tables[P])
  {
    assert SharePresent(m.tables[P]) == map[0 := CopyOf(id).MakeShared()];
    assert Clone(m.tables[P])[0] == ClonePage(CopyOf(id));
    assert P != D;
    assert m.tables[P][0].id in PresentIds(m.tables[P]);
    hide CowState.ShareAll;
  }

  lemma ForkShares<S>(m: Mem<S>, parent: Pid, child: Pid, id: nat)
    requires parent in m.tables && CowState.Valid(m.cow) && id in PresentIds(m.tables[parent])
    ensures var r := Fork(m, parent, child);
            && r.ok && r.mem.frames == m.frames && r.mem.metrics == m.metrics
            && CowState.Valid(r.mem.cow)
            && CowState.Entry(r.mem.cow, id).processes == CowState.Entry(m.cow, id).processes + {parent, child}
  {
    hide Clone, SharePresent, CowState.ShareAll, PresentIds, CowState.Valid, CowState.Entry;
    CowState.ShareAllValid(m.cow, PresentIds(m.tables[parent]), parent, child);
    CowState.ShareAllRegisters(m.cow, PresentIds(m.tables[parent]), parent, child, id);
  }

  lemma ForkSettings<S>(m: Mem<S>, parent: Pid, child: Pid, n: nat)
    requires Plain(m, n)
    ensures Plain(Fork(m, parent, child).mem, n)
  {
    hide Clone, SharePresent, CowState.ShareAll, PresentIds;
  }

  /** p's next write makes a second copy, but files it under the first copy's number: page 0 of p still maps
      the frame that d maps. */
  lemma ThenWriteAgain<S(!new)>(pol: Policy<S>, m: Mem<S>, id: nat, now: int)
    requires Lawful(pol) && Plain(m, 3) && id != 0 && m.Has(P, 0) && m.tables[P] == map[0 := CopyOf(id).MakeShared()]
    requires m.Has(D, 0) && m.tables[D][0].present && m.tables[D][0].frame == 1 && m.metrics.evictions == 0
    requires CowState.Valid(m.cow) && CowState.Entry(m.cow, id).processes == {P, D}
    requires !m.frames[0].free && !m.frames[1].free && m.frames[2].free
    ensures var r := Access(pol, m, P, 0, true, now);
            r.ok && r.mem.metrics.evictions == 0 && r.mem.Maps(P, 0, 1) && r.mem.Maps(D, 0, 1) && r.mem.Maps(P, id, 2)
  {
    hide Access, CowState.HandleWrite, FastHit, CowState.Valid, CowState.Entry, Lawful, Prepared, FinishWrite, MakeCopy;
    assert P != D;
    WriteIs(pol, m, P, 1, now);
    HitKeeps(pol, m, 3, 1, now);
    FirstOfTwo(m.cow, id, D);
    var h := FastHit(pol, m, 1, true, now);
    var (cow, verdict) := CowState.HandleWrite(h.cow, id, P, true);
    var c := cow.(created := cow.created + 1);
    assert FirstFree(h.frames, 0, 3) == Some(2);
    FinishIs(pol, h, cow, P, 0, verdict, now);
    CopyGoesTo(pol, h.(cow := c), 3, 2, 0, CopyOf(id).MakeShared(), verdict.newId, now);
  }

  /** Create, read, fork, write, fork again, write again: no access fails and nothing is evicted, yet after its
      last write p still shares the written page's frame with d. */
  lemma ForkedCopyStaysShared<S(!new)>(pol: Policy<S>, start: S, t1: int, t2: int, t3: int, t4: int, t5: int, t6: int)
    requires Lawful(pol) && NoTarget(pol)
    ensures var m := History(pol, start, 3, COPIED, [t1] + [t2] + [t3] + [t4]);
            var f := Perform(pol, m, ForkTo(P, D), t5);
            var r := Perform(pol, f.mem, Touch(P, 0, true), t6);
            && f.ok && r.ok && r.mem.metrics.evictions == 0
            && r.mem.Maps(P, 0, 1) && r.mem.Maps(D, 0, 1)
  {
    hide History, Calm, Access, Fork, CowState.Valid, CowState.Entry, Lawful, NoTarget;
    CopiedRun(pol, start, t1, t2, t3, t4);
    var m := History(pol, start, 3, COPIED, [t1] + [t2] + [t3] + [t4]);
    var id := m.tables[P][0].id;
    ForkCopyTables(m, id);
    ForkShares(m, P, D, id);
    ForkSettings(m, P, D, 3);
    assert CowState.Entry(m.cow, id).processes == {};
    assert {} + {P, D} == {P, D};
    ThenWriteAgain(pol, Fork(m, P, D).mem, id, t6);
  }

  // ---- The eviction of a frame that another process maps ----

  const CROWDED := SHARED + [Spawn(Q)] + [Touch(Q, 0, false)]

  /** p's page has lost the only frame to q's, but c's page still maps it; p and c are on record as sharers. */
  ghost predicate Crowded<S>(m: Mem<S>) {
    && Plain(m, 1) && !m.frames[0].free
    && m.tables == map[P := map[0 := PARENTS.SetFrame(-1)], C := map[0 := PARENTS], Q := map[0 := OWN]]
    && CowState.Valid(m.cow) && CowState.Entry(m.cow, 0).processes == {P, C}
  }

  lemma CrowdedRun<S(!new)>(pol: Policy<S>, start: S, t1: int, t2: int, t3: int, t4: int, t5: int)
    requires Lawful(pol) && NoTarget(pol)
    ensures Crowded(History(pol, start, 1, CROWDED, [t1] + [t2] + [t3] + [t4] + [t5]))
  {
    hide Access, CowState.Valid, CowState.Entry, Lawful, NoTarget, History, Calm;
    var three := [t1] + [t2] + [t3];
    SharedRun(pol, start, 1, t1, t2, t3);
    HistorySnoc(pol, start, 1, SHARED, three, Spawn(Q), t4);
    HistorySnoc(pol, start, 1, SHARED + [Spawn(Q)], three + [t4], Touch(Q, 0, false), t5);
    var m := History(pol, start, 1, SHARED, three);
    assert P != Q && C != Q;
    var m1 := Create(m, Q).mem;
    assert m1.tables == map[P := map[0 := PARENTS], C := map[0 := PARENTS], Q := map[]];
    ReadEvicting(pol, m1, t5);
  }

  /** Create, read, fork, create another process, let it read: with one frame, c and q map the same frame. */
  lemma EvictionBreaksSharing<S(!new)>(pol: Policy<S>, start: S, t1: int, t2: int, t3: int, t4: int, t5: int)
    requires Lawful(pol) && NoTarget(pol)
    ensures var m := History(pol, start, 1, CROWDED, [t1] + [t2] + [t3] + [t4] + [t5]);
            m.Maps(C, 0, 0) && m.Maps(Q, 0, 0) && !m.tables[Q][0].shared && !Isolated(m)
  {
    CrowdedRun(pol, start, t1, t2, t3, t4, t5);
    hide History, Lawful, NoTarget, CowState.Valid, CowState.Entry;
    assert P != Q && C != Q && P != C;
    assert !PairSafe(History(pol, start, 1, CROWDED, [t1] + [t2] + [t3] + [t4] + [t5]), Q, 0, C, 0);
  }

  // ---- The removal of a process whose frame another one maps ----

  const ORPHANED := SHARED + [Kill(P)] + [Spawn(Q)] + [Touch(Q, 0, false)]

  /** p is gone and its frame free, but c's page still maps it. */
  lemma ThenKill<S>(m: Mem<S>)
    requires Plain(m, 1) && Forked(m) && !m.frames[0].free
    ensures var r := Remove(m, P).mem; Plain(r, 1) && r.tables == map[C := map[0 := PARENTS]] && r.frames[0].free
  {
    hide CowState.DropEverywhere, CowState.Valid, CowState.Entry;
    assert P != C;
    assert m.tables[P][0].frame == 0 && HoldsFrame(m.tables[P], 0);
    assert m.tables - {P} == map[C := map[0 := PARENTS]];
  }

  /** Create, read, fork, remove the parent, create another process, let it read: c and q map the same frame. */
  lemma RemovalBreaksSharing<S(!new)>(pol: Policy<S>, start: S, t1: int, t2: int, t3: int, t4: int, t5: int, t6: int)
    requires Lawful(pol) && NoTarget(pol)
    ensures var m := History(pol, start, 1, ORPHANED, [t1] + [t2] + [t3] + [t4] + [t5] + [t6]);
            m.Maps(C, 0, 0) && m.Maps(Q, 0, 0) && !m.tables[Q][0].shared && !Isolated(m)
  {
    hide Access, CowState.Valid, CowState.Entry, Lawful, NoTarget, History, Calm, Remove;
    var three := [t1] + [t2] + [t3];
    SharedRun(pol, start, 1, t1, t2, t3);
    HistorySnoc(pol, start, 1, SHARED, three, Kill(P), t4);
    HistorySnoc(pol, start, 1, SHARED + [Kill(P)], three + [t4], Spawn(Q), t5);
    HistorySnoc(pol, start, 1, SHARED + [Kill(P)] + [Spawn(Q)], three + [t4] + [t5], Touch(Q, 0, false), t6);
    var m := History(pol, start, 1, SHARED, three);
    ThenKill(m);
    var m1 := Remove(m, P).mem;
    assert C != Q;
    var m2 := Create(m1, Q).mem;
    assert m2.tables == map[C := map[0 := PARENTS], Q := map[]];
    assert FirstFree(m2.frames, 0, 1) == Some(0);
    ReadFree(pol, m2, 1, 0, Q, t6);
    assert !PairSafe(Access(pol, m2, Q, 0, false, t6).mem, Q, 0, C, 0);
  }

  // ---- A write that finds no frame for its copy ----

  const STRANDED := SHARED + [SetPin(0, true)] + [Touch(P, 0, true)]

  /** Create, read, fork, pin the only frame, let p write: the write fails, p is off the record, and c's next
      write makes the frame c's own although p's page still maps it. */
  lemma FailedWriteBreaksSharing<S(!new)>(pol: Policy<S>, start: S, t1: int, t2: int, t3: int, t4: int, t5: int,
                                          now: int)
    requires Lawful(pol) && NoTarget(pol)
    ensures var m := History(pol, start, 1, STRANDED, [t1] + [t2] + [t3] + [t4] + [t5]);
            var r := Access(pol, m, C, 0, true, now);
            && !Isolated(m) && r.ok
            && r.mem.Maps(P, 0, 0) && r.mem.Maps(C, 0, 0) && !r.mem.tables[C][0].shared
  {
    hide Access, CowState.Valid, CowState.Entry, Lawful, NoTarget, History, Calm, Isolated;
    var three := [t1] + [t2] + [t3];
    SharedRun(pol, start, 1, t1, t2, t3);
    HistorySnoc(pol, start, 1, SHARED, three, SetPin(0, true), t4);
    HistorySnoc(pol, start, 1, SHARED + [SetPin(0, true)], three + [t4], Touch(P, 0, true), t5);
    var m := PinFrame(History(pol, start, 1, SHARED, three), 0, true).mem;
    ThenFailedWrite(pol, m, t5);
    var r := Access(pol, m, P, 0, true, t5).mem;
    OffTheRecord(r);
    ThenLastWrite(pol, r, now);
  }

  lemma ThenFailedWrite<S(!new)>(pol: Policy<S>, m: Mem<S>, now: int)
    requires Lawful(pol) && Plain(m, 1) && Forked(m) && AllPinned(m.frames)
    ensures var r := Access(pol, m, P, 0, true, now);
            && !r.ok && Plain(r.mem, 1) && r.mem.tables == m.tables
            && CowState.Valid(r.mem.cow) && CowState.Entry(r.mem.cow, 0).processes == {C}
  {
    hide Access, FastHit, Lawful, FinishWrite, FreeSlot, CowState.HandleWrite, CowState.Valid, CowState.MustCopy,
         CowState.Entry, Prepared;
    assert P != C;
    WriteIs(pol, m, P, 0, now);
    HitKeeps(pol, m, 1, 0, now);
    FastHitLeaves(pol, m, 0, true, now);
    FirstOfTwo(m.cow, 0, C);
    var h := FastHit(pol, m, 0, true, now);
    var (cow, verdict) := CowState.HandleWrite(m.cow, 0, P, true);
    var c := cow.(created := cow.created + 1);
    CreatedIrrelevant(cow, c);
    FinishIs(pol, h, cow, P, 0, verdict, now);
    var m1 := h.(cow := c);
    NoSlot(pol, m1, FirstFree(m1.frames, 0, 1), now);
    NoSlotIs(pol, m1, now);
  }

  /** Two pages map the frame, and one of their processes is not on record. */
  lemma OffTheRecord<S>(m: Mem<S>)
    requires m.tables == map[P := map[0 := PARENTS], C := map[0 := PARENTS]]
    requires CowState.Entry(m.cow, 0).processes == {C}
    ensures !Isolated(m)
  {
    assert P != C;
    assert !PairSafe(m, P, 0, C, 0);
  }

  lemma NoSlotIs<S(!new)>(pol: Policy<S>, m: Mem<S>, now: int)
    requires Lawful(pol) && FirstFree(m.frames, 0, |m.frames|).None?
    ensures var (r, slot) := FreeSlot(pol, m, None, now);
            slot.None? ==> r == m.(frames := r.frames, policy := r.policy) && |r.frames| == |m.frames|
  {
    hide Evict, Lawful;
  }

  lemma ThenLastWrite<S(!new)>(pol: Policy<S>, m: Mem<S>, now: int)
    requires Lawful(pol) && Plain(m, 1) && m.tables == map[P := map[0 := PARENTS], C := map[0 := PARENTS]]
    requires CowState.Valid(m.cow) && CowState.Entry(m.cow, 0).processes == {C}
    ensures var r := Access(pol, m, C, 0, true, now);
            r.ok && r.mem.Maps(P, 0, 0) && r.mem.Maps(C, 0, 0) && !r.mem.tables[C][0].shared
  {
    assert P != C;
    WriteIs(pol, m, C, 0, now);
    HitKeeps(pol, m, 1, 0, now);
    assert |{C}| == 1;
    assert !CowState.MustCopy(m.cow, 0, C);
    CowState.CopiesIffSeveral(m.cow, 0, C, true);
    hide Access, FastHit, Lawful, FinishWrite, CowState.HandleWrite, CowState.Valid, CowState.MustCopy, CowState.Entry;
    var h := FastHit(pol, m, 0, true, now);
    var (cow, verdict) := CowState.HandleWrite(m.cow, 0, C, true);
    FinishIs(pol, h, cow, C, 0, verdict, now);
  }

  // ---- A lost load ----

  const LOSING := CROWDED + [SetPin(0, true)] + [Kill(Q)] + [Touch(P, 0, true)]

  lemma KillLeavesOthers(c: CowState.Cow, id: nat)
    requires CowState.Valid(c) && CowState.Entry(c, id).processes == {P, C}
    ensures var d := CowState.DropEverywhere(c, c.shared.Keys, Q);
            CowState.Valid(d) && CowState.Entry(d, id).processes == {P, C}
  {
    hide CowState.DropEverywhere, CowState.Valid, CowState.Entry;
    CowState.DropEverywhereValid(c, c.shared.Keys, Q);
    CowState.DropEverywhereLeaves(c, c.shared.Keys, Q, id);
    assert {P, C} - {Q} == {P, C};
  }

  lemma ThenKillOther<S>(m: Mem<S>)
    requires Crowded(m)
    ensures var r := Remove(m, Q).mem;
            && |r.frames| == 1 && r.frames[0].free && r.frames[0].pinned == m.frames[0].pinned
            && r.Has(P, 0) && r.tables[P][0] == PARENTS.SetFrame(-1)
            && CowState.Valid(r.cow) && CowState.Entry(r.cow, 0).processes == {P, C}
  {
    hide CowState.DropEverywhere, CowState.Valid, CowState.Entry;
    KillLeavesOthers(m.cow, 0);
    assert P != Q && C != Q && P != C;
    assert m.tables[Q][0] == OWN;
    assert HoldsFrame(m.tables[Q], 0);
  }

  lemma LastFrameLost<S>(m: Mem<S>)
    requires |m.frames| == 1 && m.frames[0].free && m.frames[0].pinned
    requires m.Has(P, 0) && m.tables[P][0] == PARENTS.SetFrame(-1)
    requires CowState.Valid(m.cow) && CowState.Entry(m.cow, 0).processes == {P, C}
    ensures Conservation.AccessLosesLoad(m, P, 0, true)
  {
    FirstOfTwo(m.cow, 0, C);
    hide CowState.HandleWrite, CowState.Valid, CowState.MustCopy;
    assert P != C;
    assert OneFree(m.frames) && LastFrame(m.frames);
  }

  /** The eviction of p's page, a pin, the removal of q and a write by p: with one frame the page takes it, the
      copy finds none, the load is not counted and the counters no longer balance. */
  lemma LoadLost<S(!new)>(pol: Policy<S>, start: S, t1: int, t2: int, t3: int, t4: int, t5: int, t6: int, t7: int,
                          t8: int)
    requires Lawful(pol) && NoTarget(pol)
    ensures var times := [t1] + [t2] + [t3] + [t4] + [t5] + [t6] + [t7] + [t8];
            && Conservation.LostLoads(pol, start, 1, LOSING, times) > 0
            && !Conservation.Balanced(pol, start, 1, LOSING, times)
  {
    hide Access, CowState.Valid, CowState.Entry, Lawful, NoTarget, History, Remove, Conservation.AccessLosesLoad,
         Conservation.LostLoads, Crowded;
    CrowdedRun(pol, start, t1, t2, t3, t4, t5);
    var five := [t1] + [t2] + [t3] + [t4] + [t5];
    HistorySnoc(pol, start, 1, CROWDED, five, SetPin(0, true), t6);
    HistorySnoc(pol, start, 1, CROWDED + [SetPin(0, true)], five + [t6], Kill(Q), t7);
    var m := History(pol, start, 1, CROWDED, five);
    ThenPin(m);
    ThenKillOther(PinFrame(m, 0, true).mem);
    LastFrameLost(Remove(PinFrame(m, 0, true).mem, Q).mem);
    Conservation.LostLoadsSnoc(pol, start, 1, CROWDED + [SetPin(0, true)] + [Kill(Q)], five + [t6] + [t7],
                               Touch(P, 0, true), t8);
    Conservation.FramesAreConserved(pol, start, 1, LOSING, five + [t6] + [t7] + [t8]);
  }

  lemma ThenPin<S>(m: Mem<S>)
    requires Crowded(m)
    ensures var r := PinFrame(m, 0, true).mem; Crowded(r) && r.frames[0].pinned
  {
  }

  // ---- A fork to a process that lives ----

  const REFORKED := [Spawn(P)] + [Spawn(C)] + [Touch(C, 0, false)] + [ForkTo(P, C)]

  function Cached0(now: int): map<string, Tlb.Entry> {
    map[Tlb.MakeKey(C, 0) := Tlb.Entry(C, 0, 0, true, now)]
  }

  lemma FirstLoadCaches<S(!new)>(pol: Policy<S>, m: Mem<S>, capacity: int, now: int)
    requires Lawful(pol) && !m.compression && m.Has(C, 0) && m.tables[C][0].id == 0 && PickFree(m, C) == Some(0)
    ensures TlbSteps.Faulting(pol, m, map[], Cached0(now), capacity, C, 0, false, now)
  {
    EmptyLearns(capacity, now);
    hide Attach, Lawful, PickFree, Tlb.MakeKey, TlbSteps.Learned, Load, Cached0;
    assert TlbSteps.Loading(pol, m, map[], Cached0(now), capacity, C, 0, now);
    hide TlbSteps.Loading;
  }

  lemma FirstMissCaches<S(!new)>(pol: Policy<S>, m: Mem<S>, capacity: int, now: int)
    requires Lawful(pol) && NoTarget(pol) && !m.compression && !m.clustering
    requires m.Has(C, 0) && m.tables[C][0].id == 0 && PickFree(m, C) == Some(0)
    ensures TlbSteps.Missing(pol, m, map[], Cached0(now), capacity, C, 0, false, now)
  {
    assert NoTarget(pol);
    FirstLoadCaches(pol, m, capacity, now);
    hide Lawful, PickFree, TlbSteps.Faulting, Fault, Cached0;
    var f := Fault(pol, m, C, 0, false, now);
    assert f.ok ==> TlbSteps.Following(pol, f.mem, Cached0(now), Cached0(now), capacity, C, now);
  }

  /** The first read of a process fills an empty TLB. */
  lemma FirstReadCaches<S(!new)>(pol: Policy<S>, m: Mem<S>, n: nat, capacity: int, now: int)
    requires Lawful(pol) && NoTarget(pol) && Plain(m, n) && n > 0 && m.frames[0].free
    requires C in m.tables && m.tables[C] == map[]
    ensures TlbSteps.TlbStep(pol, m, map[], Cached0(now), capacity, Touch(C, 0, false), now)
  {
    FirstRecord(m, C);
    var m1 := Prepared(m, C, 0);
    assert PickFree(m1, C) == Some(0);
    hide Prepared, Lawful, PickFree, Tlb.MakeKey, NoTarget, Cached0, TlbSteps.Missing;
    FirstMissCaches(pol, m1, capacity, now);
  }

  lemma EmptyMisses<S(!new)>(pol: Policy<S>, m: Mem<S>, now: int)
    requires Lawful(pol)
    ensures Transparency.CachedStep(pol, m, map[], Touch(C, 0, false), now) == Access(pol, m, C, 0, false, now).mem
  {
    hide Access, Tlb.MakeKey;
  }

  lemma EmptyLearns(capacity: int, now: int)
    ensures TlbSteps.Learned(map[], Cached0(now), capacity, C, 0, 0, now)
  {
    assert Tlb.MadeRoom(map[], map[], capacity);
  }

  /** A fork replaces the tables of a child that lives already, but not what the TLB holds for it: from then on
      the TLB disagrees, and the child reads a page that it no longer has. */
  lemma ForkLeavesStaleEntry<S(!new)>(pol: Policy<S>, start: S, n: nat, capacity: int, t1: int, t2: int, t3: int,
                                      t4: int)
    requires Lawful(pol) && NoTarget(pol) && n > 0
    ensures var tlbs := [map[]] + [map[]] + [map[]] + [Cached0(t3)] + [Cached0(t3)];
            var times := [t1] + [t2] + [t3] + [t4];
            && TlbRuns.Produced(pol, start, n, REFORKED, times, tlbs, capacity)
            && var m := Transparency.CachedHistory(pol, start, n, REFORKED, times, tlbs[..4]);
               && !Transparency.TlbAgrees(tlbs[4], m)
               && Transparency.Cached(tlbs[4], m, C, 0) && C in m.tables && !m.Has(C, 0)
  {
    hide Access, Fork, Lawful, NoTarget, TlbSteps.TlbStep, Transparency.CachedStep, Tlb.MakeKey;
    var e: map<string, Tlb.Entry> := map[];
    var m0: Mem<S> := Boot(n, start);
    var m1 := Create(m0, P).mem;
    var m2 := Create(m1, C).mem;
    var m3 := Access(pol, m2, C, 0, false, t3).mem;
    var m4 := Fork(m3, P, C).mem;
    ReadFree(pol, m2, n, 0, C, t3);
    FirstReadCaches(pol, m2, n, capacity, t3);
    EmptyMisses(pol, m2, t3);
    QuietStep(pol, m0, e, capacity, Spawn(P), t1);
    QuietStep(pol, m1, e, capacity, Spawn(C), t2);
    QuietStep(pol, m3, Cached0(t3), capacity, ForkTo(P, C), t4);
    RunBegins(pol, start, n, capacity);
    CachedSnoc(pol, start, n, [], [], [e], e, capacity, Spawn(P), t1);
    CachedSnoc(pol, start, n, [Spawn(P)], [t1], [e] + [e], e, capacity, Spawn(C), t2);
    CachedSnoc(pol, start, n, [Spawn(P)] + [Spawn(C)], [t1] + [t2], [e] + [e] + [e], Cached0(t3), capacity,
               Touch(C, 0, false), t3);
    CachedSnoc(pol, start, n, [Spawn(P)] + [Spawn(C)] + [Touch(C, 0, false)], [t1] + [t2] + [t3],
               [e] + [e] + [e] + [Cached0(t3)], Cached0(t3), capacity, ForkTo(P, C), t4);
    StaleAfterFork(m3, t3);
  }

  lemma StaleAfterFork<S>(m: Mem<S>, now: int)
    requires P in m.tables && m.tables[P] == map[] && |m.frames| > 0
    ensures var r := Fork(m, P, C).mem;
            && !Transparency.TlbAgrees(Cached0(now), r) && Transparency.Cached(Cached0(now), r, C, 0)
            && C in r.tables && !r.Has(C, 0)
  {
    assert Cached0(now)[Tlb.MakeKey(C, 0)].processId == C;
    hide CowState.ShareAll;
  }

  lemma QuietStep<S(!new)>(pol: Policy<S>, m: Mem<S>, t: map<string, Tlb.Entry>, capacity: int, op: Op, now: int)
    requires Lawful(pol) && (op.Spawn? || op.ForkTo?)
    ensures TlbSteps.TlbStep(pol, m, t, t, capacity, op, now)
    ensures Transparency.CachedStep(pol, m, t, op, now) == Perform(pol, m, op, now).mem
  {
  }

  lemma RunBegins<S(!new)>(pol: Policy<S>, start: S, n: nat, capacity: int)
    requires Lawful(pol)
    ensures TlbRuns.Produced(pol, start, n, [], [], [map[]], capacity)
    ensures Transparency.CachedHistory(pol, start, n, [], [], []) == Boot(n, start)
  {
  }

  /** One more operation of a run with a TLB. */
  lemma CachedSnoc<S(!new)>(pol: Policy<S>, start: S, n: nat, ops: seq<Op>, times: seq<int>,
                            tlbs: seq<map<string, Tlb.Entry>>, t: map<string, Tlb.Entry>, capacity: int,
                            op: Op, now: int)
    requires Lawful(pol) && |times| == |ops| && |tlbs| == |ops| + 1
    requires TlbRuns.Produced(pol, start, n, ops, times, tlbs, capacity)
    requires var m := Transparency.CachedHistory(pol, start, n, ops, times, tlbs[..|ops|]);
             TlbSteps.TlbStep(pol, m, tlbs[|ops|], t, capacity, op, now)
    ensures TlbRuns.Produced(pol, start, n, ops + [op], times + [now], tlbs + [t], capacity)
    ensures Transparency.CachedHistory(pol, start, n, ops + [op], times + [now], (tlbs + [t])[..|ops| + 1])
            == Transparency.CachedStep(pol, Transparency.CachedHistory(pol, start, n, ops, times, tlbs[..|ops|]),
                                       tlbs[|ops|], op, now)
  {
    assert (ops + [op])[..|ops|] == ops && (times + [now])[..|times|] == times;
    assert (tlbs + [t])[..|ops| + 1] == tlbs && tlbs[..|ops|] == (tlbs + [t])[..|ops|];
    hide TlbSteps.TlbStep, Transparency.CachedStep, Lawful;
  }
}
