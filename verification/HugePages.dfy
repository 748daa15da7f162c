/** Where a huge page is: which addresses it serves, with which frame, and which it takes from others. */
module HugePages {
  import opened Prelude
  import opened Frames
  import opened TwoLayerMap
  import opened MemoryModel
  import opened Coherence
  import opened Runs
  import Processes

  const HUGE_PAGES := 0x800_0000 // 2^27, the 2 MB pages of 48-bit addresses

  /** The 2 MB page and the 4 KB page of an address, as the 48-bit table tells them apart. */
  function HugeOf(va: nat): nat {
    va / 0x20_0000 % HUGE_PAGES
  }

  function PageOf(va: nat): nat {
    va / 0x1000 % PAGE_LIMIT
  }

  lemma IndicesWrap(b: nat, k: nat)
    requires b < ADDRESS_LIMIT
    ensures Indices(b + ADDRESS_LIMIT * k) == Indices(b)
  {
    Wraps(b / L4_SPAN, k);
    Wraps(b / L3_SPAN, 512 * k);
    Wraps(b / L2_SPAN, 512 * 512 * k);
    Wraps(b / L1_SPAN, 512 * 512 * 512 * k);
  }

  /** Below 2^48 after wrapping. */
  lemma Wrapped(va: nat)
    ensures var b := va % ADDRESS_LIMIT;
            b < ADDRESS_LIMIT && Indices(va) == Indices(b) && b / L2_SPAN == HugeOf(va) && b / L1_SPAN == PageOf(va)
  {
    var b, k := va % ADDRESS_LIMIT, va / ADDRESS_LIMIT;
    assert va == b + ADDRESS_LIMIT * k;
    IndicesWrap(b, k);
    assert va / L2_SPAN == b / L2_SPAN + HUGE_PAGES * k;
    assert va / L1_SPAN == b / L1_SPAN + PAGE_LIMIT * k;
    Remainders(b / L2_SPAN, b / L1_SPAN, k);
  }

  lemma Remainders(x: nat, y: nat, k: nat)
    requires x < HUGE_PAGES && y < PAGE_LIMIT
    ensures (x + HUGE_PAGES * k) % HUGE_PAGES == x && (y + PAGE_LIMIT * k) % PAGE_LIMIT == y
  {
  }

  lemma Places(a: nat, b: nat)
    ensures RegionAt(a) == RegionAt(b) <==> HugeOf(a) == HugeOf(b)
    ensures Indices(a) == Indices(b) <==> PageOf(a) == PageOf(b)
  {
    Wrapped(a);
    Wrapped(b);
    IndicesInjective(a % ADDRESS_LIMIT, b % ADDRESS_LIMIT);
    hide Indices;
  }

  // ---- One table ----

  lemma HugeSet(t: TwoLayer, index: nat, frame: int, va: nat)
    ensures t.Set(index * L2_SPAN, frame, true).Lookup(va)
            == if HugeOf(va) == index % HUGE_PAGES then Some(frame) else t.Lookup(va)
  {
    assert index * L2_SPAN / 0x20_0000 == index;
    Places(index * L2_SPAN, va);
    hide Indices;
  }

  /** A huge page covers the 4 KB page v. */
  predicate Covered(t: TwoLayer, v: nat) {
    RegionAt(v % PAGE_LIMIT * L1_SPAN) in t.huge
  }

  /** The small page at an address, also under a huge one. */
  function Under(t: TwoLayer, va: nat): Option<int> {
    if Indices(va) in t.small then Some(t.small[Indices(va)]) else None
  }

  /** What an address resolves to after page v has been invalidated: the huge page that covers v goes, if there is
      one, and what lies under it comes back; else v alone. */
  function Without(t: TwoLayer, v: nat, va: nat): Option<int> {
    if Covered(t, v) then if HugeOf(va) == v % PAGE_LIMIT / 512 then Under(t, va) else t.Lookup(va)
    else if PageOf(va) == v % PAGE_LIMIT then None else t.Lookup(va)
  }

  lemma PageAddress(v: nat)
    ensures var e := v * L1_SPAN % WORD;
            Indices(e) == Indices(v % PAGE_LIMIT * L1_SPAN) && PageOf(e) == v % PAGE_LIMIT
            && HugeOf(e) == v % PAGE_LIMIT / 512
  {
    var u := v % PAGE_LIMIT;
    IndicesBeyondTheLimit(u, v / PAGE_LIMIT);
    assert u + PAGE_LIMIT * (v / PAGE_LIMIT) == v;
    Places(v * L1_SPAN % WORD, u * L1_SPAN);
    assert u * L1_SPAN / 0x1000 == u && u * L1_SPAN / 0x20_0000 == u / 512;
    hide Indices;
  }

  lemma InvalidatedPage(t: TwoLayer, v: nat, va: nat)
    ensures t.Invalidate(v * L1_SPAN % WORD).Lookup(va) == Without(t, v, va)
  {
    PageAddress(v);
    Places(v * L1_SPAN % WORD, va);
    hide Indices, HugeOf, PageOf;
  }

  // ---- The operation ----

  function Resolves<S>(m: Mem<S>, pid: Pid, va: nat): Option<int> {
    if pid in m.mpt then m.mpt[pid].Lookup(va) else None
  }

  /** What an eviction of frame i leaves of the translations: the page that the frame is tagged with loses its
      own, in its own process. */
  lemma EvictedResolves<S>(pol: Policy<S>, m: Mem<S>, i: nat, q: Pid, va: nat)
    requires i < |m.frames|
    ensures var f, r := m.frames[i], Evict(pol, m, i);
            && r.mpt.Keys == m.mpt.Keys
            && Resolves(r, q, va) == if q == f.processId && q in m.mpt then Without(m.mpt[q], f.pageId, va)
                                     else Resolves(m, q, va)
  {
    EvictIs(pol, m, i);
    var f := m.frames[i];
    if f.processId in m.mpt {
      InvalidatedPage(m.mpt[f.processId], f.pageId, va);
    }
    hide Evict, TwoLayer.Invalidate, TwoLayer.Lookup, Without, DropMapping;
  }

  /** The state in which a huge page's frame has been had, and the frame. */
  ghost predicate Had<S(!new)>(pol: Policy<S>, m: Mem<S>, pid: Pid, now: int, m1: Mem<S>, i: nat)
    requires Lawful(pol)
  {
    FreeSlot(pol, m, PickFree(m, pid), now) == (m1, Some(i)) && i < |m1.frames|
  }

  lemma HugeIs<S(!new)>(pol: Policy<S>, m: Mem<S>, pid: Pid, index: nat, now: int, m1: Mem<S>, i: nat)
    requires Lawful(pol) && pid in m.tables && index < HUGE_INDEX_LIMIT && Had(pol, m, pid, now, m1, i)
    ensures var r := MapHuge(pol, m, pid, index, now);
            && r.ok && i < |r.mem.frames|
            && r.mem.frames[i].SameOwner(m1.frames[i].Allocate(0x1_0000_0000 + index, pid, now))
            && r.mem.mpt == (if pid in m1.mpt then m1.mpt[pid := m1.mpt[pid].Set(index * L2_SPAN, i, true)] else m1.mpt)
            && r.mem.huge == (if pid in m1.huge then PutHuge(m1.huge, pid, index, i) else m1.huge)
  {
    hide FreeSlot, PickFree, TwoLayer.Set, PutHuge;
  }

  /** A huge page that was mapped serves exactly the addresses of its 2 MB, all with one frame, which is tagged
      with the process and the page's number and recorded for it. */
  lemma HugePageIsMapped<S(!new)>(pol: Policy<S>, m: Mem<S>, pid: Pid, index: nat, now: int) returns (i: nat)
    requires Lawful(pol) && MapHuge(pol, m, pid, index, now).ok
    ensures var r := MapHuge(pol, m, pid, index, now).mem;
            && i < |r.frames| && !r.frames[i].free
            && r.frames[i].processId == pid && r.frames[i].pageId == 0x1_0000_0000 + index
            && (pid in m.huge ==> pid in r.huge && index in r.huge[pid] && r.huge[pid][index] == i)
            && (pid in m.mpt ==> forall va: nat :: HugeOf(va) == index % HUGE_PAGES ==> Resolves(r, pid, va) == Some(i))
  {
    hide Lawful, FreeSlot, PickFree, TwoLayer.Set, TwoLayer.Lookup, HugeOf, Evict;
    var (m1, slot) := FreeSlot(pol, m, PickFree(m, pid), now);
    i := slot.value;
    HugeIs(pol, m, pid, index, now, m1, i);
    SlotKeeps(pol, m, PickFree(m, pid), now);
    if pid in m.mpt {
      forall va: nat | HugeOf(va) == index % HUGE_PAGES
        ensures Resolves(MapHuge(pol, m, pid, index, now).mem, pid, va) == Some(i)
      {
        HugeSet(m1.mpt[pid], index, i, va);
      }
    }
  }

  lemma SlotKeeps<S(!new)>(pol: Policy<S>, m: Mem<S>, free: Option<nat>, now: int)
    requires Lawful(pol)
    ensures (free.Some? ==> free.value < |m.frames|) ==>
              var r := FreeSlot(pol, m, free, now).0; r.mpt.Keys == m.mpt.Keys && r.huge == m.huge
  {
    hide Lawful, Evict;
    if free.None? {
      var (m1, victim) := Choose(pol, m, Used(m.frames), now);
      if victim.Some? {
        EvictIs(pol, m1, victim.value);
        EvictedResolves(pol, m1, victim.value, "", 0);
      }
    }
  }

  /** Every other address of every process resolves as before, but for what the eviction of a frame takes, if one
      was needed: the page that the victim was tagged with. */
  lemma OthersResolveAsBefore<S(!new)>(pol: Policy<S>, m: Mem<S>, pid: Pid, index: nat, now: int, q: Pid, va: nat)
    requires Lawful(pol) && MapHuge(pol, m, pid, index, now).ok
    requires q != pid || HugeOf(va) != index % HUGE_PAGES
    ensures var r := MapHuge(pol, m, pid, index, now).mem;
            if exists k :: 0 <= k < |m.frames| && m.frames[k].free then Resolves(r, q, va) == Resolves(m, q, va)
            else exists k :: 0 <= k < |m.frames| && m.frames[k].Evictable() && Loses(m, k, q, va, Resolves(r, q, va))
  {
    hide Lawful, FreeSlot, PickFree, TwoLayer.Set, TwoLayer.Lookup, HugeOf, Evict, Loses;
    var free := PickFree(m, pid);
    var (m1, slot) := FreeSlot(pol, m, free, now);
    HugeIs(pol, m, pid, index, now, m1, slot.value);
    if pid in m1.mpt {
      HugeSet(m1.mpt[pid], index, slot.value, va);
    }
    var r := MapHuge(pol, m, pid, index, now).mem;
    assert Resolves(r, q, va) == Resolves(m1, q, va);
    SlotResolves(pol, m, free, now, q, va);
  }

  /** In its own process the page that frame k is tagged with is invalidated; nothing else is. */
  ghost predicate Loses<S>(m: Mem<S>, k: nat, q: Pid, va: nat, after: Option<int>)
    requires k < |m.frames|
  {
    var f := m.frames[k];
    after == if q == f.processId && q in m.mpt then Without(m.mpt[q], f.pageId, va) else Resolves(m, q, va)
  }

  lemma SlotResolves<S(!new)>(pol: Policy<S>, m: Mem<S>, free: Option<nat>, now: int, q: Pid, va: nat)
    requires Lawful(pol) && (free.Some? ==> free.value < |m.frames|) && FreeSlot(pol, m, free, now).1.Some?
    ensures var (r, slot) := FreeSlot(pol, m, free, now);
            if free.Some? then r == m
            else slot.value < |m.frames| && m.frames[slot.value].Evictable()
                 && Loses(m, slot.value, q, va, Resolves(r, q, va))
  {
    hide Lawful, Evict, Without, TwoLayer.Lookup;
    if free.None? {
      var (m1, victim) := Choose(pol, m, Used(m.frames), now);
      assert m1.frames[victim.value].SameOwner(m.frames[victim.value]);
      EvictedResolves(pol, m1, victim.value, q, va);
    }
  }

  /** After any run: what was mapped for a live process is in its multi-level table and in its map of huge pages. */
  lemma HugePageAfterEveryRun<S(!new)>(pol: Policy<S>, start: S, numFrames: nat, ops: seq<Op>, times: seq<int>,
                                       pid: Pid, index: nat, now: int) returns (i: nat)
    requires Lawful(pol) && |times| == |ops|
    requires MapHuge(pol, History(pol, start, numFrames, ops, times), pid, index, now).ok
    ensures var r := MapHuge(pol, History(pol, start, numFrames, ops, times), pid, index, now).mem;
            && i < |r.frames| && !r.frames[i].free
            && r.frames[i].processId == pid && r.frames[i].pageId == 0x1_0000_0000 + index
            && pid in r.huge && index in r.huge[pid] && r.huge[pid][index] == i
            && forall va: nat :: HugeOf(va) == index % HUGE_PAGES ==> Resolves(r, pid, va) == Some(i)
  {
    hide Lawful, MapHuge, History, HugeOf, Resolves;
    var m := History(pol, start, numFrames, ops, times);
    Processes.ProcessesInEveryRun(pol, start, numFrames, ops, times);
    OnlyLive(pol, m, pid, index, now);
    i := HugePageIsMapped(pol, m, pid, index, now);
  }

  lemma OnlyLive<S(!new)>(pol: Policy<S>, m: Mem<S>, pid: Pid, index: nat, now: int)
    requires Lawful(pol) && MapHuge(pol, m, pid, index, now).ok
    ensures pid in m.tables && index < HUGE_INDEX_LIMIT
  {
  }
}
