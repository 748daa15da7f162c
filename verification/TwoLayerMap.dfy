/** The 4-level page table seen from outside (internal/memory/multilevel_pt.go): a map of 2 MB
    regions laid over a map of 4 KB pages. Shifts and masks of addresses are written as division
    and remainder. */
module TwoLayerMap {
  import opened Prelude

  const ENTRIES := 512
  const L4_SPAN := 0x80_0000_0000 // 2^39
  const L3_SPAN := 0x4000_0000    // 2^30
  const L2_SPAN := 0x20_0000      // 2^21
  const L1_SPAN := 0x1000         // 2^12
  const ADDRESS_LIMIT := 0x1_0000_0000_0000 // 2^48
  const PAGE_LIMIT := 0x10_0000_0000        // 2^36

  datatype Slot = Slot(l4: nat, l3: nat, l2: nat, l1: nat)
  datatype Region = Region(l4: nat, l3: nat, l2: nat)

  function Indices(va: nat): (s: Slot)
    ensures s.l4 < ENTRIES && s.l3 < ENTRIES && s.l2 < ENTRIES && s.l1 < ENTRIES
  {
    Slot((va / L4_SPAN) % ENTRIES, (va / L3_SPAN) % ENTRIES,
         (va / L2_SPAN) % ENTRIES, (va / L1_SPAN) % ENTRIES)
  }

  function RegionOf(s: Slot): Region {
    Region(s.l4, s.l3, s.l2)
  }

  function RegionAt(va: nat): Region {
    RegionOf(Indices(va))
  }

  /** The address that WalkPages rebuilds from the four indices. */
  function Address(s: Slot): nat {
    s.l4 * L4_SPAN + s.l3 * L3_SPAN + s.l2 * L2_SPAN + s.l1 * L1_SPAN
  }

  /** Present mappings only: small pages by slot, huge pages by region. */
  datatype TwoLayer = TwoLayer(small: map<Slot, int>, huge: map<Region, int>)
  {
    function Lookup(va: nat): Option<int> {
      var s := Indices(va);
      if RegionOf(s) in huge then Some(huge[RegionOf(s)])
      else if s in small then Some(small[s])
      else None
    }

    function Set(va: nat, frame: int, isHuge: bool): TwoLayer {
      var s := Indices(va);
      if isHuge then this.(huge := huge[RegionOf(s) := frame])
      else TwoLayer(small[s := frame], huge - {RegionOf(s)})
    }

    function Invalidate(va: nat): TwoLayer {
      var s := Indices(va);
      if RegionOf(s) in huge then this.(huge := huge - {RegionOf(s)})
      else this.(small := small - {s})
    }
  }

  const EMPTY := TwoLayer(map[], map[])

  /** Below 2^48 the four 9-bit indices and the page offset determine the address. */
  lemma IndicesDecompose(va: nat)
    requires va < ADDRESS_LIMIT
    ensures Address(Indices(va)) == va / L1_SPAN * L1_SPAN
    ensures Indices(va).l4 * L4_SPAN + Indices(va).l3 * L3_SPAN + Indices(va).l2 * L2_SPAN
            == va / L2_SPAN * L2_SPAN
  {
    assert va / L4_SPAN < 512;
    assert va / L3_SPAN == va / L4_SPAN * 512 + (va / L3_SPAN) % 512 by {
      assert va / L3_SPAN / 512 == va / L4_SPAN;
    }
    assert va / L2_SPAN == va / L3_SPAN * 512 + (va / L2_SPAN) % 512 by {
      assert va / L2_SPAN / 512 == va / L3_SPAN;
    }
    assert va / L1_SPAN == va / L2_SPAN * 512 + (va / L1_SPAN) % 512 by {
      assert va / L1_SPAN / 512 == va / L2_SPAN;
    }
  }

  /** Two addresses below 2^48 share a slot exactly when they lie in one 4 KB page, and share a
      region exactly when they lie in one 2 MB page. */
  lemma IndicesInjective(a: nat, b: nat)
    requires a < ADDRESS_LIMIT && b < ADDRESS_LIMIT
    ensures Indices(a) == Indices(b) <==> a / L1_SPAN == b / L1_SPAN
    ensures RegionAt(a) == RegionAt(b) <==> a / L2_SPAN == b / L2_SPAN
  {
    IndicesDecompose(a);
    IndicesDecompose(b);
    if a / L1_SPAN == b / L1_SPAN {
      PageFixesIndices(a, b);
    }
    if a / L2_SPAN == b / L2_SPAN {
      PageFixesRegion(a, b);
    }
  }

  lemma PageFixesRegion(a: nat, b: nat)
    requires a / L2_SPAN == b / L2_SPAN
    ensures RegionAt(a) == RegionAt(b)
  {
    assert a / L3_SPAN == a / L2_SPAN / 512 && b / L3_SPAN == b / L2_SPAN / 512;
    assert a / L4_SPAN == a / L3_SPAN / 512 && b / L4_SPAN == b / L3_SPAN / 512;
  }

  lemma PageFixesIndices(a: nat, b: nat)
    requires a / L1_SPAN == b / L1_SPAN
    ensures Indices(a) == Indices(b)
  {
    assert a / L2_SPAN == a / L1_SPAN / 512 && b / L2_SPAN == b / L1_SPAN / 512;
    PageFixesRegion(a, b);
  }

  // ---- The reference: what a history of operations leaves behind ----

  datatype Change = Set(va: nat, frame: int, isHuge: bool) | Invalidate(va: nat)

  function Run(ops: seq<Change>): TwoLayer {
    if ops == [] then EMPTY
    else
      var before := Run(ops[..|ops| - 1]);
      match ops[|ops| - 1]
      case Set(va, frame, isHuge) => before.Set(va, frame, isHuge)
      case Invalidate(va) => before.Invalidate(va)
  }

  /** The huge mapping of 2 MB page r: the last operation inside r decides. */
  function HugeOf(ops: seq<Change>, r: nat): Option<int> {
    if ops == [] then None
    else
      var op := ops[|ops| - 1];
      if op.va / L2_SPAN != r then HugeOf(ops[..|ops| - 1], r)
      else if op.Set? && op.isHuge then Some(op.frame)
      else None
  }

  /** The small mapping of 4 KB page p: the last small set or unshadowed invalidation of p decides. */
  function SmallOf(ops: seq<Change>, p: nat): Option<int> {
    if ops == [] then None
    else
      var before := ops[..|ops| - 1];
      var op := ops[|ops| - 1];
      if op.va / L1_SPAN != p || (op.Set? && op.isHuge) then SmallOf(before, p)
      else if op.Set? then Some(op.frame)
      else if HugeOf(before, op.va / L2_SPAN).Some? then SmallOf(before, p)
      else None
  }

  ghost predicate Canonical(ops: seq<Change>) {
    forall k :: 0 <= k < |ops| ==> ops[k].va < ADDRESS_LIMIT
  }

  lemma {:induction false} LayersOfHistory(ops: seq<Change>, va: nat)
    requires Canonical(ops) && va < ADDRESS_LIMIT
    ensures var t := Run(ops); var s := Indices(va);
            && (if RegionOf(s) in t.huge then Some(t.huge[RegionOf(s)]) else None)
               == HugeOf(ops, va / L2_SPAN)
            && (if s in t.small then Some(t.small[s]) else None) == SmallOf(ops, va / L1_SPAN)
  {
    if ops != [] {
      var before, op := ops[..|ops| - 1], ops[|ops| - 1];
      LayersOfHistory(before, va);
      LayersOfHistory(before, op.va);
      IndicesInjective(op.va, va);
    }
  }

  /** After any history of operations on addresses below 2^48, a lookup sees the huge page that
      covers the address if one is live, and otherwise the small page: a small page shadowed by a
      huge one resurfaces when the huge one is invalidated. */
  lemma LookupAfterHistory(ops: seq<Change>, va: nat)
    requires Canonical(ops) && va < ADDRESS_LIMIT
    ensures Run(ops).Lookup(va) ==
            if HugeOf(ops, va / L2_SPAN).Some? then HugeOf(ops, va / L2_SPAN)
            else SmallOf(ops, va / L1_SPAN)
  {
    LayersOfHistory(ops, va);
  }

  /** Mapping a huge page and dropping it again gives back every small page under it. */
  lemma ShadowedPagesResurface(t: TwoLayer, hugeVa: nat, frame: int, va: nat)
    requires RegionAt(hugeVa) !in t.huge
    ensures t.Set(hugeVa, frame, true).Invalidate(hugeVa) == t
    ensures RegionAt(va) == RegionAt(hugeVa)
            ==> t.Set(hugeVa, frame, true).Lookup(va) == Some(frame)
  {
    assert (t.huge[RegionAt(hugeVa) := frame]) - {RegionAt(hugeVa)} == t.huge;
  }
}
