/** What WalkPages (internal/memory/multilevel_pt.go) reports, as a property of the two-layer map: every
    visible mapping once, in ascending address order. */
module TableWalk {
  import opened Prelude
  import opened TwoLayerMap

  /** One call of WalkPages' callback. */
  datatype Visit = Visit(address: nat, frame: int, huge: bool)

  function Get<K, V>(m: map<K, V>, k: K): Option<V> {
    if k in m then Some(m[k]) else None
  }

  /** The mapping is there, not shadowed, and reported at its first address. */
  predicate Visible(t: TwoLayer, x: Visit) {
    && x.address < ADDRESS_LIMIT
    && if x.huge then x.address % L2_SPAN == 0 && Get(t.huge, RegionAt(x.address)) == Some(x.frame)
       else && x.address % L1_SPAN == 0 && RegionAt(x.address) !in t.huge
            && Get(t.small, Indices(x.address)) == Some(x.frame)
  }

  ghost predicate Ascending(out: seq<Visit>) {
    forall i, j :: 0 <= i < j < |out| ==> out[i].address < out[j].address
  }

  /** Exactly the visible mappings with addresses in [lo, hi), in strictly ascending order. */
  ghost predicate Lists(out: seq<Visit>, t: TwoLayer, lo: nat, hi: nat) {
    && Ascending(out)
    && forall x :: x in out <==> lo <= x.address < hi && Visible(t, x)
  }

  lemma ListsConcat(a: seq<Visit>, b: seq<Visit>, t: TwoLayer, lo: nat, mid: nat, hi: nat)
    requires lo <= mid <= hi && Lists(a, t, lo, mid) && Lists(b, t, mid, hi)
    ensures Lists(a + b, t, lo, hi)
  {
    var c := a + b;
    assert forall i :: 0 <= i < |c| ==> c[i] == if i < |a| then a[i] else b[i - |a|];
    forall i, j | 0 <= i < j < |c| ensures c[i].address < c[j].address {
      assert i < |a| ==> a[i] in a;
      assert j >= |a| ==> b[j - |a|] in b;
    }
  }

  lemma ListsNothing(t: TwoLayer, lo: nat, hi: nat)
    requires forall x: Visit :: lo <= x.address < hi ==> !Visible(t, x)
    ensures Lists([], t, lo, hi)
  {
  }

  // ---- Addresses of slots, regions and whole tables ----

  function Base2(r: Region): nat {
    r.l4 * L4_SPAN + r.l3 * L3_SPAN + r.l2 * L2_SPAN
  }

  function Base3(l4: nat, l3: nat): nat {
    l4 * L4_SPAN + l3 * L3_SPAN
  }

  predicate RegionOk(r: Region) {
    r.l4 < ENTRIES && r.l3 < ENTRIES && r.l2 < ENTRIES
  }

  predicate SlotOk(s: Slot) {
    RegionOk(RegionOf(s)) && s.l1 < ENTRIES
  }

  lemma InTable3(l4: nat, a: nat)
    requires l4 < ENTRIES && l4 * L4_SPAN <= a < (l4 + 1) * L4_SPAN
    ensures Indices(a).l4 == l4 && a < ADDRESS_LIMIT
  {
  }

  lemma InTable2(l4: nat, l3: nat, a: nat)
    requires l4 < ENTRIES && l3 < ENTRIES && Base3(l4, l3) <= a < Base3(l4, l3) + L3_SPAN
    ensures Indices(a).l4 == l4 && Indices(a).l3 == l3 && a < ADDRESS_LIMIT
  {
    InTable3(l4, a);
    assert a / L3_SPAN == l4 * 512 + l3;
  }

  lemma InRegion(r: Region, a: nat)
    requires RegionOk(r) && Base2(r) <= a < Base2(r) + L2_SPAN
    ensures RegionAt(a) == r && a < ADDRESS_LIMIT
    ensures a % L2_SPAN == 0 <==> a == Base2(r)
  {
    InTable2(r.l4, r.l3, a);
    assert a / L2_SPAN == (r.l4 * 512 + r.l3) * 512 + r.l2;
  }

  lemma InSlot(s: Slot, a: nat)
    requires SlotOk(s) && Address(s) <= a < Address(s) + L1_SPAN
    ensures Indices(a) == s && a < ADDRESS_LIMIT
    ensures a % L1_SPAN == 0 <==> a == Address(s)
  {
    InRegion(RegionOf(s), a);
    assert a / L1_SPAN == ((s.l4 * 512 + s.l3) * 512 + s.l2) * 512 + s.l1;
  }

  // ---- One step of each loop ----

  /** A 4 KB slot of a region that is not huge. */
  lemma SlotStep(t: TwoLayer, s: Slot)
    requires SlotOk(s) && RegionOf(s) !in t.huge
    ensures Lists(if s in t.small then [Visit(Address(s), t.small[s], false)] else [],
                  t, Address(s), Address(s) + L1_SPAN)
  {
    forall x: Visit | Address(s) <= x.address < Address(s) + L1_SPAN
      ensures Visible(t, x) <==> s in t.small && x == Visit(Address(s), t.small[s], false)
    {
      InSlot(s, x.address);
    }
    InSlot(s, Address(s));
  }

  lemma HugeStep(t: TwoLayer, r: Region)
    requires RegionOk(r) && r in t.huge
    ensures Lists([Visit(Base2(r), t.huge[r], true)], t, Base2(r), Base2(r) + L2_SPAN)
  {
    forall x: Visit | Base2(r) <= x.address < Base2(r) + L2_SPAN
      ensures Visible(t, x) <==> x == Visit(Base2(r), t.huge[r], true)
    {
      InRegion(r, x.address);
    }
    InRegion(r, Base2(r));
  }

  /** A region with neither a huge page nor a level-1 table. */
  lemma EmptyRegion(t: TwoLayer, r: Region)
    requires RegionOk(r) && r !in t.huge && forall s :: s in t.small ==> RegionOf(s) != r
    ensures Lists([], t, Base2(r), Base2(r) + L2_SPAN)
  {
    forall x: Visit | Base2(r) <= x.address < Base2(r) + L2_SPAN ensures !Visible(t, x) {
      InRegion(r, x.address);
    }
  }

  lemma EmptyTable2(t: TwoLayer, l4: nat, l3: nat)
    requires l4 < ENTRIES && l3 < ENTRIES
    requires forall s :: s in t.small ==> s.l4 != l4 || s.l3 != l3
    requires forall r :: r in t.huge ==> r.l4 != l4 || r.l3 != l3
    ensures Lists([], t, Base3(l4, l3), Base3(l4, l3) + L3_SPAN)
  {
    forall x: Visit | Base3(l4, l3) <= x.address < Base3(l4, l3) + L3_SPAN ensures !Visible(t, x) {
      InTable2(l4, l3, x.address);
    }
  }

  lemma EmptyTable3(t: TwoLayer, l4: nat)
    requires l4 < ENTRIES
    requires forall s :: s in t.small ==> s.l4 != l4
    requires forall r :: r in t.huge ==> r.l4 != l4
    ensures Lists([], t, l4 * L4_SPAN, (l4 + 1) * L4_SPAN)
  {
    forall x: Visit | l4 * L4_SPAN <= x.address < (l4 + 1) * L4_SPAN ensures !Visible(t, x) {
      InTable3(l4, x.address);
    }
  }

  // ---- What a complete list says about lookups ----

  /** A visit's address leads back to its slot, and a lookup there returns the same mapping. */
  lemma VisitIsLookup(t: TwoLayer, x: Visit)
    requires Visible(t, x)
    ensures t.Lookup(x.address) == Some(x.frame)
    ensures x.huge ==> Base2(RegionAt(x.address)) == x.address
    ensures !x.huge ==> Address(Indices(x.address)) == x.address
  {
    IndicesDecompose(x.address);
  }

  /** Every address that a lookup resolves is covered by exactly one visit. */
  lemma LookupIsVisited(t: TwoLayer, out: seq<Visit>, va: nat)
    requires Lists(out, t, 0, ADDRESS_LIMIT) && va < ADDRESS_LIMIT && t.Lookup(va).Some?
    ensures exists k :: 0 <= k < |out| && Covers(out[k], va) && out[k].frame == t.Lookup(va).value
    ensures forall j, k :: 0 <= j < |out| && 0 <= k < |out| && Covers(out[j], va) && Covers(out[k], va) ==> j == k
  {
    var huge := RegionAt(va) in t.huge;
    var a := if huge then va / L2_SPAN * L2_SPAN else va / L1_SPAN * L1_SPAN;
    IndicesInjective(a, va);
    if !huge {
      assert a / L2_SPAN == va / L2_SPAN;
    }
    var x := Visit(a, t.Lookup(va).value, huge);
    assert Visible(t, x);
    assert x in out;
    forall j, k | 0 <= j < |out| && 0 <= k < |out| && Covers(out[j], va) && Covers(out[k], va) ensures j == k {
      CoverIsUnique(t, out[j], out[k], va);
    }
  }

  predicate Covers(x: Visit, va: nat) {
    x.address <= va < x.address + (if x.huge then L2_SPAN else L1_SPAN)
  }

  lemma CoverIsUnique(t: TwoLayer, x: Visit, y: Visit, va: nat)
    requires Visible(t, x) && Visible(t, y) && Covers(x, va) && Covers(y, va)
    ensures x == y
  {
    CoverIsHome(t, x, va);
    CoverIsHome(t, y, va);
  }

  lemma CoverIsHome(t: TwoLayer, x: Visit, va: nat)
    requires Visible(t, x) && Covers(x, va) && va < ADDRESS_LIMIT
    ensures RegionAt(x.address) == RegionAt(va)
    ensures x.address == if RegionAt(va) in t.huge then va / L2_SPAN * L2_SPAN else va / L1_SPAN * L1_SPAN
    ensures x.huge <==> RegionAt(va) in t.huge
    ensures Some(x.frame) == t.Lookup(va)
  {
    if x.huge {
      assert x.address / L2_SPAN == va / L2_SPAN;
    } else {
      assert x.address / L1_SPAN == va / L1_SPAN;
      assert x.address / L2_SPAN == va / L2_SPAN;
    }
    IndicesInjective(x.address, va);
  }
}
