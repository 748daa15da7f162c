/** The 4-level page table itself (internal/memory/multilevel_pt.go): tables of pointers created on
    demand and written in place. It refines the two-layer map of TwoLayerMap. */
module MultiLevelTable {
  import opened Prelude
  import opened TwoLayerMap
  import opened TableWalk

  /** Which slot of the trie an entry was made for. */
  datatype Home = SmallHome(slot: Slot) | HugeHome(region: Region)

  class PageTableEntry {
    var frameNumber: int
    var present: bool
    var hugePage: bool
    ghost const home: Home

    constructor (home: Home)
      ensures !present && frameNumber == -1 && !hugePage && this.home == home
    {
      frameNumber, present, hugePage := -1, false, false;
      this.home := home;
    }
  }

  class Level1Table {
    var entries: seq<PageTableEntry?>
    ghost const at: Region

    constructor (ghost at: Region)
      ensures entries == seq(ENTRIES, _ => null) && this.at == at
    {
      entries := seq(ENTRIES, _ => null);
      this.at := at;
    }
  }

  class Level2Table {
    var entries: seq<Level1Table?>
    var hugePageEntries: seq<PageTableEntry?>
    var isHuge: seq<bool>
    ghost const l4: nat
    ghost const l3: nat

    constructor (ghost l4: nat, ghost l3: nat)
      ensures entries == seq(ENTRIES, _ => null) && hugePageEntries == seq(ENTRIES, _ => null)
      ensures isHuge == seq(ENTRIES, _ => false) && this.l4 == l4 && this.l3 == l3
    {
      entries, hugePageEntries, isHuge := seq(ENTRIES, _ => null), seq(ENTRIES, _ => null), seq(ENTRIES, _ => false);
      this.l4, this.l3 := l4, l3;
    }
  }

  class Level3Table {
    var entries: seq<Level2Table?>
    ghost const l4: nat

    constructor (ghost l4: nat)
      ensures entries == seq(ENTRIES, _ => null) && this.l4 == l4
    {
      entries := seq(ENTRIES, _ => null);
      this.l4 := l4;
    }
  }

  class Level4Table {
    var entries: seq<Level3Table?>

    constructor ()
      ensures entries == seq(ENTRIES, _ => null)
    {
      entries := seq(ENTRIES, _ => null);
    }
  }

  /** The frame of a present entry. */
  function Content(e: PageTableEntry?): Option<int>
    reads e
  {
    if e != null && e.present then Some(e.frameNumber) else None
  }

  class MultiLevelPageTable {
    const l4Table: Level4Table
    ghost var l3s: set<Level3Table>
    ghost var l2s: set<Level2Table>
    ghost var l1s: set<Level1Table>
    ghost var leaves: set<PageTableEntry>
    ghost var view: TwoLayer

    // ---- Shape: every pointer leads to a table or an entry made for that very place ----

    ghost predicate L4Shape()
      reads this`l3s, l4Table
    {
      && |l4Table.entries| == ENTRIES
      && forall i :: 0 <= i < ENTRIES && l4Table.entries[i] != null ==>
           l4Table.entries[i] in l3s && l4Table.entries[i].l4 == i
    }

    ghost predicate L3Shape()
      reads this`l3s, this`l2s, l3s
    {
      forall t :: t in l3s ==>
        && |t.entries| == ENTRIES
        && forall i :: 0 <= i < ENTRIES && t.entries[i] != null ==>
             t.entries[i] in l2s && t.entries[i].l4 == t.l4 && t.entries[i].l3 == i
    }

    ghost predicate L2Shape()
      reads this`l2s, this`l1s, this`leaves, l2s
    {
      forall t :: t in l2s ==>
        && |t.entries| == |t.hugePageEntries| == |t.isHuge| == ENTRIES
        && (forall i :: 0 <= i < ENTRIES && t.entries[i] != null ==>
              t.entries[i] in l1s && t.entries[i].at == Region(t.l4, t.l3, i))
        && (forall i :: 0 <= i < ENTRIES && t.hugePageEntries[i] != null ==>
              t.hugePageEntries[i] in leaves && t.hugePageEntries[i].home == HugeHome(Region(t.l4, t.l3, i)))
    }

    ghost predicate L1Shape()
      reads this`l1s, this`leaves, l1s
    {
      forall t :: t in l1s ==>
        && |t.entries| == ENTRIES
        && forall i :: 0 <= i < ENTRIES && t.entries[i] != null ==>
             t.entries[i] in leaves && t.entries[i].home == SmallHome(Slot(t.at.l4, t.at.l3, t.at.l2, i))
    }

    ghost predicate Shape()
      reads this`l3s, this`l2s, this`l1s, this`leaves, l4Table, l3s, l2s, l1s
    {
      L4Shape() && L3Shape() && L2Shape() && L1Shape()
    }

    // ---- Walking down ----

    ghost function T2(l4: nat, l3: nat): Level2Table?
      requires L4Shape() && L3Shape() && l4 < ENTRIES && l3 < ENTRIES
      reads this`l3s, this`l2s, l4Table, l3s
    {
      if l4Table.entries[l4] == null then null else l4Table.entries[l4].entries[l3]
    }

    ghost function T1(r: Region): Level1Table?
      requires L4Shape() && L3Shape() && L2Shape() && RegionOk(r)
      reads this`l3s, this`l2s, this`l1s, this`leaves, l4Table, l3s, l2s
    {
      var t := T2(r.l4, r.l3);
      if t == null then null else t.entries[r.l2]
    }

    ghost function Leaf(s: Slot): PageTableEntry?
      requires Shape() && SlotOk(s)
      reads this`l3s, this`l2s, this`l1s, this`leaves, l4Table, l3s, l2s, l1s
    {
      var t := T1(RegionOf(s));
      if t == null then null else t.entries[s.l1]
    }

    ghost predicate IsHuge(r: Region)
      requires L4Shape() && L3Shape() && L2Shape() && RegionOk(r)
      reads this`l3s, this`l2s, this`l1s, this`leaves, l4Table, l3s, l2s
    {
      var t := T2(r.l4, r.l3);
      t != null && t.isHuge[r.l2]
    }

    ghost function HugeLeaf(r: Region): PageTableEntry?
      requires L4Shape() && L3Shape() && L2Shape() && RegionOk(r)
      reads this`l3s, this`l2s, this`l1s, this`leaves, l4Table, l3s, l2s
    {
      var t := T2(r.l4, r.l3);
      if t == null then null else t.hugePageEntries[r.l2]
    }

    // ---- The view ----

    ghost predicate SmallOk(s: Slot)
      requires Shape() && SlotOk(s)
      reads this, l4Table, l3s, l2s, l1s, leaves
    {
      Content(Leaf(s)) == Get(view.small, s)
    }

    /** A region marked huge always has a present huge entry. */
    ghost predicate HugeOk(r: Region)
      requires Shape() && RegionOk(r)
      reads this, l4Table, l3s, l2s, l1s, leaves
    {
      && (IsHuge(r) <==> r in view.huge)
      && (IsHuge(r) ==> Content(HugeLeaf(r)) == Some(view.huge[r]))
    }

    ghost predicate Views()
      requires Shape()
      reads this, l4Table, l3s, l2s, l1s, leaves
    {
      && (forall s :: s in view.small ==> SlotOk(s))
      && (forall r :: r in view.huge ==> RegionOk(r))
      && (forall s :: SlotOk(s) ==> SmallOk(s))
      && (forall r :: RegionOk(r) ==> HugeOk(r))
    }

    ghost predicate Valid()
      reads this, l4Table, l3s, l2s, l1s, leaves
    {
      Shape() && Views()
    }

    constructor ()
      ensures Valid() && view == EMPTY
      ensures fresh(l4Table) && l3s == {} && l2s == {} && l1s == {} && leaves == {}
    {
      l4Table := new Level4Table();
      l3s, l2s, l1s, leaves := {}, {}, {}, {};
      view := EMPTY;
    }

    lemma LeafHome(s: Slot)
      requires Shape() && SlotOk(s)
      ensures Leaf(s) != null ==> Leaf(s) in leaves && Leaf(s).home == SmallHome(s)
    {
    }

    lemma HugeLeafHome(r: Region)
      requires Shape() && RegionOk(r)
      ensures HugeLeaf(r) != null ==> HugeLeaf(r) in leaves && HugeLeaf(r).home == HugeHome(r)
    {
    }

    /** Reading one pointer of a table found on the way down. */
    lemma AtL2(t: Level2Table, r: Region)
      requires Shape() && RegionOk(r) && T2(r.l4, r.l3) == t
      ensures t in l2s && |t.entries| == |t.hugePageEntries| == |t.isHuge| == ENTRIES
      ensures T1(r) == t.entries[r.l2] && HugeLeaf(r) == t.hugePageEntries[r.l2] && IsHuge(r) == t.isHuge[r.l2]
    {
    }

    lemma AtL1(t: Level1Table, s: Slot)
      requires Shape() && SlotOk(s) && T1(RegionOf(s)) == t
      ensures t in l1s && |t.entries| == ENTRIES && Leaf(s) == t.entries[s.l1]
    {
    }

    method GetEntry(va: nat) returns (e: PageTableEntry?)
      requires Valid()
      ensures Content(e) == view.Lookup(va)
    {
      var s := Indices(va);
      assert SmallOk(s);
      var l3Table := l4Table.entries[s.l4];
      if l3Table == null {
        return null;
      }
      var l2Table := l3Table.entries[s.l3];
      if l2Table == null {
        return null;
      }
      assert HugeOk(RegionOf(s));
      if l2Table.isHuge[s.l2] {
        return l2Table.hugePageEntries[s.l2];
      }
      var l1Table := l2Table.entries[s.l2];
      if l1Table == null {
        return null;
      }
      return l1Table.entries[s.l1];
    }

    // ---- SetEntry, level by level ----

    method AddL3(l4: nat) returns (t: Level3Table)
      requires Shape() && l4 < ENTRIES && l4Table.entries[l4] == null
      modifies this`l3s, l4Table
      ensures Shape() && fresh(t) && l3s == old(l3s) + {t}
      ensures l4Table.entries[l4] == t
      ensures forall i, j :: 0 <= i < ENTRIES && 0 <= j < ENTRIES ==> T2(i, j) == old(T2(i, j))
    {
      t := new Level3Table(l4);
      l3s := l3s + {t};
      l4Table.entries := l4Table.entries[l4 := t];
      hide L2Shape, L1Shape;
    }

    method EnsureL3(l4: nat) returns (t: Level3Table)
      requires Valid() && l4 < ENTRIES
      modifies this, l4Table
      ensures Valid() && view == old(view)
      ensures l4Table.entries[l4] == t
      ensures l2s == old(l2s) && l1s == old(l1s) && leaves == old(leaves)
      ensures fresh(l3s - old(l3s)) && old(l3s) <= l3s
    {
      assert |l4Table.entries| == ENTRIES;
      if l4Table.entries[l4] != null {
        t := l4Table.entries[l4];
      } else {
        t := AddL3(l4);
        hide L4Shape, L3Shape, L2Shape, L1Shape, T2, T1, Leaf, IsHuge, HugeLeaf;
        forall u | SlotOk(u) ensures SmallOk(u) {
          assert old(SmallOk(u));
          LeafUnderL2(u);
        }
        forall r | RegionOk(r) ensures HugeOk(r) {
          assert old(HugeOk(r));
          HugeUnderL2(r);
        }
      }
    }

    method EnsureL2(l4: nat, l3: nat) returns (t: Level2Table)
      requires Valid() && l4 < ENTRIES && l3 < ENTRIES
      modifies this, l4Table, l3s
      ensures Valid() && view == old(view)
      ensures T2(l4, l3) == t && t in l2s
      ensures l1s == old(l1s) && leaves == old(leaves)
      ensures fresh(l3s - old(l3s)) && fresh(l2s - old(l2s)) && old(l3s) <= l3s && old(l2s) <= l2s
    {
      var l3Table := EnsureL3(l4);
      t := FillL3(l3Table, l4, l3);
    }

    /** A new, empty level-2 table. */
    method AddL2(l3Table: Level3Table, l4: nat, l3: nat) returns (t: Level2Table)
      requires Shape() && l4 < ENTRIES && l3 < ENTRIES && l4Table.entries[l4] == l3Table && l3Table.entries[l3] == null
      modifies this`l2s, l3Table
      ensures Shape() && fresh(t) && l2s == old(l2s) + {t}
      ensures forall i, j :: 0 <= i < ENTRIES && 0 <= j < ENTRIES ==>
                               T2(i, j) == if i == l4 && j == l3 then t else old(T2(i, j))
      ensures t.entries == seq(ENTRIES, _ => null) && t.hugePageEntries == seq(ENTRIES, _ => null)
      ensures t.isHuge == seq(ENTRIES, _ => false)
    {
      t := new Level2Table(l4, l3);
      l2s := l2s + {t};
      l3Table.entries := l3Table.entries[l3 := t];
      hide L1Shape;
    }

    method FillL3(l3Table: Level3Table, l4: nat, l3: nat) returns (t: Level2Table)
      requires Valid() && l4 < ENTRIES && l3 < ENTRIES && l4Table.entries[l4] == l3Table
      modifies this, l3Table
      ensures Valid() && view == old(view)
      ensures T2(l4, l3) == t && t in l2s
      ensures l3s == old(l3s) && l1s == old(l1s) && leaves == old(leaves)
      ensures fresh(l2s - old(l2s)) && old(l2s) <= l2s
    {
      assert T2(l4, l3) == l3Table.entries[l3];
      if l3Table.entries[l3] != null {
        t := l3Table.entries[l3];
      } else {
        t := AddL2(l3Table, l4, l3);
        hide L4Shape, L3Shape, L2Shape, L1Shape, T2, Leaf, IsHuge, HugeLeaf;
        forall u | SlotOk(u) ensures SmallOk(u) {
          assert old(SmallOk(u));
          LeafUnderL2(u);
        }
        forall r | RegionOk(r) ensures HugeOk(r) {
          assert old(HugeOk(r));
          HugeUnderL2(r);
        }
      }
    }

    /** The place (l4, l3) leads where it led before, or to a new empty table. */
    twostate predicate SameOrEmptyL2(l4: nat, l3: nat)
      requires Shape() && old(Shape()) && l4 < ENTRIES && l3 < ENTRIES
      reads this, l4Table, l3s, l2s, l1s
    {
      || T2(l4, l3) == old(T2(l4, l3))
      || (old(T2(l4, l3)) == null && T2(l4, l3) != null
          && T2(l4, l3).entries == seq(ENTRIES, _ => null) && T2(l4, l3).isHuge == seq(ENTRIES, _ => false))
    }

    twostate lemma LeafUnderL2(u: Slot)
      requires old(Shape()) && Shape() && SlotOk(u) && SameOrEmptyL2(u.l4, u.l3)
      requires forall t: Level2Table :: t in old(l2s) ==> t.entries == old(t.entries)
      requires forall t: Level1Table :: t in old(l1s) ==> t.entries == old(t.entries)
      requires forall e: PageTableEntry :: e in old(leaves) ==> Content(e) == old(Content(e))
      ensures Content(Leaf(u)) == old(Content(Leaf(u)))
    {
    }

    twostate lemma HugeUnderL2(r: Region)
      requires old(Shape()) && Shape() && RegionOk(r) && SameOrEmptyL2(r.l4, r.l3)
      requires forall t: Level2Table :: t in old(l2s) ==>
                 t.isHuge == old(t.isHuge) && t.hugePageEntries == old(t.hugePageEntries)
      requires forall e: PageTableEntry :: e in old(leaves) ==> Content(e) == old(Content(e))
      ensures IsHuge(r) == old(IsHuge(r)) && (IsHuge(r) ==> Content(HugeLeaf(r)) == old(Content(HugeLeaf(r))))
    {
    }

    /** A new, empty level-1 table. */
    method AddL1(l2Table: Level2Table, r: Region) returns (t: Level1Table)
      requires Shape() && RegionOk(r) && T2(r.l4, r.l3) == l2Table && l2Table.entries[r.l2] == null
      modifies this`l1s, l2Table
      ensures Shape() && fresh(t) && l1s == old(l1s) + {t}
      ensures T2(r.l4, r.l3) == l2Table
      ensures forall q :: RegionOk(q) ==> T1(q) == if q == r then t else old(T1(q))
      ensures l2Table.isHuge == old(l2Table.isHuge) && l2Table.hugePageEntries == old(l2Table.hugePageEntries)
      ensures t.entries == seq(ENTRIES, _ => null)
    {
      t := new Level1Table(r);
      l1s := l1s + {t};
      l2Table.entries := l2Table.entries[r.l2 := t];
    }

    method EnsureL1(l2Table: Level2Table, r: Region) returns (t: Level1Table)
      requires Valid() && RegionOk(r) && T2(r.l4, r.l3) == l2Table
      modifies this, l2Table
      ensures Valid() && view == old(view)
      ensures T1(r) == t && t in l1s
      ensures l3s == old(l3s) && l2s == old(l2s) && leaves == old(leaves)
      ensures fresh(l1s - old(l1s)) && old(l1s) <= l1s
    {
      AtL2(l2Table, r);
      if l2Table.entries[r.l2] != null {
        t := l2Table.entries[r.l2];
      } else {
        t := AddL1(l2Table, r);
        hide L4Shape, L3Shape, L2Shape, L1Shape, T2, T1, Leaf, IsHuge, HugeLeaf;
        forall u | SlotOk(u) ensures SmallOk(u) {
          assert old(SmallOk(u));
          LeafUnderL1(u);
        }
        forall q | RegionOk(q) ensures HugeOk(q) {
          assert old(HugeOk(q));
          HugeUnderL2(q);
        }
      }
    }

    twostate lemma LeafUnderL1(u: Slot)
      requires old(Shape()) && Shape() && SlotOk(u)
      requires var t, t0 := T1(RegionOf(u)), old(T1(RegionOf(u)));
               t == t0 || (t0 == null && t != null && t.entries == seq(ENTRIES, _ => null))
      requires forall t: Level1Table :: t in old(l1s) ==> t.entries == old(t.entries)
      requires forall e: PageTableEntry :: e in old(leaves) ==> Content(e) == old(Content(e))
      ensures Content(Leaf(u)) == old(Content(Leaf(u)))
    {
    }

    /** A new entry, not yet present. */
    method AddLeaf(l1Table: Level1Table, s: Slot) returns (e: PageTableEntry)
      requires Shape() && SlotOk(s) && T1(RegionOf(s)) == l1Table && l1Table.entries[s.l1] == null
      modifies this`leaves, l1Table
      ensures Shape() && fresh(e) && !e.present && leaves == old(leaves) + {e}
      ensures forall u :: SlotOk(u) ==> Leaf(u) == if u == s then e else old(Leaf(u))
      ensures forall q :: RegionOk(q) ==> IsHuge(q) == old(IsHuge(q)) && HugeLeaf(q) == old(HugeLeaf(q))
    {
      e := new PageTableEntry(SmallHome(s));
      leaves := leaves + {e};
      l1Table.entries := l1Table.entries[s.l1 := e];
    }

    method EnsureLeaf(l1Table: Level1Table, s: Slot) returns (e: PageTableEntry)
      requires Valid() && SlotOk(s) && T1(RegionOf(s)) == l1Table
      modifies this, l1Table
      ensures Valid() && view == old(view)
      ensures Leaf(s) == e && e in leaves
      ensures l3s == old(l3s) && l2s == old(l2s) && l1s == old(l1s)
      ensures fresh(leaves - old(leaves)) && old(leaves) <= leaves
    {
      assert Leaf(s) == l1Table.entries[s.l1];
      LeafHome(s);
      if l1Table.entries[s.l1] != null {
        e := l1Table.entries[s.l1];
      } else {
        e := AddLeaf(l1Table, s);
        hide L4Shape, L3Shape, L2Shape, L1Shape, T2, T1, Leaf, IsHuge, HugeLeaf;
        forall u | SlotOk(u) ensures SmallOk(u) {
          assert old(SmallOk(u));
        }
        forall q | RegionOk(q) ensures HugeOk(q) {
          assert old(HugeOk(q));
        }
      }
    }

    /** A small entry becomes present. */
    method WriteSmall(e: PageTableEntry, ghost s: Slot, frame: int)
      requires Valid() && SlotOk(s) && Leaf(s) == e
      modifies this`view, e
      ensures Valid() && view == old(view).(small := old(view).small[s := frame])
      ensures e.present && e.frameNumber == frame
    {
      hide L4Shape, L3Shape, L2Shape, L1Shape, Leaf, HugeLeaf, IsHuge;
      LeafHome(s);
      e.frameNumber := frame;
      e.present := true;
      view := view.(small := view.small[s := frame]);
      forall u | SlotOk(u) ensures SmallOk(u) {
        assert old(SmallOk(u));
        LeafHome(u);
      }
      forall r | RegionOk(r) ensures HugeOk(r) {
        assert old(HugeOk(r));
        HugeLeafHome(r);
      }
    }

    /** Mark a region huge or not. */
    method SetFlag(l2Table: Level2Table, r: Region, flag: bool)
      requires Shape() && RegionOk(r) && T2(r.l4, r.l3) == l2Table
      modifies l2Table`isHuge
      ensures Shape() && T2(r.l4, r.l3) == l2Table
      ensures forall u :: SlotOk(u) ==> Leaf(u) == old(Leaf(u))
      ensures forall q :: RegionOk(q) ==> HugeLeaf(q) == old(HugeLeaf(q))
      ensures forall q :: RegionOk(q) ==> IsHuge(q) == if q == r then flag else old(IsHuge(q))
    {
      l2Table.isHuge := l2Table.isHuge[r.l2 := flag];
    }

    method PutHugeEntry(l2Table: Level2Table, r: Region, e: PageTableEntry?)
      requires Shape() && RegionOk(r) && T2(r.l4, r.l3) == l2Table
      requires e != null ==> e in leaves && e.home == HugeHome(r)
      modifies l2Table`hugePageEntries
      ensures Shape() && T2(r.l4, r.l3) == l2Table
      ensures forall u :: SlotOk(u) ==> Leaf(u) == old(Leaf(u))
      ensures forall q :: RegionOk(q) ==> HugeLeaf(q) == if q == r then e else old(HugeLeaf(q))
      ensures forall q :: RegionOk(q) ==> IsHuge(q) == old(IsHuge(q))
    {
      l2Table.hugePageEntries := l2Table.hugePageEntries[r.l2 := e];
    }

    method ClearOverlay(l2Table: Level2Table, r: Region)
      requires Shape() && RegionOk(r) && T2(r.l4, r.l3) == l2Table
      modifies l2Table
      ensures Shape() && T2(r.l4, r.l3) == l2Table
      ensures forall u :: SlotOk(u) ==> Leaf(u) == old(Leaf(u))
      ensures forall q :: RegionOk(q) ==> HugeLeaf(q) == if q == r then null else old(HugeLeaf(q))
      ensures forall q :: RegionOk(q) ==> IsHuge(q) == (q != r && old(IsHuge(q)))
    {
      hide L4Shape, L3Shape, L2Shape, L1Shape, T2, T1, Leaf, IsHuge, HugeLeaf;
      SetFlag(l2Table, r, false);
      PutHugeEntry(l2Table, r, null);
    }

    /** A small mapping takes the region out of the huge overlay. */
    method DropOverlay(l2Table: Level2Table, r: Region)
      requires Valid() && RegionOk(r) && T2(r.l4, r.l3) == l2Table
      modifies this`view, l2Table
      ensures Valid() && view == old(view).(huge := old(view).huge - {r})
      ensures T2(r.l4, r.l3) == l2Table
    {
      hide L4Shape, L3Shape, L2Shape, L1Shape, T2, T1, Leaf, IsHuge, HugeLeaf;
      ClearOverlay(l2Table, r);
      view := view.(huge := view.huge - {r});
      forall u | SlotOk(u) ensures SmallOk(u) {
        assert old(SmallOk(u));
        LeafHome(u);
      }
      forall q | RegionOk(q) ensures HugeOk(q) {
        assert old(HugeOk(q));
        HugeLeafHome(q);
      }
    }

    method AddHugeLeaf(l2Table: Level2Table, r: Region) returns (e: PageTableEntry)
      requires Shape() && RegionOk(r) && T2(r.l4, r.l3) == l2Table
      modifies this`leaves, l2Table
      ensures Shape() && fresh(e) && !e.present && e.home == HugeHome(r) && leaves == old(leaves) + {e}
      ensures T2(r.l4, r.l3) == l2Table
      ensures forall u :: SlotOk(u) ==> Leaf(u) == old(Leaf(u))
      ensures forall q :: RegionOk(q) ==> HugeLeaf(q) == if q == r then e else old(HugeLeaf(q))
      ensures forall q :: RegionOk(q) ==> IsHuge(q) == old(IsHuge(q))
    {
      hide L4Shape, L3Shape, L2Shape, L1Shape, T2, T1, Leaf, IsHuge, HugeLeaf;
      e := NewHugeLeaf(r);
      PutHugeEntry(l2Table, r, e);
    }

    method EnsureHuge(l2Table: Level2Table, r: Region) returns (e: PageTableEntry)
      requires Valid() && RegionOk(r) && T2(r.l4, r.l3) == l2Table
      modifies this, l2Table
      ensures Valid() && view == old(view)
      ensures T2(r.l4, r.l3) == l2Table && HugeLeaf(r) == e && e in leaves
      ensures l3s == old(l3s) && l2s == old(l2s) && l1s == old(l1s)
      ensures fresh(leaves - old(leaves)) && old(leaves) <= leaves
    {
      hide L4Shape, L3Shape, L2Shape, L1Shape, T2, T1, Leaf, IsHuge, HugeLeaf;
      AtL2(l2Table, r);
      HugeLeafHome(r);
      assert HugeOk(r);
      if l2Table.hugePageEntries[r.l2] != null {
        e := l2Table.hugePageEntries[r.l2];
      } else {
        e := AddHugeLeaf(l2Table, r);
        forall u | SlotOk(u) ensures SmallOk(u) {
          assert old(SmallOk(u));
          LeafHome(u);
        }
        forall q | RegionOk(q) ensures HugeOk(q) {
          assert old(HugeOk(q));
          HugeLeafHome(q);
        }
      }
    }

    method NewHugeLeaf(r: Region) returns (e: PageTableEntry)
      requires Shape()
      modifies this`leaves
      ensures Shape() && fresh(e) && !e.present && e.home == HugeHome(r) && leaves == old(leaves) + {e}
      ensures forall u :: SlotOk(u) ==> Leaf(u) == old(Leaf(u))
      ensures forall q :: RegionOk(q) ==> HugeLeaf(q) == old(HugeLeaf(q)) && IsHuge(q) == old(IsHuge(q))
    {
      e := new PageTableEntry(HugeHome(r));
      leaves := leaves + {e};
    }

    method WriteHuge(l2Table: Level2Table, e: PageTableEntry, r: Region, frame: int)
      requires Valid() && RegionOk(r) && T2(r.l4, r.l3) == l2Table && HugeLeaf(r) == e
      modifies this`view, l2Table, e
      ensures Valid() && view == old(view).(huge := old(view).huge[r := frame])
      ensures e.present && e.frameNumber == frame && e.hugePage
    {
      hide L4Shape, L3Shape, L2Shape, L1Shape, T2, T1, Leaf, IsHuge, HugeLeaf;
      HugeLeafHome(r);
      e.frameNumber := frame;
      e.present := true;
      e.hugePage := true;
      SetFlag(l2Table, r, true);
      view := view.(huge := view.huge[r := frame]);
      forall u | SlotOk(u) ensures SmallOk(u) {
        assert old(SmallOk(u));
        LeafHome(u);
      }
      forall q | RegionOk(q) ensures HugeOk(q) {
        assert old(HugeOk(q));
        HugeLeafHome(q);
      }
    }

    /** SetEntry. */
    method SetEntry(va: nat, frame: int, huge: bool) returns (e: PageTableEntry)
      requires Valid()
      modifies this, l4Table, l3s, l2s, l1s, leaves
      ensures Valid() && view == old(view).Set(va, frame, huge)
      ensures e.present && e.frameNumber == frame && (huge ==> e.hugePage)
      ensures fresh(l3s - old(l3s)) && fresh(l2s - old(l2s)) && fresh(l1s - old(l1s)) && fresh(leaves - old(leaves))
    {
      var s := Indices(va);
      hide L4Shape, L3Shape, L2Shape, L1Shape, T2, T1, Leaf, IsHuge, HugeLeaf;
      hide Views, Indices;
      var l2Table := EnsureL2(s.l4, s.l3);
      if huge {
        e := SetHuge(l2Table, RegionOf(s), frame);
      } else {
        e := SetSmall(l2Table, s, frame);
      }
    }

    method SetHuge(l2Table: Level2Table, r: Region, frame: int) returns (e: PageTableEntry)
      requires Valid() && RegionOk(r) && T2(r.l4, r.l3) == l2Table
      modifies this, l2Table, leaves
      ensures Valid() && view == old(view).(huge := old(view).huge[r := frame])
      ensures e.present && e.frameNumber == frame && e.hugePage
      ensures l3s == old(l3s) && l2s == old(l2s) && l1s == old(l1s)
      ensures fresh(leaves - old(leaves))
    {
      e := EnsureHuge(l2Table, r);
      WriteHuge(l2Table, e, r, frame);
    }

    method SetSmall(l2Table: Level2Table, s: Slot, frame: int) returns (e: PageTableEntry)
      requires Valid() && SlotOk(s) && T2(s.l4, s.l3) == l2Table
      modifies this, l2Table, l1s, leaves
      ensures Valid() && view == TwoLayer(old(view).small[s := frame], old(view).huge - {RegionOf(s)})
      ensures e.present && e.frameNumber == frame
      ensures l3s == old(l3s) && l2s == old(l2s)
      ensures fresh(l1s - old(l1s)) && fresh(leaves - old(leaves))
    {
      hide L4Shape, L3Shape, L2Shape, L1Shape, T2, T1, Leaf, IsHuge, HugeLeaf;
      hide Views;
      DropOverlay(l2Table, RegionOf(s));
      var l1Table := EnsureL1(l2Table, RegionOf(s));
      e := EnsureLeaf(l1Table, s);
      WriteSmall(e, s, frame);
    }

    /** InvalidateEntry: a huge mapping goes first, and uncovers the small ones. */
    method InvalidateEntry(va: nat)
      requires Valid()
      modifies this`view, l2s, leaves
      ensures Valid() && view == old(view).Invalidate(va)
    {
      var s := Indices(va);
      var r := RegionOf(s);
      assert SmallOk(s) && HugeOk(r);
      var l3Table := l4Table.entries[s.l4];
      if l3Table == null {
        assert view.small - {s} == view.small;
        return;
      }
      var l2Table := l3Table.entries[s.l3];
      if l2Table == null {
        assert view.small - {s} == view.small;
        return;
      }
      if l2Table.isHuge[s.l2] {
        ClearHuge(l2Table, r);
        return;
      }
      var l1Table := l2Table.entries[s.l2];
      if l1Table == null {
        assert view.small - {s} == view.small;
        return;
      }
      ClearSmall(l1Table, s);
    }

    method ClearHuge(l2Table: Level2Table, r: Region)
      requires Valid() && RegionOk(r) && T2(r.l4, r.l3) == l2Table && l2Table.isHuge[r.l2]
      modifies this`view, l2Table, leaves
      ensures Valid() && view == old(view).(huge := old(view).huge - {r})
    {
      hide L4Shape, L3Shape, L2Shape, L1Shape, T2, T1, Leaf, IsHuge, HugeLeaf;
      AtL2(l2Table, r);
      HugeLeafHome(r);
      var e := l2Table.hugePageEntries[r.l2];
      if e != null {
        e.present := false;
        e.frameNumber := -1;
      }
      SetFlag(l2Table, r, false);
      view := view.(huge := view.huge - {r});
      forall u | SlotOk(u) ensures SmallOk(u) {
        assert old(SmallOk(u));
        LeafHome(u);
      }
      forall q | RegionOk(q) ensures HugeOk(q) {
        assert old(HugeOk(q));
        HugeLeafHome(q);
      }
    }

    method ClearSmall(l1Table: Level1Table, s: Slot)
      requires Valid() && SlotOk(s) && T1(RegionOf(s)) == l1Table
      modifies this`view, leaves
      ensures Valid() && view == old(view).(small := old(view).small - {s})
    {
      hide L4Shape, L3Shape, L2Shape, L1Shape, T2, T1, Leaf, IsHuge, HugeLeaf;
      AtL1(l1Table, s);
      LeafHome(s);
      var e := l1Table.entries[s.l1];
      if e != null {
        e.present := false;
        e.frameNumber := -1;
      }
      view := view.(small := view.small - {s});
      forall u | SlotOk(u) ensures SmallOk(u) {
        assert old(SmallOk(u));
        LeafHome(u);
      }
      forall q | RegionOk(q) ensures HugeOk(q) {
        assert old(HugeOk(q));
        HugeLeafHome(q);
      }
    }

    // ---- WalkPages, loop by loop; the result lists the callback's calls in order ----

    method WalkL1(l1Table: Level1Table, r: Region) returns (out: seq<Visit>)
      requires Valid() && RegionOk(r) && T1(r) == l1Table && r !in view.huge
      ensures Lists(out, view, Base2(r), Base2(r) + L2_SPAN)
    {
      out := [];
      ListsNothing(view, Base2(r), Base2(r));
      for i := 0 to ENTRIES
        invariant Lists(out, view, Base2(r), Base2(r) + i * L1_SPAN)
      {
        var s := Slot(r.l4, r.l3, r.l2, i);
        AtL1(l1Table, s);
        assert SmallOk(s);
        hide L4Shape, L3Shape, L2Shape, L1Shape, T2, T1, Leaf, IsHuge, HugeLeaf, Lists, Views;
        SlotStep(view, s);
        var entry := l1Table.entries[i];
        var visits := [];
        if entry != null && entry.present {
          visits := [Visit(Address(s), entry.frameNumber, false)];
        }
        ListsConcat(out, visits, view, Base2(r), Address(s), Address(s) + L1_SPAN);
        out := out + visits;
      }
    }

    method WalkRegion(l2Table: Level2Table, r: Region) returns (out: seq<Visit>)
      requires Valid() && RegionOk(r) && T2(r.l4, r.l3) == l2Table
      ensures Lists(out, view, Base2(r), Base2(r) + L2_SPAN)
    {
      AtL2(l2Table, r);
      assert HugeOk(r);
      if l2Table.isHuge[r.l2] && l2Table.hugePageEntries[r.l2] != null && l2Table.hugePageEntries[r.l2].present {
        HugeStep(view, r);
        out := [Visit(Base2(r), l2Table.hugePageEntries[r.l2].frameNumber, true)];
      } else if l2Table.entries[r.l2] == null {
        forall s | s in view.small ensures RegionOf(s) != r {
          assert SmallOk(s);
        }
        EmptyRegion(view, r);
        out := [];
      } else {
        out := WalkL1(l2Table.entries[r.l2], r);
      }
    }

    method WalkL2(l2Table: Level2Table, l4: nat, l3: nat) returns (out: seq<Visit>)
      requires Valid() && l4 < ENTRIES && l3 < ENTRIES && T2(l4, l3) == l2Table
      ensures Lists(out, view, Base3(l4, l3), Base3(l4, l3) + L3_SPAN)
    {
      hide Valid, T2, Lists;
      out := [];
      ListsNothing(view, Base3(l4, l3), Base3(l4, l3));
      for l2 := 0 to ENTRIES
        invariant Lists(out, view, Base3(l4, l3), Base3(l4, l3) + l2 * L2_SPAN)
      {
        var r := Region(l4, l3, l2);
        var visits := WalkRegion(l2Table, r);
        ListsConcat(out, visits, view, Base3(l4, l3), Base2(r), Base2(r) + L2_SPAN);
        out := out + visits;
      }
    }

    method WalkL3(l3Table: Level3Table, l4: nat) returns (out: seq<Visit>)
      requires Valid() && l4 < ENTRIES && l4Table.entries[l4] == l3Table
      ensures Lists(out, view, l4 * L4_SPAN, (l4 + 1) * L4_SPAN)
    {
      out := [];
      ListsNothing(view, Base3(l4, 0), Base3(l4, 0));
      for l3 := 0 to ENTRIES
        invariant Lists(out, view, Base3(l4, 0), Base3(l4, 0) + l3 * L3_SPAN)
      {
        hide Lists;
        assert T2(l4, l3) == l3Table.entries[l3];
        var visits := [];
        if l3Table.entries[l3] == null {
          NoTable2(l4, l3);
          EmptyTable2(view, l4, l3);
        } else {
          visits := WalkL2(l3Table.entries[l3], l4, l3);
        }
        ListsConcat(out, visits, view, Base3(l4, 0), Base3(l4, l3), Base3(l4, l3) + L3_SPAN);
        out := out + visits;
      }
    }

    lemma NoTable2(l4: nat, l3: nat)
      requires Valid() && l4 < ENTRIES && l3 < ENTRIES && T2(l4, l3) == null
      ensures forall s :: s in view.small ==> s.l4 != l4 || s.l3 != l3
      ensures forall r :: r in view.huge ==> r.l4 != l4 || r.l3 != l3
    {
      forall s | s in view.small ensures s.l4 != l4 || s.l3 != l3 {
        assert SmallOk(s);
      }
      forall r | r in view.huge ensures r.l4 != l4 || r.l3 != l3 {
        assert HugeOk(r);
      }
    }

    lemma NoTable3(l4: nat)
      requires Valid() && l4 < ENTRIES && l4Table.entries[l4] == null
      ensures forall s :: s in view.small ==> s.l4 != l4
      ensures forall r :: r in view.huge ==> r.l4 != l4
    {
      forall s | s in view.small ensures s.l4 != l4 {
        assert SmallOk(s);
      }
      forall r | r in view.huge ensures r.l4 != l4 {
        assert HugeOk(r);
      }
    }

    /** WalkPages calls back once for every visible mapping, in strictly ascending address order. */
    method WalkPages() returns (out: seq<Visit>)
      requires Valid()
      ensures Lists(out, view, 0, ADDRESS_LIMIT)
    {
      out := [];
      ListsNothing(view, 0, 0);
      for l4 := 0 to ENTRIES
        invariant Lists(out, view, 0, l4 * L4_SPAN)
      {
        hide Lists;
        var visits := [];
        if l4Table.entries[l4] == null {
          NoTable3(l4);
          EmptyTable3(view, l4);
        } else {
          visits := WalkL3(l4Table.entries[l4], l4);
        }
        ListsConcat(out, visits, view, 0, l4 * L4_SPAN, (l4 + 1) * L4_SPAN);
        out := out + visits;
      }
    }
  }
}
