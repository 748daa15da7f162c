/** The translation cache (internal/memory/tlb.go). */
module Tlb {
  import opened Prelude

  datatype Entry = Entry(processId: Pid, virtualPage: nat, frame: int, valid: bool, lastAccess: int)

  // ---- Keys ----

  function Digit(d: nat): char
    requires d < 10
  {
    '0' + d as char
  }

  /** Decimal notation, as strconv.FormatUint writes it. */
  function Decimal(n: nat): (s: string)
    ensures s != [] && forall k :: 0 <= k < |s| ==> '0' <= s[k] <= '9'
  {
    if n < 10 then [Digit(n)] else Decimal(n / 10) + [Digit(n % 10)]
  }

  const NUL := '\0'

  function MakeKey(pid: Pid, page: nat): string {
    pid + [NUL] + Decimal(page)
  }

  lemma {:induction false} DecimalInjective(a: nat, b: nat)
    requires Decimal(a) == Decimal(b)
    ensures a == b
  {
    var s, t := Decimal(a), Decimal(b);
    if a < 10 || b < 10 {
      assert s[|s| - 1] == t[|t| - 1];
    } else {
      assert s[|s| - 1] == Digit(a % 10) && t[|t| - 1] == Digit(b % 10);
      assert s[..|s| - 1] == Decimal(a / 10) && t[..|t| - 1] == Decimal(b / 10);
      DecimalInjective(a / 10, b / 10);
    }
  }

  /** No two translations share a key, whatever characters the process names contain: the digits hold
      no separator, so the last one splits the key. */
  lemma MakeKeyInjective(p: Pid, u: nat, q: Pid, v: nat)
    requires MakeKey(p, u) == MakeKey(q, v)
    ensures p == q && u == v
  {
    var s := MakeKey(p, u);
    assert s[|p|] == NUL && s[|q|] == NUL;
    assert |p| == |q|;
    assert s[..|p|] == p && s[..|q|] == q;
    assert s[|p| + 1..] == Decimal(u) && s[|q| + 1..] == Decimal(v);
    DecimalInjective(u, v);
  }

  predicate Files(e: Entry, pid: Pid, page: nat) {
    e.processId == pid && e.virtualPage == page
  }

  /** What Insert may do before writing: nothing while there is room, else drop one entry that no
      other is older than. */
  ghost predicate MadeRoom(before: map<string, Entry>, after: map<string, Entry>, capacity: int) {
    if capacity > 0 && |before| >= capacity then
      exists k :: k in before && after == before - {k}
                  && forall j :: j in before ==> before[k].lastAccess <= before[j].lastAccess
    else after == before
  }

  /** Every entry is filed under its own key, and a bounded cache is not overfull. */
  ghost predicate WellFiled(entries: map<string, Entry>, capacity: int) {
    && (forall k :: k in entries ==> k == MakeKey(entries[k].processId, entries[k].virtualPage))
    && (capacity > 0 ==> |entries| <= capacity)
  }

  /** Lookup's effect: a valid entry that it finds is stamped. */
  function LookedUp(entries: map<string, Entry>, pid: Pid, page: nat, now: int): map<string, Entry> {
    var key := MakeKey(pid, page);
    if key in entries && entries[key].valid then entries[key := entries[key].(lastAccess := now)] else entries
  }

  class TLB {
    var entries: map<string, Entry>
    const capacity: int
    var hits: int
    var misses: int

    ghost predicate Valid()
      reads this
    {
      WellFiled(entries, capacity)
    }

    constructor (capacity: int)
      ensures Valid() && entries == map[] && this.capacity == capacity
    {
      entries, hits, misses := map[], 0, 0;
      this.capacity := capacity;
    }

    /** A hit returns the frame filed for exactly this process and page. */
    method Lookup(pid: Pid, page: nat, now: int) returns (frame: Option<int>)
      requires Valid()
      modifies this
      ensures Valid()
      ensures match frame
              case Some(f) => exists k :: k in old(entries) && Files(old(entries)[k], pid, page)
                                          && old(entries)[k].valid && old(entries)[k].frame == f
              case None =>
                forall k :: k in old(entries) && Files(old(entries)[k], pid, page) ==> !old(entries)[k].valid
      ensures var key := MakeKey(pid, page);
              frame == if key in old(entries) && old(entries)[key].valid then Some(old(entries)[key].frame) else None
      ensures entries == LookedUp(old(entries), pid, page, now)
      ensures entries.Keys == old(entries).Keys
      ensures forall k :: k in entries ==> entries[k].(lastAccess := 0) == old(entries)[k].(lastAccess := 0)
      ensures hits + misses == old(hits + misses) + 1 && (frame.Some? <==> hits == old(hits) + 1)
    {
      var key := MakeKey(pid, page);
      if key in entries && entries[key].valid {
        var e := entries[key];
        MakeKeyInjective(pid, page, e.processId, e.virtualPage);
        entries := entries[key := e.(lastAccess := now)];
        hits := hits + 1;
        return Some(e.frame);
      }
      misses := misses + 1;
      return None;
    }

    method Insert(pid: Pid, page: nat, frame: int, now: int)
      requires Valid()
      modifies this`entries
      ensures Valid()
      ensures exists m :: MadeRoom(old(entries), m, capacity)
                          && entries == m[MakeKey(pid, page) := Entry(pid, page, frame, true, now)]
    {
      if capacity > 0 && |entries| >= capacity {
        EvictOldest();
      }
      assert MadeRoom(old(entries), entries, capacity);
      entries := entries[MakeKey(pid, page) := Entry(pid, page, frame, true, now)];
    }

    /** evictLRU, over the entries in any order. */
    method EvictOldest()
      requires Valid() && entries != map[]
      modifies this`entries
      ensures exists k :: k in old(entries) && entries == old(entries) - {k}
                          && forall j :: j in old(entries) ==> old(entries)[k].lastAccess <= old(entries)[j].lastAccess
      ensures |entries| == |old(entries)| - 1
    {
      var oldestKey := "";
      var oldest := 0;
      var first := true;
      var todo := entries.Keys;
      while todo != {}
        invariant todo <= entries.Keys
        invariant first ==> todo == entries.Keys
        invariant !first ==> oldestKey in entries && entries[oldestKey].lastAccess == oldest
        invariant forall j :: j in entries && j !in todo ==> oldest <= entries[j].lastAccess
        decreases todo
      {
        var key :| key in todo;
        if first || entries[key].lastAccess < oldest {
          oldestKey, oldest, first := key, entries[key].lastAccess, false;
        }
        todo := todo - {key};
      }
      assert (entries - {oldestKey}).Keys == entries.Keys - {oldestKey};
      assert |entries.Keys| == |entries|;
      entries := entries - {oldestKey};
      assert |entries| == |entries.Keys|;
    }

    method Invalidate(pid: Pid, page: nat)
      requires Valid()
      modifies this`entries
      ensures Valid()
      ensures entries == old(entries) - {MakeKey(pid, page)}
    {
      var m := entries - {MakeKey(pid, page)};
      assert m.Keys <= entries.Keys;
      SubsetSize(m.Keys, entries.Keys);
      entries := m;
    }

    method InvalidateProcess(pid: Pid)
      requires Valid()
      modifies this`entries
      ensures Valid()
      ensures entries == map k | k in old(entries) && old(entries)[k].processId != pid :: old(entries)[k]
    {
      var m := map k | k in entries && entries[k].processId != pid :: entries[k];
      assert m.Keys <= entries.Keys;
      SubsetSize(m.Keys, entries.Keys);
      entries := m;
    }

    method Clear()
      modifies this
      ensures Valid() && entries == map[] && hits == 0 && misses == 0
    {
      entries, hits, misses := map[], 0, 0;
    }
  }
}
