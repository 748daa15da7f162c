/** The mutable copy-on-write manager (internal/cow/cow.go) and its reference counter
    (internal/cow/reference_counter.go). Each method is one critical section. */
module CopyOnWrite {
  import opened Prelude
  import opened CowState

  class ReferenceCounter {
    var counts: map<nat, int>
    var totalRefs: int

    constructor ()
      ensures counts == map[] && totalRefs == 0
    {
      counts, totalRefs := map[], 0;
    }

    method Increment(pageId: nat) returns (newCount: int)
      modifies this
      ensures newCount == (if pageId in old(counts) then old(counts)[pageId] else 0) + 1
      ensures counts == old(counts)[pageId := newCount] && totalRefs == old(totalRefs) + 1
    {
      if pageId !in counts {
        counts := counts[pageId := 0];
      }
      newCount := counts[pageId] + 1;
      counts := counts[pageId := newCount];
      totalRefs := totalRefs + 1;
    }

    method Decrement(pageId: nat) returns (newCount: int)
      modifies this
      ensures pageId !in old(counts) ==>
                newCount == 0 && counts == old(counts) && totalRefs == old(totalRefs)
      ensures pageId in old(counts) ==>
                && newCount == old(counts)[pageId] - 1 && totalRefs == old(totalRefs) - 1
                && counts == if newCount <= 0 then old(counts) - {pageId} else old(counts)[pageId := newCount]
    {
      if pageId !in counts {
        return 0;
      }
      newCount := counts[pageId] - 1;
      counts := counts[pageId := newCount];
      totalRefs := totalRefs - 1;
      if newCount <= 0 {
        counts := counts - {pageId};
      }
    }
  }

  class CopyOnWrite {
    var sharedPages: map<nat, SharedPage>
    var refCounter: ReferenceCounter
    var nextPageId: nat
    var copiesCreated: int
    var copiesAvoided: int

    ghost function State(): Cow
      reads this, refCounter
    {
      Cow(sharedPages, refCounter.counts, refCounter.totalRefs, nextPageId, copiesCreated, copiesAvoided)
    }

    constructor ()
      ensures fresh(refCounter) && State() == NO_SHARING
    {
      sharedPages := map[];
      refCounter := new ReferenceCounter();
      nextPageId, copiesCreated, copiesAvoided := FIRST_COPY_ID, 0, 0;
    }

    method AddOne(pageId: nat, pid: Pid)
      modifies this, refCounter
      ensures refCounter == old(refCounter) && State() == AddSharer(old(State()), pageId, pid)
    {
      var entry := if pageId in sharedPages then sharedPages[pageId] else SharedPage({}, 0);
      if pid !in entry.processes {
        sharedPages := sharedPages[pageId := SharedPage(entry.processes + {pid}, entry.refCount + 1)];
        var _ := refCounter.Increment(pageId);
      }
    }

    /** SharePage refuses an empty list of processes. */
    method SharePage(pageId: nat, pids: seq<Pid>) returns (ok: bool)
      modifies this, refCounter
      ensures refCounter == old(refCounter) && ok == (pids != [])
      ensures State() == AddSharers(old(State()), pageId, pids)
    {
      if pids == [] {
        return false;
      }
      for i := 0 to |pids|
        invariant refCounter == old(refCounter)
        invariant State() == AddSharers(old(State()), pageId, pids[..i])
      {
        AddOne(pageId, pids[i]);
        assert pids[..i + 1][..i] == pids[..i];
      }
      assert pids[..|pids|] == pids;
      return true;
    }

    /** UnsharePage (decrementRefCount). */
    method UnsharePage(pageId: nat, pid: Pid)
      modifies this, refCounter
      ensures refCounter == old(refCounter) && State() == DropSharer(old(State()), pageId, pid)
    {
      if pageId in sharedPages && pid in sharedPages[pageId].processes {
        var entry := sharedPages[pageId];
        entry := SharedPage(entry.processes - {pid}, entry.refCount - 1);
        sharedPages := sharedPages[pageId := entry];
        var _ := refCounter.Decrement(pageId);
        if entry.refCount <= 0 {
          sharedPages := sharedPages - {pageId};
        }
      }
    }

    /** The read-locked first section of HandleWrite. */
    method CheckShared(pageId: nat, pageShared: bool) returns (shared: bool)
      modifies this`copiesAvoided
      ensures shared == LooksShared(old(State()), pageId, pageShared)
      ensures State() == if shared then old(State()) else Avoid(old(State()))
    {
      shared := pageId in sharedPages && pageShared;
      if !shared {
        copiesAvoided := copiesAvoided + 1;
      }
    }

    /** The write-locked second section of HandleWrite. */
    method CommitWrite(pageId: nat, pid: Pid) returns (copies: bool)
      modifies this, refCounter
      ensures refCounter == old(refCounter) && (State(), copies) == Commit(old(State()), pageId, pid)
    {
      if pageId !in sharedPages {
        copiesAvoided := copiesAvoided + 1;
        return false;
      }
      var refCount := sharedPages[pageId].refCount;
      if refCount <= 1 {
        UnsharePage(pageId, pid);
        copiesAvoided := copiesAvoided + 1;
        return false;
      }
      if pid !in sharedPages[pageId].processes {
        copiesAvoided := copiesAvoided + 1;
        return false;
      }
      UnsharePage(pageId, pid);
      return true;
    }

    /** The numbering of a copy, an atomic step of its own. */
    method DrawNumber() returns (newId: nat)
      modifies this`nextPageId
      ensures (State(), newId) == Draw(old(State()))
    {
      nextPageId := nextPageId + 1;
      return nextPageId;
    }

    method HandleWrite(pageId: nat, pid: Pid, pageShared: bool) returns (verdict: Verdict)
      modifies this, refCounter
      ensures refCounter == old(refCounter)
      ensures (State(), verdict) == CowState.HandleWrite(old(State()), pageId, pid, pageShared)
    {
      var shared := CheckShared(pageId, pageShared);
      if !shared {
        return NoCopy;
      }
      var copies := CommitWrite(pageId, pid);
      if !copies {
        return NoCopy;
      }
      var newId := DrawNumber();
      return Copy(newId);
    }

    /** CopyPage only counts; the copy itself is built by the caller. */
    method CopyPage()
      modifies this`copiesCreated
      ensures State() == old(State()).(created := old(State()).created + 1)
    {
      copiesCreated := copiesCreated + 1;
    }

    /** ForkProcess, over the identifiers of the parent's present pages, in any order. */
    method ForkProcess(parent: Pid, child: Pid, pageIds: set<nat>)
      modifies this, refCounter
      ensures refCounter == old(refCounter)
      ensures State() == ShareAll(old(State()), pageIds, parent, child)
    {
      var todo := pageIds;
      while todo != {}
        invariant refCounter == old(refCounter)
        invariant ShareAll(State(), todo, parent, child) == ShareAll(old(State()), pageIds, parent, child)
        decreases todo
      {
        var id :| id in todo;
        ShareAllAnyOrder(State(), todo, parent, child, id);
        AddOne(id, parent);
        AddOne(id, child);
        todo := todo - {id};
      }
    }

    /** RemoveProcess, over the table's entries in any order. */
    method RemoveProcess(pid: Pid)
      modifies this, refCounter
      ensures refCounter == old(refCounter)
      ensures State() == DropEverywhere(old(State()), old(sharedPages).Keys, pid)
    {
      var todo := sharedPages.Keys;
      while todo != {}
        invariant refCounter == old(refCounter)
        invariant DropEverywhere(State(), todo, pid)
                  == DropEverywhere(old(State()), old(sharedPages).Keys, pid)
        decreases todo
      {
        var id :| id in todo;
        DropEverywhereAnyOrder(State(), todo, pid, id);
        UnsharePage(id, pid);
        todo := todo - {id};
      }
    }

    /** Reset forgets every sharing but keeps the copy numbers fresh. */
    method Reset()
      modifies this
      ensures fresh(refCounter) && State() == NO_SHARING.(nextId := old(nextPageId))
    {
      sharedPages := map[];
      refCounter := new ReferenceCounter();
      copiesCreated, copiesAvoided := 0, 0;
    }
  }
}
