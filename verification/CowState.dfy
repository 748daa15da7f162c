/** Copy-on-write bookkeeping (internal/cow/cow.go, internal/cow/reference_counter.go) as values:
    what each critical section does to the shared-page table and the reference counter. */
module CowState {
  import opened Prelude

  const FIRST_COPY_ID := 1_000_000

  datatype SharedPage = SharedPage(processes: set<Pid>, refCount: int)

  datatype Cow = Cow(
    shared: map<nat, SharedPage>,
    counts: map<nat, int>, total: int,
    nextId: nat, created: int, avoided: int)

  const NO_SHARING := Cow(map[], map[], 0, FIRST_COPY_ID, 0, 0)

  function Entry(c: Cow, id: nat): SharedPage {
    if id in c.shared then c.shared[id] else SharedPage({}, 0)
  }

  function Count(c: Cow, id: nat): int {
    if id in c.counts then c.counts[id] else 0
  }

  function Increment(c: Cow, id: nat): Cow {
    c.(counts := c.counts[id := Count(c, id) + 1], total := c.total + 1)
  }

  function Decrement(c: Cow, id: nat): Cow {
    if id !in c.counts then c
    else
      var n := c.counts[id] - 1;
      c.(counts := if n <= 0 then c.counts - {id} else c.counts[id := n], total := c.total - 1)
  }

  /** One turn of the loops of SharePage and ForkProcess: register pid as a sharer of page id. */
  function AddSharer(c: Cow, id: nat, pid: Pid): Cow {
    var e := Entry(c, id);
    if pid in e.processes then c
    else Increment(c, id).(shared := c.shared[id := SharedPage(e.processes + {pid}, e.refCount + 1)])
  }

  /** SharePage's loop over a list of processes. */
  function AddSharers(c: Cow, id: nat, pids: seq<Pid>): Cow {
    if pids == [] then c
    else AddSharer(AddSharers(c, id, pids[..|pids| - 1]), id, pids[|pids| - 1])
  }

  function AddBoth(c: Cow, id: nat, parent: Pid, child: Pid): Cow {
    AddSharer(AddSharer(c, id, parent), id, child)
  }

  /** UnsharePage, and the unregistering part of HandleWrite. */
  function DropSharer(c: Cow, id: nat, pid: Pid): Cow {
    if id !in c.shared || pid !in c.shared[id].processes then c
    else
      var e := SharedPage(c.shared[id].processes - {pid}, c.shared[id].refCount - 1);
      Decrement(c, id).(shared := if e.refCount <= 0 then c.shared - {id} else c.shared[id := e])
  }

  /** What HandleWrite tells its caller. */
  datatype Verdict = NoCopy | Copy(newId: nat)

  /** The first critical section of HandleWrite, under the read lock. */
  predicate LooksShared(c: Cow, id: nat, pageShared: bool) {
    id in c.shared && pageShared
  }

  function Avoid(c: Cow): Cow {
    c.(avoided := c.avoided + 1)
  }

  /** The second critical section, under the write lock: must the writer copy? */
  function Commit(c: Cow, id: nat, pid: Pid): (Cow, bool) {
    if id !in c.shared then (Avoid(c), false)
    else if c.shared[id].refCount <= 1 then (Avoid(DropSharer(c, id, pid)), false)
    else if pid !in c.shared[id].processes then (Avoid(c), false)
    else (DropSharer(c, id, pid), true)
  }

  /** The writer is one of several registered sharers. */
  predicate MustCopy(c: Cow, id: nat, pid: Pid) {
    id in c.shared && c.shared[id].refCount > 1 && pid in c.shared[id].processes
  }

  /** The copy's number, drawn after the lock is given up. */
  function Draw(c: Cow): (Cow, nat) {
    (c.(nextId := c.nextId + 1), c.nextId + 1)
  }

  function HandleWrite(c: Cow, id: nat, pid: Pid, pageShared: bool): (Cow, Verdict) {
    if !LooksShared(c, id, pageShared) then (Avoid(c), NoCopy)
    else
      var (d, copies) := Commit(c, id, pid);
      if copies then (Draw(d).0, Copy(Draw(d).1)) else (d, NoCopy)
  }

  lemma CopiesIffSeveral(c: Cow, id: nat, pid: Pid, pageShared: bool)
    ensures HandleWrite(c, id, pid, pageShared).1.Copy? <==> pageShared && MustCopy(c, id, pid)
  {
  }

  /** RemoveProcess: pid leaves every page it shares. */
  ghost function DropEverywhere(c: Cow, ids: set<nat>, pid: Pid): Cow
    decreases ids
  {
    if ids == {} then c
    else
      var id :| id in ids;
      DropEverywhere(DropSharer(c, id, pid), ids - {id}, pid)
  }

  /** ForkProcess: parent and child become sharers of every given page. */
  ghost function ShareAll(c: Cow, ids: set<nat>, parent: Pid, child: Pid): Cow
    decreases ids
  {
    if ids == {} then c
    else
      var id :| id in ids;
      ShareAll(AddBoth(c, id, parent, child), ids - {id}, parent, child)
  }

  // ---- The redundant counts agree ----

  ghost predicate Valid(c: Cow) {
    && c.counts.Keys == c.shared.Keys
    && (forall id :: id in c.shared ==>
          && c.shared[id].refCount == |c.shared[id].processes| >= 1
          && c.counts[id] == c.shared[id].refCount)
    && c.total == Sum(c.counts)
    && c.nextId >= FIRST_COPY_ID
  }

  lemma AddSharerValid(c: Cow, id: nat, pid: Pid)
    requires Valid(c)
    ensures Valid(AddSharer(c, id, pid))
    ensures Entry(AddSharer(c, id, pid), id).processes == Entry(c, id).processes + {pid}
    ensures forall other :: other != id ==> Entry(AddSharer(c, id, pid), other) == Entry(c, other)
  {
    SumUpdate(c.counts, id, Count(c, id) + 1);
  }

  /** SharePage registers exactly the listed processes, however often they are listed. */
  lemma {:induction false} AddSharersValid(c: Cow, id: nat, pids: seq<Pid>)
    requires Valid(c)
    ensures Valid(AddSharers(c, id, pids))
    ensures forall p :: p in Entry(AddSharers(c, id, pids), id).processes
                        <==> p in Entry(c, id).processes || p in pids
    ensures forall other :: other != id ==> Entry(AddSharers(c, id, pids), other) == Entry(c, other)
  {
    if pids != [] {
      AddSharersValid(c, id, pids[..|pids| - 1]);
      AddSharerValid(AddSharers(c, id, pids[..|pids| - 1]), id, pids[|pids| - 1]);
    }
  }

  lemma DropSharerValid(c: Cow, id: nat, pid: Pid)
    requires Valid(c)
    ensures Valid(DropSharer(c, id, pid))
    ensures Entry(DropSharer(c, id, pid), id).processes == Entry(c, id).processes - {pid}
    ensures forall other :: other != id ==> Entry(DropSharer(c, id, pid), other) == Entry(c, other)
  {
    if id in c.shared && pid in c.shared[id].processes {
      SumUpdate(c.counts, id, c.counts[id] - 1);
      SumRemove(c.counts, id);
      var rest := c.shared[id].processes - {pid};
      assert |rest| == c.shared[id].refCount - 1;
      if c.counts[id] <= 1 {
        assert rest == {};
      }
    }
  }

  lemma CommitValid(c: Cow, id: nat, pid: Pid)
    requires Valid(c)
    ensures Valid(Commit(c, id, pid).0)
  {
    DropSharerValid(c, id, pid);
  }

  lemma HandleWriteValid(c: Cow, id: nat, pid: Pid, pageShared: bool)
    requires Valid(c)
    ensures Valid(HandleWrite(c, id, pid, pageShared).0)
  {
    CommitValid(c, id, pid);
  }

  /** Every atomic step of the package; HandleWrite is up to three of them. */
  datatype Step =
    | Share(id: nat, pid: Pid)
    | Check(id: nat, pageShared: bool)
    | CommitWrite(id: nat, pid: Pid)
    | DrawNumber
    | Unshare(id: nat, pid: Pid)
    | Fork(parent: Pid, child: Pid, pages: set<nat>)
    | Remove(pid: Pid)
    | Reset

  ghost function Apply(c: Cow, s: Step): Cow {
    match s
    case Share(id, pid) => AddSharer(c, id, pid)
    case Check(id, pageShared) => if LooksShared(c, id, pageShared) then c else Avoid(c)
    case CommitWrite(id, pid) => Commit(c, id, pid).0
    case DrawNumber => Draw(c).0
    case Unshare(id, pid) => DropSharer(c, id, pid)
    case Fork(parent, child, pages) => ShareAll(c, pages, parent, child)
    case Remove(pid) => DropEverywhere(c, c.shared.Keys, pid)
    case Reset => NO_SHARING.(nextId := c.nextId)
  }

  ghost function ApplyAll(c: Cow, steps: seq<Step>): Cow {
    if steps == [] then c else Apply(ApplyAll(c, steps[..|steps| - 1]), steps[|steps| - 1])
  }

  lemma {:induction false} DropEverywhereValid(c: Cow, ids: set<nat>, pid: Pid)
    requires Valid(c)
    ensures Valid(DropEverywhere(c, ids, pid))
    decreases ids
  {
    if ids != {} {
      var id :| id in ids && DropEverywhere(c, ids, pid) == DropEverywhere(DropSharer(c, id, pid), ids - {id}, pid);
      DropSharerValid(c, id, pid);
      DropEverywhereValid(DropSharer(c, id, pid), ids - {id}, pid);
    }
  }

  lemma AddBothValid(c: Cow, id: nat, parent: Pid, child: Pid)
    requires Valid(c)
    ensures Valid(AddBoth(c, id, parent, child))
    ensures Entry(AddBoth(c, id, parent, child), id).processes == Entry(c, id).processes + {parent, child}
    ensures forall other :: other != id ==> Entry(AddBoth(c, id, parent, child), other) == Entry(c, other)
  {
    AddSharerValid(c, id, parent);
    AddSharerValid(AddSharer(c, id, parent), id, child);
  }

  lemma {:induction false} ShareAllValid(c: Cow, ids: set<nat>, parent: Pid, child: Pid)
    requires Valid(c)
    ensures Valid(ShareAll(c, ids, parent, child))
    decreases ids
  {
    if ids != {} {
      var id :| id in ids && ShareAll(c, ids, parent, child)
                             == ShareAll(AddBoth(c, id, parent, child), ids - {id}, parent, child);
      AddBothValid(c, id, parent, child);
      ShareAllValid(AddBoth(c, id, parent, child), ids - {id}, parent, child);
    }
  }

  /** Whatever the interleaving of the atomic steps, each entry's RefCount is the size of its
      process set and its ReferenceCounter value, is at least 1, and all of them sum to totalRefs. */
  lemma {:induction false} CountsAgreeInEveryRun(steps: seq<Step>)
    ensures Valid(ApplyAll(NO_SHARING, steps))
  {
    if steps != [] {
      var c, s := ApplyAll(NO_SHARING, steps[..|steps| - 1]), steps[|steps| - 1];
      CountsAgreeInEveryRun(steps[..|steps| - 1]);
      match s
      case Share(id, pid) => AddSharerValid(c, id, pid);
      case Check(_, _) =>
      case CommitWrite(id, pid) => CommitValid(c, id, pid);
      case DrawNumber =>
      case Unshare(id, pid) => DropSharerValid(c, id, pid);
      case Fork(parent, child, pages) => ShareAllValid(c, pages, parent, child);
      case Remove(pid) => DropEverywhereValid(c, c.shared.Keys, pid);
      case Reset =>
    }
  }

  // ---- The order in which a Go map is walked does not matter ----

  lemma DecrementCommutes(c: Cow, a: nat, b: nat)
    ensures Decrement(Decrement(c, a), b) == Decrement(Decrement(c, b), a)
  {
    if a != b {
      assert Decrement(Decrement(c, a), b).counts == Decrement(Decrement(c, b), a).counts;
    }
  }

  /** The shared-page table after pid left page id. */
  function DropEntry(shared: map<nat, SharedPage>, id: nat, pid: Pid): map<nat, SharedPage> {
    if id !in shared || pid !in shared[id].processes then shared
    else
      var e := SharedPage(shared[id].processes - {pid}, shared[id].refCount - 1);
      if e.refCount <= 0 then shared - {id} else shared[id := e]
  }

  lemma DropEntryCommutes(shared: map<nat, SharedPage>, a: nat, b: nat, pid: Pid)
    requires a != b
    ensures DropEntry(DropEntry(shared, a, pid), b, pid) == DropEntry(DropEntry(shared, b, pid), a, pid)
  {
  }

  lemma DropIs(c: Cow, id: nat, pid: Pid)
    ensures DropSharer(c, id, pid)
            == (if pid in Entry(c, id).processes then Decrement(c, id) else c).(shared := DropEntry(c.shared, id, pid))
  {
  }

  lemma DropElsewhere(c: Cow, a: nat, b: nat, pid: Pid)
    requires a != b
    ensures Entry(DropSharer(c, a, pid), b) == Entry(c, b)
  {
  }

  lemma DropCommutes(c: Cow, a: nat, b: nat, pid: Pid)
    ensures DropSharer(DropSharer(c, a, pid), b, pid) == DropSharer(DropSharer(c, b, pid), a, pid)
  {
    if a != b {
      DropElsewhere(c, a, b, pid);
      DropElsewhere(c, b, a, pid);
      DecrementIgnoresTable(c, a, DropEntry(c.shared, b, pid));
      DecrementIgnoresTable(c, b, DropEntry(c.shared, a, pid));
      DecrementIgnoresTable(Decrement(c, a), b, DropEntry(c.shared, a, pid));
      DecrementIgnoresTable(Decrement(c, b), a, DropEntry(c.shared, b, pid));
      DecrementCommutes(c, a, b);
      DropEntryCommutes(c.shared, a, b, pid);
      DropIs(c, a, pid);
      DropIs(c, b, pid);
      DropIs(DropSharer(c, a, pid), b, pid);
      DropIs(DropSharer(c, b, pid), a, pid);
      hide DropSharer, DropEntry, Decrement, Entry;
    }
  }

  lemma DecrementIgnoresTable(c: Cow, id: nat, shared: map<nat, SharedPage>)
    ensures Decrement(c.(shared := shared), id) == Decrement(c, id).(shared := shared)
  {
  }

  lemma {:induction false} DropEverywhereAnyOrder(c: Cow, ids: set<nat>, pid: Pid, id: nat)
    requires id in ids
    ensures DropEverywhere(c, ids, pid) == DropEverywhere(DropSharer(c, id, pid), ids - {id}, pid)
    decreases ids
  {
    var first :| first in ids && DropEverywhere(c, ids, pid)
                                 == DropEverywhere(DropSharer(c, first, pid), ids - {first}, pid);
    if first != id {
      DropEverywhereAnyOrder(DropSharer(c, first, pid), ids - {first}, pid, id);
      DropCommutes(c, first, id, pid);
      DropEverywhereAnyOrder(DropSharer(c, id, pid), ids - {id}, pid, first);
      assert ids - {first} - {id} == ids - {id} - {first};
    }
  }

  /** RemoveProcess takes its process off exactly the given pages. */
  lemma {:induction false} DropEverywhereLeaves(c: Cow, ids: set<nat>, pid: Pid, i: nat)
    requires Valid(c)
    ensures Entry(DropEverywhere(c, ids, pid), i).processes
            == if i in ids then Entry(c, i).processes - {pid} else Entry(c, i).processes
    decreases ids
  {
    if ids != {} {
      var id :| id in ids;
      DropEverywhereAnyOrder(c, ids, pid, id);
      DropSharerValid(c, id, pid);
      hide DropSharer, Entry, Valid;
      DropEverywhereLeaves(DropSharer(c, id, pid), ids - {id}, pid, i);
    }
  }

  lemma DropTwice(c: Cow, id: nat, pid: Pid)
    ensures DropSharer(DropSharer(c, id, pid), id, pid) == DropSharer(c, id, pid)
    ensures DropSharer(c, id, pid).shared.Keys <= c.shared.Keys
    ensures id !in c.shared ==> DropSharer(c, id, pid) == c
  {
  }

  /** Leaving one page early changes nothing when every page is left in the end. */
  lemma DropEverywhereAbsorbs(c: Cow, ids: set<nat>, pid: Pid, id: nat)
    requires c.shared.Keys <= ids
    ensures DropEverywhere(DropSharer(c, id, pid), ids, pid) == DropEverywhere(c, ids, pid)
    ensures DropSharer(c, id, pid).shared.Keys <= ids
  {
    DropTwice(c, id, pid);
    if id in ids {
      DropEverywhereAnyOrder(DropSharer(c, id, pid), ids, pid, id);
      DropEverywhereAnyOrder(c, ids, pid, id);
    }
  }

  /** Only the pages in the table matter. */
  lemma {:induction false} DropEverywhereOverAll(c: Cow, ids: set<nat>, pid: Pid)
    requires c.shared.Keys <= ids
    ensures DropEverywhere(c, ids, pid) == DropEverywhere(c, c.shared.Keys, pid)
    decreases ids
  {
    if ids != c.shared.Keys {
      assert ids - c.shared.Keys != {} by {
        assert ids == c.shared.Keys + (ids - c.shared.Keys);
      }
      var id :| id in ids - c.shared.Keys;
      DropEverywhereAnyOrder(c, ids, pid, id);
      DropTwice(c, id, pid);
      DropEverywhereOverAll(c, ids - {id}, pid);
    }
  }

  lemma AddSharerElsewhere(c: Cow, a: nat, p: Pid, b: nat)
    requires a != b
    ensures Entry(AddSharer(c, a, p), b) == Entry(c, b)
    ensures Count(AddSharer(c, a, p), b) == Count(c, b)
  {
  }

  lemma AddSharerCommutes(c: Cow, a: nat, p: Pid, b: nat, q: Pid)
    requires a != b
    ensures AddSharer(AddSharer(c, a, p), b, q) == AddSharer(AddSharer(c, b, q), a, p)
  {
    AddSharerElsewhere(c, a, p, b);
    AddSharerElsewhere(c, b, q, a);
    var ea, eb := Entry(c, a), Entry(c, b);
    if p !in ea.processes && q !in eb.processes {
      var na := SharedPage(ea.processes + {p}, ea.refCount + 1);
      var nb := SharedPage(eb.processes + {q}, eb.refCount + 1);
      assert c.shared[a := na][b := nb] == c.shared[b := nb][a := na];
      var ka, kb := Count(c, a) + 1, Count(c, b) + 1;
      assert c.counts[a := ka][b := kb] == c.counts[b := kb][a := ka];
    }
  }

  lemma AddBothCommutes(c: Cow, a: nat, b: nat, parent: Pid, child: Pid)
    requires a != b
    ensures AddBoth(AddBoth(c, a, parent, child), b, parent, child)
            == AddBoth(AddBoth(c, b, parent, child), a, parent, child)
  {
    var d := AddSharer(c, a, parent);
    AddSharerCommutes(d, a, child, b, parent);
    AddSharerCommutes(c, a, parent, b, parent);
    AddSharerCommutes(AddSharer(d, b, parent), a, child, b, child);
    AddSharerCommutes(AddSharer(c, b, parent), a, parent, b, child);
  }

  lemma {:induction false} ShareAllAnyOrder(c: Cow, ids: set<nat>, parent: Pid, child: Pid, id: nat)
    requires id in ids
    ensures ShareAll(c, ids, parent, child) == ShareAll(AddBoth(c, id, parent, child), ids - {id}, parent, child)
    decreases ids
  {
    var first :| first in ids && ShareAll(c, ids, parent, child)
                                 == ShareAll(AddBoth(c, first, parent, child), ids - {first}, parent, child);
    if first != id {
      ShareAllAnyOrder(AddBoth(c, first, parent, child), ids - {first}, parent, child, id);
      AddBothCommutes(c, first, id, parent, child);
      ShareAllAnyOrder(AddBoth(c, id, parent, child), ids - {id}, parent, child, first);
      assert ids - {first} - {id} == ids - {id} - {first};
    }
  }

  lemma AddBothRegisters(c: Cow, id: nat, parent: Pid, child: Pid, i: nat)
    ensures Entry(AddBoth(c, id, parent, child), i).processes
            == if i == id then Entry(c, i).processes + {parent, child} else Entry(c, i).processes
  {
  }

  /** A fork registers parent and child for exactly the given pages. */
  lemma {:induction false} ShareAllRegisters(c: Cow, ids: set<nat>, parent: Pid, child: Pid, i: nat)
    ensures Entry(ShareAll(c, ids, parent, child), i).processes
            == if i in ids then Entry(c, i).processes + {parent, child} else Entry(c, i).processes
    decreases ids
  {
    if ids != {} {
      hide AddBoth, ShareAll, Entry;
      var id :| id in ids;
      ShareAllAnyOrder(c, ids, parent, child, id);
      AddBothRegisters(c, id, parent, child, i);
      ShareAllRegisters(AddBoth(c, id, parent, child), ids - {id}, parent, child, i);
    }
  }

  // ---- n sharers, each writing once ----

  /** Writers of one shared page q. A writer's HandleWrite is three events: its look, its decision,
      and its finish, which draws a number if it must copy. `passed` are the writers between the
      first two, `pending` those between the last two that must copy, `copies` the numbers handed
      out so far. Other writers decide about other pages and draw numbers at any time. */
  datatype Event =
    | Look(writer: Pid) | Decide(writer: Pid) | Finish(writer: Pid)
    | DecideElsewhere(id: nat, pid: Pid) | DrawElsewhere
  {
    predicate Ours() {
      Look? || Decide? || Finish?
    }
  }

  datatype Race = Race(cow: Cow, passed: set<Pid>, pending: set<Pid>, copies: seq<nat>)

  function Advance(r: Race, q: nat, e: Event): Race {
    match e
    case Look(w) =>
      if LooksShared(r.cow, q, true) then r.(passed := r.passed + {w}) else r.(cow := Avoid(r.cow))
    case Decide(w) =>
      if w !in r.passed then r
      else
        var (c, copies) := Commit(r.cow, q, w);
        Race(c, r.passed - {w}, if copies then r.pending + {w} else r.pending, r.copies)
    case Finish(w) =>
      if w !in r.pending then r
      else
        var (c, newId) := Draw(r.cow);
        Race(c, r.passed, r.pending - {w}, r.copies + [newId])
    case DecideElsewhere(id, pid) =>
      if id == q then r else r.(cow := Commit(r.cow, id, pid).0)
    case DrawElsewhere =>
      r.(cow := Draw(r.cow).0)
  }

  function AdvanceAll(c: Cow, q: nat, es: seq<Event>): Race {
    if es == [] then Race(c, {}, {}, [])
    else Advance(AdvanceAll(c, q, es[..|es| - 1]), q, es[|es| - 1])
  }

  function Looked(es: seq<Event>): set<Pid> {
    if es == [] then {}
    else Looked(es[..|es| - 1]) + (if es[|es| - 1].Look? then {es[|es| - 1].writer} else {})
  }

  /** The writers that have decided, in any schedule prefix. */
  function Decided(es: seq<Event>): set<Pid> {
    if es == [] then {}
    else Decided(es[..|es| - 1]) + (if es[|es| - 1].Decide? then {es[|es| - 1].writer} else {})
  }

  function Finished(es: seq<Event>): set<Pid> {
    if es == [] then {}
    else Finished(es[..|es| - 1]) + (if es[|es| - 1].Finish? then {es[|es| - 1].writer} else {})
  }

  /** Each event of a writer happens at most once, in the order look, decide, finish, and only
      registered sharers write. */
  ghost predicate Schedule(es: seq<Event>, sharers: set<Pid>) {
    && (forall k :: 0 <= k < |es| && es[k].Ours() ==> es[k].writer in sharers)
    && (forall i, j :: 0 <= i < j < |es| && es[i].Ours() ==> es[i] != es[j])
    && (forall k :: 0 <= k < |es| && es[k].Decide? ==>
          exists j :: 0 <= j < k && es[j] == Look(es[k].writer))
    && (forall k :: 0 <= k < |es| && es[k].Finish? ==>
          exists j :: 0 <= j < k && es[j] == Decide(es[k].writer))
  }

  ghost predicate Ascending(s: seq<nat>) {
    forall i, j :: 0 <= i < j < |s| ==> s[i] < s[j]
  }

  lemma {:induction false} EventsHappened(es: seq<Event>, w: Pid)
    ensures w in Looked(es) <==> exists k :: 0 <= k < |es| && es[k] == Look(w)
    ensures w in Decided(es) <==> exists k :: 0 <= k < |es| && es[k] == Decide(w)
    ensures w in Finished(es) <==> exists k :: 0 <= k < |es| && es[k] == Finish(w)
  {
    if es != [] {
      var pre, e := es[..|es| - 1], es[|es| - 1];
      EventsHappened(pre, w);
      assert forall k :: 0 <= k < |pre| ==> pre[k] == es[k];
      assert es[|es| - 1] == e;
    }
  }

  lemma SchedulePrefix(es: seq<Event>, sharers: set<Pid>)
    requires es != [] && Schedule(es, sharers)
    ensures Schedule(es[..|es| - 1], sharers)
  {
    var pre := es[..|es| - 1];
    forall k | 0 <= k < |pre| && pre[k].Decide?
      ensures exists j :: 0 <= j < k && pre[j] == Look(pre[k].writer)
    {
      var j :| 0 <= j < k && es[j] == Look(es[k].writer);
      assert pre[j] == Look(pre[k].writer);
    }
    forall k | 0 <= k < |pre| && pre[k].Finish?
      ensures exists j :: 0 <= j < k && pre[j] == Decide(pre[k].writer)
    {
      var j :| 0 <= j < k && es[j] == Decide(es[k].writer);
      assert pre[j] == Decide(pre[k].writer);
    }
  }

  /** May event e come after those in the three sets? */
  predicate Allowed(e: Event, sharers: set<Pid>, looked: set<Pid>, done: set<Pid>, finished: set<Pid>) {
    match e
    case Look(w) => w in sharers - done
    case Decide(w) => w in sharers - done && w in looked
    case Finish(w) => w in done - finished
    case _ => true
  }

  /** What the schedule says about its last event. */
  lemma ScheduleLast(es: seq<Event>, sharers: set<Pid>)
    requires es != [] && Schedule(es, sharers)
    ensures var pre := es[..|es| - 1];
            Allowed(es[|es| - 1], sharers, Looked(pre), Decided(pre), Finished(pre))
  {
    var pre, e := es[..|es| - 1], es[|es| - 1];
    assert forall k :: 0 <= k < |pre| ==> pre[k] == es[k];
    if e.Ours() {
      EventsHappened(pre, e.writer);
    }
  }

  /** The race after the writers in `looked` have looked, those in `done` have decided and those in
      `finished` have finished: every sharer that has not decided is still registered, and each
      decision has led to a number or is waiting for one, except that the last sharer of all takes
      the page over without a copy. */
  ghost predicate RaceInv(c: Cow, q: nat, looked: set<Pid>, done: set<Pid>, finished: set<Pid>, r: Race)
    requires q in c.shared
  {
    var all := c.shared[q].processes;
    && Valid(r.cow) && r.cow.nextId >= c.nextId
    && Entry(r.cow, q).processes == all - done
    && r.passed == looked - done
    && done <= all
    && r.pending <= done - finished
    && |r.copies| + |r.pending| == (if |done| == |all| then |all| - 1 else |done|)
    && Ascending(r.copies)
    && (forall k :: 0 <= k < |r.copies| ==> c.nextId < r.copies[k] <= r.cow.nextId)
  }

  lemma RaceDecide(c: Cow, q: nat, looked: set<Pid>, done: set<Pid>, finished: set<Pid>, r: Race, w: Pid)
    requires Valid(c) && q in c.shared && w in c.shared[q].processes - done && w in looked && w !in finished
    requires RaceInv(c, q, looked, done, finished, r)
    ensures RaceInv(c, q, looked, done + {w}, finished, Advance(r, q, Decide(w)))
  {
    var all := c.shared[q].processes;
    SubsetSizes(done, w, all);
    DropSharerValid(r.cow, q, w);
    CommitValid(r.cow, q, w);
    assert all - done - {w} == all - (done + {w});
    assert q in r.cow.shared && w in r.cow.shared[q].processes;
    assert r.cow.shared[q].refCount == |all - done|;
    var r' := Advance(r, q, Decide(w));
    assert Entry(r'.cow, q) == Entry(DropSharer(r.cow, q, w), q);
    assert r'.passed == looked - (done + {w});
  }

  lemma RaceFinish(c: Cow, q: nat, looked: set<Pid>, done: set<Pid>, finished: set<Pid>, r: Race, w: Pid)
    requires Valid(c) && q in c.shared && w in done - finished
    requires RaceInv(c, q, looked, done, finished, r)
    ensures RaceInv(c, q, looked, done, finished + {w}, Advance(r, q, Finish(w)))
  {
    assert Entry(Draw(r.cow).0, q) == Entry(r.cow, q);
    if w in r.pending {
      assert r.pending == (r.pending - {w}) + {w};
    }
  }

  /** A step that leaves page q's entry alone and hands out no number of ours. */
  lemma RaceUntouched(c: Cow, q: nat, looked: set<Pid>, done: set<Pid>, finished: set<Pid>, r: Race, d: Cow)
    requires Valid(c) && q in c.shared
    requires RaceInv(c, q, looked, done, finished, r)
    requires Valid(d) && Entry(d, q) == Entry(r.cow, q) && d.nextId >= r.cow.nextId
    ensures RaceInv(c, q, looked, done, finished, r.(cow := d))
  {
  }

  lemma RaceLook(c: Cow, q: nat, looked: set<Pid>, done: set<Pid>, finished: set<Pid>, r: Race, w: Pid)
    requires Valid(c) && q in c.shared && w in c.shared[q].processes - done
    requires RaceInv(c, q, looked, done, finished, r)
    ensures RaceInv(c, q, looked + {w}, done, finished, Advance(r, q, Look(w)))
  {
    assert w in Entry(r.cow, q).processes;
  }

  lemma CommitElsewhere(c: Cow, id: nat, pid: Pid, q: nat)
    requires Valid(c) && id != q
    ensures var d := Commit(c, id, pid).0; Valid(d) && Entry(d, q) == Entry(c, q) && d.nextId == c.nextId
  {
    CommitValid(c, id, pid);
    DropSharerValid(c, id, pid);
    hide Valid;
  }

  lemma RaceElsewhere(c: Cow, q: nat, looked: set<Pid>, done: set<Pid>, finished: set<Pid>, r: Race, e: Event)
    requires Valid(c) && q in c.shared && !e.Ours()
    requires RaceInv(c, q, looked, done, finished, r)
    ensures RaceInv(c, q, looked, done, finished, Advance(r, q, e))
  {
    assert Valid(r.cow);
    var d := Advance(r, q, e).cow;
    if e.DecideElsewhere? && e.id != q {
      CommitElsewhere(r.cow, e.id, e.pid, q);
    }
    hide Commit, RaceInv;
    RaceUntouched(c, q, looked, done, finished, r, d);
  }

  lemma RaceStep(c: Cow, q: nat, looked: set<Pid>, done: set<Pid>, finished: set<Pid>, r: Race, e: Event)
    requires Valid(c) && q in c.shared && finished <= done
    requires Allowed(e, c.shared[q].processes, looked, done, finished)
    requires RaceInv(c, q, looked, done, finished, r)
    ensures RaceInv(c, q, looked + (if e.Look? then {e.writer} else {}),
                    done + (if e.Decide? then {e.writer} else {}),
                    finished + (if e.Finish? then {e.writer} else {}), Advance(r, q, e))
    ensures finished + (if e.Finish? then {e.writer} else {}) <= done + (if e.Decide? then {e.writer} else {})
  {
    assert looked + {} == looked && done + {} == done && finished + {} == finished;
    match e
    case Look(w) => RaceLook(c, q, looked, done, finished, r, w);
    case Decide(w) => RaceDecide(c, q, looked, done, finished, r, w);
    case Finish(w) => RaceFinish(c, q, looked, done, finished, r, w);
    case _ => RaceElsewhere(c, q, looked, done, finished, r, e);
  }

  lemma RaceStart(c: Cow, q: nat)
    requires Valid(c) && q in c.shared
    ensures RaceInv(c, q, {}, {}, {}, Race(c, {}, {}, []))
  {
    assert c.shared[q].processes - {} == c.shared[q].processes;
  }

  lemma {:induction false} RaceInvariant(c: Cow, q: nat, es: seq<Event>)
    requires Valid(c) && q in c.shared
    requires Schedule(es, c.shared[q].processes)
    ensures RaceInv(c, q, Looked(es), Decided(es), Finished(es), AdvanceAll(c, q, es))
    ensures Finished(es) <= Decided(es)
  {
    if es == [] {
      RaceStart(c, q);
    } else {
      var pre, e := es[..|es| - 1], es[|es| - 1];
      SchedulePrefix(es, c.shared[q].processes);
      ScheduleLast(es, c.shared[q].processes);
      RaceInvariant(c, q, pre);
      hide RaceInv, Advance, Schedule;
      RaceStep(c, q, Looked(pre), Decided(pre), Finished(pre), AdvanceAll(c, q, pre), e);
    }
  }

  lemma SubsetSizes(done: set<Pid>, w: Pid, all: set<Pid>)
    requires done <= all && w in all - done
    ensures |done + {w}| == |done| + 1 <= |all|
    ensures |all - done| == |all| - |done|
    ensures |done + {w}| == |all| <==> |all - done| == 1
  {
    assert all == done + (all - done);
    assert all - done == (all - done - {w}) + {w};
    assert all == (done + {w}) + (all - done - {w});
  }

  /** n registered sharers that each write once, the looks, decisions and numberings of all of them
      interleaved in any way with each other and with writes elsewhere, cause exactly n - 1 copies;
      the copy numbers are new and pairwise different, and the page ends up unshared. */
  lemma EachSharerWritesOnce(c: Cow, q: nat, es: seq<Event>)
    requires Valid(c) && q in c.shared
    requires Schedule(es, c.shared[q].processes)
    requires Finished(es) == c.shared[q].processes
    ensures var r := AdvanceAll(c, q, es);
            && |r.copies| == |c.shared[q].processes| - 1
            && Distinct(r.copies)
            && (forall k :: 0 <= k < |r.copies| ==> r.copies[k] > c.nextId)
            && q !in r.cow.shared
  {
    RaceInvariant(c, q, es);
    var r := AdvanceAll(c, q, es);
    assert Decided(es) == c.shared[q].processes;
    assert r.pending == {};
    assert Entry(r.cow, q).processes == {};
  }
}
