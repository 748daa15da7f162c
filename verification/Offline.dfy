/** The offline policies Optimal and OPT+ (internal/algorithms/optimal.go, internal/algorithms/optplus.go):
    an index of a known trace, and choices by next use. */
module Offline {
  import opened Prelude
  import opened Frames

  const NEVER := 1_000_000
  const WRITE_PENALTY := 100

  // ---- The reference: next use in the trace ----

  /** The first position from i on where page p is accessed. */
  function NextFrom(trace: seq<nat>, p: nat, i: nat): (r: Option<nat>)
    ensures match r
            case Some(j) => i <= j < |trace| && trace[j] == p && forall k :: i <= k < j ==> trace[k] != p
            case None => forall k :: i <= k < |trace| ==> trace[k] != p
    decreases |trace| - i
  {
    if i >= |trace| then None
    else if trace[i] == p then Some(i)
    else NextFrom(trace, p, i + 1)
  }

  /** The next use of p after the current position. */
  function NextUse(trace: seq<nat>, p: nat, current: nat): Option<nat> {
    NextFrom(trace, p, current + 1)
  }

  function Distance(trace: seq<nat>, p: nat, current: nat): int {
    match NextUse(trace, p, current)
    case Some(i) => i - current
    case None => NEVER
  }

  function Score(trace: seq<nat>, p: nat, current: nat, dirty: bool): (r: int)
    ensures r > -WRITE_PENALTY
  {
    var d := Distance(trace, p, current);
    (if d >= NEVER then NEVER + d else d) - (if dirty then WRITE_PENALTY else 0)
  }

  /** a is at least as far in the future as b. */
  predicate AtLeastAsFar(a: Option<nat>, b: Option<nat>) {
    a.None? || (b.Some? && a.value >= b.value)
  }

  // ---- The index that SetFutureAccesses builds ----

  ghost predicate Positions(list: seq<nat>, trace: seq<nat>, n: nat, p: nat)
    requires n <= |trace|
  {
    && (forall j, k :: 0 <= j < k < |list| ==> list[j] < list[k])
    && (forall i: nat :: i in list <==> i < n && trace[i] == p)
  }

  /** The index of the first n accesses: every accessed page with exactly its positions, in order. */
  ghost predicate Indexes(index: map<nat, seq<nat>>, trace: seq<nat>, n: nat)
    requires n <= |trace|
  {
    && (forall p :: p in index ==> index[p] != [] && Positions(index[p], trace, n, p))
    && (forall i :: 0 <= i < n ==> trace[i] in index)
  }

  lemma IndexOneMore(index: map<nat, seq<nat>>, trace: seq<nat>, n: nat)
    requires n < |trace| && Indexes(index, trace, n)
    ensures var p := trace[n];
            Indexes(index[p := (if p in index then index[p] else []) + [n]], trace, n + 1)
  {
    var p := trace[n];
    var before := if p in index then index[p] else [];
    var list := before + [n];
    assert Positions(before, trace, n, p);
    forall j, k | 0 <= j < k < |list| ensures list[j] < list[k] {
      assert before[j] in before;
    }
    forall i: nat ensures i in list <==> i < n + 1 && trace[i] == p {
      assert i in list <==> i in before || i == n;
    }
    forall q | q in index && q != p ensures Positions(index[q], trace, n + 1, q) {
      assert Positions(index[q], trace, n, q);
    }
  }

  /** SetFutureAccesses. */
  method BuildIndex(trace: seq<nat>) returns (index: map<nat, seq<nat>>)
    ensures Indexes(index, trace, |trace|)
  {
    index := map[];
    for i := 0 to |trace|
      invariant Indexes(index, trace, i)
    {
      IndexOneMore(index, trace, i);
      hide Indexes;
      index := index[trace[i] := (if trace[i] in index then index[trace[i]] else []) + [i]];
    }
  }

  /** getNextAccessDistance: scanning a page's positions finds its true next use. */
  method NextAccessDistance(index: map<nat, seq<nat>>, ghost trace: seq<nat>, p: nat, current: nat) returns (d: int)
    requires Indexes(index, trace, |trace|)
    ensures d == Distance(trace, p, current)
  {
    if p !in index {
      return NEVER;
    }
    var list := index[p];
    assert Positions(list, trace, |trace|, p);
    for k := 0 to |list|
      invariant forall j :: 0 <= j < k ==> list[j] <= current
    {
      if list[k] > current {
        assert list[k] in list;
        FoundIsNext(list, trace, p, current, k);
        return list[k] - current;
      }
    }
    forall i: nat | current < i < |trace| ensures trace[i] != p {
    }
    return NEVER;
  }

  lemma FoundIsNext(list: seq<nat>, trace: seq<nat>, p: nat, current: nat, k: nat)
    requires Positions(list, trace, |trace|, p) && k < |list| && list[k] > current
    requires forall j :: 0 <= j < k ==> list[j] <= current
    ensures NextUse(trace, p, current) == Some(list[k])
  {
    assert list[k] in list;
    var n := NextUse(trace, p, current);
    assert n.Some? && n.value <= list[k];
    assert n.value in list;
    var j :| 0 <= j < |list| && list[j] == n.value;
  }

  // ---- Optimal ----

  class Optimal {
    var futureAccesses: map<nat, seq<nat>>
    var currentIndex: nat
    ghost var trace: seq<nat>

    ghost predicate Valid()
      reads this
    {
      Indexes(futureAccesses, trace, |trace|)
    }

    constructor ()
      ensures Valid() && trace == [] && currentIndex == 0
    {
      futureAccesses, currentIndex, trace := map[], 0, [];
    }

    method SetFutureAccesses(accesses: seq<nat>)
      modifies this
      ensures Valid() && trace == accesses && currentIndex == 0
    {
      futureAccesses := BuildIndex(accesses);
      trace, currentIndex := accesses, 0;
    }

    method OnPageAccess()
      requires Valid()
      modifies this
      ensures Valid() && trace == old(trace) && currentIndex == old(currentIndex) + 1
    {
      currentIndex := currentIndex + 1;
    }

    method Reset()
      modifies this
      ensures Valid() && trace == [] && currentIndex == 0
    {
      futureAccesses, currentIndex, trace := map[], 0, [];
    }

    /** The first evictable frame of largest distance. */
    method SelectVictim(frames: seq<Frame>) returns (victim: Option<nat>)
      requires Valid()
      ensures VictimContract(frames, victim)
      ensures victim.Some? ==> LargestDistance(frames, trace, currentIndex, victim.value)
    {
      victim := None;
      var farthest := -1;
      for k := 0 to |frames|
        invariant victim.None? ==> farthest == -1 && forall i :: 0 <= i < k ==> !frames[i].Evictable()
        invariant victim.Some? ==>
                    && victim.value < k && LargestDistance(frames[..k], trace, currentIndex, victim.value)
                    && farthest == Distance(trace, frames[victim.value].pageId, currentIndex)
      {
        if !frames[k].free && !frames[k].pinned {
          var distance := NextAccessDistance(futureAccesses, trace, frames[k].pageId, currentIndex);
          if distance > farthest {
            victim, farthest := Some(k), distance;
          }
        }
      }
      assert frames[..|frames|] == frames;
    }
  }

  ghost predicate LargestDistance(frames: seq<Frame>, trace: seq<nat>, current: nat, v: nat) {
    && v < |frames| && frames[v].Evictable()
    && forall i :: 0 <= i < |frames| && frames[i].Evictable() ==>
         var a, b := Distance(trace, frames[v].pageId, current), Distance(trace, frames[i].pageId, current);
         a >= b && (i < v ==> a > b)
  }

  /** Belady's choice: no evictable page is used later than the victim's. */
  ghost predicate Farthest(frames: seq<Frame>, trace: seq<nat>, current: nat, v: nat)
    requires v < |frames|
  {
    forall i :: 0 <= i < |frames| && frames[i].Evictable() ==>
      AtLeastAsFar(NextUse(trace, frames[v].pageId, current), NextUse(trace, frames[i].pageId, current))
  }

  /** Some page that is never used again could have been evicted. */
  ghost predicate AnyNeverUsed(frames: seq<Frame>, trace: seq<nat>, current: nat) {
    exists i :: 0 <= i < |frames| && frames[i].Evictable() && NextUse(trace, frames[i].pageId, current).None?
  }

  /** A page that is used again passes for one that is not: its next use is more than a million accesses
      away, or exactly a million and it is listed before every page that is never used again. */
  ghost predicate Fooled(frames: seq<Frame>, trace: seq<nat>, current: nat) {
    && AnyNeverUsed(frames, trace, current)
    && exists i :: 0 <= i < |frames| && frames[i].Evictable() && PassesForNeverUsed(frames, trace, current, i)
  }

  ghost predicate PassesForNeverUsed(frames: seq<Frame>, trace: seq<nat>, current: nat, i: nat)
    requires i < |frames|
  {
    var d := Distance(trace, frames[i].pageId, current);
    && NextUse(trace, frames[i].pageId, current).Some?
    && d >= NEVER
    && (d == NEVER ==>
          forall j :: 0 <= j < |frames| && frames[j].Evictable() && NextUse(trace, frames[j].pageId, current).None?
                      ==> i < j)
  }

  /** Optimal makes Belady's choice exactly when it is not fooled; the condition is about the frames and the
      trace alone. */
  lemma OptimalIsFarthest(frames: seq<Frame>, trace: seq<nat>, current: nat, v: nat)
    requires LargestDistance(frames, trace, current, v)
    ensures Farthest(frames, trace, current, v) <==> !Fooled(frames, trace, current)
  {
    if Fooled(frames, trace, current) {
      FooledIsNotFarthest(frames, trace, current, v);
    } else {
      NotFooledIsFarthest(frames, trace, current, v);
    }
  }

  lemma NotFooledIsFarthest(frames: seq<Frame>, trace: seq<nat>, current: nat, v: nat)
    requires LargestDistance(frames, trace, current, v)
    ensures Fooled(frames, trace, current) || Farthest(frames, trace, current, v)
  {
    if AnyNeverUsed(frames, trace, current) && NextUse(trace, frames[v].pageId, current).Some? {
      assert PassesForNeverUsed(frames, trace, current, v);
    }
  }

  lemma FooledIsNotFarthest(frames: seq<Frame>, trace: seq<nat>, current: nat, v: nat)
    requires LargestDistance(frames, trace, current, v) && Fooled(frames, trace, current)
    ensures NextUse(trace, frames[v].pageId, current).Some? && !Farthest(frames, trace, current, v)
  {
    var i :| 0 <= i < |frames| && frames[i].Evictable() && PassesForNeverUsed(frames, trace, current, i);
    var j :| 0 <= j < |frames| && frames[j].Evictable() && NextUse(trace, frames[j].pageId, current).None?;
    assert NextUse(trace, frames[v].pageId, current).Some?;
    assert !AtLeastAsFar(NextUse(trace, frames[v].pageId, current), NextUse(trace, frames[j].pageId, current));
  }

  lemma DistanceBelowNever(trace: seq<nat>, p: nat, current: nat)
    requires |trace| <= NEVER
    ensures Distance(trace, p, current) == NEVER <==> NextUse(trace, p, current).None?
    ensures Distance(trace, p, current) <= NEVER
  {
  }

  /** On traces of at most a million accesses Optimal is never fooled: it evicts a page of farthest next use. */
  lemma OptimalOnShortTraces(frames: seq<Frame>, trace: seq<nat>, current: nat, v: nat)
    requires |trace| <= NEVER && LargestDistance(frames, trace, current, v)
    ensures Farthest(frames, trace, current, v)
  {
    OptimalIsFarthest(frames, trace, current, v);
    forall i | 0 <= i < |frames| ensures !PassesForNeverUsed(frames, trace, current, i) {
      DistanceBelowNever(trace, frames[i].pageId, current);
    }
  }

  /** A frame in use that holds the page. */
  function Holding(page: nat): Frame {
    NEW_FRAME.Allocate(page, "p", 0)
  }

  /** A trace that is too long: page 2 is never used again, page 1 once, after 1,000,001 accesses. */
  function LongTrace(): seq<nat> {
    seq(NEVER + 2, i => if i == NEVER + 1 then 1 else 0)
  }

  lemma LongTraceUses()
    ensures NextUse(LongTrace(), 1, 0).Some? && Distance(LongTrace(), 1, 0) == NEVER + 1
    ensures NextUse(LongTrace(), 2, 0).None? && Distance(LongTrace(), 2, 0) == NEVER
  {
    assert LongTrace()[NEVER + 1] == 1;
  }

  /** On it Optimal evicts page 1 and keeps page 2. */
  lemma LongTracesFool()
    ensures var frames := [Holding(2), Holding(1)];
            && LargestDistance(frames, LongTrace(), 0, 1)
            && !Farthest(frames, LongTrace(), 0, 1)
  {
    LongTraceUses();
    var frames := [Holding(2), Holding(1)];
    assert frames[0].Evictable() && frames[0].pageId == 2;
    assert frames[1].Evictable() && frames[1].pageId == 1;
    assert !AtLeastAsFar(NextUse(LongTrace(), frames[1].pageId, 0), NextUse(LongTrace(), frames[0].pageId, 0));
  }

  // ---- OPT+ ----

  class OptPlus {
    var futureAccesses: map<nat, seq<nat>>
    var currentIndex: nat
    ghost var trace: seq<nat>

    ghost predicate Valid()
      reads this
    {
      Indexes(futureAccesses, trace, |trace|)
    }

    constructor ()
      ensures Valid() && trace == [] && currentIndex == 0
    {
      futureAccesses, currentIndex, trace := map[], 0, [];
    }

    method SetFutureAccesses(accesses: seq<nat>)
      modifies this
      ensures Valid() && trace == accesses && currentIndex == 0
    {
      futureAccesses := BuildIndex(accesses);
      trace, currentIndex := accesses, 0;
    }

    method OnPageAccess()
      requires Valid()
      modifies this
      ensures Valid() && trace == old(trace) && currentIndex == old(currentIndex) + 1
    {
      currentIndex := currentIndex + 1;
    }

    method Reset()
      modifies this
      ensures Valid() && trace == [] && currentIndex == 0
    {
      futureAccesses, currentIndex, trace := map[], 0, [];
    }

    method ComputeCostScore(p: nat, isDirty: bool) returns (score: int)
      requires Valid()
      ensures score == Score(trace, p, currentIndex, isDirty)
    {
      var distance := NextAccessDistance(futureAccesses, trace, p, currentIndex);
      var writePenalty := if isDirty then WRITE_PENALTY else 0;
      if distance >= NEVER {
        return NEVER + distance - writePenalty;
      }
      return distance - writePenalty;
    }

    /** The first evictable frame of best score. */
    method SelectVictim(frames: seq<Frame>) returns (victim: Option<nat>)
      requires Valid()
      ensures VictimContract(frames, victim)
      ensures victim.Some? ==> BestScore(frames, trace, currentIndex, victim.value)
    {
      hide Score, Indexes;
      victim := None;
      var bestScore := LOWEST_SCORE;
      for k := 0 to |frames|
        invariant victim.None? ==> bestScore == LOWEST_SCORE && forall i :: 0 <= i < k ==> !frames[i].Evictable()
        invariant victim.Some? ==>
                    && victim.value < k && BestScore(frames[..k], trace, currentIndex, victim.value)
                    && bestScore == FrameScore(frames[victim.value], trace, currentIndex)
      {
        if !frames[k].free && !frames[k].pinned {
          var score := ComputeCostScore(frames[k].pageId, frames[k].modified);
          if score > bestScore {
            victim, bestScore := Some(k), score;
          }
        }
      }
      assert frames[..|frames|] == frames;
    }
  }

  const LOWEST_SCORE := -0x4000_0000_0000_0000

  function FrameScore(f: Frame, trace: seq<nat>, current: nat): int {
    Score(trace, f.pageId, current, f.modified)
  }

  ghost predicate BestScore(frames: seq<Frame>, trace: seq<nat>, current: nat, v: nat) {
    && v < |frames| && frames[v].Evictable()
    && forall i :: 0 <= i < |frames| && frames[i].Evictable() ==>
         var a, b := FrameScore(frames[v], trace, current), FrameScore(frames[i], trace, current);
         a >= b && (i < v ==> a > b)
  }

  /** A page that is used again passes for one that is not, and keeps more of its distance after the penalty
      for a dirty page than any evictable page that is never used, or as much and is listed first. */
  ghost predicate PlusFooled(frames: seq<Frame>, trace: seq<nat>, current: nat) {
    exists i :: 0 <= i < |frames| && frames[i].Evictable() && PassesForBest(frames, trace, current, i)
  }

  function Penalty(f: Frame): int {
    if f.modified then WRITE_PENALTY else 0
  }

  ghost predicate PassesForBest(frames: seq<Frame>, trace: seq<nat>, current: nat, i: nat)
    requires i < |frames|
  {
    var d := Distance(trace, frames[i].pageId, current);
    && NextUse(trace, frames[i].pageId, current).Some?
    && d >= NEVER
    && forall j :: 0 <= j < |frames| && frames[j].Evictable() && NextUse(trace, frames[j].pageId, current).None? ==>
         d - NEVER >= Penalty(frames[i]) - Penalty(frames[j]) + if i < j then 0 else 1
  }

  /** When a never-used page could be evicted, OPT+ evicts one exactly if it is not fooled; the condition is
      about distances in the trace, dirty bits and the order of the list alone. */
  lemma OptPlusPrefersNeverUsed(frames: seq<Frame>, trace: seq<nat>, current: nat, v: nat)
    requires BestScore(frames, trace, current, v) && AnyNeverUsed(frames, trace, current)
    ensures NextUse(trace, frames[v].pageId, current).None? <==> !PlusFooled(frames, trace, current)
  {
    var n :| 0 <= n < |frames| && frames[n].Evictable() && NextUse(trace, frames[n].pageId, current).None?;
    assert FrameScore(frames[v], trace, current) >= FrameScore(frames[n], trace, current);
    if NextUse(trace, frames[v].pageId, current).Some? {
      assert PassesForBest(frames, trace, current, v);
    }
    if PlusFooled(frames, trace, current) {
      var i :| 0 <= i < |frames| && frames[i].Evictable() && PassesForBest(frames, trace, current, i);
      assert FrameScore(frames[v], trace, current) >= FrameScore(frames[i], trace, current);
    }
  }

  /** The trace and frames that fool Optimal fool OPT+ as well. */
  lemma LongTracesFoolPlus()
    ensures var frames := [Holding(2), Holding(1)];
            && BestScore(frames, LongTrace(), 0, 1) && PlusFooled(frames, LongTrace(), 0)
            && NextUse(LongTrace(), 1, 0).Some? && NextUse(LongTrace(), 2, 0).None?
  {
    LongTraceUses();
    var frames := [Holding(2), Holding(1)];
    assert frames[0].Evictable() && frames[0].pageId == 2;
    assert frames[1].Evictable() && frames[1].pageId == 1;
    assert PassesForBest(frames, LongTrace(), 0, 1);
  }

  /** On traces of at most a million accesses it is never fooled, and spares a dirty never-used page if a clean
      one can go. */
  lemma OptPlusOnShortTraces(frames: seq<Frame>, trace: seq<nat>, current: nat, v: nat, i: nat)
    requires |trace| <= NEVER && BestScore(frames, trace, current, v)
    requires i < |frames| && frames[i].Evictable() && NextUse(trace, frames[i].pageId, current).None?
    ensures NextUse(trace, frames[v].pageId, current).None?
    ensures !frames[i].modified ==> !frames[v].modified
  {
    DistanceBelowNever(trace, frames[v].pageId, current);
    DistanceBelowNever(trace, frames[i].pageId, current);
  }

  /** Among pages that are used again, on traces of any length, OPT+ gives up at most 100 accesses of distance,
      and only to spare itself the write-back of a dirty page. */
  lemma OptPlusIsNearlyFarthest(frames: seq<Frame>, trace: seq<nat>, current: nat, v: nat, i: nat)
    requires BestScore(frames, trace, current, v)
    requires i < |frames| && frames[i].Evictable()
    requires NextUse(trace, frames[i].pageId, current).Some? && NextUse(trace, frames[v].pageId, current).Some?
    ensures Distance(trace, frames[v].pageId, current) >= Distance(trace, frames[i].pageId, current) - WRITE_PENALTY
    ensures Distance(trace, frames[v].pageId, current) < Distance(trace, frames[i].pageId, current)
            ==> frames[i].modified && !frames[v].modified
  {
    assert FrameScore(frames[v], trace, current) >= FrameScore(frames[i], trace, current);
  }
}
