/** WSClock (internal/algorithms/wsclock.go): two sweeps that clear reference bits and, for frames outside
    their working set, dirty bits; then two fallback scans. Every age is taken from a fresh clock reading. */
module WSClock {
  import opened Prelude
  import opened Frames
  import opened Clock

  predicate Old(f: Frame, now: int, window: int) {
    now - f.lastAccess > window
  }

  ghost predicate Monotone(clock: nat -> int) {
    forall j: nat, k: nat :: j <= k ==> clock(j) <= clock(k)
  }

  lemma InOrder(clock: nat -> int, j: nat, k: nat)
    requires Monotone(clock) && j <= k
    ensures clock(j) <= clock(k)
  {
  }

  /** The number of the last of n readings. */
  function LastOf(n: nat): nat {
    if n == 0 then 0 else n - 1
  }

  ghost predicate AnyOld(frames: seq<Frame>, now: int, window: int) {
    exists i :: 0 <= i < |frames| && frames[i].Evictable() && Old(frames[i], now, window)
  }

  /** Bits may only be cleared, only on evictable frames, and a dirty bit only once the frame is old. */
  ghost predicate OnlyCleared(before: Frame, after: Frame, now: int, window: int) {
    && after == before.(referenceBit := after.referenceBit, modified := after.modified)
    && (after.referenceBit ==> before.referenceBit)
    && (after.modified ==> before.modified)
    && (after != before ==> before.Evictable())
    && (after.modified != before.modified ==> Old(before, now, window))
  }

  ghost predicate Touched(before: seq<Frame>, after: seq<Frame>, now: int, window: int) {
    && |after| == |before|
    && forall i :: 0 <= i < |before| ==> OnlyCleared(before[i], after[i], now, window)
  }

  /** After k positions without a victim: one visit clears the reference bit, a second the dirty bit of a
      frame that was old from the start. */
  ghost predicate SweptOver(before: seq<Frame>, frames: seq<Frame>, start: nat, k: nat, t0: int, window: int)
    requires start < |before| == |frames|
  {
    var n := |before|;
    && (forall i :: 0 <= i < n && before[i].Evictable() && Steps(start, i, n) < k ==> !frames[i].referenceBit)
    && (forall i :: 0 <= i < n && before[i].Evictable() && Old(before[i], t0, window) && Steps(start, i, n) < k - n
          ==> !frames[i].modified)
  }

  /** What the sweep does to the frame under the hand when it does not choose it. */
  function Pass(f: Frame, now: int, window: int): Frame {
    if !f.Evictable() then f
    else if f.referenceBit then f.ClearReferenceBit()
    else if Old(f, now, window) then f.(modified := false)
    else f
  }

  /** The sweep chooses the frame under the hand. */
  predicate Chosen(f: Frame, now: int, window: int) {
    f.Evictable() && !f.referenceBit && Old(f, now, window) && !f.modified
  }

  lemma PassSweeps(before: seq<Frame>, frames: seq<Frame>, start: nat, k: nat, t0: int, now: int, window: int)
    requires start < |before| && k < 2 * |before| && t0 <= now && Touched(before, frames, now, window)
    requires SweptOver(before, frames, start, k, t0, window)
    requires !Chosen(frames[At(start, k, |before|)], now, window)
    ensures var h := At(start, k, |before|);
            var after := frames[h := Pass(frames[h], now, window)];
            Touched(before, after, now, window) && SweptOver(before, after, start, k + 1, t0, window)
  {
    var n := |before|;
    var h := At(start, k, n);
    var after := frames[h := Pass(frames[h], now, window)];
    assert Steps(start, h, n) == if k < n then k else k - n;
    forall i | 0 <= i < n ensures OnlyCleared(before[i], after[i], now, window) {
      assert OnlyCleared(before[i], frames[i], now, window);
    }
    forall i | 0 <= i < n && before[i].Evictable()
      ensures Steps(start, i, n) < k + 1 ==> !after[i].referenceBit
      ensures Old(before[i], t0, window) && Steps(start, i, n) < k + 1 - n ==> !after[i].modified
    {
      assert OnlyCleared(before[i], frames[i], now, window);
      assert Steps(start, i, n) == Steps(start, h, n) ==> i == h;
      assert Steps(start, i, n) < n;
    }
  }

  /** Time passing loosens nothing. */
  lemma LaterTouched(before: seq<Frame>, frames: seq<Frame>, t: int, u: int, window: int)
    requires Touched(before, frames, t, window) && t <= u
    ensures Touched(before, frames, u, window)
  {
    forall i | 0 <= i < |before| ensures OnlyCleared(before[i], frames[i], u, window) {
      assert OnlyCleared(before[i], frames[i], t, window);
    }
  }

  /** A frame that was old from the start is clean after two sweeps. */
  lemma OldIsCleanAfterSweeps(before: seq<Frame>, frames: seq<Frame>, start: nat, t0: int, now: int, window: int)
    requires start < |before| && t0 <= now && Touched(before, frames, now, window)
    requires SweptOver(before, frames, start, 2 * |before|, t0, window) && AnyOld(before, t0, window)
    ensures exists i :: 0 <= i < |frames| && frames[i].Evictable() && Old(frames[i], now, window) && !frames[i].modified
  {
    var i :| 0 <= i < |before| && before[i].Evictable() && Old(before[i], t0, window);
    assert OnlyCleared(before[i], frames[i], now, window);
    assert Steps(start, i, |before|) < |before|;
  }

  /** The whole contract of a choice that ends at time `now` and began at t0. */
  ghost predicate WorkingSetChoice(before: seq<Frame>, victim: Option<nat>, after: seq<Frame>, t0: int, now: int,
                                   window: int) {
    && VictimContract(before, victim)
    && Touched(before, after, now, window)
    && (AnyOld(before, t0, window) ==>
          && victim.Some?
          && Old(before[victim.value], now, window) && !after[victim.value].modified)
    && (victim.Some? && !(Old(before[victim.value], now, window) && !after[victim.value].modified) ==>
          forall i :: 0 <= i < victim.value ==> !before[i].Evictable())
  }

  lemma ChoiceFound(before: seq<Frame>, after: seq<Frame>, v: nat, t0: int, now: int, window: int)
    requires v < |before| && t0 <= now && Touched(before, after, now, window)
    requires after[v].Evictable() && Old(after[v], now, window) && !after[v].modified
    ensures WorkingSetChoice(before, Some(v), after, t0, now, window)
  {
    assert OnlyCleared(before[v], after[v], now, window);
  }

  lemma FoundEarly(before: seq<Frame>, after: seq<Frame>, v: nat, t0: int, now: int, end: int, window: int)
    requires v < |before| && t0 <= now <= end && Touched(before, after, now, window) && Chosen(after[v], now, window)
    ensures WorkingSetChoice(before, Some(v), after, t0, end, window) && SameOwners(after, before)
  {
    LaterTouched(before, after, now, end, window);
    ChoiceFound(before, after, v, t0, end, window);
    TouchedKeepsEvictable(before, after, now, window);
  }

  lemma TouchedKeepsEvictable(before: seq<Frame>, after: seq<Frame>, now: int, window: int)
    requires Touched(before, after, now, window)
    ensures forall i :: 0 <= i < |before| ==> (after[i].Evictable() <==> before[i].Evictable())
    ensures SameOwners(after, before)
  {
    forall i | 0 <= i < |before|
      ensures (after[i].Evictable() <==> before[i].Evictable()) && after[i].SameOwner(before[i])
    {
      assert OnlyCleared(before[i], after[i], now, window);
    }
  }

  lemma ChoiceLast(before: seq<Frame>, after: seq<Frame>, victim: Option<nat>, t0: int, now: int, window: int)
    requires Touched(before, after, now, window) && !AnyOld(before, t0, window)
    requires match victim
             case Some(v) => v < |after| && after[v].Evictable() && forall i :: 0 <= i < v ==> !after[i].Evictable()
             case None => !AnyEvictable(after)
    ensures WorkingSetChoice(before, victim, after, t0, now, window)
  {
    TouchedKeepsEvictable(before, after, now, window);
  }

  class WSClock {
    var hand: nat
    const workingSetAge: int

    constructor (workingSetAge: int)
      ensures hand == 0 && this.workingSetAge == workingSetAge
    {
      hand := 0;
      this.workingSetAge := workingSetAge;
    }

    /** clock(k) is the k-th reading of the clock; at most 3n are taken for n frames, and ages are judged by
        the last of them. If any evictable frame is outside its working set to begin with, the victim is
        outside its own and clean; the last fallback, the first evictable frame of the list, is left for when
        none is. */
    method SelectVictim(frames: array<Frame>, clock: nat -> int) returns (victim: Option<nat>, ghost readings: nat)
      requires Monotone(clock)
      modifies this, frames
      ensures readings <= 3 * frames.Length
      ensures WorkingSetChoice(old(frames[..]), victim, frames[..], clock(0), clock(LastOf(readings)), workingSetAge)
      ensures SameOwners(frames[..], old(frames[..]))
      ensures frames.Length > 0 && victim.Some? ==> hand < frames.Length
    {
      ghost var before := frames[..];
      var n := frames.Length;
      readings := 0;
      hide WorkingSetChoice, Touched, SweptOver, AnyOld;
      if n == 0 {
        Nothing(before, clock(0), clock(0), workingSetAge);
        return None, 0;
      }
      var ticks;
      ghost var start;
      victim, ticks, start := Sweep(frames, clock);
      readings := ticks;
      if victim.None? {
        victim, readings := Fallback(frames, clock, ticks, before, start);
      }
    }

    /** The position under the hand, which moves on. */
    method Advance(n: nat) returns (idx: nat)
      requires n > 0
      modifies this
      ensures idx == (if old(hand) >= n then 0 else old(hand)) && hand == (if idx + 1 == n then 0 else idx + 1)
    {
      if hand >= n {
        hand := 0;
      }
      idx := hand;
      NextPosition(hand, n);
      hand := Next(hand, n);
    }

    /** The frame under the hand: its reference bit is cleared, or it is outside its working set and its
        dirty bit is cleared, or it is chosen. */
    method Examine(frames: array<Frame>, idx: nat, now: int) returns (chosen: bool)
      requires idx < frames.Length && frames[idx].Evictable()
      modifies frames
      ensures chosen == Chosen(old(frames[idx]), now, workingSetAge)
      ensures frames[..] == if chosen then old(frames[..])
                            else old(frames[..])[idx := Pass(old(frames[idx]), now, workingSetAge)]
    {
      var f := frames[idx];
      var age := now - f.lastAccess;
      chosen := false;
      if f.referenceBit {
        frames[idx] := f.ClearReferenceBit();
        return;
      }
      if age > workingSetAge {
        if f.modified {
          frames[idx] := f.(modified := false);
          return;
        }
        return true;
      }
    }

    /** The two sweeps; `ticks` counts the clock readings. */
    method Sweep(frames: array<Frame>, clock: nat -> int) returns (victim: Option<nat>, ticks: nat, ghost start: nat)
      requires Monotone(clock) && frames.Length > 0
      modifies this, frames
      ensures ticks <= 2 * frames.Length && hand < frames.Length
      ensures SameOwners(frames[..], old(frames[..]))
      ensures victim.Some? ==>
                WorkingSetChoice(old(frames[..]), victim, frames[..], clock(0), clock(LastOf(ticks)), workingSetAge)
      ensures victim.None? ==>
                && Touched(old(frames[..]), frames[..], clock(LastOf(ticks)), workingSetAge)
                && start < frames.Length
                && SweptOver(old(frames[..]), frames[..], start, 2 * frames.Length, clock(0), workingSetAge)
    {
      var n := frames.Length;
      ghost var before := frames[..];
      start := if hand >= n then 0 else hand;
      var iterations := 0;
      ticks := 0;
      victim := None;
      SweepNothing(before, start, clock(0), workingSetAge);
      hide WorkingSetChoice, Touched, SweptOver, SameOwners, At, Next, Pass, Chosen, Monotone, Old;
      assert At(start, 0, n) == start by {
        AtStart(start, n);
      }
      while iterations < 2 * n
        invariant iterations <= 2 * n && ticks <= iterations
        invariant (if hand >= n then 0 else hand) == At(start, iterations, n) && (iterations > 0 ==> hand < n)
        invariant Touched(before, frames[..], clock(LastOf(ticks)), workingSetAge)
        invariant SweptOver(before, frames[..], start, iterations, clock(0), workingSetAge)
      {
        var idx := Advance(n);
        NextAt(start, iterations, n);
        ghost var tick := if frames[idx].Evictable() then ticks else LastOf(ticks);
        ghost var now := clock(tick);
        InOrder(clock, 0, tick);
        InOrder(clock, LastOf(ticks), tick);
        LaterTouched(before, frames[..], clock(LastOf(ticks)), now, workingSetAge);
        if !Chosen(frames[idx], now, workingSetAge) {
          PassSweeps(before, frames[..], start, iterations, clock(0), now, workingSetAge);
        }
        if !frames[idx].free && !frames[idx].pinned {
          var chosen := Examine(frames, idx, clock(ticks));
          ticks := ticks + 1;
          if chosen {
            victim := Some(idx);
            FoundEarly(before, frames[..], idx, clock(0), now, now, workingSetAge);
            return;
          }
        } else {
          PassNothing(frames[..], idx, now, workingSetAge);
        }
        iterations := iterations + 1;
      }
      TouchedKeepsEvictable(before, frames[..], clock(LastOf(ticks)), workingSetAge);
    }

    /** The two scans after the sweeps: an old and clean frame, else any evictable one. */
    method Fallback(frames: array<Frame>, clock: nat -> int, ticks: nat, ghost before: seq<Frame>, ghost start: nat)
      returns (victim: Option<nat>, ghost readings: nat)
      requires Monotone(clock) && frames.Length > 0 && hand < frames.Length
      requires |before| == frames.Length && ticks <= 2 * frames.Length
      requires Touched(before, frames[..], clock(LastOf(ticks)), workingSetAge)
      requires start < frames.Length
      requires SweptOver(before, frames[..], start, 2 * frames.Length, clock(0), workingSetAge)
      modifies this
      ensures readings <= 3 * frames.Length
      ensures WorkingSetChoice(before, victim, frames[..], clock(0), clock(LastOf(readings)), workingSetAge)
      ensures hand < frames.Length
    {
      var n := frames.Length;
      hide WorkingSetChoice, Touched, SweptOver;
      var t: nat := ticks;
      for i := 0 to n
        invariant ticks <= t <= ticks + i && hand < n
        invariant forall k :: 0 <= k < i && frames[k].Evictable() && Old(frames[k], clock(ticks), workingSetAge) ==>
                                frames[k].modified
      {
        if !frames[i].free && !frames[i].pinned {
          var age := clock(t) - frames[i].lastAccess;
          t := t + 1;
          if age > workingSetAge && !frames[i].modified {
            hand := if i + 1 == n then 0 else i + 1;
            LaterTouched(before, frames[..], clock(LastOf(ticks)), clock(LastOf(t)), workingSetAge);
            ChoiceFound(before, frames[..], i, clock(0), clock(LastOf(t)), workingSetAge);
            return Some(i), t;
          }
        }
      }
      LaterTouched(before, frames[..], clock(LastOf(ticks)), clock(ticks), workingSetAge);
      LaterTouched(before, frames[..], clock(LastOf(ticks)), clock(LastOf(t)), workingSetAge);
      NothingOld(before, frames[..], start, clock(0), clock(ticks), workingSetAge);
      victim, readings := None, t;
      for i := 0 to n
        invariant hand < n
        invariant forall k :: 0 <= k < i ==> !frames[k].Evictable()
      {
        if !frames[i].free && !frames[i].pinned {
          hand := if i + 1 == n then 0 else i + 1;
          ChoiceLast(before, frames[..], Some(i), clock(0), clock(LastOf(t)), workingSetAge);
          return Some(i), t;
        }
      }
      ChoiceLast(before, frames[..], None, clock(0), clock(LastOf(t)), workingSetAge);
    }
  }

  lemma AtStart(start: nat, n: nat)
    requires start < n
    ensures At(start, 0, n) == start
  {
  }

  lemma PassNothing(frames: seq<Frame>, idx: nat, now: int, window: int)
    requires idx < |frames| && !frames[idx].Evictable()
    ensures frames[idx := Pass(frames[idx], now, window)] == frames && !Chosen(frames[idx], now, window)
  {
  }

  lemma SweepNothing(before: seq<Frame>, start: nat, t0: int, window: int)
    requires start < |before|
    ensures Touched(before, before, t0, window) && SweptOver(before, before, start, 0, t0, window)
  {
  }

  /** No frame both old and clean is left after the sweeps: none was old to begin with. */
  lemma NothingOld(before: seq<Frame>, frames: seq<Frame>, start: nat, t0: int, now: int, window: int)
    requires start < |before| && t0 <= now && Touched(before, frames, now, window)
    requires SweptOver(before, frames, start, 2 * |before|, t0, window)
    requires forall k :: 0 <= k < |frames| && frames[k].Evictable() && Old(frames[k], now, window) ==>
               frames[k].modified
    ensures !AnyOld(before, t0, window)
  {
    if AnyOld(before, t0, window) {
      OldIsCleanAfterSweeps(before, frames, start, t0, now, window);
    }
  }

  lemma Nothing(before: seq<Frame>, t0: int, now: int, window: int)
    requires before == []
    ensures WorkingSetChoice(before, None, before, t0, now, window) && SameOwners(before, before)
  {
  }
}
