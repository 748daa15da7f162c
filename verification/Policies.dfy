/** The policies that look at the frames alone (internal/algorithms: lru.go, fifo.go, lfu.go, random.go,
    nru.go, pff.go), and what the manager may conclude from any policy's victim contract. */
module Policies {
  import opened Prelude
  import opened Frames
  import opened MemoryModel
  import opened LruStack

  // ---- From a policy's list of frames back to the frame table ----

  /** SelectVictim is given the used frames only: a list of distinct frames of the table. */
  function Listed(frames: seq<Frame>, ids: seq<nat>): (l: seq<Frame>)
    requires InRange(frames, ids)
    ensures |l| == |ids| && forall k :: 0 <= k < |ids| ==> l[k] == frames[ids[k]]
  {
    seq(|ids|, k requires 0 <= k < |ids| => frames[ids[k]])
  }

  /** The table after the listed frames changed in place. */
  function WriteBack(frames: seq<Frame>, ids: seq<nat>, list: seq<Frame>): (r: seq<Frame>)
    requires InRange(frames, ids) && |list| == |ids|
    ensures |r| == |frames|
    ensures forall i :: 0 <= i < |frames| && i !in ids ==> r[i] == frames[i]
  {
    if ids == [] then frames
    else WriteBack(frames, ids[..|ids| - 1], list[..|ids| - 1])[ids[|ids| - 1] := list[|ids| - 1]]
  }

  lemma {:induction false} WriteBackAt(frames: seq<Frame>, ids: seq<nat>, list: seq<Frame>, k: nat)
    requires FrameList(frames, ids) && |list| == |ids| && k < |ids|
    ensures WriteBack(frames, ids, list)[ids[k]] == list[k]
  {
    if k < |ids| - 1 {
      WriteBackAt(frames, ids[..|ids| - 1], list[..|ids| - 1], k);
    }
  }

  /** Frames that did not change are written back as they were. */
  lemma {:induction false} WriteBackSame(frames: seq<Frame>, ids: seq<nat>)
    requires InRange(frames, ids)
    ensures WriteBack(frames, ids, Listed(frames, ids)) == frames
  {
    if ids != [] {
      var n := |ids| - 1;
      WriteBackSame(frames, ids[..n]);
      assert Listed(frames, ids)[..n] == Listed(frames, ids[..n]);
    }
  }

  /** A policy that meets the victim contract on every list is lawful for the manager: on the table the
      victim is a listed, evictable frame, or none is, and no owner tag changed. */
  lemma ContractIsLawful<S>(frames: seq<Frame>, ids: seq<nat>, victim: Option<nat>, after: seq<Frame>, state: S)
    requires FrameList(frames, ids)
    requires VictimContract(Listed(frames, ids), victim) && SameOwners(after, Listed(frames, ids))
    ensures var chosen := if victim.Some? then Some(ids[victim.value]) else None;
            LawfulSelection(frames, ids, Selection(chosen, state, WriteBack(frames, ids, after)))
  {
    var r := WriteBack(frames, ids, after);
    forall i | 0 <= i < |frames| ensures r[i].SameOwner(frames[i]) {
      if i in ids {
        var k :| 0 <= k < |ids| && ids[k] == i;
        WriteBackAt(frames, ids, after, k);
        assert after[k].SameOwner(Listed(frames, ids)[k]);
      }
    }
    if victim.None? {
      forall i | i in ids ensures !frames[i].Evictable() {
        var k :| 0 <= k < |ids| && ids[k] == i;
        assert Listed(frames, ids)[k] == frames[i];
      }
    }
  }

  // ---- LRU ----

  /** LRU over the used frames of the table: the victim function of the stack theorem. */
  method SelectLru(frames: seq<Frame>, ids: seq<nat>) returns (victim: Option<nat>)
    requires InRange(frames, ids)
    ensures victim == LruVictim(frames, ids)
  {
    victim := None;
    var oldestTime := 0;
    for k := 0 to |ids|
      invariant victim == LruUpTo(frames, ids, k)
      invariant victim.Some? ==> oldestTime == frames[victim.value].lastAccess
    {
      var frame := frames[ids[k]];
      if !frame.free && !frame.pinned {
        if victim.None? || frame.lastAccess < oldestTime {
          victim, oldestTime := Some(ids[k]), frame.lastAccess;
        }
      }
    }
  }

  // ---- FIFO and LFU ----

  /** Of all evictable frames the first one that no other was loaded before. */
  method SelectFifo(frames: seq<Frame>) returns (victim: Option<nat>)
    ensures VictimContract(frames, victim)
    ensures victim.Some? ==> forall i :: 0 <= i < |frames| && frames[i].Evictable() ==>
              && frames[victim.value].loadedAt <= frames[i].loadedAt
              && (i < victim.value ==> frames[victim.value].loadedAt < frames[i].loadedAt)
  {
    victim := None;
    var oldestTime := 0;
    for k := 0 to |frames|
      invariant victim.None? ==> forall i :: 0 <= i < k ==> !frames[i].Evictable()
      invariant victim.Some? ==>
                  && victim.value < k && frames[victim.value].Evictable() && oldestTime == frames[victim.value].loadedAt
                  && forall i :: 0 <= i < k && frames[i].Evictable() ==>
                       oldestTime <= frames[i].loadedAt && (i < victim.value ==> oldestTime < frames[i].loadedAt)
    {
      if !frames[k].free && !frames[k].pinned {
        if victim.None? || frames[k].loadedAt < oldestTime {
          victim, oldestTime := Some(k), frames[k].loadedAt;
        }
      }
    }
  }

  /** a is used less often than b, or as often but less recently. */
  predicate LessFrequent(a: Frame, b: Frame) {
    a.accessCount < b.accessCount || (a.accessCount == b.accessCount && a.lastAccess < b.lastAccess)
  }

  method SelectLfu(frames: seq<Frame>) returns (victim: Option<nat>)
    ensures VictimContract(frames, victim)
    ensures victim.Some? ==> forall i :: 0 <= i < |frames| && frames[i].Evictable() ==>
              && !LessFrequent(frames[i], frames[victim.value])
              && (i < victim.value ==> LessFrequent(frames[victim.value], frames[i]))
  {
    victim := None;
    var lowestCount := -1;
    for k := 0 to |frames|
      invariant victim.None? ==> forall i :: 0 <= i < k ==> !frames[i].Evictable()
      invariant victim.Some? ==>
                  && victim.value < k && frames[victim.value].Evictable()
                  && lowestCount == frames[victim.value].accessCount
                  && forall i :: 0 <= i < k && frames[i].Evictable() ==>
                       && !LessFrequent(frames[i], frames[victim.value])
                       && (i < victim.value ==> LessFrequent(frames[victim.value], frames[i]))
    {
      var frame := frames[k];
      if !frame.free && !frame.pinned {
        if victim.None? || frame.accessCount < lowestCount {
          victim, lowestCount := Some(k), frame.accessCount;
        } else if frame.accessCount == lowestCount {
          if frame.lastAccess < frames[victim.value].lastAccess {
            victim := Some(k);
          }
        }
      }
    }
  }

  // ---- Random ----

  function CountEvictable(frames: seq<Frame>, n: nat): nat
    requires n <= |frames|
  {
    if n == 0 then 0 else CountEvictable(frames, n - 1) + (if frames[n - 1].Evictable() then 1 else 0)
  }

  method Evictables(frames: seq<Frame>) returns (list: seq<nat>)
    ensures forall i :: i in list <==> 0 <= i < |frames| && frames[i].Evictable()
    ensures forall j, k :: 0 <= j < k < |list| ==> list[j] < list[k]
    ensures InRange(frames, list) && |list| == CountEvictable(frames, |frames|)
  {
    list := [];
    for k := 0 to |frames|
      invariant forall i :: i in list <==> 0 <= i < k && frames[i].Evictable()
      invariant |list| == CountEvictable(frames, k)
      invariant forall i :: 0 <= i < |list| ==> list[i] < k
      invariant forall i, j :: 0 <= i < j < |list| ==> list[i] < list[j]
    {
      if !frames[k].free && !frames[k].pinned {
        list := list + [k];
      }
    }
  }

  /** Any evictable frame, whatever the random number. */
  method SelectRandom(frames: seq<Frame>) returns (victim: Option<nat>)
    ensures VictimContract(frames, victim)
  {
    var evictable := Evictables(frames);
    if evictable == [] {
      return None;
    }
    var idx :| 0 <= idx < |evictable|;
    assert evictable[idx] in evictable;
    return Some(evictable[idx]);
  }

  // ---- NRU ----

  function Class(f: Frame): nat {
    (if f.referenceBit then 2 else 0) + (if f.modified then 1 else 0)
  }

  /** The clock tick: every used frame loses its reference bit, pinned ones too. */
  function Aged(frames: seq<Frame>): (r: seq<Frame>)
    ensures |r| == |frames|
  {
    seq(|frames|, i requires 0 <= i < |frames| => if frames[i].free then frames[i] else frames[i].ClearReferenceBit())
  }

  class NRU {
    var accessCount: int
    const clearPeriod: int

    constructor ()
      ensures accessCount == 0 && clearPeriod == 50
    {
      accessCount, clearPeriod := 0, 50;
    }

    method Tick(frames: array<Frame>)
      modifies this, frames
      ensures frames[..] == (if old(accessCount) >= clearPeriod then Aged(old(frames[..])) else old(frames[..]))
      ensures accessCount == if old(accessCount) >= clearPeriod then 0 else old(accessCount)
    {
      if accessCount >= clearPeriod {
        accessCount := 0;
        for i := 0 to frames.Length
          invariant accessCount == 0
          invariant forall k :: 0 <= k < i ==>
                      frames[k] == if old(frames[k]).free then old(frames[k]) else old(frames[k]).ClearReferenceBit()
          invariant forall k :: i <= k < frames.Length ==> frames[k] == old(frames[k])
        {
          if !frames[i].free {
            frames[i] := frames[i].ClearReferenceBit();
          }
        }
      }
    }

    /** Any frame of the lowest non-empty class, by the bits after the tick. */
    method SelectVictim(frames: array<Frame>) returns (victim: Option<nat>)
      modifies this, frames
      ensures VictimContract(old(frames[..]), victim) && SameOwners(frames[..], old(frames[..]))
      ensures frames[..] == if old(accessCount) >= clearPeriod then Aged(old(frames[..])) else old(frames[..])
      ensures victim.Some? ==> forall i :: 0 <= i < frames.Length && frames[i].Evictable() ==>
                                             Class(frames[victim.value]) <= Class(frames[i])
    {
      Tick(frames);
      assert forall i :: 0 <= i < frames.Length ==> frames[i].SameOwner(old(frames[i]));
      var classes := Classify(frames[..]);
      for cls := 0 to 4
        invariant forall c :: 0 <= c < cls ==> classes[c] == []
      {
        if classes[cls] != [] {
          var idx :| 0 <= idx < |classes[cls]|;
          var v := classes[cls][idx];
          assert v in classes[cls];
          assert InClass(frames[..], cls, v);
          forall i | 0 <= i < frames.Length && frames[i].Evictable()
            ensures Class(frames[v]) <= Class(frames[i])
          {
            assert InClass(frames[..], Class(frames[i]), i);
          }
          return Some(v);
        }
      }
      forall i | 0 <= i < frames.Length ensures !old(frames[..])[i].Evictable() {
        if frames[i].Evictable() {
          assert InClass(frames[..], Class(frames[i]), i);
        }
      }
      return None;
    }
  }

  predicate InClass(frames: seq<Frame>, c: nat, i: nat) {
    i < |frames| && frames[i].Evictable() && Class(frames[i]) == c
  }

  /** The four candidate lists. */
  method Classify(frames: seq<Frame>) returns (classes: seq<seq<nat>>)
    ensures |classes| == 4
    ensures forall c: nat, i: nat :: c < 4 ==> (i in classes[c] <==> InClass(frames, c, i))
  {
    classes := [[], [], [], []];
    for k := 0 to |frames|
      invariant |classes| == 4
      invariant forall c: nat, i: nat :: c < 4 ==> (i in classes[c] <==> i < k && InClass(frames, c, i))
    {
      if !frames[k].free && !frames[k].pinned {
        var cls := Class(frames[k]);
        classes := classes[cls := classes[cls] + [k]];
      }
    }
  }

  // ---- PFF ----

  const FAULTS_KEPT := 512
  const ADJUST_INTERVAL := 10
  const NANOS := 1_000_000_000.0

  /** The fault times after the cutoff, in order. */
  function After(times: seq<int>, cutoff: int): (r: seq<int>)
    ensures |r| <= |times|
    ensures forall t :: t in r <==> t in times && t > cutoff
  {
    if times == [] then []
    else After(times[..|times| - 1], cutoff) + (if times[|times| - 1] > cutoff then [times[|times| - 1]] else [])
  }

  /** Faults per second within the window. */
  function FaultRate(times: seq<int>, now: int, window: int): real {
    if window <= 0 then 0.0 else |After(times, now - window)| as real / (window as real / NANOS)
  }

  /** recordFault: at most the last 512 fault times are kept. */
  function Noted(times: seq<int>, now: int): seq<int> {
    var all := times + [now];
    if |all| > FAULTS_KEPT then all[1..] else all
  }

  /** adjustResidentSize, for a fault rate that is high, low or neither. */
  function Adjusted(target: int, high: bool, low: bool, current: int, minRes: int, maxRes: int): int {
    var up := if high && target < maxRes then Min(target + 1, maxRes) else target;
    var down := if low && up > minRes then Max(up - 1, minRes) else up;
    if current > down + 1 then Min(current - 1, maxRes) else down
  }

  /** The target moves against the fault rate by at most one frame unless the resident set runs ahead of it,
      and never lags the resident set by more than one frame unless at its maximum. It stays within its
      bounds once there; a target below the minimum rises with the fault rate and the resident set and never
      falls, and one above the maximum never rises. */
  lemma AdjustedTracksFaults(target: int, high: bool, low: bool, current: int, minRes: int, maxRes: int)
    ensures var r := Adjusted(target, high, low, current, minRes, maxRes);
            && (minRes <= target <= maxRes ==> minRes <= r <= maxRes)
            && (target <= maxRes ==> r <= maxRes)
            && (target > maxRes ==> r <= target)
            && (target < minRes && target <= maxRes ==> r >= target)
            && (current <= r + 1 || r == maxRes)
            && (current <= target ==> -1 <= r - target <= 1)
            && (high && !low && target < maxRes ==> r > target)
            && (low && !high && target > minRes && current <= target ==> r == target - 1)
            && (low && !high && target <= minRes && current <= target + 1 ==> r == target)
            && (!high && !low && current <= target + 1 ==> r == target)
  {
  }

  class PFF {
    var faultTimes: seq<int>
    var targetResident: int
    var accessSinceAdjust: int
    const windowDuration: int
    const minFaultRate: real
    const maxFaultRate: real
    const minResident: int
    const maxResident: int

    constructor (window: int, minRate: real, maxRate: real, minRes: int, maxRes: int, targetRes: int)
      ensures targetResident == targetRes && minResident == minRes && maxResident == maxRes
      ensures windowDuration == window && minFaultRate == minRate && maxFaultRate == maxRate
      ensures faultTimes == [] && accessSinceAdjust == 0
    {
      faultTimes, accessSinceAdjust := [], 0;
      windowDuration, minFaultRate, maxFaultRate := window, minRate, maxRate;
      minResident, maxResident, targetResident := minRes, maxRes, targetRes;
    }

    method ComputeFaultRate(now: int) returns (rate: real)
      modifies this`faultTimes
      ensures rate == FaultRate(old(faultTimes), now, windowDuration)
      ensures faultTimes == After(old(faultTimes), now - windowDuration)
    {
      var valid := [];
      for i := 0 to |faultTimes|
        invariant faultTimes == old(faultTimes)
        invariant valid == After(faultTimes[..i], now - windowDuration)
      {
        assert faultTimes[..i + 1][..i] == faultTimes[..i];
        if faultTimes[i] > now - windowDuration {
          valid := valid + [faultTimes[i]];
        }
      }
      assert faultTimes[..|faultTimes|] == faultTimes;
      faultTimes := valid;
      if windowDuration <= 0 {
        return 0.0;
      }
      return |valid| as real / (windowDuration as real / NANOS);
    }

    method RecordFault(now: int)
      modifies this`faultTimes
      ensures faultTimes == Noted(old(faultTimes), now)
    {
      faultTimes := faultTimes + [now];
      if |faultTimes| > FAULTS_KEPT {
        faultTimes := faultTimes[1..];
      }
    }

    method AdjustResidentSize(currentResident: int, now: int)
      modifies this`faultTimes, this`targetResident
      ensures faultTimes == After(old(faultTimes), now - windowDuration)
      ensures var rate := FaultRate(old(faultTimes), now, windowDuration);
              targetResident == Adjusted(old(targetResident), rate > maxFaultRate, rate < minFaultRate, currentResident,
                                         minResident, maxResident)
    {
      var faultRate := ComputeFaultRate(now);
      if faultRate > maxFaultRate && targetResident < maxResident {
        targetResident := if targetResident + 1 < maxResident then targetResident + 1 else maxResident;
      }
      if faultRate < minFaultRate && targetResident > minResident {
        targetResident := if targetResident - 1 > minResident then targetResident - 1 else minResident;
      }
      if currentResident > targetResident + 1 {
        targetResident := if currentResident - 1 < maxResident then currentResident - 1 else maxResident;
      }
    }

    /** The least recently used evictable frame; every tenth choice adjusts the target. */
    method SelectVictim(frames: seq<Frame>, now: int) returns (victim: Option<nat>)
      modifies this
      ensures VictimContract(frames, victim)
      ensures victim.Some? ==> forall i :: 0 <= i < |frames| && frames[i].Evictable() ==>
                && frames[victim.value].lastAccess <= frames[i].lastAccess
                && (i < victim.value ==> frames[victim.value].lastAccess < frames[i].lastAccess)
      ensures victim.None? || old(accessSinceAdjust) < ADJUST_INTERVAL ==>
                targetResident == old(targetResident) && faultTimes == old(faultTimes)
      ensures victim.Some? && old(accessSinceAdjust) >= ADJUST_INTERVAL ==>
                var rate := FaultRate(old(faultTimes), now, windowDuration);
                targetResident == Adjusted(old(targetResident), rate > maxFaultRate, rate < minFaultRate,
                                           CountEvictable(frames, |frames|), minResident, maxResident)
      ensures accessSinceAdjust == if victim.None? then old(accessSinceAdjust)
                                   else if old(accessSinceAdjust) >= ADJUST_INTERVAL then 1
                                   else old(accessSinceAdjust) + 1
    {
      var usedAndUnpinned := Evictables(frames);
      if usedAndUnpinned == [] {
        return None;
      }
      if accessSinceAdjust >= ADJUST_INTERVAL {
        AdjustResidentSize(|usedAndUnpinned|, now);
        accessSinceAdjust := 0;
      }
      accessSinceAdjust := accessSinceAdjust + 1;
      victim := OldestOf(frames, usedAndUnpinned);
    }
  }

  /** The first of the listed frames with the oldest access. */
  method OldestOf(frames: seq<Frame>, ids: seq<nat>) returns (victim: Option<nat>)
    requires InRange(frames, ids) && ids != []
    requires forall j, k :: 0 <= j < k < |ids| ==> ids[j] < ids[k]
    ensures victim.Some? && victim.value in ids
    ensures forall i :: i in ids ==>
              && frames[victim.value].lastAccess <= frames[i].lastAccess
              && (i < victim.value ==> frames[victim.value].lastAccess < frames[i].lastAccess)
  {
    victim := None;
    var oldestTime := 0;
    for k := 0 to |ids|
      invariant victim.None? <==> k == 0
      invariant victim.Some? ==> victim.value in ids[..k] && oldestTime == frames[victim.value].lastAccess
      invariant victim.Some? ==> forall j :: 0 <= j < k ==>
                  && oldestTime <= frames[ids[j]].lastAccess
                  && (ids[j] < victim.value ==> oldestTime < frames[ids[j]].lastAccess)
    {
      if victim.None? || frames[ids[k]].lastAccess < oldestTime {
        victim, oldestTime := Some(ids[k]), frames[ids[k]].lastAccess;
      }
    }
  }
}
