/** The TLB changes nothing but speed: what the read fast path does is what the slow path would have
    done, so managers whose TLBs differ, in size or in anything else, agree after every step. */
module Transparency {
  import opened Prelude
  import opened Frames
  import opened MemoryModel
  import opened Runs
  import opened Tlb

  /** Tracking page v once more would not change what the cluster detector remembers. */
  predicate Saturated<S>(m: Mem<S>, pid: Pid, v: nat) {
    pid !in m.recent
    || (|m.recent[pid]| >= RECENT && forall k :: 0 <= k < |m.recent[pid]| ==> m.recent[pid][k] == v)
  }

  lemma TrackIdle<S>(m: Mem<S>, pid: Pid, v: nat)
    ensures Track(m, pid, v) == m <==> Saturated(m, pid, v)
  {
    if pid in m.recent {
      var a, r := m.recent[pid], m.recent[pid] + [v];
      var b := if |r| > RECENT then r[1..] else r;
      assert Track(m, pid, v).recent[pid] == b;
      if Saturated(m, pid, v) {
        assert |a| == |b| && forall k :: 0 <= k < |a| ==> a[k] == b[k];
      }
      if a == b {
        assert |a| >= RECENT;
        AllEqualFromEnd(a, v, 0);
      }
    }
  }

  /** A sequence that equals its own shift by one with v appended holds only v. */
  lemma {:induction false} AllEqualFromEnd(a: seq<nat>, v: nat, i: nat)
    requires a != [] && i < |a| && a == a[1..] + [v]
    ensures forall k :: i <= k < |a| ==> a[k] == v
    decreases |a| - i
  {
    if i < |a| - 1 {
      AllEqualFromEnd(a, v, i + 1);
      assert a[i] == (a[1..] + [v])[i] == a[i + 1];
    }
  }

  /** For a resident page, the read fast path and the slow path end in the same state exactly when
      clustering is off or the detector has nothing left to learn. */
  lemma FastPathIsSlowPath<S(!new)>(pol: Policy<S>, m: Mem<S>, pid: Pid, v: nat, now: int)
    requires Lawful(pol) && m.Resident(pid, v)
    ensures var slow := Access(pol, m, pid, v, false, now);
            && slow.ok
            && (FastHit(pol, m, m.tables[pid][v].frame, false, now) == slow.mem
                <==> !m.clustering || Saturated(m, pid, v))
  {
    var fast := FastHit(pol, m, m.tables[pid][v].frame, false, now);
    TrackIdle(m, pid, v);
    var m1 := if m.clustering then Track(m, pid, v) else m;
    assert Prepared(m, pid, v) == m1;
    var slow := FastHit(pol, m1, m1.tables[pid][v].frame, false, now);
    assert Access(pol, m, pid, v, false, now) == Outcome(true, slow);
    assert slow == fast.(recent := m1.recent, clusters := m1.clusters);
    assert m1 == m.(recent := m1.recent, clusters := m1.clusters);
  }

  // ---- Whole runs ----

  /** Every cached translation is the page table's. */
  ghost predicate TlbAgrees<S>(entries: map<string, Tlb.Entry>, m: Mem<S>) {
    forall k :: k in entries ==> m.Maps(entries[k].processId, entries[k].virtualPage, entries[k].frame)
  }

  /** The TLB has a valid entry for the page, with a frame of the table: the read-locked section's test. */
  ghost predicate Cached<S>(entries: map<string, Tlb.Entry>, m: Mem<S>, pid: Pid, v: nat) {
    var key := MakeKey(pid, v);
    key in entries && entries[key].valid && 0 <= entries[key].frame < |m.frames|
  }

  /** A step of a manager whose TLB holds the given entries: a read that finds its page there takes the
      fast path to the frame filed for it, whatever that frame is. */
  ghost function CachedStep<S(!new)>(pol: Policy<S>, m: Mem<S>, entries: map<string, Tlb.Entry>, op: Op,
                                     now: int): Mem<S>
    requires Lawful(pol)
  {
    if op.Touch? && !op.write && op.pid in m.tables && Cached(entries, m, op.pid, op.v)
    then FastHit(pol, m, entries[MakeKey(op.pid, op.v)].frame, false, now)
    else Perform(pol, m, op, now).mem
  }

  /** A run with a TLB: tlbs[k] is what it holds before step k. */
  ghost function CachedHistory<S(!new)>(pol: Policy<S>, start: S, numFrames: nat, ops: seq<Op>, times: seq<int>,
                                        tlbs: seq<map<string, Tlb.Entry>>): Mem<S>
    requires Lawful(pol) && |times| == |ops| == |tlbs|
  {
    if ops == [] then Boot(numFrames, start)
    else
      var n := |ops| - 1;
      CachedStep(pol, CachedHistory(pol, start, numFrames, ops[..n], times[..n], tlbs[..n]), tlbs[n], ops[n], times[n])
  }

  /** What the class keeps true of its TLB in every run: it is within its capacity, files every entry under
      its own key, and agrees with the page tables of its own run. */
  ghost predicate KeptTlbs<S(!new)>(pol: Policy<S>, start: S, numFrames: nat, ops: seq<Op>, times: seq<int>,
                                    tlbs: seq<map<string, Tlb.Entry>>, capacity: int)
    requires Lawful(pol) && |times| == |ops| == |tlbs|
  {
    ops == [] ||
    var n := |ops| - 1;
    && KeptTlbs(pol, start, numFrames, ops[..n], times[..n], tlbs[..n], capacity)
    && WellFiled(tlbs[n], capacity)
    && TlbAgrees(tlbs[n], CachedHistory(pol, start, numFrames, ops[..n], times[..n], tlbs[..n]))
  }

  ghost predicate ClusteringStaysOff(ops: seq<Op>) {
    forall k :: 0 <= k < |ops| ==> ops[k] != SetClustering(true)
  }

  /** The frame that an agreeing TLB files for a page is the page's own. */
  lemma FiledIsMapped<S>(entries: map<string, Tlb.Entry>, capacity: int, m: Mem<S>, pid: Pid, v: nat)
    requires WellFiled(entries, capacity) && TlbAgrees(entries, m)
    requires MakeKey(pid, v) in entries && entries[MakeKey(pid, v)].valid
    ensures m.Maps(pid, v, entries[MakeKey(pid, v)].frame)
  {
    var e := entries[MakeKey(pid, v)];
    MakeKeyInjective(pid, v, e.processId, e.virtualPage);
    assert m.Maps(e.processId, e.virtualPage, e.frame);
  }

  /** One step: a TLB that agrees with the page tables changes nothing. */
  lemma CachedStepIsStep<S(!new)>(pol: Policy<S>, m: Mem<S>, entries: map<string, Tlb.Entry>, capacity: int,
                                  op: Op, now: int)
    requires Lawful(pol) && !m.clustering && WellFiled(entries, capacity) && TlbAgrees(entries, m)
    ensures CachedStep(pol, m, entries, op, now) == Perform(pol, m, op, now).mem
  {
    if op.Touch? && !op.write && Cached(entries, m, op.pid, op.v) {
      hide Lawful, FastHit, Access, MakeKey, WellFiled, TlbAgrees;
      FiledIsMapped(entries, capacity, m, op.pid, op.v);
      FastPathIsSlowPath(pol, m, op.pid, op.v, now);
    }
  }

  /** A run with any TLB so kept, of any capacity, ends where the run without a TLB ends: frames, page tables,
      policy state, hits, faults and evictions. */
  lemma {:induction false} TlbIsTransparent<S(!new)>(pol: Policy<S>, start: S, numFrames: nat, ops: seq<Op>,
                                                     times: seq<int>, tlbs: seq<map<string, Tlb.Entry>>, capacity: int)
    requires Lawful(pol) && |times| == |ops| == |tlbs| && ClusteringStaysOff(ops)
    requires KeptTlbs(pol, start, numFrames, ops, times, tlbs, capacity)
    ensures CachedHistory(pol, start, numFrames, ops, times, tlbs) == History(pol, start, numFrames, ops, times)
    ensures !History(pol, start, numFrames, ops, times).clustering
  {
    if ops != [] {
      var n := |ops| - 1;
      TlbIsTransparent(pol, start, numFrames, ops[..n], times[..n], tlbs[..n], capacity);
      var m := History(pol, start, numFrames, ops[..n], times[..n]);
      hide Lawful, CachedStep, TlbAgrees, WellFiled, Perform;
      CachedStepIsStep(pol, m, tlbs[n], capacity, ops[n], times[n]);
      ClusteringStays(pol, m, ops[n], times[n]);
    }
  }

  lemma ClusteringStays<S(!new)>(pol: Policy<S>, m: Mem<S>, op: Op, now: int)
    requires Lawful(pol) && !m.clustering && op != SetClustering(true)
    ensures !Perform(pol, m, op, now).mem.clustering
  {
    hide Access, Lawful, Remove, Fork, FreeSlot, PickFree;
    match op
    case Kill(pid) => RemoveKeepsClustering(m, pid);
    case ForkTo(parent, child) => ForkKeepsClustering(m, parent, child);
    case _ =>
  }

  lemma ForkKeepsClustering<S>(m: Mem<S>, parent: Pid, child: Pid)
    ensures Fork(m, parent, child).mem.clustering == m.clustering
  {
  }

  lemma RemoveKeepsClustering<S>(m: Mem<S>, pid: Pid)
    ensures Remove(m, pid).mem.clustering == m.clustering
  {
  }

  /** Two managers, with TLBs of different capacities and different contents, agree after the same operations. */
  lemma TlbSizeIsTransparent<S(!new)>(pol: Policy<S>, start: S, numFrames: nat, ops: seq<Op>, times: seq<int>,
                                      small: seq<map<string, Tlb.Entry>>, smallSize: int,
                                      large: seq<map<string, Tlb.Entry>>, largeSize: int)
    requires Lawful(pol) && |times| == |ops| == |small| == |large| && ClusteringStaysOff(ops)
    requires KeptTlbs(pol, start, numFrames, ops, times, small, smallSize)
    requires KeptTlbs(pol, start, numFrames, ops, times, large, largeSize)
    ensures CachedHistory(pol, start, numFrames, ops, times, small)
            == CachedHistory(pol, start, numFrames, ops, times, large)
  {
    TlbIsTransparent(pol, start, numFrames, ops, times, small, smallSize);
    TlbIsTransparent(pol, start, numFrames, ops, times, large, largeSize);
  }
}
