/** What PFF's resident-set target makes the manager do (enforcePFFResident): how many frames go, and when it
    stops. */
module ResidentSet {
  import opened Prelude
  import opened Frames
  import opened MemoryModel
  import opened Conservation
  import Clusters
  import Processes

  /** What is left to evict down to the target. */
  function Excess(n: nat, target: int): nat {
    if n > target then n - target else 0
  }

  ghost predicate NothingEvictable(frames: seq<Frame>, ids: seq<nat>) {
    forall k :: 0 <= k < |ids| ==> ids[k] < |frames| && !frames[ids[k]].Evictable()
  }

  ghost predicate StayFree(before: seq<Frame>, after: seq<Frame>) {
    |after| == |before| && forall i :: 0 <= i < |before| && before[i].free ==> after[i].free
  }

  /** Exactly the excess is evicted, unless nothing listed can be evicted any more. */
  ghost predicate Enforced<S>(m: Mem<S>, used: seq<nat>, target: int, r: Mem<S>) {
    var k := r.metrics.evictions - m.metrics.evictions;
    && 0 <= k <= Excess(|used|, target)
    && UsedCount(r.frames) + k == UsedCount(m.frames)
    && (k == Excess(|used|, target) || NothingEvictable(r.frames, used))
    && StayFree(m.frames, r.frames)
  }

  lemma ChosenStays<S(!new)>(pol: Policy<S>, m: Mem<S>, ids: seq<nat>, now: int)
    requires Lawful(pol) && FrameList(m.frames, ids)
    ensures var (r, victim) := Choose(pol, m, ids, now);
            && StayFree(m.frames, r.frames) && UsedCount(r.frames) == UsedCount(m.frames) && r.metrics == m.metrics
            && (victim.None? ==> NothingEvictable(r.frames, ids))
  {
    var r := Choose(pol, m, ids, now).0;
    CountSameOwners(r.frames, m.frames, |m.frames|);
    hide Lawful;
    assert forall i :: 0 <= i < |m.frames| ==> r.frames[i].SameOwner(m.frames[i]);
  }

  lemma EvictedCount<S>(pol: Policy<S>, m: Mem<S>, i: nat)
    requires i < |m.frames| && !m.frames[i].free
    ensures var r := Evict(pol, m, i);
            && StayFree(m.frames, r.frames) && r.frames[i].free && UsedCount(r.frames) + 1 == UsedCount(m.frames)
            && r.metrics.evictions == m.metrics.evictions + 1
  {
    EvictIs(pol, m, i);
    CountUpdate(m.frames, i, Evict(pol, m, i).frames[i], |m.frames|);
    hide Evict, DropMapping, ForgetTranslation, CountUpTo;
  }

  lemma {:induction false} EnforceTakesExcess<S(!new)>(pol: Policy<S>, m: Mem<S>, used: seq<nat>, target: int, now: int)
    requires Lawful(pol) && FrameList(m.frames, used) && target > 0
    ensures Enforced(m, used, target, Enforce(pol, m, used, target, now))
    decreases |used|
  {
    hide Lawful, Evict, UsedCount;
    if |used| > target {
      ChosenStays(pol, m, used, now);
      var (m1, victim) := Choose(pol, m, used, now);
      if victim.Some? {
        var i := victim.value;
        EvictedCount(pol, m1, i);
        var m2, rest := Evict(pol, m1, i), Without(used, i);
        EnforceTakesExcess(pol, m2, rest, target, now);
        OneMore(m, m1, m2, used, i, rest, target, Enforce(pol, m2, rest, target, now));
      }
    }
  }

  lemma OneMore<S>(m: Mem<S>, m1: Mem<S>, m2: Mem<S>, used: seq<nat>, i: nat, rest: seq<nat>, target: int, r: Mem<S>)
    requires Enforced(m2, rest, target, r) && rest == Without(used, i) && i in used && |used| > target > 0
    requires StayFree(m.frames, m1.frames) && UsedCount(m1.frames) == UsedCount(m.frames) && m1.metrics == m.metrics
    requires StayFree(m1.frames, m2.frames) && i < |m2.frames| && m2.frames[i].free
    requires UsedCount(m2.frames) + 1 == UsedCount(m1.frames) && m2.metrics.evictions == m1.metrics.evictions + 1
    ensures Enforced(m, used, target, r)
  {
    hide UsedCount, Without, NothingEvictable, StayFree;
    FreeTwice(m.frames, m1.frames, m2.frames);
    FreeTwice(m.frames, m2.frames, r.frames);
    if NothingEvictable(r.frames, rest) {
      FreeNow(m2.frames, r.frames, i);
      NothingLeft(r.frames, used, i);
    }
  }

  lemma FreeTwice(a: seq<Frame>, b: seq<Frame>, c: seq<Frame>)
    requires StayFree(a, b) && StayFree(b, c)
    ensures StayFree(a, c)
  {
  }

  lemma FreeNow(before: seq<Frame>, after: seq<Frame>, i: nat)
    requires StayFree(before, after) && i < |before| && before[i].free
    ensures i < |after| && after[i].free
  {
  }

  lemma NothingLeft(frames: seq<Frame>, used: seq<nat>, i: nat)
    requires NothingEvictable(frames, Without(used, i)) && i < |frames| && frames[i].free
    ensures NothingEvictable(frames, used)
  {
    forall k | 0 <= k < |used| ensures used[k] < |frames| && !frames[used[k]].Evictable() {
      if used[k] != i {
        assert used[k] in used;
        assert used[k] in Without(used, i);
      }
    }
  }

  /** Without a target above zero nothing has changed. With one, as many frames have gone as were in use beyond it and
      no more; fewer only if no frame is left that may be evicted. */
  ghost predicate MeetsTarget<S>(m: Mem<S>, r: Mem<S>, target: Option<int>) {
    if target.None? || target.value <= 0 then r == m
    else
      var k := r.metrics.evictions - m.metrics.evictions;
      && UsedCount(r.frames) == UsedCount(m.frames) - k
      && UsedCount(r.frames) >= Min(UsedCount(m.frames), target.value)
      && (UsedCount(r.frames) <= target.value || !AnyEvictable(r.frames))
  }

  lemma TargetIsMet<S(!new)>(pol: Policy<S>, m: Mem<S>, now: int)
    requires Lawful(pol)
    ensures MeetsTarget(m, EnforceTarget(pol, m, now), pol.target(m.policy))
  {
    hide Lawful, Enforce, Enforced;
    var target := pol.target(m.policy);
    if target.Some? && target.value > 0 {
      var used := Used(m.frames);
      CountIsUsed(m.frames, |m.frames|);
      hide UsedCount;
      EnforceTakesExcess(pol, m, used, target.value, now);
      EnforcedMeets(m, used, target.value, Enforce(pol, m, used, target.value, now));
    } else if target.Some? {
      EnforceNothing(pol, m, Used(m.frames), target.value, now);
    }
  }

  lemma EnforceNothing<S(!new)>(pol: Policy<S>, m: Mem<S>, used: seq<nat>, target: int, now: int)
    requires Lawful(pol) && FrameList(m.frames, used) && target <= 0
    ensures Enforce(pol, m, used, target, now) == m
  {
  }

  lemma EnforcedMeets<S>(m: Mem<S>, used: seq<nat>, target: int, r: Mem<S>)
    requires Enforced(m, used, target, r) && used == Used(m.frames) && |used| == UsedCount(m.frames) && target > 0
    ensures var k := r.metrics.evictions - m.metrics.evictions;
            && UsedCount(r.frames) == UsedCount(m.frames) - k
            && UsedCount(r.frames) >= Min(UsedCount(m.frames), target)
            && (UsedCount(r.frames) <= target || !AnyEvictable(r.frames))
  {
    hide UsedCount;
    if NothingEvictable(r.frames, used) {
      forall i | 0 <= i < |r.frames| ensures !r.frames[i].Evictable() {
        if !m.frames[i].free {
          assert i in used;
        }
      }
    }
  }

  // ---- The target, then the prefetch ----

  /** A fault by a process with a cluster is followed by the evictions down to the target and then, never the other
      way round, by the prefetch of the pages after the cluster's first: two of them, unless fewer are absent or no
      frame is free. */
  lemma TargetThenPrefetch<S(!new)>(pol: Policy<S>, m: Mem<S>, pid: Pid, v: nat, write: bool, pages: seq<nat>, now: int)
    returns (e: Mem<S>, n: nat)
    requires Lawful(pol) && m.Has(pid, v) && m.clustering && MissOutcome(pol, m, pid, v, write, now).ok
    requires pid in m.recent && |m.recent[pid]| >= 3
    requires var a := m.recent[pid][|m.recent[pid]| - 3]; (pid, a) in m.clusters && Clusters.Following(a, pages)
    ensures var f, r := CountFault(Fault(pol, m, pid, v, write, now).mem), MissOutcome(pol, m, pid, v, write, now).mem;
            && MeetsTarget(f, e, pol.target(f.policy))
            && var absent := Clusters.Absent(e, pid, pages);
               n <= 2 && n <= |absent| && (n < 2 && n < |absent| ==> Clusters.NoFree(r.frames))
               && Clusters.CameIn(e, r, pid, absent[..n])
  {
    hide Lawful, Fault, EnforceTarget, TryPrefetch, MeetsTarget, Clusters.CameIn, Clusters.Absent, Clusters.Following;
    Processes.FaultKeeps(pol, m, pid, v, write, now);
    var f := CountFault(Fault(pol, m, pid, v, write, now).mem);
    TargetIsMet(pol, f, now);
    Processes.TargetKeeps(pol, f, now);
    e := EnforceTarget(pol, f, now);
    n := Clusters.ClusterBringsNext(pol, e, pid, pages, now);
  }
}
