/** Whom an access spares: what each policy that reads the frames does with a frame that has just been
    accessed. */
module Accessed {
  import opened Prelude
  import opened Frames
  import Clock
  import WSClock
  import LruStack
  import Policies

  /** The list after its i-th frame has been accessed. */
  function AfterAccess(frames: seq<Frame>, i: nat, write: bool, now: int): (r: seq<Frame>)
    requires i < |frames|
    ensures |r| == |frames|
  {
    frames[i := frames[i].Access(write, now)]
  }

  /** CLOCK: not while another evictable frame has a clear bit. */
  lemma ClockSpares(frames: seq<Frame>, i: nat, write: bool, now: int, hand: nat, victim: Option<nat>,
                    after: seq<Frame>)
    requires i < |frames| && hand < |frames|
    requires Clock.SecondChance(AfterAccess(frames, i, write, now), hand, victim, after)
    requires exists k :: 0 <= k < |frames| && k != i && Clock.Clear(frames[k])
    ensures victim.Some? && victim.value != i
  {
    var before := AfterAccess(frames, i, write, now);
    var k :| 0 <= k < |frames| && k != i && Clock.Clear(frames[k]);
    assert Clock.Clear(before[k]);
    Clock.RecentlyUsedIsSpared(before, hand, victim, after, i);
  }

  /** WSClock: not within its window, while another evictable frame was outside when the choice began. */
  lemma WSClockSpares(frames: seq<Frame>, i: nat, write: bool, now: int, victim: Option<nat>, after: seq<Frame>,
                      t0: int, end: int, window: int)
    requires i < |frames| && end - now <= window
    requires WSClock.WorkingSetChoice(AfterAccess(frames, i, write, now), victim, after, t0, end, window)
    requires exists k :: 0 <= k < |frames| && k != i && frames[k].Evictable() && t0 - frames[k].lastAccess > window
    ensures victim.Some? && victim.value != i
  {
    var before := AfterAccess(frames, i, write, now);
    var k :| 0 <= k < |frames| && k != i && frames[k].Evictable() && t0 - frames[k].lastAccess > window;
    assert before[k].Evictable() && WSClock.Old(before[k], t0, window);
  }

  /** NRU ranks an unreferenced frame before a referenced one, and then a clean one before a dirty one. */
  lemma ClassRanks(f: Frame, g: Frame)
    ensures Policies.Class(f) <= Policies.Class(g)
            <==> (!f.referenceBit && g.referenceBit)
                 || (f.referenceBit == g.referenceBit && (f.modified ==> g.modified))
    ensures Policies.Class(f) == Policies.Class(g) <==> f.referenceBit == g.referenceBit && f.modified == g.modified
  {
  }

  /** NRU, between its ticks: not while another evictable frame's bit is clear. */
  lemma NruSpares(frames: seq<Frame>, i: nat, write: bool, now: int, v: nat)
    requires i < |frames| && v < |frames|
    requires var after := AfterAccess(frames, i, write, now);
             forall k :: 0 <= k < |frames| && after[k].Evictable() ==>
               Policies.Class(after[v]) <= Policies.Class(after[k])
    requires exists k :: 0 <= k < |frames| && k != i && frames[k].Evictable() && !frames[k].referenceBit
    ensures v != i
  {
    var after := AfterAccess(frames, i, write, now);
    var k :| 0 <= k < |frames| && k != i && frames[k].Evictable() && !frames[k].referenceBit;
    ClassRanks(after[v], after[k]);
    assert after[k].Evictable() && !after[k].referenceBit;
  }

  /** LRU: not while another listed evictable frame was last accessed before. */
  lemma LruSpares(frames: seq<Frame>, ids: seq<nat>, i: nat, write: bool, now: int)
    requires i < |frames| && FrameList(frames, ids)
    requires exists k :: k in ids && k != i && frames[k].Evictable() && frames[k].lastAccess < now
    ensures LruStack.LruVictim(AfterAccess(frames, i, write, now), ids) != Some(i)
  {
    var after := AfterAccess(frames, i, write, now);
    var k :| k in ids && k != i && frames[k].Evictable() && frames[k].lastAccess < now;
    assert after[k] == frames[k] && after[i].lastAccess == now;
  }

  /** LFU: not while another evictable frame has been accessed no more often than this one before. */
  lemma LfuSpares(frames: seq<Frame>, i: nat, write: bool, now: int, v: nat)
    requires i < |frames| && v < |frames|
    requires var after := AfterAccess(frames, i, write, now);
             forall k :: 0 <= k < |frames| && after[k].Evictable() ==> !Policies.LessFrequent(after[k], after[v])
    requires exists k :: 0 <= k < |frames| && k != i && frames[k].Evictable()
                         && frames[k].accessCount <= frames[i].accessCount
    ensures v != i
  {
    var after := AfterAccess(frames, i, write, now);
    var k :| 0 <= k < |frames| && k != i && frames[k].Evictable() && frames[k].accessCount <= frames[i].accessCount;
    assert after[k] == frames[k] && after[i].accessCount == frames[i].accessCount + 1;
  }
}
