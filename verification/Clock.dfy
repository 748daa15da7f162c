/** CLOCK (internal/algorithms/clock.go): second chance in circular order from the hand. */
module Clock {
  import opened Prelude
  import opened Frames

  /** How many steps after `start` the hand reaches i. */
  function Steps(start: nat, i: nat, n: nat): nat
    requires start < n && i < n
  {
    if i >= start then i - start else i + n - start
  }

  /** Where the hand is k steps after `start`, within two rounds. */
  function At(start: nat, k: nat, n: nat): nat
    requires start < n && k <= 2 * n
    ensures At(start, k, n) < n
  {
    if start + k < n then start + k else if start + k < 2 * n then start + k - n else start + k - 2 * n
  }

  function Next(hand: nat, n: nat): nat
    requires n > 0
  {
    (hand + 1) % n
  }

  lemma NextPosition(hand: nat, n: nat)
    requires hand < n
    ensures Next(hand, n) == if hand + 1 == n then 0 else hand + 1
  {
    if hand + 1 < n {
      assert (hand + 1) % n == hand + 1;
    }
  }

  predicate Clear(f: Frame) {
    f.Evictable() && !f.referenceBit
  }

  ghost predicate AnyClear(frames: seq<Frame>) {
    exists i :: 0 <= i < |frames| && Clear(frames[i])
  }

  /** The first frame from the hand that is a candidate: one with a clear bit if there is any,
      otherwise any evictable one. */
  ghost predicate FirstCandidate(frames: seq<Frame>, start: nat, v: nat)
    requires start < |frames|
  {
    && v < |frames| && frames[v].Evictable()
    && if AnyClear(frames) then
         && Clear(frames[v])
         && forall i :: 0 <= i < |frames| && Steps(start, i, |frames|) < Steps(start, v, |frames|) ==> !Clear(frames[i])
       else
         forall i :: 0 <= i < |frames| && Steps(start, i, |frames|) < Steps(start, v, |frames|)
           ==> !frames[i].Evictable()
  }

  /** What a choice does to the bits: the evictable frames passed over lose theirs; after a whole fruitless
      round that is all of them. */
  ghost predicate PassedOverCleared(before: seq<Frame>, start: nat, v: nat, after: seq<Frame>)
    requires start < |before| && v < |before|
  {
    && |after| == |before|
    && forall i :: 0 <= i < |before| ==>
         after[i] == if && before[i].Evictable()
                        && (Steps(start, i, |before|) < Steps(start, v, |before|) || !AnyClear(before))
                     then before[i].ClearReferenceBit() else before[i]
  }

  ghost predicate SecondChance(before: seq<Frame>, start: nat, victim: Option<nat>, after: seq<Frame>)
    requires start < |before|
  {
    match victim
    case None => !AnyEvictable(before) && after == before
    case Some(v) => FirstCandidate(before, start, v) && PassedOverCleared(before, start, v, after)
  }

  /** The description leaves no choice. */
  lemma SecondChanceDetermines(before: seq<Frame>, start: nat, v: Option<nat>, a: seq<Frame>, w: Option<nat>,
                               b: seq<Frame>)
    requires start < |before| && SecondChance(before, start, v, a) && SecondChance(before, start, w, b)
    ensures v == w && a == b
  {
    if v.Some? && w.Some? {
      assert Steps(start, v.value, |before|) == Steps(start, w.value, |before|);
    }
  }

  /** While some evictable frame's bit is clear, no frame with its bit set is ever chosen. */
  lemma RecentlyUsedIsSpared(before: seq<Frame>, start: nat, victim: Option<nat>, after: seq<Frame>, i: nat)
    requires start < |before| && SecondChance(before, start, victim, after)
    requires AnyClear(before) && i < |before| && before[i].referenceBit
    ensures victim.Some? && victim != Some(i)
  {
    var k :| 0 <= k < |before| && Clear(before[k]);
    assert AnyEvictable(before);
  }

  class CLOCK {
    var hand: nat

    constructor ()
      ensures hand == 0
    {
      hand := 0;
    }

    /** Where the sweep begins: the hand may have run off a list that has since become shorter. */
    function Start(n: nat): nat
      requires n > 0
      reads this
    {
      if hand >= n then 0 else hand
    }

    method SelectVictim(frames: array<Frame>) returns (victim: Option<nat>)
      modifies this, frames
      ensures VictimContract(old(frames[..]), victim) && SameOwners(frames[..], old(frames[..]))
      ensures frames.Length > 0 ==> SecondChance(old(frames[..]), old(Start(frames.Length)), victim, frames[..])
      ensures frames.Length > 0 ==>
                hand == match victim
                        case Some(v) => Next(v, frames.Length)
                        case None => old(Start(frames.Length))
    {
      if frames.Length == 0 {
        return None;
      }
      var n := frames.Length;
      ghost var before := frames[..];
      ghost var start := Start(n);
      assert At(start, 0, n) == start;
      hide Swept, SecondChance, VictimContract, SameOwners, At, Next;
      SweptNothing(before, start);
      var iterations := 0;
      victim := None;
      while iterations < 2 * n
        invariant iterations < 2 * n
        invariant if iterations == 0 then hand == old(hand) else hand == At(start, iterations, n)
        invariant Swept(before, frames[..], start, iterations)
      {
        victim := Turn(frames, before, start, iterations);
        if victim.Some? {
          return;
        }
        iterations := iterations + 1;
        if iterations >= 2 * n {
          victim := AfterTwoRounds(frames, before, start);
          return;
        }
      }
    }

    /** One position of the sweep: its frame is passed over, loses its bit, or is the victim. */
    method Turn(frames: array<Frame>, ghost before: seq<Frame>, ghost start: nat, ghost k: nat)
      returns (victim: Option<nat>)
      requires 0 < frames.Length == |before| && start < frames.Length && k < 2 * frames.Length
      requires Swept(before, frames[..], start, k) && Start(frames.Length) == At(start, k, frames.Length)
      modifies this, frames
      ensures victim.None? ==> Swept(before, frames[..], start, k + 1) && hand == At(start, k + 1, frames.Length)
      ensures victim.Some? ==>
                && VictimContract(before, victim) && SameOwners(frames[..], before)
                && SecondChance(before, start, victim, frames[..]) && hand == Next(victim.value, frames.Length)
    {
      var n := frames.Length;
      hide Swept, SecondChance, VictimContract, SameOwners, At, Next;
      if hand >= n {
        hand := 0;
      }
      SweepStep(before, frames[..], start, k);
      NextPosition(hand, n);
      NextAt(start, k, n);
      victim := None;
      if !frames[hand].free && !frames[hand].pinned {
        if frames[hand].referenceBit {
          frames[hand] := frames[hand].ClearReferenceBit();
        } else {
          victim := Some(hand);
          ChoiceIsLawful(before, start, victim, frames[..]);
        }
      }
      hand := Next(hand, n);
    }

    /** Two full rounds without a victim mean that there is none. */
    method AfterTwoRounds(frames: array<Frame>, ghost before: seq<Frame>, ghost start: nat)
      returns (victim: Option<nat>)
      requires frames.Length > 0 && |before| == frames.Length && start < frames.Length
      requires Swept(before, frames[..], start, 2 * frames.Length) && hand == start
      modifies this
      ensures victim.None? && hand == start
      ensures VictimContract(before, None) && SameOwners(frames[..], before)
              && SecondChance(before, start, None, frames[..])
    {
      hide Swept, SecondChance;
      SweptTwice(before, frames[..], start);
      ChoiceIsLawful(before, start, None, frames[..]);
      victim := TakeAny(frames);
      NoneToTake(frames[..], victim);
    }

    /** The scan after two full rounds: the first evictable frame of the list, if any. */
    method TakeAny(frames: array<Frame>) returns (victim: Option<nat>)
      modifies this
      ensures VictimContract(frames[..], victim)
      ensures hand == match victim
                      case Some(v) => Next(v, frames.Length)
                      case None => old(hand)
    {
      victim := FindEvictable(frames[..]);
      if victim.Some? {
        hand := Next(victim.value, frames.Length);
      }
    }
  }

  /** After k positions without a victim: the evictable frames among them had their bits set and have
      lost them; a second round meets none at all. */
  ghost predicate Swept(before: seq<Frame>, now: seq<Frame>, start: nat, k: nat)
    requires start < |before|
  {
    var n := |before|;
    && |now| == n
    && (forall i :: 0 <= i < n ==>
          now[i] == if Steps(start, i, n) < k && before[i].Evictable()
                    then before[i].ClearReferenceBit() else before[i])
    && (forall i :: 0 <= i < n && Steps(start, i, n) < k ==> !Clear(before[i]))
    && (forall i :: 0 <= i < n && Steps(start, i, n) < k - n ==> !before[i].Evictable())
  }

  lemma SweptNothing(before: seq<Frame>, start: nat)
    requires start < |before|
    ensures Swept(before, before, start, 0)
  {
  }

  lemma ChoiceIsLawful(before: seq<Frame>, start: nat, victim: Option<nat>, after: seq<Frame>)
    requires start < |before| && SecondChance(before, start, victim, after)
    ensures VictimContract(before, victim) && SameOwners(after, before)
  {
  }

  lemma NextAt(start: nat, k: nat, n: nat)
    requires start < n && k < 2 * n
    ensures At(start, k + 1, n) == if At(start, k, n) + 1 == n then 0 else At(start, k, n) + 1
  {
  }

  /** One more position of the sweep. */
  lemma SweepStep(before: seq<Frame>, now: seq<Frame>, start: nat, k: nat)
    requires start < |before| && k < 2 * |before| && Swept(before, now, start, k)
    ensures var h := At(start, k, |before|);
            && (now[h].Evictable() <==> before[h].Evictable())
            && (now[h].Evictable() && !now[h].referenceBit ==> SecondChance(before, start, Some(h), now))
            && (now[h].Evictable() && now[h].referenceBit ==>
                  Swept(before, now[h := now[h].ClearReferenceBit()], start, k + 1))
            && (!now[h].Evictable() ==> Swept(before, now, start, k + 1))
  {
    var n := |before|;
    var h := At(start, k, n);
    assert Steps(start, h, n) == if k < n then k else k - n;
    forall i | 0 <= i < n ensures Steps(start, i, n) < n && (Steps(start, i, n) == Steps(start, h, n) ==> i == h) {
    }
    if now[h].Evictable() && !now[h].referenceBit && k < n {
      assert Clear(before[h]);
    }
  }

  lemma NoneToTake(frames: seq<Frame>, victim: Option<nat>)
    requires VictimContract(frames, victim) && !AnyEvictable(frames)
    ensures victim == None
  {
  }

  /** Two rounds without a victim: there was nothing to evict. */
  lemma SweptTwice(before: seq<Frame>, now: seq<Frame>, start: nat)
    requires start < |before| && Swept(before, now, start, 2 * |before|)
    ensures SecondChance(before, start, None, now)
    ensures !AnyEvictable(before) && now == before && At(start, 2 * |before|, |before|) == start
  {
    forall i | 0 <= i < |before| ensures !before[i].Evictable() {
      assert Steps(start, i, |before|) < |before|;
    }
  }
}
