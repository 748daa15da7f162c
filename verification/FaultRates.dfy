/** What PFF's fault rate measures: the faults of the window, whatever was recorded, read and dropped before. */
module FaultRates {
  import opened Prelude
  import opened Policies

  /** PFF records a fault, or reads its rate, which drops the faults that have left the window. */
  datatype Event = Faulted(at: int) | RateRead(at: int)

  /** The fault times that PFF keeps after the events. */
  function Kept(events: seq<Event>, window: int): seq<int> {
    if events == [] then []
    else
      var before := Kept(events[..|events| - 1], window);
      match events[|events| - 1]
      case Faulted(at) => Noted(before, at)
      case RateRead(at) => After(before, at - window)
  }

  /** All faults there were. */
  function Faults(events: seq<Event>): seq<int> {
    if events == [] then []
    else Faults(events[..|events| - 1]) + (match events[|events| - 1] case Faulted(at) => [at] case RateRead(_) => [])
  }

  /** Which of the faults came after the cutoff. */
  ghost function Later(times: seq<int>, cutoff: int): set<nat> {
    set k: nat | k < |times| && times[k] > cutoff
  }

  lemma {:induction false} AfterCounts(times: seq<int>, cutoff: int)
    ensures |After(times, cutoff)| == |Later(times, cutoff)|
  {
    if times == [] {
      assert Later(times, cutoff) == {};
    } else {
      var n := |times| - 1;
      AfterCounts(times[..n], cutoff);
      assert Later(times, cutoff) == Later(times[..n], cutoff) + (if times[n] > cutoff then {n} else {});
    }
  }

  ghost predicate Ascending(times: seq<int>) {
    forall j, k :: 0 <= j < k < |times| ==> times[j] <= times[k]
  }

  ghost predicate UpTo(times: seq<int>, now: int) {
    forall k :: 0 <= k < |times| ==> times[k] <= now
  }

  /** The first n are not after the cutoff, the others are. */
  ghost predicate Cut(times: seq<int>, cutoff: int, n: nat) {
    && n <= |times|
    && (forall k :: 0 <= k < n ==> times[k] <= cutoff)
    && forall k :: n <= k < |times| ==> times[k] > cutoff
  }

  lemma {:induction false} AfterCut(times: seq<int>, cutoff: int, n: nat)
    requires Cut(times, cutoff, n)
    ensures After(times, cutoff) == times[n..]
  {
    if times != [] {
      var last := |times| - 1;
      if n <= last {
        AfterCut(times[..last], cutoff, n);
        assert times[..last][n..] + [times[last]] == times[n..];
      } else {
        AfterCut(times[..last], cutoff, last);
      }
    }
  }

  lemma {:induction false} Cuts(times: seq<int>, cutoff: int) returns (n: nat)
    requires Ascending(times)
    ensures Cut(times, cutoff, n)
  {
    n := 0;
    if times != [] {
      var last := |times| - 1;
      n := Cuts(times[..last], cutoff);
      if times[last] <= cutoff {
        n := |times|;
      }
    }
  }

  /** What is kept is the end of what there was, and what is missing has either left the window or is older than
      512 others. */
  ghost predicate Remembers(all: seq<int>, kept: seq<int>, cutoff: int) {
    var gone := |all| - |kept|;
    && 0 <= gone && kept == all[gone..] && |kept| <= 512
    && (|kept| == 512 || forall k :: 0 <= k < gone ==> all[k] <= cutoff)
  }

  lemma NotedIsRemembered(all: seq<int>, kept: seq<int>, cutoff: int, now: int)
    requires Remembers(all, kept, cutoff)
    ensures Remembers(all + [now], Noted(kept, now), cutoff)
  {
    var gone := |all| - |kept|;
    assert (all + [now])[gone..] == kept + [now];
    if |kept| == 512 {
      assert (all + [now])[gone + 1..] == (kept + [now])[1..];
    }
  }

  lemma DroppedIsRemembered(all: seq<int>, kept: seq<int>, cutoff: int, later: int)
    requires Remembers(all, kept, cutoff) && Ascending(all) && cutoff <= later
    ensures Remembers(all, After(kept, later), later)
  {
    hide After;
    var gone := |all| - |kept|;
    var n := Cuts(kept, later);
    AfterCut(kept, later, n);
    assert kept[n..] == all[gone + n..];
    if n > 0 {
      assert all[gone + n - 1] == kept[n - 1];
    }
  }

  lemma NotBefore(all: seq<int>, gone: nat, cutoff: int, a: nat)
    requires Cut(all, cutoff, a) && gone <= |all| && forall k :: 0 <= k < gone ==> all[k] <= cutoff
    ensures a >= gone
  {
    assert a < |all| ==> all[a] > cutoff;
  }

  lemma CutsMeet(all: seq<int>, kept: seq<int>, cutoff: int, n: nat, a: nat)
    requires Remembers(all, kept, cutoff) && Ascending(all) && Cut(kept, cutoff, n) && Cut(all, cutoff, a)
    ensures |kept| - n == Min(512, |all| - a)
  {
    var gone := |all| - |kept|;
    if |kept| < 512 {
      NotBefore(all, gone, cutoff, a);
    }
    if n > 0 {
      assert all[gone + n - 1] == kept[n - 1] <= cutoff;
      assert a >= gone + n;
      if n < |kept| {
        assert all[gone + n] == kept[n] > cutoff;
      }
    } else if kept != [] {
      assert all[gone] == kept[0] > cutoff;
      assert a <= gone;
    }
  }

  lemma RememberedInOrder(all: seq<int>, kept: seq<int>, cutoff: int)
    requires Remembers(all, kept, cutoff) && Ascending(all)
    ensures Ascending(kept)
  {
  }

  /** Reading the rate counts all faults of the window, up to 512. */
  lemma RememberedCount(all: seq<int>, kept: seq<int>, cutoff: int)
    requires Remembers(all, kept, cutoff) && Ascending(all)
    ensures |After(kept, cutoff)| == Min(512, |Later(all, cutoff)|)
  {
    RememberedInOrder(all, kept, cutoff);
    hide After, Later, Remembers, Ascending;
    var n := Cuts(kept, cutoff);
    var a := Cuts(all, cutoff);
    AfterCut(kept, cutoff, n);
    AfterCut(all, cutoff, a);
    AfterCounts(all, cutoff);
    CutsMeet(all, kept, cutoff, n, a);
    assert |After(kept, cutoff)| == |kept| - n && |After(all, cutoff)| == |all| - a;
  }

  /** The events happen one after the other. */
  ghost predicate InOrder(events: seq<Event>) {
    forall j, k :: 0 <= j < k < |events| ==> events[j].at <= events[k].at
  }

  lemma {:induction false} FaultsInOrder(events: seq<Event>, now: int)
    requires InOrder(events) && forall k :: 0 <= k < |events| ==> events[k].at <= now
    ensures Ascending(Faults(events)) && UpTo(Faults(events), now)
  {
    if events != [] {
      var n := |events| - 1;
      FaultsInOrder(events[..n], events[n].at);
    }
  }

  lemma RemembersLater(all: seq<int>, kept: seq<int>, cutoff: int, later: int)
    requires Remembers(all, kept, cutoff) && cutoff <= later
    ensures Remembers(all, kept, later)
  {
  }

  lemma {:induction false} RemembersInEveryRun(events: seq<Event>, window: int, now: int)
    requires InOrder(events) && forall k :: 0 <= k < |events| ==> events[k].at <= now
    ensures Remembers(Faults(events), Kept(events, window), now - window)
  {
    hide Remembers, Noted, After, Ascending, UpTo;
    if events != [] {
      var n := |events| - 1;
      var e := events[n];
      RemembersInEveryRun(events[..n], window, e.at);
      FaultsInOrder(events[..n], e.at);
      var all, kept := Faults(events[..n]), Kept(events[..n], window);
      match e {
        case Faulted(at) => NotedIsRemembered(all, kept, at - window, at);
        case RateRead(at) =>
          DroppedIsRemembered(all, kept, at - window, at - window);
          assert Faults(events) == all;
      }
      RemembersLater(Faults(events), Kept(events, window), e.at - window, now - window);
    } else {
      NothingYet(now - window);
    }
  }

  lemma NothingYet(cutoff: int)
    ensures Remembers([], [], cutoff)
  {
  }

  lemma TimesOver(x: real, y: real)
    requires y > 0.0
    ensures x / y * y == x
  {
  }

  lemma RateTimesWindow(times: seq<int>, now: int, window: int)
    requires window > 0
    ensures FaultRate(times, now, window) * (window as real / 1_000_000_000.0) == |After(times, now - window)| as real
  {
    hide After;
    TimesOver(|After(times, now - window)| as real, window as real / 1_000_000_000.0);
  }

  /** After faults and readings in any order, the rate times the seconds of the window is the number of faults that
      fell into the window, or 512 if there were more. */
  lemma RateCountsTheWindow(events: seq<Event>, window: int, now: int)
    requires InOrder(events) && (forall k :: 0 <= k < |events| ==> events[k].at <= now) && window > 0
    ensures FaultRate(Kept(events, window), now, window) * (window as real / 1_000_000_000.0)
            == Min(512, |Later(Faults(events), now - window)|) as real
  {
    hide Remembers, After, Later, Kept, Faults, Ascending, InOrder, UpTo, FaultRate;
    RemembersInEveryRun(events, window, now);
    FaultsInOrder(events, now);
    RememberedCount(Faults(events), Kept(events, window), now - window);
    RateTimesWindow(Kept(events, window), now, window);
  }
}
