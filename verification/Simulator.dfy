/** The scenarios of the simulator (internal/simulator/simulator.go) against their precomputed page lists:
    both draw from a random number generator, seen here as any state machine. */
module Simulator {
  import opened Prelude

  /** Intn and Float64 of a generator with state S. */
  datatype Rng<!S> = Rng(intn: (S, nat) -> (nat, S), float: S -> (real, S))

  ghost predicate Ranged<S(!new)>(g: Rng<S>) {
    forall s: S, n: nat :: n > 0 ==> g.intn(s, n).0 < n
  }

  datatype Scenario = Sequential | Random | Locality | Looping | Mixed | ForkCow | Thrashing

  const DRAW_RANGE := 1000

  // ---- The page lists ----

  function Range(start: nat, n: nat): (r: seq<nat>)
    ensures |r| == n && forall i :: 0 <= i < n ==> r[i] == start + i
  {
    seq(n, i requires 0 <= i < n => start + i)
  }

  /** n accesses to uniformly drawn pages, each followed by the draw that decides about writing. */
  function RandomPages<S(!new)>(g: Rng<S>, s: S, maxPage: nat, n: nat): (seq<nat>, S) {
    if n == 0 then ([], s)
    else
      var (page, s1) := g.intn(s, maxPage);
      var (pages, s2) := RandomPages(g, g.float(s1).1, maxPage, n - 1);
      ([page] + pages, s2)
  }

  function WorkingSet<S(!new)>(g: Rng<S>, s: S, n: nat): (r: (seq<nat>, S))
    ensures |r.0| == n
  {
    if n == 0 then ([], s)
    else
      var (page, s1) := g.intn(s, DRAW_RANGE);
      var (pages, s2) := WorkingSet(g, s1, n - 1);
      ([page] + pages, s2)
  }

  /** Four times out of five a page of the working set. */
  function LocalPage<S(!new)>(g: Rng<S>, s: S, ws: seq<nat>): (nat, S)
    requires Ranged(g) && ws != []
  {
    var (x, s1) := g.float(s);
    if x < 0.8 then
      var (i, s2) := g.intn(s1, |ws|);
      (ws[i], s2)
    else g.intn(s1, DRAW_RANGE)
  }

  function LocalPages<S(!new)>(g: Rng<S>, s: S, ws: seq<nat>, n: nat): (seq<nat>, S)
    requires Ranged(g) && ws != []
  {
    if n == 0 then ([], s)
    else
      var (page, s1) := LocalPage(g, s, ws);
      var (pages, s2) := LocalPages(g, g.float(s1).1, ws, n - 1);
      ([page] + pages, s2)
  }

  function LocalityPages<S(!new)>(g: Rng<S>, s: S, size: nat, n: nat): (seq<nat>, S)
    requires Ranged(g) && size > 0
  {
    var (ws, s1) := WorkingSet(g, s, size);
    LocalPages(g, s1, ws, n)
  }

  function LoopPages(size: nat, iterations: nat): seq<nat> {
    if iterations == 0 then [] else Range(0, size) + LoopPages(size, iterations - 1)
  }

  /** The pages of a scenario whose generator is in state s. */
  function ScenarioPages<S(!new)>(g: Rng<S>, s: S, scenario: Scenario): seq<nat>
    requires Ranged(g)
  {
    match scenario
    case Sequential => Range(0, 100)
    case Random => RandomPages(g, s, 200, 100).0
    case Locality => LocalityPages(g, s, 20, 100).0
    case Looping => LoopPages(15, 5)
    case Mixed =>
      var (r, s1) := RandomPages(g, s, 100, 30);
      Range(0, 20) + r + LocalityPages(g, s1, 10, 30).0
    case ForkCow =>
      var (a, s1) := RandomPages(g, s, 30, 10);
      var (b, s2) := RandomPages(g, s1, 30, 10);
      var (c, s3) := RandomPages(g, s2, 30, 10);
      var (d, s4) := RandomPages(g, s3, 30, 10);
      Range(0, 30) + a + b + c + d
    case Thrashing => RandomPages(g, s, 1000, 200).0
  }

  // ---- What they hold ----

  ghost predicate Below(pages: seq<nat>, bound: nat) {
    forall k :: 0 <= k < |pages| ==> pages[k] < bound
  }

  lemma {:induction false} RandomBelow<S(!new)>(g: Rng<S>, s: S, maxPage: nat, n: nat)
    requires Ranged(g) && maxPage > 0
    ensures var p := RandomPages(g, s, maxPage, n).0; |p| == n && Below(p, maxPage)
  {
    if n > 0 {
      RandomBelow(g, g.float(g.intn(s, maxPage).1).1, maxPage, n - 1);
    }
  }

  lemma {:induction false} WorkingSetBelow<S(!new)>(g: Rng<S>, s: S, n: nat)
    requires Ranged(g)
    ensures Below(WorkingSet(g, s, n).0, 1000)
  {
    if n > 0 {
      WorkingSetBelow(g, g.intn(s, DRAW_RANGE).1, n - 1);
    }
  }

  lemma LocalPageBelow<S(!new)>(g: Rng<S>, s: S, ws: seq<nat>)
    requires Ranged(g) && ws != [] && Below(ws, 1000)
    ensures LocalPage(g, s, ws).0 < 1000
  {
    var s1 := g.float(s).1;
    assert g.intn(s1, |ws|).0 < |ws| && g.intn(s1, DRAW_RANGE).0 < DRAW_RANGE;
    assert ws[g.intn(s1, |ws|).0] < 1000;
  }

  lemma {:induction false} LocalBelow<S(!new)>(g: Rng<S>, s: S, ws: seq<nat>, n: nat)
    requires Ranged(g) && ws != [] && Below(ws, 1000)
    ensures var p := LocalPages(g, s, ws, n).0; |p| == n && Below(p, 1000)
  {
    if n > 0 {
      LocalBelow(g, g.float(LocalPage(g, s, ws).1).1, ws, n - 1);
      LocalPageBelow(g, s, ws);
    }
  }

  lemma LocalityBelow<S(!new)>(g: Rng<S>, s: S, size: nat, n: nat)
    requires Ranged(g) && size > 0
    ensures var p := LocalityPages(g, s, size, n).0; |p| == n && Below(p, 1000)
  {
    WorkingSetBelow(g, s, size);
    LocalBelow(g, WorkingSet(g, s, size).1, WorkingSet(g, s, size).0, n);
  }

  lemma {:induction false} LoopIs(iterations: nat)
    ensures var p := LoopPages(15, iterations);
            |p| == 15 * iterations && forall k :: 0 <= k < |p| ==> p[k] == k % 15
  {
    if iterations > 0 {
      LoopIs(iterations - 1);
      var p, rest := LoopPages(15, iterations), LoopPages(15, iterations - 1);
      forall k | 15 <= k < |p| ensures p[k] == k % 15 {
        assert p[k] == rest[k - 15] == (k - 15) % 15;
      }
    }
  }

  /** Whatever the generator, each scenario issues so many pages, from this range, in this order where no page is
      drawn. */
  lemma ScenarioShape<S(!new)>(g: Rng<S>, s: S, scenario: Scenario)
    requires Ranged(g)
    ensures var p := ScenarioPages(g, s, scenario);
            match scenario
            case Sequential => |p| == 100 && forall k :: 0 <= k < 100 ==> p[k] == k
            case Random => |p| == 100 && Below(p, 200)
            case Locality => |p| == 100 && Below(p, 1000)
            case Looping => |p| == 75 && forall k :: 0 <= k < 75 ==> p[k] == k % 15
            case Mixed =>
              |p| == 80 && (forall k :: 0 <= k < 20 ==> p[k] == k) && Below(p[20..50], 100) && Below(p[50..], 1000)
            case ForkCow => |p| == 70 && (forall k :: 0 <= k < 30 ==> p[k] == k) && Below(p, 30)
            case Thrashing => |p| == 200 && Below(p, 1000)
  {
    hide Ranged, RandomPages, LocalityPages, LoopPages;
    match scenario
    case Sequential =>
    case Random => RandomBelow(g, s, 200, 100);
    case Locality => LocalityBelow(g, s, 20, 100);
    case Looping => LoopIs(5);
    case Mixed =>
      RandomBelow(g, s, 100, 30);
      LocalityBelow(g, RandomPages(g, s, 100, 30).1, 10, 30);
    case ForkCow =>
      RandomBelow(g, s, 30, 10);
      var s1 := RandomPages(g, s, 30, 10).1;
      RandomBelow(g, s1, 30, 10);
      var s2 := RandomPages(g, s1, 30, 10).1;
      RandomBelow(g, s2, 30, 10);
      RandomBelow(g, RandomPages(g, s2, 30, 10).1, 30, 10);
    case Thrashing => RandomBelow(g, s, 1000, 200);
  }

  // ---- precompute: pages only ----

  method PrecomputeSequential(n: nat) returns (accesses: seq<nat>)
    ensures accesses == Range(0, n)
  {
    accesses := [];
    for i := 0 to n
      invariant accesses == Range(0, i)
    {
      accesses := accesses + [i];
    }
  }

  method PrecomputeRandom<S(!new)>(g: Rng<S>, rng: S, maxPage: nat, n: nat) returns (accesses: seq<nat>, rng': S)
    ensures (accesses, rng') == RandomPages(g, rng, maxPage, n)
  {
    accesses, rng' := [], rng;
    for i := 0 to n
      invariant accesses + RandomPages(g, rng', maxPage, n - i).0 == RandomPages(g, rng, maxPage, n).0
      invariant RandomPages(g, rng', maxPage, n - i).1 == RandomPages(g, rng, maxPage, n).1
    {
      var (page, s1) := g.intn(rng', maxPage);
      rng' := g.float(s1).1;
      Regroup(accesses, page, RandomPages(g, rng', maxPage, n - i - 1).0);
      accesses := accesses + [page];
    }
    assert accesses + [] == accesses;
  }

  lemma Regroup(a: seq<nat>, x: nat, b: seq<nat>)
    ensures a + ([x] + b) == a + [x] + b
  {
  }

  method DrawWorkingSet<S(!new)>(g: Rng<S>, rng: S, size: nat) returns (ws: seq<nat>, rng': S)
    ensures (ws, rng') == WorkingSet(g, rng, size)
  {
    ws, rng' := [], rng;
    for i := 0 to size
      invariant ws + WorkingSet(g, rng', size - i).0 == WorkingSet(g, rng, size).0
      invariant WorkingSet(g, rng', size - i).1 == WorkingSet(g, rng, size).1
    {
      var (page, s1) := g.intn(rng', DRAW_RANGE);
      rng' := s1;
      Regroup(ws, page, WorkingSet(g, rng', size - i - 1).0);
      ws := ws + [page];
    }
    assert ws + [] == ws;
  }

  method PrecomputeLocality<S(!new)>(g: Rng<S>, rng: S, size: nat, n: nat) returns (accesses: seq<nat>, rng': S)
    requires Ranged(g) && size > 0
    ensures (accesses, rng') == LocalityPages(g, rng, size, n)
  {
    var ws;
    ws, rng' := DrawWorkingSet(g, rng, size);
    ghost var s1 := rng';
    accesses := [];
    for i := 0 to n
      invariant accesses + LocalPages(g, rng', ws, n - i).0 == LocalPages(g, s1, ws, n).0
      invariant LocalPages(g, rng', ws, n - i).1 == LocalPages(g, s1, ws, n).1
    {
      var (page, s2) := LocalPage(g, rng', ws);
      rng' := g.float(s2).1;
      Regroup(accesses, page, LocalPages(g, rng', ws, n - i - 1).0);
      accesses := accesses + [page];
    }
    assert accesses + [] == accesses;
  }

  method PrecomputeLooping(size: nat, iterations: nat) returns (accesses: seq<nat>)
    ensures accesses == LoopPages(size, iterations)
  {
    accesses := [];
    for iter := 0 to iterations
      invariant accesses + LoopPages(size, iterations - iter) == LoopPages(size, iterations)
    {
      ghost var before := accesses;
      for i := 0 to size
        invariant accesses == before + Range(0, i)
      {
        accesses := accesses + [i];
      }
      assert before + (Range(0, size) + LoopPages(size, iterations - iter - 1))
          == accesses + LoopPages(size, iterations - iter - 1);
    }
  }

  /** precomputeAccesses: a fresh generator in the seed's state. */
  method PrecomputeAccesses<S(!new)>(g: Rng<S>, seed: S, scenario: Scenario) returns (accesses: seq<nat>)
    requires Ranged(g)
    ensures accesses == ScenarioPages(g, seed, scenario)
  {
    var rng;
    hide RandomPages, LocalityPages, LoopPages, Ranged;
    match scenario
    case Sequential => accesses := PrecomputeSequential(100);
    case Random => accesses, rng := PrecomputeRandom(g, seed, 200, 100);
    case Locality => accesses, rng := PrecomputeLocality(g, seed, 20, 100);
    case Looping => accesses := PrecomputeLooping(15, 5);
    case Mixed =>
      var a := PrecomputeSequential(20);
      var b, c;
      b, rng := PrecomputeRandom(g, seed, 100, 30);
      c, rng := PrecomputeLocality(g, rng, 10, 30);
      accesses := a + b + c;
    case ForkCow =>
      var start := PrecomputeSequential(30);
      var a, b, c, d;
      a, rng := PrecomputeRandom(g, seed, 30, 10);
      b, rng := PrecomputeRandom(g, rng, 30, 10);
      c, rng := PrecomputeRandom(g, rng, 30, 10);
      d, rng := PrecomputeRandom(g, rng, 30, 10);
      accesses := start + a + b + c + d;
    case Thrashing => accesses, rng := PrecomputeRandom(g, seed, 1000, 200);
  }

  // ---- run: the accesses themselves ----

  /** What a run may have issued of its plan: all of it, or, after a failed access, a first part. */
  ghost predicate Follows(before: seq<nat>, plan: seq<nat>, after: seq<nat>, ok: bool) {
    if ok then after == before + plan else before <= after <= before + plan
  }

  lemma FollowsThen(before: seq<nat>, a: seq<nat>, middle: seq<nat>, b: seq<nat>, after: seq<nat>, ok: bool)
    requires Follows(before, a, middle, true) && Follows(middle, b, after, ok)
    ensures Follows(before, a + b, after, ok)
  {
    assert before + (a + b) == middle + b;
  }

  lemma FollowsLess(before: seq<nat>, a: seq<nat>, plan: seq<nat>, after: seq<nat>)
    requires Follows(before, a, after, false) && a <= plan
    ensures Follows(before, plan, after, false)
  {
    assert before + a <= before + plan;
  }

  class Simulator<S(!new)> {
    const g: Rng<S>
    const seed: S
    /** Whether the k-th access of the simulator's life succeeds. */
    const answers: nat -> bool
    var rng: S
    /** The pages accessed so far, as the recorded trace lists them. */
    var issued: seq<nat>

    constructor (g: Rng<S>, seed: S, answers: nat -> bool)
      ensures this.g == g && this.seed == seed && rng == seed && issued == []
    {
      this.g, this.seed, this.answers, rng, issued := g, seed, answers, seed, [];
    }

    method AccessMemory(page: nat, write: bool) returns (ok: bool)
      modifies this`issued
      ensures issued == old(issued) + [page]
    {
      issued := issued + [page];
      ok := answers(|issued| - 1);
    }

    method SimulateSequentialAccess(startPage: nat, numPages: nat, write: bool) returns (ok: bool)
      modifies this`issued
      ensures Follows(old(issued), Range(startPage, numPages), issued, ok)
    {
      for i := 0 to numPages
        invariant issued == old(issued) + Range(startPage, i)
      {
        ok := AccessMemory(startPage + i, write);
        assert issued == old(issued) + Range(startPage, i + 1);
        if !ok {
          assert Range(startPage, i + 1) <= Range(startPage, numPages);
          return;
        }
      }
      return true;
    }

    method SimulateRandomAccess(maxPage: nat, numAccesses: nat, writeRatio: real) returns (ok: bool)
      modifies this`issued, this`rng
      ensures Follows(old(issued), RandomPages(g, old(rng), maxPage, numAccesses).0, issued, ok)
      ensures ok ==> rng == RandomPages(g, old(rng), maxPage, numAccesses).1
    {
      ghost var plan := old(issued) + RandomPages(g, rng, maxPage, numAccesses).0;
      for i := 0 to numAccesses
        invariant old(issued) <= issued
        invariant issued + RandomPages(g, rng, maxPage, numAccesses - i).0 == plan
        invariant RandomPages(g, rng, maxPage, numAccesses - i).1 == RandomPages(g, old(rng), maxPage, numAccesses).1
      {
        var (page, s1) := g.intn(rng, maxPage);
        var (x, s2) := g.float(s1);
        Regroup(issued, page, RandomPages(g, s2, maxPage, numAccesses - i - 1).0);
        rng := s2;
        ok := AccessMemory(page, x < writeRatio);
        if !ok {
          return;
        }
      }
      return true;
    }

    method SimulateLocalityAccess(workingSetSize: nat, numAccesses: nat, writeRatio: real) returns (ok: bool)
      requires Ranged(g)
      modifies this`issued, this`rng
      ensures workingSetSize == 0 ==> !ok && issued == old(issued) && rng == old(rng)
      ensures workingSetSize > 0 ==>
                Follows(old(issued), LocalityPages(g, old(rng), workingSetSize, numAccesses).0, issued, ok)
      ensures workingSetSize > 0 && ok ==> rng == LocalityPages(g, old(rng), workingSetSize, numAccesses).1
    {
      if workingSetSize == 0 {
        return false;
      }
      var ws;
      ws, rng := DrawWorkingSet(g, rng, workingSetSize);
      ok := AccessLocal(ws, numAccesses, writeRatio);
    }

    method AccessLocal(ws: seq<nat>, numAccesses: nat, writeRatio: real) returns (ok: bool)
      requires Ranged(g) && ws != []
      modifies this`issued, this`rng
      ensures Follows(old(issued), LocalPages(g, old(rng), ws, numAccesses).0, issued, ok)
      ensures ok ==> rng == LocalPages(g, old(rng), ws, numAccesses).1
    {
      ghost var plan := old(issued) + LocalPages(g, rng, ws, numAccesses).0;
      for i := 0 to numAccesses
        invariant old(issued) <= issued
        invariant issued + LocalPages(g, rng, ws, numAccesses - i).0 == plan
        invariant LocalPages(g, rng, ws, numAccesses - i).1 == LocalPages(g, old(rng), ws, numAccesses).1
      {
        var (page, s1) := LocalPage(g, rng, ws);
        var (x, s2) := g.float(s1);
        Regroup(issued, page, LocalPages(g, s2, ws, numAccesses - i - 1).0);
        rng := s2;
        ok := AccessMemory(page, x < writeRatio);
        if !ok {
          return;
        }
      }
      return true;
    }

    /** The writes are drawn here but not in the precomputation: the pages do not depend on them. */
    method SimulateLoopingAccess(loopSize: nat, numIterations: nat, writeRatio: real) returns (ok: bool)
      modifies this`issued, this`rng
      ensures Follows(old(issued), LoopPages(loopSize, numIterations), issued, ok)
    {
      ghost var plan := old(issued) + LoopPages(loopSize, numIterations);
      for iter := 0 to numIterations
        invariant old(issued) <= issued
        invariant issued + LoopPages(loopSize, numIterations - iter) == plan
      {
        ghost var before, rest := issued, LoopPages(loopSize, numIterations - iter - 1);
        assert before + (Range(0, loopSize) + rest) == before + Range(0, loopSize) + rest;
        for i := 0 to loopSize
          invariant issued == before + Range(0, i)
        {
          var (x, s1) := g.float(rng);
          rng := s1;
          ok := AccessMemory(i, x < writeRatio);
          assert issued == before + Range(0, i + 1);
          if !ok {
            assert Range(0, i + 1) <= Range(0, loopSize);
            return;
          }
        }
      }
      return true;
    }

    /** The scenarios of one process. */
    method RunSimple(scenario: Scenario) returns (ok: bool)
      requires Ranged(g) && !scenario.Mixed? && !scenario.ForkCow?
      modifies this`issued, this`rng
      ensures Follows(old(issued), ScenarioPages(g, old(rng), scenario), issued, ok)
      ensures scenario.Random? && ok ==> rng == RandomPages(g, old(rng), 200, 100).1
    {
      hide RandomPages, LocalityPages, LoopPages, Ranged, Follows;
      match scenario
      case Sequential => ok := SimulateSequentialAccess(0, 100, false);
      case Random => ok := SimulateRandomAccess(200, 100, 0.3);
      case Locality => ok := SimulateLocalityAccess(20, 100, 0.2);
      case Looping => ok := SimulateLoopingAccess(15, 5, 0.4);
      case Thrashing => ok := SimulateRandomAccess(1000, 200, 0.5);
    }

    method RunMixed() returns (ok: bool)
      requires Ranged(g)
      modifies this`issued, this`rng
      ensures Follows(old(issued), ScenarioPages(g, old(rng), Mixed), issued, ok)
    {
      hide RandomPages, LocalityPages, Ranged, Follows, Range;
      ghost var plan := ScenarioPages(g, rng, Mixed);
      ghost var done := Range(0, 20);
      ok := SimulateSequentialAccess(0, 20, false);
      if !ok {
        FollowsLess(old(issued), done, plan, issued);
        return;
      }
      ok, done := ThenRandom(100, 30, 0.5, old(issued), done);
      if !ok {
        FollowsLess(old(issued), done, plan, issued);
        return;
      }
      ghost var middle, rest := issued, LocalityPages(g, rng, 10, 30).0;
      ok := SimulateLocalityAccess(10, 30, 0.3);
      FollowsThen(old(issued), done, middle, rest, issued, ok);
    }

    /** Random accesses after a part of a scenario that went well. */
    method ThenRandom(maxPage: nat, n: nat, writeRatio: real, ghost before: seq<nat>, ghost done: seq<nat>)
      returns (ok: bool, ghost done': seq<nat>)
      requires Follows(before, done, issued, true)
      modifies this`issued, this`rng
      ensures done' == done + RandomPages(g, old(rng), maxPage, n).0
      ensures Follows(before, done', issued, ok)
      ensures ok ==> rng == RandomPages(g, old(rng), maxPage, n).1
    {
      hide RandomPages, Follows;
      ghost var middle, plan := issued, RandomPages(g, rng, maxPage, n).0;
      ok := SimulateRandomAccess(maxPage, n, writeRatio);
      done' := done + plan;
      FollowsThen(before, done, middle, plan, issued, ok);
    }

    /** The fork scenario; the fork touches no page, and when it fails the scenario ends there. */
    method RunForkCow(forks: bool) returns (ok: bool)
      requires Ranged(g)
      modifies this`issued, this`rng
      ensures Follows(old(issued), ScenarioPages(g, old(rng), ForkCow), issued, ok)
    {
      hide RandomPages, Ranged, Follows, Range;
      ghost var plan := ScenarioPages(g, rng, ForkCow);
      ghost var done := Range(0, 30);
      ok := SimulateSequentialAccess(0, 30, false);
      if ok && !forks {
        FollowsNot(old(issued), done, issued);
        ok := false;
      }
      if ok {
        ok, done := ThenRandom(30, 10, 0.0, old(issued), done);
      }
      if ok {
        ok, done := ThenRandom(30, 10, 0.0, old(issued), done);
      }
      if ok {
        ok, done := ThenRandom(30, 10, 1.0, old(issued), done);
      }
      if ok {
        ok, done := ThenRandom(30, 10, 1.0, old(issued), done);
      } else {
        FollowsLess(old(issued), done, plan, issued);
      }
    }

    /** RunScenario for the offline policies: the precomputed list is what the policy is told, `issued` what
        it will see. Run from the seed's own state, the scenario issues exactly that list; after a failed
        access, a first part of it. */
    method RunScenario(scenario: Scenario, forks: bool) returns (accesses: seq<nat>, ok: bool)
      requires Ranged(g)
      modifies this`issued, this`rng
      ensures accesses == ScenarioPages(g, seed, scenario)
      ensures Follows(old(issued), ScenarioPages(g, old(rng), scenario), issued, ok)
      ensures old(rng) == seed ==> Follows(old(issued), accesses, issued, ok)
      ensures scenario.Random? && ok ==> rng == RandomPages(g, old(rng), 200, 100).1
    {
      accesses := PrecomputeAccesses(g, seed, scenario);
      hide ScenarioPages, Follows, Ranged;
      if scenario.Mixed? {
        ok := RunMixed();
      } else if scenario.ForkCow? {
        ok := RunForkCow(forks);
      } else {
        ok := RunSimple(scenario);
      }
    }
  }

  lemma FollowsNot(before: seq<nat>, plan: seq<nat>, after: seq<nat>)
    requires Follows(before, plan, after, true)
    ensures Follows(before, plan, after, false)
  {
  }

  /** A generator that counts modulo three. */
  function Counting(): Rng<nat> {
    Rng((s, n) => (if s < n then s else 0, (s + 1) % 3), s => (0.0, (s + 1) % 3))
  }

  /** Every random access draws twice. */
  lemma {:induction false} CountingAfter(s: nat, maxPage: nat, n: nat)
    requires s < 3
    ensures RandomPages(Counting(), s, maxPage, n).1 == (s + 2 * n) % 3
    decreases n
  {
    if n > 0 {
      CountingAfter((s + 2) % 3, maxPage, n - 1);
    }
  }

  /** The list is wrong for a simulator that has run before: there are a generator and a seed for which the
      run of the random scenario that follows a whole one issues other pages than those announced. */
  lemma SecondRunDiffers()
    ensures Ranged(Counting())
    ensures var second := RandomPages(Counting(), 0, 200, 100).1;
            ScenarioPages(Counting(), second, Random) != ScenarioPages(Counting(), 0, Random)
  {
    CountingAfter(0, 200, 100);
    assert RandomPages(Counting(), 0, 200, 100).0[0] == 0;
    assert RandomPages(Counting(), 2, 200, 100).0[0] == 2;
  }
}
