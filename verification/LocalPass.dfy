/** The local scheduler (include/localScheduler.hpp, src/schedulerPass.cpp): every block on its own. */
module LocalPasses {
  import opened Graphs
  import opened Ir
  import opened FunctionBodies
  import opened Ddgs
  import opened BuildDdg
  import opened CriticalPaths
  import opened Pressure
  import opened ListScheduler
  import opened Dependence
  import opened Regions
  import opened RegionOrder
  import opened HoistTurns
  import opened Liveness

  // ----- What the pass keeps -----

  /** g is f with some blocks reordered within their regions: valid, same runs, every anchor where it was. */
  ghost predicate LocallyRescheduled(f: Func, g: Func) {
    && KeepsMeaning(f, g) && SameCode(f, g)
    && (forall b :: 0 <= b < |f.layout| ==> AnchorsFixed(f.info, f.layout[b], g.layout[b]))
    && forall b: nat, i: nat :: In(g, b, i) <==> In(f, b, i)
  }

  lemma RescheduleBlock(f: Func, g: Func, d: Deps, schedule: seq<nat>, b: nat)
    requires LocallyRescheduled(f, g) && b < |f.layout|
    requires IsGraphOf(g, true, [b], d) && IsListSchedule(g, d, schedule)
    ensures LocallyRescheduled(f, WithBlock(g, b, Reordered(g.info, schedule, g.layout[b])))
  {
    ScheduleRespectsBlock(g, true, [b], d, schedule, b);
    ReorderKeepsMeaning(g, b, schedule);
    var h := WithBlock(g, b, Reordered(g.info, schedule, g.layout[b]));
    Regions.KeepsMeaningTransitive(f, g, h);
    ReorderedFixesAnchors(g.info, schedule, g.layout[b]);
    forall i: nat
      ensures i in h.layout[b] <==> i in g.layout[b]
    {
      ReorderedContents(g.info, schedule, g.layout[b], i);
    }
    AnchorsFixedTransitive(f.info, f.layout[b], g.layout[b], h.layout[b]);
  }

  lemma AnchorsFixedTransitive(info: seq<Instr>, a: seq<nat>, b: seq<nat>, c: seq<nat>)
    requires AnchorsFixed(info, a, b) && AnchorsFixed(info, b, c)
    ensures AnchorsFixed(info, a, c)
  {
  }

  // ----- What the pass does -----

  /** A greedy list schedule of block b's own dependence graph, from the given live set. */
  ghost predicate IsBlockSchedule(f: Func, o: Options, live: set<Ref>, b: nat, schedule: seq<nat>) {
    exists d: Deps, delay: seq<nat>, cp: seq<nat> :: BlockScheduledBy(f, o, live, b, d, delay, cp, schedule)
  }

  ghost predicate BlockScheduledBy(f: Func, o: Options, live: set<Ref>, b: nat, d: Deps, delay: seq<nat>, cp: seq<nat>,
                                   schedule: seq<nat>) {
    && IsGraphOf(f, true, [b], d) && DelaysRight(f, d.nodes, delay) && Solved(d, delay, cp)
    && IsListSchedule(f, d, schedule) && NonIncreasing(cp, schedule) && IsGreedy(f, d, o, cp, live, schedule)
  }

  ghost predicate SchedulesRight(f: Func, o: Options, liveIn: seq<set<Ref>>, schedules: seq<seq<nat>>) {
    |schedules| <= |liveIn| && forall b :: 0 <= b < |schedules| ==> IsBlockSchedule(f, o, liveIn[b], b, schedules[b])
  }

  /** The blocks that have a schedule are sorted by it within their regions, the others are as they were. */
  ghost predicate Reordering(f: Func, g: Func, schedules: seq<seq<nat>>) {
    && |schedules| <= |f.layout| == |g.layout|
    && (forall b :: 0 <= b < |schedules| ==> IsReordering(f.info, schedules[b], f.layout[b], g.layout[b]))
    && forall b :: |schedules| <= b < |f.layout| ==> g.layout[b] == f.layout[b]
  }

  /** The first n blocks are reordered by their schedules, the others are as they were. */
  ghost predicate BlocksDone(f: Func, g: Func, o: Options, liveIn: seq<set<Ref>>, schedules: seq<seq<nat>>, n: nat) {
    |schedules| == n && |liveIn| == |f.layout| && SchedulesRight(f, o, liveIn, schedules) && Reordering(f, g, schedules)
  }

  /** c is the live count after some number of emissions of block b. */
  ghost predicate SeenIn(f: Func, o: Options, liveIn: seq<set<Ref>>, schedules: seq<seq<nat>>, b: nat, c: nat)
    requires b < |schedules| <= |liveIn|
  {
    c in LiveCounts(f, o, liveIn[b], schedules[b])
  }

  /** The largest live count seen while list-scheduling the first blocks; 0 when statistics are off. */
  ghost predicate PeakRight(peak: nat, statsOn: bool, f: Func, o: Options, liveIn: seq<set<Ref>>,
                            schedules: seq<seq<nat>>)
    requires |schedules| <= |liveIn|
  {
    if statsOn then
      && (forall b: nat, c: nat :: b < |schedules| && SeenIn(f, o, liveIn, schedules, b, c) ==> c <= peak)
      && (peak == 0 || exists b :: 0 <= b < |schedules| && SeenIn(f, o, liveIn, schedules, b, peak))
    else peak == 0
  }

  lemma PeakNext(f: Func, o: Options, liveIn: seq<set<Ref>>, schedules: seq<seq<nat>>, schedule: seq<nat>,
                 statsOn: bool, peak: nat, peak': nat)
    requires |schedules| < |liveIn| && PeakRight(peak, statsOn, f, o, liveIn, schedules)
    requires PeakAfter(statsOn, LiveCounts(f, o, liveIn[|schedules|], schedule), peak, peak')
    ensures PeakRight(peak', statsOn, f, o, liveIn, schedules + [schedule])
  {
    forall b, c: nat | 0 <= b < |schedules|
      ensures SeenIn(f, o, liveIn, schedules + [schedule], b, c) <==> SeenIn(f, o, liveIn, schedules, b, c)
    {
    }
    forall c: nat
      ensures SeenIn(f, o, liveIn, schedules + [schedule], |schedules|, c) <==>
                c in LiveCounts(f, o, liveIn[|schedules|], schedule)
    {
    }
  }

  lemma OneMoreSchedule(f: Func, o: Options, liveIn: seq<set<Ref>>, schedules: seq<seq<nat>>, schedule: seq<nat>)
    requires SchedulesRight(f, o, liveIn, schedules) && |schedules| < |liveIn|
    requires IsBlockSchedule(f, o, liveIn[|schedules|], |schedules|, schedule)
    ensures SchedulesRight(f, o, liveIn, schedules + [schedule])
  {
    var all := schedules + [schedule];
    forall b | 0 <= b < |all|
      ensures IsBlockSchedule(f, o, liveIn[b], b, all[b])
    {
      assert all[b] == if b < |schedules| then schedules[b] else schedule;
    }
  }

  lemma OneMoreReordered(f: Func, g: Func, schedules: seq<seq<nat>>, schedule: seq<nat>)
    requires Reordering(f, g, schedules) && |schedules| < |f.layout| && NoDup(f.layout[|schedules|])
    ensures Reordering(f, WithBlock(g, |schedules|, Reordered(f.info, schedule, g.layout[|schedules|])),
                       schedules + [schedule])
  {
    ReorderedIsReordering(f.info, schedule, f.layout[|schedules|]);
  }

  // ----- A block's schedule does not depend on how the other blocks were reordered -----

  lemma SameHomes(f: Func, g: Func)
    requires LocallyRescheduled(f, g) && WellFormed(f)
    ensures forall i: nat :: Home(f, i) == Home(g, i)
  {
    forall i: nat
      ensures Home(f, i) == Home(g, i)
    {
      HomeFollowsPlaces(f, g, i);
    }
  }

  lemma {:induction false} SameAfterAll(f: Func, g: Func, o: Options, live: set<Ref>, xs: seq<nat>)
    requires f.info == g.info && forall i: nat :: Home(f, i) == Home(g, i)
    ensures AfterAll(f, o.universe, Outs(f, o), live, xs) == AfterAll(g, o.universe, Outs(g, o), live, xs)
  {
    if xs != [] {
      SameAfterAll(f, g, o, live, xs[..|xs| - 1]);
    }
  }

  lemma {:induction false} SameCounts(f: Func, g: Func, o: Options, live: set<Ref>, schedule: seq<nat>)
    requires f.info == g.info && forall i: nat :: Home(f, i) == Home(g, i)
    ensures LiveCounts(f, o, live, schedule) == LiveCounts(g, o, live, schedule)
  {
    SameAfterAll(f, g, o, live, schedule[..|schedule|]);
    if schedule != [] {
      SameCounts(f, g, o, live, schedule[..|schedule| - 1]);
    }
  }

  lemma {:induction false} SameFreed(f: Func, g: Func, d: Deps, schedule: seq<nat>, succs: seq<nat>, k: nat)
    requires f.info == g.info && k <= |succs|
    ensures Freed(f, d, schedule, succs, k) == Freed(g, d, schedule, succs, k)
  {
    if k > 0 {
      SameFreed(f, g, d, schedule, succs, k - 1);
    }
  }

  lemma {:induction false} SameStart(f: Func, g: Func, d: Deps, n: nat)
    requires f.info == g.info && n <= |d.nodes|
    ensures StartingNodes(f, d, n) == StartingNodes(g, d, n)
  {
    if n > 0 {
      SameStart(f, g, d, n - 1);
    }
  }

  lemma {:induction false} SameQueue(f: Func, g: Func, d: Deps, schedule: seq<nat>)
    requires f.info == g.info
    ensures Queue(f, d, schedule) == Queue(g, d, schedule)
  {
    if schedule == [] {
      SameStart(f, g, d, |d.nodes|);
    } else {
      var n := |schedule| - 1;
      SameQueue(f, g, d, schedule[..n]);
      if schedule[n] < |d.succ| {
        SameFreed(f, g, d, schedule, d.succ[schedule[n]], |d.succ[schedule[n]]|);
      }
    }
  }

  lemma SameUnbeaten(f: Func, g: Func, d: Deps, o: Options, cp: seq<nat>, live: set<Ref>, schedule: seq<nat>, k: nat)
    requires f.info == g.info && forall i: nat :: Home(f, i) == Home(g, i)
    requires k < |schedule| && Unbeaten(g, d, o, cp, live, schedule, k)
    ensures Unbeaten(f, d, o, cp, live, schedule, k)
  {
    SameAfterAll(f, g, o, live, schedule[..k]);
    SameQueue(f, g, d, schedule[..k]);
    SameLine(f, g, o, cp, LiveAt(f, o, live, schedule, k), Queue(f, d, schedule[..k]), schedule[k]);
    forall n: nat | IsReady(f, d, schedule[..k], n)
      ensures !Beats(f, o, cp, LiveAt(f, o, live, schedule, k), n, schedule[k])
    {
      assert IsReady(g, d, schedule[..k], n);
    }
  }

  lemma SameGreedy(f: Func, g: Func, d: Deps, o: Options, cp: seq<nat>, live: set<Ref>, schedule: seq<nat>)
    requires f.info == g.info && forall i: nat :: Home(f, i) == Home(g, i)
    requires IsGreedy(g, d, o, cp, live, schedule)
    ensures IsGreedy(f, d, o, cp, live, schedule)
  {
    forall k | 0 <= k < |schedule|
      ensures Unbeaten(f, d, o, cp, live, schedule, k)
    {
      SameUnbeaten(f, g, d, o, cp, live, schedule, k);
    }
  }

  lemma SameLine(f: Func, g: Func, o: Options, cp: seq<nat>, live: set<Ref>, queue: seq<nat>, best: nat)
    requires f.info == g.info && forall i: nat :: Home(f, i) == Home(g, i)
    ensures FirstInLine(f, o, cp, live, queue, best) <==> FirstInLine(g, o, cp, live, queue, best)
  {
    forall n: nat
      ensures Beats(f, o, cp, live, best, n) <==> Beats(g, o, cp, live, best, n)
    {
    }
  }

  lemma SameGraph(f: Func, g: Func, b: nat, d: Deps)
    requires f.info == g.info && b < |f.layout| == |g.layout| && f.layout[b] == g.layout[b]
    requires IsGraphOf(g, true, [b], d)
    ensures IsGraphOf(f, true, [b], d)
  {
    assert [b][..0] == [];
    assert TraceNodes(f, true, [b]) == TraceNodes(g, true, [b]) by {
      SameBlockNodes(f, g, f.layout[b]);
    }
    forall x: nat, y: nat
      ensures HasEdge(f, d.nodes, true, [b], x, y) <==> HasEdge(g, d.nodes, true, [b], x, y)
    {
      SameEdge(f, g, b, d.nodes, x, y);
    }
  }

  lemma {:induction false} SameBlockNodes(f: Func, g: Func, code: seq<nat>)
    requires f.info == g.info
    ensures BlockNodes(f, true, code) == BlockNodes(g, true, code)
  {
    if code != [] {
      SameBlockNodes(f, g, code[..|code| - 1]);
    }
  }

  lemma SameEdge(f: Func, g: Func, b: nat, nodes: seq<nat>, x: nat, y: nat)
    requires f.info == g.info && b < |f.layout| == |g.layout| && f.layout[b] == g.layout[b]
    ensures HasEdge(f, nodes, true, [b], x, y) <==> HasEdge(g, nodes, true, [b], x, y)
  {
    forall k: nat | k < |f.layout[b]|
      ensures OrderedPair(f, f.layout[b], x, y, k) <==> OrderedPair(g, g.layout[b], x, y, k)
    {
    }
    assert OrderEdge(f, nodes, b, x, y) <==> OrderEdge(g, nodes, b, x, y);
    assert b in [b];
  }

  lemma ScheduledForOriginal(f: Func, g: Func, o: Options, live: set<Ref>, b: nat, d: Deps, delay: seq<nat>,
                             cp: seq<nat>, schedule: seq<nat>)
    requires LocallyRescheduled(f, g) && WellFormed(f) && b < |f.layout| && g.layout[b] == f.layout[b]
    requires BlockScheduledBy(g, o, live, b, d, delay, cp, schedule)
    ensures IsBlockSchedule(f, o, live, b, schedule)
  {
    SameHomes(f, g);
    SameGraph(f, g, b, d);
    SameListSchedule(f, g, d, schedule);
    SameGreedy(f, g, d, o, cp, live, schedule);
    assert BlockScheduledBy(f, o, live, b, d, delay, cp, schedule);
  }

  // ----- The loop over the blocks -----

  /** One block: build its graph, compute critical paths, list-schedule, reorder in place. */
  method ScheduleBlock(fn: FunctionBody, o: Options, liveIn: seq<set<Ref>>, b: nat, statsOn: bool, peak: nat,
                       ghost f: Func, ghost schedules: seq<seq<nat>>)
    returns (peak': nat, ghost schedules': seq<seq<nat>>)
    requires WellFormed(f) && LocallyRescheduled(f, fn.AsFunc()) && b < |f.layout|
    requires BlocksDone(f, fn.AsFunc(), o, liveIn, schedules, b)
    requires PeakRight(peak, statsOn, f, o, liveIn, schedules)
    modifies fn
    ensures LocallyRescheduled(f, fn.AsFunc())
    ensures BlocksDone(f, fn.AsFunc(), o, liveIn, schedules', b + 1)
    ensures PeakRight(peak', statsOn, f, o, liveIn, schedules')
  {
    var schedule;
    ghost var d;
    ghost var g := fn.AsFunc();
    schedule, d, peak' := ListScheduleBlock(fn.AsFunc(), o, liveIn[b], b, statsOn, peak, f);
    schedules' := schedules + [schedule];
    RescheduleBlock(f, g, d, schedule, b);
    OneMoreSchedule(f, o, liveIn, schedules, schedule);
    OneMoreReordered(f, g, schedules, schedule);
    PeakNext(f, o, liveIn, schedules, schedule, statsOn, peak, peak');
    ReorderBlockWithinRegions(fn, schedule, b);
  }

  method ListScheduleBlock(g: Func, o: Options, live: set<Ref>, b: nat, statsOn: bool, peak: nat, ghost f: Func)
    returns (schedule: seq<nat>, ghost d: Deps, peak': nat)
    requires LocallyRescheduled(f, g) && WellFormed(f) && b < |f.layout| && g.layout[b] == f.layout[b]
    ensures IsGraphOf(g, true, [b], d) && IsListSchedule(g, d, schedule) && IsBlockSchedule(f, o, live, b, schedule)
    ensures PeakAfter(statsOn, LiveCounts(f, o, live, schedule), peak, peak')
  {
    var ddg := BuildGraph(g, true, [b]);
    ComputeCriticalPath(ddg);
    var after;
    schedule, after, peak' := ListSchedule(ddg, g, o, live, statsOn, peak);
    d := ddg.AsDeps();
    ScheduledForOriginal(f, g, o, live, b, d, ddg.delay, ddg.criticalPath, schedule);
    SameHomes(f, g);
    SameCounts(f, g, o, live, schedule);
  }

  /** localSchedulerPass::run: every block is sorted within its regions by a greedy list schedule of its own graph, and
      SSA validity, every run in every world, whatever must not move and every block's instructions are kept. */
  method LocalSchedulerPass(fn: FunctionBody, argCount: nat, statsOn: bool)
    returns (peak: nat, ghost o: Options, ghost liveIn: seq<set<Ref>>, ghost schedules: seq<seq<nat>>)
    requires Valid(fn.AsFunc())
    modifies fn
    ensures LocallyRescheduled(old(fn.AsFunc()), fn.AsFunc())
    ensures forall v :: v in o.universe <==> Tracked(old(fn.AsFunc()), argCount, v)
    ensures LiveSetsExact(old(fn.AsFunc()), o.universe, liveIn, o.liveOut) && o.useRegPressure
    ensures BlocksDone(old(fn.AsFunc()), fn.AsFunc(), o, liveIn, schedules, |old(fn.layout)|)
    ensures PeakRight(peak, statsOn, old(fn.AsFunc()), o, liveIn, schedules)
  {
    ghost var f := fn.AsFunc();
    var universe := Universe(fn.AsFunc(), argCount);
    var live := ComputeLiveness(fn.AsFunc(), universe);
    LiveSetsAre(f, universe, live);
    var options := Options(universe, LiveOuts(live), true);
    o, liveIn := options, LiveIns(live);
    peak, schedules := 0, [];
    for b := 0 to |fn.layout|
      invariant LocallyRescheduled(f, fn.AsFunc())
      invariant BlocksDone(f, fn.AsFunc(), o, liveIn, schedules, b)
      invariant PeakRight(peak, statsOn, f, o, liveIn, schedules)
    {
      peak, schedules := ScheduleBlock(fn, options, LiveIns(live), b, statsOn, peak, f, schedules);
    }
  }
}
