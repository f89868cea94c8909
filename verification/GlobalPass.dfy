/** The global pass (src/schedulerPass.cpp). */
module GlobalPasses {
  import opened Graphs
  import opened Ir
  import opened FunctionBodies
  import opened Ddgs
  import opened BuildDdg
  import opened CriticalPaths
  import opened ListScheduler
  import opened Dependence
  import opened BreadthFirst
  import opened HoistTurns
  import opened ApplySchedule
  import opened GlobalRewrites
  import opened GlobalResults
  import Liveness
  import Dominators
  import Traces

  // ----- The dependence graphs -----

  /** ddg is the dependence graph of the trace, with its latencies. */
  ghost predicate IsTraceGraph(f: Func, trace: seq<nat>, ddg: Ddg)
    reads ddg
  {
    ddg.Valid() && IsGraphOf(f, false, trace, ddg.AsDeps()) && DelaysRight(f, ddg.nodes, ddg.delay)
  }

  ghost predicate IsSolvedGraph(f: Func, trace: seq<nat>, ddg: Ddg)
    reads ddg
  {
    IsTraceGraph(f, trace, ddg) && Solved(ddg.AsDeps(), ddg.delay, ddg.criticalPath)
  }

  ghost predicate Distinct(ddgs: seq<Ddg>) {
    forall j, k :: 0 <= j < k < |ddgs| ==> ddgs[j] != ddgs[k]
  }

  /** The graphs of the traces from n on are as built, with their critical paths. */
  ghost predicate Waiting(f: Func, formed: seq<Traces.Formed>, ddgs: seq<Ddg>, n: nat)
    reads ddgs
  {
    |ddgs| == |formed| && forall k :: n <= k < |ddgs| ==> IsSolvedGraph(f, formed[k].blocks, ddgs[k])
  }

  /** One dependence graph per trace, of the function as it is before any movement. */
  method BuildGraphs(f: Func, formed: seq<Traces.Formed>) returns (ddgs: seq<Ddg>)
    requires forall k :: 0 <= k < |formed| ==> Buildable(f, formed[k].blocks)
    ensures Distinct(ddgs) && forall k :: 0 <= k < |ddgs| ==> fresh(ddgs[k])
    ensures |ddgs| == |formed| && forall k :: 0 <= k < |ddgs| ==> IsTraceGraph(f, formed[k].blocks, ddgs[k])
  {
    ddgs := [];
    for n := 0 to |formed|
      invariant |ddgs| == n && Distinct(ddgs)
      invariant forall k :: 0 <= k < n ==> fresh(ddgs[k])
      invariant forall k :: 0 <= k < n ==> IsTraceGraph(f, formed[k].blocks, ddgs[k])
    {
      var d := BuildGraph(f, false, formed[n].blocks);
      ddgs := ddgs + [d];
    }
  }

  method SolveGraph(ghost f: Func, ghost trace: seq<nat>, ddg: Ddg)
    requires IsTraceGraph(f, trace, ddg)
    modifies ddg
    ensures IsSolvedGraph(f, trace, ddg)
  {
    ComputeCriticalPath(ddg);
  }

  method ComputeCriticalPaths(ghost f: Func, ghost formed: seq<Traces.Formed>, ddgs: seq<Ddg>)
    requires Distinct(ddgs)
    requires |ddgs| == |formed| && forall k :: 0 <= k < |ddgs| ==> IsTraceGraph(f, formed[k].blocks, ddgs[k])
    modifies ddgs
    ensures Waiting(f, formed, ddgs, 0)
  {
    for n := 0 to |ddgs|
      invariant forall k :: 0 <= k < |ddgs| ==> if k < n then IsSolvedGraph(f, formed[k].blocks, ddgs[k])
                                                else IsTraceGraph(f, formed[k].blocks, ddgs[k])
    {
      label Before:
      SolveGraph(f, formed[n].blocks, ddgs[n]);
      assert forall k :: 0 <= k < |ddgs| && k != n ==> unchanged@Before(ddgs[k]);
    }
  }

  // ----- One trace -----

  lemma ScheduleForTrace(f: Func, g: Func, ctx: Context, liveIn: seq<set<Ref>>, d: Deps, delay: seq<nat>, cp: seq<nat>,
                         schedule: seq<nat>)
    requires Valid(f) && SameCode(f, g) && ReachableBlocks(f, ctx.trace) && IsGraphOf(f, false, ctx.trace, d)
    requires DelaysRight(f, d.nodes, delay) && Solved(d, delay, cp)
    requires IsListSchedule(g, d, schedule) && NonIncreasing(cp, schedule)
    requires IsGreedy(g, d, ctx.options, cp, EntryLive(ctx.trace, liveIn), schedule)
    ensures IsTraceSchedule(f, g, ctx, liveIn, schedule)
  {
    SameListSchedule(f, g, d, schedule);
    assert ScheduledBy(f, g, ctx, liveIn, d, delay, cp, schedule);
    TraceScheduleIsComplete(f, ctx.trace, d, schedule);
  }

  /** List-schedules one trace and applies the schedule. */
  method ScheduleTrace(fn: FunctionBody, ctx: Context, ddg: Ddg, liveIn: seq<set<Ref>>, statsOn: bool,
                       stats: HoistStats, peak: nat, ghost f: Func)
    returns (ghost schedule: seq<nat>, peak': nat)
    requires Valid(f) && Valid(fn.AsFunc()) && SameCode(f, fn.AsFunc()) && ContextOk(ctx, f)
    requires |ctx.trace| > 0 && |liveIn| == |f.layout|
    requires forall b :: b in ctx.trace ==> fn.layout[b] == f.layout[b]
    requires IsSolvedGraph(f, ctx.trace, ddg)
    modifies fn, stats, ddg`predCount
    ensures IsTraceSchedule(f, old(fn.AsFunc()), ctx, liveIn, schedule)
    ensures fn.AsFunc() == Applied(ctx, old(fn.AsFunc()), schedule, liveIn).f
    ensures PeakAfter(statsOn, LiveCounts(old(fn.AsFunc()), ctx.options, EntryLive(ctx.trace, liveIn), schedule),
                      peak, peak')
    ensures stats.AsTally() ==
              if statsOn then AppliedTally(ctx, old(fn.AsFunc()), schedule, liveIn, old(stats.AsTally()))
              else old(stats.AsTally())
  {
    var order, live;
    assert ctx.trace[0] in ctx.trace;
    order, live, peak' := ListSchedule(ddg, fn.AsFunc(), ctx.options, liveIn[ctx.trace[0]], statsOn, peak);
    schedule := order;
    ghost var g := fn.AsFunc();
    ScheduleForTrace(f, g, ctx, liveIn, ddg.AsDeps(), ddg.delay, ddg.criticalPath, order);
    ScheduleStillFits(f, g, ctx, liveIn, order);
    ApplySchedule.ApplySchedule(fn, ctx, order, liveIn, statsOn, stats);
  }

  lemma ContextForTrace(t: Target, f: Func, a: Analyses, x: Traces.Input, formed: seq<Traces.Formed>, k: nat)
    requires WellFormed(f) && Traces.InputOk(x) && x.g == f.succ && Traces.TracesOk(x, {}, formed) && k < |formed|
    requires DominatorsRight(f, a)
    ensures ContextOk(ContextFor(t, a, formed[k].blocks), f)
    ensures ReachableBlocks(f, formed[k].blocks) && |formed[k].blocks| > 0
  {
    assert Traces.TraceOk(x, formed[k]);
    forall b | b in formed[k].blocks
      ensures b < |f.layout| && Reachable(f.succ, b)
    {
      ReachableInRange(f.succ, b);
    }
    forall d: nat, b: nat | Reachable(f.succ, b)
      ensures Dominators.DomTest(a.info, d, b) <==> Dominates(f.succ, d, b)
    {
      Dominators.DomTestIsDominance(f.succ, a.info, d, b);
    }
  }

  lemma TracesReady(t: Target, f: Func, a: Analyses, x: Traces.Input, formed: seq<Traces.Formed>)
    requires Valid(f) && Traces.InputOk(x) && x.g == f.succ && formed == Traces.NaiveTraces(x, {})
    requires DominatorsRight(f, a) && |a.liveIn| == |f.layout|
    ensures ReadyToSchedule(f, t, a, formed)
    ensures forall k :: 0 <= k < |formed| ==> Buildable(f, formed[k].blocks)
  {
    Traces.NaiveTracesOk(x, {});
    forall k | 0 <= k < |formed|
      ensures ContextOk(ContextFor(t, a, formed[k].blocks), f) && |formed[k].blocks| > 0
      ensures Buildable(f, formed[k].blocks)
    {
      ContextForTrace(t, f, a, x, formed, k);
    }
  }

  // ----- The loop over the traces -----

  /** The statistics the pass holds; untouched when they are off. */
  ghost predicate TallyRight(stats: HoistStats, statsOn: bool, t: Target, a: Analyses, formed: seq<Traces.Formed>,
                             schedules: seq<seq<nat>>, f: Func)
    requires |schedules| <= |formed|
    reads stats
  {
    stats.AsTally() == if statsOn then TallyAfter(t, a, formed, schedules, f) else Tally(0, 0, 0, 0, 0, 0, 0)
  }

  lemma TallyNext(t: Target, a: Analyses, formed: seq<Traces.Formed>, schedules: seq<seq<nat>>, schedule: seq<nat>,
                  f: Func, g: Func)
    requires |schedules| < |formed| && g == Rewritten(t, a, formed, schedules, f)
    ensures TallyAfter(t, a, formed, schedules + [schedule], f)
         == AppliedTally(ContextFor(t, a, formed[|schedules|].blocks), g, schedule, a.liveIn,
                         TallyAfter(t, a, formed, schedules, f))
  {
    assert (schedules + [schedule])[..|schedules|] == schedules;
  }

  /** One iteration: trace n is scheduled, the graphs of the later ones stay as they were. */
  method ScheduleNext(fn: FunctionBody, t: Target, a: Analyses, formed: seq<Traces.Formed>, ddgs: seq<Ddg>, n: nat,
                      statsOn: bool, stats: HoistStats, peak: nat, ghost f: Func, ghost schedules: seq<seq<nat>>)
    returns (ghost schedule: seq<nat>, peak': nat)
    requires ReadyToSchedule(f, t, a, formed) && Distinct(ddgs)
    requires n < |ddgs| && Waiting(f, formed, ddgs, n)
    requires |schedules| == n && SchedulesRight(t, a, f, formed, schedules)
    requires fn.AsFunc() == Rewritten(t, a, formed, schedules, f)
    modifies fn, stats, ddgs[n]
    ensures Waiting(f, formed, ddgs, n + 1)
    ensures var ctx, g := ContextFor(t, a, formed[n].blocks), old(fn.AsFunc());
      && IsTraceSchedule(f, g, ctx, a.liveIn, schedule)
      && fn.AsFunc() == Applied(ctx, g, schedule, a.liveIn).f
      && PeakAfter(statsOn, LiveCounts(g, a.options, EntryLive(formed[n].blocks, a.liveIn), schedule), peak, peak')
      && stats.AsTally() ==
           if statsOn then AppliedTally(ctx, g, schedule, a.liveIn, old(stats.AsTally())) else old(stats.AsTally())
  {
    NextIsLegal(t, a, f, formed, schedules);
    schedule, peak' :=
      ScheduleTrace(fn, ContextFor(t, a, formed[n].blocks), ddgs[n], a.liveIn, statsOn, stats, peak, f);
  }

  method ScheduleTraces(fn: FunctionBody, t: Target, a: Analyses, formed: seq<Traces.Formed>, ddgs: seq<Ddg>,
                        statsOn: bool)
    returns (stats: HoistStats, peak: nat, ghost schedules: seq<seq<nat>>)
    requires ReadyToSchedule(fn.AsFunc(), t, a, formed)
    requires Distinct(ddgs) && Waiting(fn.AsFunc(), formed, ddgs, 0)
    modifies fn, ddgs
    ensures |schedules| == |formed| && SchedulesRight(t, a, old(fn.AsFunc()), formed, schedules)
    ensures fn.AsFunc() == Rewritten(t, a, formed, schedules, old(fn.AsFunc()))
    ensures TallyRight(stats, statsOn, t, a, formed, schedules, old(fn.AsFunc()))
    ensures PeakRight(peak, statsOn, t, a, formed, schedules, old(fn.AsFunc()))
  {
    ghost var f := fn.AsFunc();
    stats := new HoistStats();
    peak := 0;
    schedules := [];
    for n := 0 to |ddgs|
      invariant |schedules| == n && SchedulesRight(t, a, f, formed, schedules)
      invariant fn.AsFunc() == Rewritten(t, a, formed, schedules, f)
      invariant TallyRight(stats, statsOn, t, a, formed, schedules, f)
      invariant PeakRight(peak, statsOn, t, a, formed, schedules, f)
      invariant Waiting(f, formed, ddgs, n) && fresh(stats)
    {
      ghost var g, schedule := fn.AsFunc(), [];
      var before := peak;
      schedule, peak := ScheduleNext(fn, t, a, formed, ddgs, n, statsOn, stats, peak, f, schedules);
      TallyNext(t, a, formed, schedules, schedule, f, g);
      PeakNext(before, peak, statsOn, t, a, formed, schedules, schedule, f, g);
      OneMoreSchedule(t, a, f, g, formed, schedules, schedule);
      schedules := schedules + [schedule];
    }
  }

  /** All graphs are built before the first instruction moves. */
  method ScheduleFormed(fn: FunctionBody, t: Target, a: Analyses, formed: seq<Traces.Formed>, statsOn: bool)
    returns (stats: HoistStats, peak: nat, ghost schedules: seq<seq<nat>>)
    requires ReadyToSchedule(fn.AsFunc(), t, a, formed)
    requires forall k :: 0 <= k < |formed| ==> Buildable(fn.AsFunc(), formed[k].blocks)
    modifies fn
    ensures |schedules| == |formed| && SchedulesRight(t, a, old(fn.AsFunc()), formed, schedules)
    ensures fn.AsFunc() == Rewritten(t, a, formed, schedules, old(fn.AsFunc()))
    ensures TallyRight(stats, statsOn, t, a, formed, schedules, old(fn.AsFunc()))
    ensures PeakRight(peak, statsOn, t, a, formed, schedules, old(fn.AsFunc()))
  {
    var ddgs := BuildGraphs(fn.AsFunc(), formed);
    ComputeCriticalPaths(fn.AsFunc(), formed, ddgs);
    stats, peak, schedules := ScheduleTraces(fn, t, a, formed, ddgs, statsOn);
  }

  method Analyse(f: Func, pred: Graph, argCount: nat, usePressure: bool) returns (a: Analyses)
    requires WellFormed(f) && Dominators.Mirror(f.succ, pred)
    ensures DominatorsRight(f, a) && LivenessRight(f, argCount, usePressure, a) && |a.liveIn| == |f.layout|
  {
    var universe := Liveness.Universe(f, argCount);
    var st := Liveness.ComputeLiveness(f, universe);
    var info := Dominators.ComputeDominators(f.succ, pred);
    Liveness.LiveSetsAre(f, universe, st);
    a := Analyses(info, Options(universe, Liveness.LiveOuts(st), usePressure), Liveness.LiveIns(st));
  }

  /** globalSchedulerPass::run. The result is the original with every trace rewritten, in order, under its schedule.
      SSA validity is kept; every run keeps its block path, events, memory and outcome in every world where the
      speculation test is sound; what must not move stays; every scheduled instruction is in the first block of its
      trace that was legal for it at its turn; live values stay bounded by the budget; every trace got a complete greedy
      schedule; and the hoist statistics balance and count what happened. */
  method GlobalSchedulerPass(fn: FunctionBody, pred: Graph, argCount: nat, profile: Traces.Profile, t: Target,
                             statsOn: bool)
    returns (stats: HoistStats, peak: nat, ghost x: Traces.Input, ghost a: Analyses, ghost schedules: seq<seq<nat>>)
    requires Valid(fn.AsFunc()) && Dominators.Mirror(fn.succ, pred)
    modifies fn
    ensures Traces.InputOk(x) && x.g == fn.succ && x.pred == pred && x.profile == profile
    ensures IsBfsOrder(fn.succ, x.order) && InOrderMet(fn.succ, x.order)
    ensures DominatorsRight(old(fn.AsFunc()), a) && LivenessRight(old(fn.AsFunc()), argCount, t.usePressure, a)
    ensures |schedules| == |Traces.NaiveTraces(x, {})|
    ensures SchedulesRight(t, a, old(fn.AsFunc()), Traces.NaiveTraces(x, {}), schedules)
    ensures fn.AsFunc() == Rewritten(t, a, Traces.NaiveTraces(x, {}), schedules, old(fn.AsFunc()))
    ensures GloballyRescheduled(t.safe, t.loops, old(fn.AsFunc()), fn.AsFunc())
    ensures EndsAsPromised(t, a, old(fn.AsFunc()), Traces.NaiveTraces(x, {}), schedules, fn.AsFunc())
    ensures TallyRight(stats, statsOn, t, a, Traces.NaiveTraces(x, {}), schedules, old(fn.AsFunc()))
    ensures PeakRight(peak, statsOn, t, a, Traces.NaiveTraces(x, {}), schedules, old(fn.AsFunc()))
    ensures Balanced(stats.AsTally())
    ensures statsOn ==>
              CountsWhatHappened(stats.AsTally(), old(fn.AsFunc()), Traces.NaiveTraces(x, {}), fn.AsFunc())
  {
    var input, formed := Traces.IdentifyTraces(fn.succ, pred, profile);
    x := input;
    var analyses := Analyse(fn.AsFunc(), pred, argCount, t.usePressure);
    a := analyses;
    TracesReady(t, fn.AsFunc(), a, x, formed);
    ghost var f := fn.AsFunc();
    stats, peak, schedules := ScheduleFormed(fn, t, analyses, formed, statsOn);
    RewrittenKeeps(t, a, f, formed, schedules);
    RewrittenEndsAsPromised(t, a, f, formed, schedules);
    TallyAfterBalances(t, a, formed, schedules, f);
    TallyCounts(t, a, f, formed, schedules);
  }
}
