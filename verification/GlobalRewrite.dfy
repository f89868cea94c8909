/** What the global pass makes of a function: its traces, one after another, rewritten under their schedules
    (src/schedulerPass.cpp). */
module GlobalRewrites {
  import opened Graphs
  import opened Ir
  import opened Ddgs
  import opened BuildDdg
  import opened CriticalPaths
  import opened ListScheduler
  import opened Dependence
  import opened Regions
  import opened BreadthFirst
  import opened HoistTurns
  import opened ApplySchedule
  import Liveness
  import Dominators
  import Traces

  // ----- What the pass keeps -----

  /** What any number of traces keep: validity, every run where the speculation test is sound, the anchors of every
      block in order, and every instruction, in its own block or in one of the same loop that strictly dominates it and
      is no loop header. */
  ghost predicate GloballyRescheduled(safe: (Func, nat, nat) -> bool, loops: Loops, f: Func, g: Func) {
    && KeepsMeaningIfSafe(safe, f, g)
    && (forall b :: 0 <= b < |f.layout| ==> Anchors(f.info, g.layout[b]) == Anchors(f.info, f.layout[b]))
    && forall i: nat :: StaysOrRises(loops, f, g, i)
  }

  ghost predicate StaysOrRises(loops: Loops, f: Func, g: Func, i: nat) {
    && (Placed(g, i) <==> Placed(f, i))
    && (Home(g, i) == Home(f, i)
        || (&& !IsFixed(f.info, i) && Reachable(f.succ, Home(f, i))
            && StrictlyDominates(f.succ, Home(g, i), Home(f, i)) && StaysInLoop(loops, Home(f, i), Home(g, i))))
  }

  lemma RisesTransitive(loops: Loops, f: Func, g: Func, h: Func, i: nat)
    requires SameCode(f, g) && StaysOrRises(loops, f, g, i) && StaysOrRises(loops, g, h, i)
    ensures StaysOrRises(loops, f, h, i)
  {
    if Home(g, i) != Home(f, i) && Home(h, i) != Home(g, i) {
      StrictlyDominatesTransitive(f.succ, Home(h, i), Home(g, i), Home(f, i));
    }
  }

  /** One more trace. */
  lemma RescheduleTrace(ctx: Context, f: Func, g: Func, schedule: seq<nat>, liveIn: seq<set<Ref>>)
    requires GloballyRescheduled(ctx.safe, ctx.loops, f, g)
    requires ContextOk(ctx, g) && Fits(g, schedule, ctx.trace)
    ensures GloballyRescheduled(ctx.safe, ctx.loops, f, Applied(ctx, g, schedule, liveIn).f)
    ensures forall b :: 0 <= b < |f.layout| && b !in ctx.trace ==>
              Applied(ctx, g, schedule, liveIn).f.layout[b] == g.layout[b]
  {
    var h := Applied(ctx, g, schedule, liveIn).f;
    AppliedKeepsMeaning(ctx, g, schedule, liveIn);
    SafeMeaningTransitive(ctx.safe, f, g, h);
    forall b | 0 <= b < |f.layout|
      ensures Anchors(f.info, h.layout[b]) == Anchors(f.info, f.layout[b])
      ensures b !in ctx.trace ==> h.layout[b] == g.layout[b]
    {
      AppliedFixesAnchors(ctx, g, schedule, liveIn, b);
    }
    forall i: nat
      ensures StaysOrRises(ctx.loops, f, h, i)
    {
      AppliedPlaces(ctx, g, schedule, liveIn, i);
      RisesTransitive(ctx.loops, f, g, h, i);
    }
  }

  // ----- The inputs of the pass -----

  /** What the pass gets from the analyses it does not compute: the loop nest, the speculation test, the pressure
      budget, and whether pressure is used. */
  datatype Target = Target(
    loops: Loops,
    safe: (Func, nat, nat) -> bool,
    budget: int,
    usePressure: bool)

  /** What it computes before any instruction moves. */
  datatype Analyses = Analyses(info: Dominators.DomInfo, options: Options, liveIn: seq<set<Ref>>)

  function ContextFor(t: Target, a: Analyses, trace: seq<nat>): Context {
    Context(trace, (d: nat, b: nat) => Dominators.DomTest(a.info, d, b), t.loops, t.safe, a.options,
            t.budget)
  }

  ghost predicate DominatorsRight(f: Func, a: Analyses) {
    && IsBfsOrder(f.succ, a.info.order) && IsIndexOf(a.info.order, a.info.idx)
    && Dominators.SetsFor(a.info.order, a.info.dom) && Dominators.DomSetsExact(f.succ, a.info.order, a.info.dom)
  }

  ghost predicate LivenessRight(f: Func, argCount: nat, usePressure: bool, a: Analyses) {
    && (forall v :: v in a.options.universe <==> Liveness.Tracked(f, argCount, v))
    && Liveness.LiveSetsExact(f, a.options.universe, a.liveIn, a.options.liveOut)
    && a.options.useRegPressure == usePressure
  }

  // ----- What the pass does -----

  /** The function after its first traces have been rewritten under their schedules. */
  function Rewritten(t: Target, a: Analyses, formed: seq<Traces.Formed>, schedules: seq<seq<nat>>, f: Func): Func
    requires |schedules| <= |formed|
  {
    if schedules == [] then f
    else
      var n := |schedules| - 1;
      Applied(ContextFor(t, a, formed[n].blocks), Rewritten(t, a, formed, schedules[..n], f), schedules[n], a.liveIn).f
  }

  function TallyAfter(t: Target, a: Analyses, formed: seq<Traces.Formed>, schedules: seq<seq<nat>>, f: Func): Tally
    requires |schedules| <= |formed|
  {
    if schedules == [] then Tally(0, 0, 0, 0, 0, 0, 0)
    else
      var n := |schedules| - 1;
      AppliedTally(ContextFor(t, a, formed[n].blocks), Rewritten(t, a, formed, schedules[..n], f), schedules[n],
                   a.liveIn, TallyAfter(t, a, formed, schedules[..n], f))
  }

  /** c is the live count after some number of emissions of trace k. */
  ghost predicate SeenIn(t: Target, a: Analyses, formed: seq<Traces.Formed>, schedules: seq<seq<nat>>, f: Func, k: nat,
                         c: nat)
    requires k < |schedules| <= |formed|
  {
    c in LiveCounts(Rewritten(t, a, formed, schedules[..k], f), a.options, EntryLive(formed[k].blocks, a.liveIn),
                    schedules[k])
  }

  /** The largest live count seen while list-scheduling the first traces; 0 when statistics are off. */
  ghost predicate PeakRight(peak: nat, statsOn: bool, t: Target, a: Analyses, formed: seq<Traces.Formed>,
                            schedules: seq<seq<nat>>, f: Func)
    requires |schedules| <= |formed|
  {
    if statsOn then
      && (forall k: nat, c: nat :: k < |schedules| && SeenIn(t, a, formed, schedules, f, k, c) ==> c <= peak)
      && (peak == 0 || exists k :: 0 <= k < |schedules| && SeenIn(t, a, formed, schedules, f, k, peak))
    else peak == 0
  }

  lemma SeenInBefore(t: Target, a: Analyses, formed: seq<Traces.Formed>, schedules: seq<seq<nat>>, schedule: seq<nat>,
                     f: Func, k: nat, c: nat)
    requires k < |schedules| < |formed|
    ensures SeenIn(t, a, formed, schedules + [schedule], f, k, c) <==> SeenIn(t, a, formed, schedules, f, k, c)
  {
    assert (schedules + [schedule])[..k] == schedules[..k] && (schedules + [schedule])[k] == schedules[k];
  }

  lemma SeenInLast(t: Target, a: Analyses, formed: seq<Traces.Formed>, schedules: seq<seq<nat>>, schedule: seq<nat>,
                   f: Func, c: nat)
    requires |schedules| < |formed|
    ensures SeenIn(t, a, formed, schedules + [schedule], f, |schedules|, c) <==>
              c in LiveCounts(Rewritten(t, a, formed, schedules, f), a.options,
                              EntryLive(formed[|schedules|].blocks, a.liveIn), schedule)
  {
    assert (schedules + [schedule])[..|schedules|] == schedules;
  }

  lemma PeakNext(peak: nat, peak': nat, statsOn: bool, t: Target, a: Analyses, formed: seq<Traces.Formed>,
                 schedules: seq<seq<nat>>, schedule: seq<nat>, f: Func, g: Func)
    requires |schedules| < |formed| && PeakRight(peak, statsOn, t, a, formed, schedules, f)
    requires g == Rewritten(t, a, formed, schedules, f)
    requires var live := EntryLive(formed[|schedules|].blocks, a.liveIn);
      PeakAfter(statsOn, LiveCounts(g, a.options, live, schedule), peak, peak')
    ensures PeakRight(peak', statsOn, t, a, formed, schedules + [schedule], f)
  {
    if statsOn {
      forall k, c: nat | 0 <= k < |schedules|
        ensures SeenIn(t, a, formed, schedules + [schedule], f, k, c) <==> SeenIn(t, a, formed, schedules, f, k, c)
      {
        SeenInBefore(t, a, formed, schedules, schedule, f, k, c);
      }
      forall c: nat {
        SeenInLast(t, a, formed, schedules, schedule, f, c);
      }
    }
  }

  /** Over any number of traces the hoist accounting balances. */
  lemma {:induction false} TallyAfterBalances(t: Target, a: Analyses, formed: seq<Traces.Formed>,
                                              schedules: seq<seq<nat>>, f: Func)
    requires |schedules| <= |formed|
    ensures Balanced(TallyAfter(t, a, formed, schedules, f))
  {
    if schedules != [] {
      var n := |schedules| - 1;
      TallyAfterBalances(t, a, formed, schedules[..n], f);
      var ctx, g := ContextFor(t, a, formed[n].blocks), Rewritten(t, a, formed, schedules[..n], f);
      RunTallyBalances(ctx, Snapshot(Phase1(g, schedules[n], ctx.trace), StartLive(ctx.trace, a.liveIn)), schedules[n],
                       TallyAfter(t, a, formed, schedules[..n], f));
    }
  }

  /** A schedule of one trace of f, made when the function had become g: a complete list schedule of the trace's
      dependence graph that holds every instruction but PHIs and terminators, longest critical path first, greedy with
      the pressure tie-break from the live-in set of the trace's first block. */
  ghost predicate IsTraceSchedule(f: Func, g: Func, ctx: Context, liveIn: seq<set<Ref>>, schedule: seq<nat>) {
    && NoDup(schedule)
    && (forall n: nat :: n in schedule <==> InBlocks(f, ctx.trace, n) && IsOrdinary(f, n))
    && exists d: Deps, delay: seq<nat>, cp: seq<nat> :: ScheduledBy(f, g, ctx, liveIn, d, delay, cp, schedule)
  }

  ghost predicate ScheduledBy(f: Func, g: Func, ctx: Context, liveIn: seq<set<Ref>>, d: Deps, delay: seq<nat>,
                              cp: seq<nat>, schedule: seq<nat>) {
    && IsGraphOf(f, false, ctx.trace, d) && DelaysRight(f, d.nodes, delay) && Solved(d, delay, cp)
    && IsListSchedule(f, d, schedule) && NonIncreasing(cp, schedule)
    && IsGreedy(g, d, ctx.options, cp, EntryLive(ctx.trace, liveIn), schedule)
  }

  function EntryLive(trace: seq<nat>, liveIn: seq<set<Ref>>): set<Ref> {
    if trace != [] && trace[0] < |liveIn| then liveIn[trace[0]] else {}
  }

  /** List scheduling starts from exactly the values live on entry to the trace, by paths. */
  lemma EntryLiveIsExact(f: Func, argCount: nat, usePressure: bool, a: Analyses, trace: seq<nat>, v: Ref)
    requires LivenessRight(f, argCount, usePressure, a) && trace != [] && trace[0] < |f.layout|
    ensures v in EntryLive(trace, a.liveIn) <==> Liveness.LiveIn(f, v, a.options.universe, trace[0])
  {
  }

  /** Each trace got such a schedule, of f, when the function had become what the schedules before made of it. */
  ghost predicate SchedulesRight(t: Target, a: Analyses, f: Func, formed: seq<Traces.Formed>,
                                 schedules: seq<seq<nat>>) {
    && |schedules| <= |formed|
    && (schedules != [] ==>
          var n := |schedules| - 1;
          && SchedulesRight(t, a, f, formed, schedules[..n])
          && IsTraceSchedule(f, Rewritten(t, a, formed, schedules[..n], f), ContextFor(t, a, formed[n].blocks),
                             a.liveIn, schedules[n]))
  }

  // ----- One trace after another -----

  /** A schedule made for a trace of f is still legal when only other blocks have changed. */
  lemma ScheduleStillFits(f: Func, g: Func, ctx: Context, liveIn: seq<set<Ref>>, schedule: seq<nat>)
    requires Buildable(f, ctx.trace) && SameCode(f, g) && IsTraceSchedule(f, g, ctx, liveIn, schedule)
    requires forall b :: b in ctx.trace && b < |f.layout| ==> g.layout[b] == f.layout[b]
    ensures Fits(g, schedule, ctx.trace)
  {
    var d: Deps, delay: seq<nat>, cp: seq<nat> :| ScheduledBy(f, g, ctx, liveIn, d, delay, cp, schedule);
    forall b | b in ctx.trace && b < |f.layout|
      ensures RespectsBlock(g, schedule, g.layout[b])
    {
      ScheduleRespectsBlock(f, false, ctx.trace, d, schedule, b);
      forall k: nat, o: nat | k < |schedule| && DependsInside(g, g.layout[b], schedule[k], o)
        ensures o in schedule[..k]
      {
        assert DependsInside(f, f.layout[b], schedule[k], o);
      }
    }
  }

  /** Traces not yet processed still have their original code. */
  ghost predicate Untouched(f: Func, g: Func, formed: seq<Traces.Formed>, from: nat) {
    |g.layout| == |f.layout| &&
    forall k, b :: from <= k < |formed| && b in formed[k].blocks && 0 <= b < |f.layout| ==> g.layout[b] == f.layout[b]
  }

  /** All traces may be scheduled: each has legal blocks, and no two share a block. */
  ghost predicate ReadyToSchedule(f: Func, t: Target, a: Analyses, formed: seq<Traces.Formed>) {
    && Valid(f) && |a.liveIn| == |f.layout|
    && Traces.PairwiseDisjoint(formed)
    && forall k :: 0 <= k < |formed| ==>
         ContextOk(ContextFor(t, a, formed[k].blocks), f) && |formed[k].blocks| > 0
  }

  /** The main theorem about the rewritten function: whatever right schedules its traces got, it keeps everything the
      pass promises, and the traces that had no turn yet keep their code. */
  lemma {:induction false} RewrittenKeeps(t: Target, a: Analyses, f: Func, formed: seq<Traces.Formed>,
                                          schedules: seq<seq<nat>>)
    requires ReadyToSchedule(f, t, a, formed) && SchedulesRight(t, a, f, formed, schedules)
    ensures GloballyRescheduled(t.safe, t.loops, f, Rewritten(t, a, formed, schedules, f))
    ensures Untouched(f, Rewritten(t, a, formed, schedules, f), formed, |schedules|)
  {
    if schedules != [] {
      var n := |schedules| - 1;
      RewrittenKeeps(t, a, f, formed, schedules[..n]);
      RewriteOneMore(t, a, f, Rewritten(t, a, formed, schedules[..n], f), formed, n, schedules[n]);
    }
  }

  lemma RewriteOneMore(t: Target, a: Analyses, f: Func, g: Func, formed: seq<Traces.Formed>, n: nat, schedule: seq<nat>)
    requires ReadyToSchedule(f, t, a, formed) && n < |formed|
    requires GloballyRescheduled(t.safe, t.loops, f, g) && Untouched(f, g, formed, n)
    requires IsTraceSchedule(f, g, ContextFor(t, a, formed[n].blocks), a.liveIn, schedule)
    ensures var h := Applied(ContextFor(t, a, formed[n].blocks), g, schedule, a.liveIn).f;
      GloballyRescheduled(t.safe, t.loops, f, h) && Untouched(f, h, formed, n + 1)
  {
    var ctx := ContextFor(t, a, formed[n].blocks);
    ScheduleStillFits(f, g, ctx, a.liveIn, schedule);
    RescheduleTrace(ctx, f, g, schedule, a.liveIn);
    LaterTracesUntouched(f, g, Applied(ctx, g, schedule, a.liveIn).f, formed, n);
  }

  /** What the next iteration needs to know about the function so far. */
  lemma NextIsLegal(t: Target, a: Analyses, f: Func, formed: seq<Traces.Formed>, schedules: seq<seq<nat>>)
    requires ReadyToSchedule(f, t, a, formed) && SchedulesRight(t, a, f, formed, schedules)
    requires |schedules| < |formed|
    ensures var g := Rewritten(t, a, formed, schedules, f);
      && Valid(g) && SameCode(f, g)
      && forall b :: b in formed[|schedules|].blocks ==> b < |f.layout| && g.layout[b] == f.layout[b]
  {
    RewrittenKeeps(t, a, f, formed, schedules);
    assert ContextOk(ContextFor(t, a, formed[|schedules|].blocks), f);
  }

  lemma OneMoreSchedule(t: Target, a: Analyses, f: Func, g: Func, formed: seq<Traces.Formed>,
                        schedules: seq<seq<nat>>, schedule: seq<nat>)
    requires SchedulesRight(t, a, f, formed, schedules) && |schedules| < |formed|
    requires g == Rewritten(t, a, formed, schedules, f)
    requires IsTraceSchedule(f, g, ContextFor(t, a, formed[|schedules|].blocks), a.liveIn, schedule)
    ensures SchedulesRight(t, a, f, formed, schedules + [schedule])
    ensures Rewritten(t, a, formed, schedules + [schedule], f)
         == Applied(ContextFor(t, a, formed[|schedules|].blocks), g, schedule, a.liveIn).f
  {
    assert (schedules + [schedule])[..|schedules|] == schedules;
  }

  lemma LaterTracesUntouched(f: Func, g: Func, h: Func, formed: seq<Traces.Formed>, n: nat)
    requires Untouched(f, g, formed, n) && n < |formed| && Traces.PairwiseDisjoint(formed)
    requires |h.layout| == |g.layout|
    requires forall b :: 0 <= b < |f.layout| && b !in formed[n].blocks ==> h.layout[b] == g.layout[b]
    ensures Untouched(f, h, formed, n + 1)
  {
  }
}
