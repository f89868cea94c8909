/** What the global pass makes of a function, said in terms of the original, the result and what the pass was given:
    where every instruction ends, what code every block ends with, and how many values stay live
    (src/schedulerPass.cpp).
 */
module GlobalResults {
  import opened Ir
  import opened BuildDdg
  import opened HoistTurns
  import opened Placement
  import opened ApplySchedule
  import opened TraceResults
  import opened HoistAccounts
  import opened GlobalRewrites
  import Traces

  /** The traces may be scheduled, and the first of them have the right schedules. */
  ghost predicate Scheduled(t: Target, a: Analyses, f: Func, formed: seq<Traces.Formed>, schedules: seq<seq<nat>>) {
    ReadyToSchedule(f, t, a, formed) && SchedulesRight(t, a, f, formed, schedules)
  }

  /** The function when the j-th instruction of the k-th trace's schedule has its turn. */
  function NowAt(t: Target, a: Analyses, f: Func, formed: seq<Traces.Formed>, schedules: seq<seq<nat>>, k: nat, j: nat)
    : Func
    requires k < |schedules| <= |formed| && j <= |schedules[k]|
  {
    AtTurn(ContextFor(t, a, formed[k].blocks), Rewritten(t, a, formed, schedules[..k], f), schedules[k], a.liveIn, j)
  }

  /** Every scheduled instruction is in the first block of its trace that was legal for it at its turn. */
  ghost predicate AllPlacedEarliest(t: Target, a: Analyses, f: Func, formed: seq<Traces.Formed>,
                                    schedules: seq<seq<nat>>, g: Func)
    requires |schedules| <= |formed|
  {
    forall k, j :: 0 <= k < |schedules| && 0 <= j < |schedules[k]| ==>
      PlacedAtTurn(t, a, f, formed, schedules, k, j, Home(g, schedules[k][j]))
  }

  ghost predicate PlacedAtTurn(t: Target, a: Analyses, f: Func, formed: seq<Traces.Formed>, schedules: seq<seq<nat>>,
                               k: nat, j: nat, final: nat)
    requires k < |schedules| <= |formed| && j < |schedules[k]|
  {
    var trace, now := formed[k].blocks, NowAt(t, a, f, formed, schedules, k, j);
    PlacedEarliest(Rules(t.loops, t.safe, a.options, t.budget), trace,
                   LivesNow(a.options.universe, trace, a.liveIn, f, now), now, schedules[k][j], final)
  }

  /** Every block of a trace was sorted within its regions by the trace's schedule, then lost and gained what moved;
      every other block is as it was. */
  ghost predicate AllRewritten(f: Func, formed: seq<Traces.Formed>, schedules: seq<seq<nat>>, g: Func)
    requires |schedules| <= |formed|
  {
    && SameCode(f, g)
    && (forall k, b :: 0 <= k < |schedules| && b in formed[k].blocks && 0 <= b < |f.layout| ==>
          BlockRewritten(f.info, schedules[k], f.layout[b], g.layout[b]))
    && forall b :: 0 <= b < |f.layout| && (forall k :: 0 <= k < |schedules| ==> b !in formed[k].blocks) ==>
         g.layout[b] == f.layout[b]
  }

  /** No block's live values, with those hoisted into it, exceed the larger of what was live on entry and the budget
      plus the operand count of the widest instruction hoisted into it. */
  ghost predicate AllLiveBounded(budget: int, a: Analyses, f: Func, g: Func) {
    forall b: nat, width: nat :: b < |f.layout| && b < |a.liveIn| && HoistedAtMost(f, g, b, width) ==>
      LiveBounded(budget, a.options.universe, a.liveIn[b], f, g, b, width)
  }

  /** The instructions, but PHIs and terminators, that are not in the first block of their trace. */
  ghost function AllChances(f: Func, formed: seq<Traces.Formed>, n: nat): set<nat>
    requires n <= |formed|
  {
    set i | 0 <= i < |f.info| && !f.info[i].isPhi && !f.info[i].isTerminator && HasChance(f, formed, n, i)
  }

  ghost predicate HasChance(f: Func, formed: seq<Traces.Formed>, n: nat, i: nat)
    requires n <= |formed|
  {
    exists k :: 0 <= k < n && InLaterBlock(f, formed[k].blocks, i)
  }

  // ----- One trace among others -----

  lemma {:induction false} SchedulesBefore(t: Target, a: Analyses, f: Func, formed: seq<Traces.Formed>,
                                           schedules: seq<seq<nat>>, k: nat)
    requires SchedulesRight(t, a, f, formed, schedules) && k <= |schedules|
    ensures SchedulesRight(t, a, f, formed, schedules[..k])
  {
    if k == |schedules| {
      assert schedules[..k] == schedules;
    } else {
      SchedulesBefore(t, a, f, formed, schedules[..|schedules| - 1], k);
      assert schedules[..|schedules| - 1][..k] == schedules[..k];
    }
  }

  /** When its turn comes, trace k still has its original code and its schedule fits. */
  lemma TraceIsReady(t: Target, a: Analyses, f: Func, formed: seq<Traces.Formed>, schedules: seq<seq<nat>>, k: nat)
    requires Scheduled(t, a, f, formed, schedules) && k < |schedules|
    ensures var ctx, g := ContextFor(t, a, formed[k].blocks), Rewritten(t, a, formed, schedules[..k], f);
      && Valid(g) && SameCode(f, g) && ContextOk(ctx, g) && Fits(g, schedules[k], ctx.trace)
      && (forall b :: b in ctx.trace ==> b < |f.layout| && g.layout[b] == f.layout[b])
      && IsTraceSchedule(f, g, ctx, a.liveIn, schedules[k])
      && Rewritten(t, a, formed, schedules[..k + 1], f) == Applied(ctx, g, schedules[k], a.liveIn).f
  {
    SchedulesBefore(t, a, f, formed, schedules, k);
    SchedulesBefore(t, a, f, formed, schedules, k + 1);
    assert schedules[..k + 1][..k] == schedules[..k];
    NextIsLegal(t, a, f, formed, schedules[..k]);
    ScheduleStillFits(f, Rewritten(t, a, formed, schedules[..k], f), ContextFor(t, a, formed[k].blocks), a.liveIn,
                      schedules[k]);
  }

  /** Trace n leaves the blocks of others alone. */
  lemma TraceKeepsOthers(t: Target, a: Analyses, f: Func, formed: seq<Traces.Formed>, schedules: seq<seq<nat>>, n: nat,
                         b: nat)
    requires Scheduled(t, a, f, formed, schedules) && n < |schedules| && b < |f.layout|
    ensures var before := Rewritten(t, a, formed, schedules[..n], f);
      var after := Rewritten(t, a, formed, schedules[..n + 1], f);
      && |before.layout| == |after.layout| == |f.layout|
      && (b !in formed[n].blocks ==> after.layout[b] == before.layout[b])
  {
    TraceIsReady(t, a, f, formed, schedules, n);
    AppliedFixesAnchors(ContextFor(t, a, formed[n].blocks), Rewritten(t, a, formed, schedules[..n], f), schedules[n],
                        a.liveIn, b);
  }

  /** Later traces leave the blocks of trace k alone. */
  lemma {:induction false} LaterTracesKeep(t: Target, a: Analyses, f: Func, formed: seq<Traces.Formed>,
                                           schedules: seq<seq<nat>>, k: nat, m: nat, b: nat)
    requires Scheduled(t, a, f, formed, schedules) && k < m <= |schedules|
    requires b in formed[k].blocks && b < |f.layout|
    ensures |Rewritten(t, a, formed, schedules[..m], f).layout| == |f.layout|
    ensures |Rewritten(t, a, formed, schedules[..k + 1], f).layout| == |f.layout|
    ensures Rewritten(t, a, formed, schedules[..m], f).layout[b]
         == Rewritten(t, a, formed, schedules[..k + 1], f).layout[b]
  {
    TraceKeepsOthers(t, a, f, formed, schedules, m - 1, b);
    if k < m - 1 {
      LaterTracesKeep(t, a, f, formed, schedules, k, m - 1, b);
      assert Traces.Disjoint(formed[k].blocks, formed[m - 1].blocks);
    }
  }

  /** What trace k left in its blocks is there in the end. */
  lemma BlockStays(t: Target, a: Analyses, f: Func, formed: seq<Traces.Formed>, schedules: seq<seq<nat>>, k: nat,
                   b: nat)
    requires Scheduled(t, a, f, formed, schedules) && k < |schedules|
    requires b in formed[k].blocks && b < |f.layout|
    ensures |Rewritten(t, a, formed, schedules, f).layout| == |Rewritten(t, a, formed, schedules[..k + 1], f).layout|
         == |f.layout|
    ensures Rewritten(t, a, formed, schedules, f).layout[b] == Rewritten(t, a, formed, schedules[..k + 1], f).layout[b]
  {
    LaterTracesKeep(t, a, f, formed, schedules, k, |schedules|, b);
    assert schedules[..|schedules|] == schedules;
  }

  // ----- Places -----

  /** Where a scheduled instruction of trace k is after that trace, it stays. */
  lemma HomeStays(t: Target, a: Analyses, f: Func, formed: seq<Traces.Formed>, schedules: seq<seq<nat>>, k: nat, i: nat)
    requires Scheduled(t, a, f, formed, schedules) && k < |schedules| && i in schedules[k]
    ensures Home(Rewritten(t, a, formed, schedules, f), i) == Home(Rewritten(t, a, formed, schedules[..k + 1], f), i)
  {
    TraceIsReady(t, a, f, formed, schedules, k);
    var ctx, g := ContextFor(t, a, formed[k].blocks), Rewritten(t, a, formed, schedules[..k], f);
    AppliedPlaces(ctx, g, schedules[k], a.liveIn, i);
    AppliedKeepsMeaning(ctx, g, schedules[k], a.liveIn);
    var h := Applied(ctx, g, schedules[k], a.liveIn).f;
    var c: nat :| c in ctx.trace && In(f, c, i);
    HomeIsTheBlock(g, c, i);
    var b := Home(h, i);
    assert b in ctx.trace && In(h, b, i);
    BlockStays(t, a, f, formed, schedules, k, b);
    RewrittenKeeps(t, a, f, formed, schedules);
    HomeIsTheBlock(Rewritten(t, a, formed, schedules, f), b, i);
  }

  lemma SameLives(universe: set<Ref>, trace: seq<nat>, liveIn: seq<set<Ref>>, f: Func, g: Func, now: Func)
    requires SameCode(f, g) && forall b :: b in trace ==> b < |f.layout| && g.layout[b] == f.layout[b]
    ensures LivesNow(universe, trace, liveIn, f, now) == LivesNow(universe, trace, liveIn, g, now)
  {
    forall j | 0 <= j < |trace|
      ensures LivesNow(universe, trace, liveIn, f, now)[j] == LivesNow(universe, trace, liveIn, g, now)[j]
    {
      assert trace[j] in trace;
      SameHoistedInto(f, g, now, universe, trace[j]);
    }
  }

  lemma PlacedEarliestInTheEnd(t: Target, a: Analyses, f: Func, formed: seq<Traces.Formed>, schedules: seq<seq<nat>>,
                               k: nat, j: nat)
    requires Scheduled(t, a, f, formed, schedules) && k < |schedules| && j < |schedules[k]|
    ensures PlacedAtTurn(t, a, f, formed, schedules, k, j,
                         Home(Rewritten(t, a, formed, schedules, f), schedules[k][j]))
  {
    TraceIsReady(t, a, f, formed, schedules, k);
    var ctx, g := ContextFor(t, a, formed[k].blocks), Rewritten(t, a, formed, schedules[..k], f);
    AppliedPlacesEarliest(ctx, g, schedules[k], a.liveIn, j);
    HomeStays(t, a, f, formed, schedules, k, schedules[k][j]);
    SameLives(a.options.universe, ctx.trace, a.liveIn, f, g, NowAt(t, a, f, formed, schedules, k, j));
  }

  // ----- Code -----

  lemma CodeInTheEnd(t: Target, a: Analyses, f: Func, formed: seq<Traces.Formed>, schedules: seq<seq<nat>>, k: nat,
                     b: nat)
    requires Scheduled(t, a, f, formed, schedules) && k < |schedules| && b in formed[k].blocks && b < |f.layout|
    ensures b < |Rewritten(t, a, formed, schedules, f).layout|
    ensures BlockRewritten(f.info, schedules[k], f.layout[b], Rewritten(t, a, formed, schedules, f).layout[b])
  {
    TraceIsReady(t, a, f, formed, schedules, k);
    AppliedCode(ContextFor(t, a, formed[k].blocks), Rewritten(t, a, formed, schedules[..k], f), schedules[k], a.liveIn,
                b);
    BlockStays(t, a, f, formed, schedules, k, b);
  }

  lemma {:induction false} OtherBlocksKeepCode(t: Target, a: Analyses, f: Func, formed: seq<Traces.Formed>,
                                               schedules: seq<seq<nat>>, m: nat, b: nat)
    requires Scheduled(t, a, f, formed, schedules) && m <= |schedules| && b < |f.layout|
    requires forall k :: 0 <= k < m ==> b !in formed[k].blocks
    ensures |Rewritten(t, a, formed, schedules[..m], f).layout| == |f.layout|
    ensures Rewritten(t, a, formed, schedules[..m], f).layout[b] == f.layout[b]
  {
    if m > 0 {
      OtherBlocksKeepCode(t, a, f, formed, schedules, m - 1, b);
      TraceKeepsOthers(t, a, f, formed, schedules, m - 1, b);
    }
  }

  // ----- Pressure -----

  lemma LiveBoundedInTheEnd(t: Target, a: Analyses, f: Func, formed: seq<Traces.Formed>, schedules: seq<seq<nat>>,
                            k: nat, b: nat, width: nat)
    requires Scheduled(t, a, f, formed, schedules) && k < |schedules|
    requires b in formed[k].blocks && b < |f.layout| && b < |a.liveIn| && a.options.useRegPressure
    requires HoistedAtMost(f, Rewritten(t, a, formed, schedules, f), b, width)
    ensures LiveBounded(t.budget, a.options.universe, a.liveIn[b], f, Rewritten(t, a, formed, schedules, f), b, width)
  {
    TraceIsReady(t, a, f, formed, schedules, k);
    BlockStays(t, a, f, formed, schedules, k, b);
    var ctx, g := ContextFor(t, a, formed[k].blocks), Rewritten(t, a, formed, schedules[..k], f);
    var h, end := Applied(ctx, g, schedules[k], a.liveIn).f, Rewritten(t, a, formed, schedules, f);
    assert forall i: nat :: In(h, b, i) <==> In(end, b, i);
    assert forall i: nat :: In(g, b, i) <==> In(f, b, i);
    AppliedBoundsPressure(ctx, g, schedules[k], a.liveIn, b, width);
    SameHoistedInto(f, g, h, a.options.universe, b);
    assert HoistedInto(f, h, a.options.universe, b) == HoistedInto(f, end, a.options.universe, b);
  }

  // ----- All of it -----

  /** Everything the pass promises about where things end. */
  ghost predicate EndsAsPromised(t: Target, a: Analyses, f: Func, formed: seq<Traces.Formed>, schedules: seq<seq<nat>>,
                                 g: Func)
    requires |schedules| <= |formed|
  {
    && AllPlacedEarliest(t, a, f, formed, schedules, g)
    && AllRewritten(f, formed, schedules, g)
    && (t.usePressure ==> AllLiveBounded(t.budget, a, f, g))
  }

  /** The main theorem about where things end. */
  lemma RewrittenEndsAsPromised(t: Target, a: Analyses, f: Func, formed: seq<Traces.Formed>, schedules: seq<seq<nat>>)
    requires Scheduled(t, a, f, formed, schedules) && a.options.useRegPressure == t.usePressure
    ensures EndsAsPromised(t, a, f, formed, schedules, Rewritten(t, a, formed, schedules, f))
  {
    var g := Rewritten(t, a, formed, schedules, f);
    forall k, j | 0 <= k < |schedules| && 0 <= j < |schedules[k]|
      ensures PlacedAtTurn(t, a, f, formed, schedules, k, j, Home(g, schedules[k][j]))
    {
      PlacedEarliestInTheEnd(t, a, f, formed, schedules, k, j);
    }
    AllCodeInTheEnd(t, a, f, formed, schedules);
    if t.usePressure {
      AllLiveBoundedInTheEnd(t, a, f, formed, schedules);
    }
  }

  lemma AllCodeInTheEnd(t: Target, a: Analyses, f: Func, formed: seq<Traces.Formed>, schedules: seq<seq<nat>>)
    requires Scheduled(t, a, f, formed, schedules)
    ensures AllRewritten(f, formed, schedules, Rewritten(t, a, formed, schedules, f))
  {
    RewrittenKeeps(t, a, f, formed, schedules);
    assert schedules[..|schedules|] == schedules;
    var g := Rewritten(t, a, formed, schedules, f);
    forall k, b | 0 <= k < |schedules| && b in formed[k].blocks && 0 <= b < |f.layout|
      ensures BlockRewritten(f.info, schedules[k], f.layout[b], g.layout[b])
    {
      CodeInTheEnd(t, a, f, formed, schedules, k, b);
    }
    forall b | 0 <= b < |f.layout| && forall k :: 0 <= k < |schedules| ==> b !in formed[k].blocks
      ensures g.layout[b] == f.layout[b]
    {
      OtherBlocksKeepCode(t, a, f, formed, schedules, |schedules|, b);
    }
  }

  lemma AllLiveBoundedInTheEnd(t: Target, a: Analyses, f: Func, formed: seq<Traces.Formed>, schedules: seq<seq<nat>>)
    requires Scheduled(t, a, f, formed, schedules) && a.options.useRegPressure
    ensures AllLiveBounded(t.budget, a, f, Rewritten(t, a, formed, schedules, f))
  {
    assert schedules[..|schedules|] == schedules;
    var g := Rewritten(t, a, formed, schedules, f);
    forall b: nat, width: nat | b < |f.layout| && b < |a.liveIn| && HoistedAtMost(f, g, b, width)
      ensures LiveBounded(t.budget, a.options.universe, a.liveIn[b], f, g, b, width)
    {
      if k :| 0 <= k < |schedules| && b in formed[k].blocks {
        LiveBoundedInTheEnd(t, a, f, formed, schedules, k, b, width);
      } else {
        OtherBlocksKeepCode(t, a, f, formed, schedules, |schedules|, b);
        assert HoistedInto(f, g, a.options.universe, b) == {};
      }
    }
  }

  // ----- Statistics -----

  /** What a trace moves was still where it was in the beginning. */
  lemma MovesFromHome(ctx: Context, f: Func, g: Func, schedule: seq<nat>, liveIn: seq<set<Ref>>, i: nat)
    requires Valid(g) && ContextOk(ctx, g) && Fits(g, schedule, ctx.trace) && WellFormed(f) && SameCode(f, g)
    requires forall b :: b in ctx.trace ==> b < |f.layout| && g.layout[b] == f.layout[b]
    requires Home(Applied(ctx, g, schedule, liveIn).f, i) != Home(g, i)
    ensures Home(g, i) == Home(f, i)
  {
    AppliedPlaces(ctx, g, schedule, liveIn, i);
    assert Home(g, i) in ctx.trace && In(g, Home(g, i), i);
    HomeIsTheBlock(f, Home(g, i), i);
  }

  lemma MovedInOneTrace(t: Target, a: Analyses, f: Func, formed: seq<Traces.Formed>, schedules: seq<seq<nat>>, n: nat)
    requires Scheduled(t, a, f, formed, schedules) && n < |schedules|
    ensures var g := Rewritten(t, a, formed, schedules[..n], f);
      var s := StartOf(ContextFor(t, a, formed[n].blocks), g, schedules[n], a.liveIn);
      var h := Rewritten(t, a, formed, schedules[..n + 1], f);
      |Moved(f, h)| == |Moved(f, g)| + |Moved(s.f, h)|
  {
    TraceIsReady(t, a, f, formed, schedules, n);
    var ctx, g := ContextFor(t, a, formed[n].blocks), Rewritten(t, a, formed, schedules[..n], f);
    var s, h := StartOf(ctx, g, schedules[n], a.liveIn), Applied(ctx, g, schedules[n], a.liveIn).f;
    ReadyForPhase2(ctx, g, schedules[n]);
    forall i: nat | Home(h, i) != Home(g, i)
      ensures Home(g, i) == Home(f, i)
    {
      MovesFromHome(ctx, f, g, schedules[n], a.liveIn, i);
    }
    MovedAddsUp(f, g, s.f, h);
  }

  lemma MovedAddsUp(f: Func, g: Func, s: Func, h: Func)
    requires f.info == g.info == s.info && forall i: nat :: Home(s, i) == Home(g, i)
    requires forall i: nat :: Home(h, i) != Home(g, i) ==> Home(g, i) == Home(f, i)
    ensures |Moved(f, h)| == |Moved(f, g)| + |Moved(s, h)|
  {
    assert Moved(f, h) == Moved(f, g) + Moved(s, h);
    assert Moved(f, g) * Moved(s, h) == {};
  }

  /** The complete schedule of a trace holds exactly the chances of the trace. */
  lemma ScheduledChancesAre(t: Target, a: Analyses, f: Func, formed: seq<Traces.Formed>, schedules: seq<seq<nat>>,
                            n: nat, i: nat)
    requires Scheduled(t, a, f, formed, schedules) && n < |schedules|
    ensures var g := Rewritten(t, a, formed, schedules[..n], f);
      var s := StartOf(ContextFor(t, a, formed[n].blocks), g, schedules[n], a.liveIn);
      i in ScheduledChances(s.f, formed[n].blocks, schedules[n]) <==>
      && i < |f.info| && !f.info[i].isPhi && !f.info[i].isTerminator
      && InLaterBlock(f, formed[n].blocks, i)
  {
    TraceIsReady(t, a, f, formed, schedules, n);
    var ctx, g := ContextFor(t, a, formed[n].blocks), Rewritten(t, a, formed, schedules[..n], f);
    StartIsReady(ctx, g, schedules[n], a.liveIn);
    SamePlaceInTrace(f, g, StartOf(ctx, g, schedules[n], a.liveIn).f, ctx.trace, i);
    LaterBlockIsInTrace(f, ctx.trace, i);
  }

  lemma ChancesInOneTrace(t: Target, a: Analyses, f: Func, formed: seq<Traces.Formed>, schedules: seq<seq<nat>>, n: nat)
    requires Scheduled(t, a, f, formed, schedules) && n < |schedules|
    ensures var g := Rewritten(t, a, formed, schedules[..n], f);
      var s := StartOf(ContextFor(t, a, formed[n].blocks), g, schedules[n], a.liveIn);
      |AllChances(f, formed, n + 1)|
      == |AllChances(f, formed, n)| + |ScheduledChances(s.f, formed[n].blocks, schedules[n])|
  {
    var g := Rewritten(t, a, formed, schedules[..n], f);
    var s := StartOf(ContextFor(t, a, formed[n].blocks), g, schedules[n], a.liveIn);
    var here := ScheduledChances(s.f, formed[n].blocks, schedules[n]);
    forall i: nat
      ensures i in AllChances(f, formed, n + 1) <==> i in AllChances(f, formed, n) || i in here
      ensures !(i in AllChances(f, formed, n) && i in here)
    {
      ScheduledChancesAre(t, a, f, formed, schedules, n, i);
      OneChance(f, formed, n, i);
    }
    assert AllChances(f, formed, n + 1) == AllChances(f, formed, n) + here;
    assert AllChances(f, formed, n) * here == {};
  }

  lemma SamePlaceInTrace(f: Func, g: Func, s: Func, trace: seq<nat>, i: nat)
    requires |f.layout| == |g.layout| && forall b :: b in trace ==> b < |f.layout| && g.layout[b] == f.layout[b]
    requires forall b: nat :: In(s, b, i) <==> In(g, b, i)
    ensures InLaterBlock(s, trace, i) <==> InLaterBlock(f, trace, i)
  {
    forall k | 0 < k < |trace|
      ensures In(s, trace[k], i) <==> In(f, trace[k], i)
    {
      assert trace[k] in trace;
    }
  }

  lemma LaterBlockIsInTrace(f: Func, trace: seq<nat>, i: nat)
    ensures InLaterBlock(f, trace, i) ==> InBlocks(f, trace, i)
  {
  }

  lemma OneChance(f: Func, formed: seq<Traces.Formed>, n: nat, i: nat)
    requires WellFormed(f) && n < |formed| && Traces.PairwiseDisjoint(formed)
    ensures HasChance(f, formed, n + 1, i) <==> HasChance(f, formed, n, i) || InLaterBlock(f, formed[n].blocks, i)
    ensures !(HasChance(f, formed, n, i) && InLaterBlock(f, formed[n].blocks, i))
  {
    if HasChance(f, formed, n, i) {
      var k :| 0 <= k < n && InLaterBlock(f, formed[k].blocks, i);
      NotInBoth(f, formed[k].blocks, formed[n].blocks, i);
    }
  }

  lemma NotInBoth(f: Func, a: seq<nat>, b: seq<nat>, i: nat)
    requires WellFormed(f) && Traces.Disjoint(a, b) && InLaterBlock(f, a, i)
    ensures !InLaterBlock(f, b, i)
  {
    var x :| 0 < x < |a| && In(f, a[x], i);
    forall y | 0 < y < |b|
      ensures !In(f, b[y], i)
    {
      assert a[x] in a && b[y] in b;
    }
  }

  /** What the statistics say: the instructions that could move, and those that did. */
  ghost predicate CountsWhatHappened(tally: Tally, f: Func, formed: seq<Traces.Formed>, g: Func) {
    tally.candidates == |AllChances(f, formed, |formed|)| && tally.done == |Moved(f, g)|
  }

  /** Over all traces the statistics count as candidates exactly the instructions, but PHIs and terminators, that are
      not in the first block of their trace, and as done exactly those the pass moved to another block. */
  lemma {:induction false} TallyCounts(t: Target, a: Analyses, f: Func, formed: seq<Traces.Formed>,
                                       schedules: seq<seq<nat>>)
    requires Scheduled(t, a, f, formed, schedules)
    ensures TallyAfter(t, a, formed, schedules, f).done == |Moved(f, Rewritten(t, a, formed, schedules, f))|
    ensures TallyAfter(t, a, formed, schedules, f).candidates == |AllChances(f, formed, |schedules|)|
  {
    if schedules == [] {
      assert Moved(f, f) == {} && AllChances(f, formed, 0) == {};
    } else {
      var n := |schedules| - 1;
      assert schedules[..n + 1] == schedules;
      TallyCounts(t, a, f, formed, schedules[..n]);
      TraceIsReady(t, a, f, formed, schedules, n);
      var ctx, g := ContextFor(t, a, formed[n].blocks), Rewritten(t, a, formed, schedules[..n], f);
      StartIsReady(ctx, g, schedules[n], a.liveIn);
      RunCounts(ctx, StartOf(ctx, g, schedules[n], a.liveIn), schedules[n],
                TallyAfter(t, a, formed, schedules[..n], f));
      MovedInOneTrace(t, a, f, formed, schedules, n);
      ChancesInOneTrace(t, a, f, formed, schedules, n);
    }
  }
}
