/** What applySchedule makes of one trace, said without its loops: which block each instruction ends in, what code each
    block ends with, and how large the live sets it keeps can get (include/applySchedule.hpp).
 */
module TraceResults {
  import opened Graphs
  import opened Ir
  import opened BuildDdg
  import opened Dependence
  import opened RegionOrder
  import opened HoistTurns
  import opened DynamicPressure
  import opened Placement
  import opened ApplySchedule

  function StartOf(ctx: Context, f: Func, schedule: seq<nat>, liveIn: seq<set<Ref>>): Snapshot {
    Snapshot(Phase1(f, schedule, ctx.trace), StartLive(ctx.trace, liveIn))
  }

  /** The function when the k-th instruction of the schedule has its turn. */
  function AtTurn(ctx: Context, f: Func, schedule: seq<nat>, liveIn: seq<set<Ref>>, k: nat): Func
    requires k <= |schedule|
  {
    Turns(ctx, StartOf(ctx, f, schedule, liveIn), schedule[..k]).f
  }

  lemma StartIsReady(ctx: Context, f: Func, schedule: seq<nat>, liveIn: seq<set<Ref>>)
    requires Valid(f) && ContextOk(ctx, f) && Fits(f, schedule, ctx.trace)
    ensures var s := StartOf(ctx, f, schedule, liveIn);
      && Valid(s.f) && ContextOk(ctx, s.f) && SameCode(f, s.f) && TraceReordered(f, s.f, schedule, ctx.trace)
      && forall b: nat, i: nat :: In(s.f, b, i) <==> In(f, b, i)
  {
    ReadyForPhase2(ctx, f, schedule);
    Phase1Keeps(f, schedule, ctx.trace);
  }

  // ----- Places -----

  /** The live values of the trace blocks: those on entry, and those hoisted there so far. */
  function LivesNow(universe: set<Ref>, trace: seq<nat>, liveIn: seq<set<Ref>>, f: Func, now: Func): seq<set<Ref>> {
    seq(|trace|, j requires 0 <= j < |trace| =>
      (if trace[j] < |liveIn| then liveIn[trace[j]] else {}) + HoistedInto(f, now, universe, trace[j]))
  }

  lemma SameHoistedInto(f: Func, f': Func, g: Func, universe: set<Ref>, b: nat)
    requires f.info == f'.info && forall i: nat :: In(f, b, i) <==> In(f', b, i)
    ensures HoistedInto(f, g, universe, b) == HoistedInto(f', g, universe, b)
  {
  }

  lemma LivesAtTurn(ctx: Context, f: Func, schedule: seq<nat>, liveIn: seq<set<Ref>>, k: nat)
    requires Valid(f) && ContextOk(ctx, f) && Fits(f, schedule, ctx.trace) && k <= |schedule|
    ensures LivesOf(ctx.trace, Turns(ctx, StartOf(ctx, f, schedule, liveIn), schedule[..k]))
         == LivesNow(ctx.options.universe, ctx.trace, liveIn, f, AtTurn(ctx, f, schedule, liveIn, k))
  {
    StartIsReady(ctx, f, schedule, liveIn);
    var s := StartOf(ctx, f, schedule, liveIn);
    var turn := Turns(ctx, s, schedule[..k]);
    forall j | 0 <= j < |ctx.trace|
      ensures LivesOf(ctx.trace, turn)[j] == LivesNow(ctx.options.universe, ctx.trace, liveIn, f, turn.f)[j]
    {
      assert ctx.trace[j] in ctx.trace;
      LiveAfterTurns(ctx, s, schedule[..k], ctx.trace[j]);
      SameHoistedInto(f, s.f, turn.f, ctx.options.universe, ctx.trace[j]);
    }
  }

  /** Each scheduled instruction ends in the first block of the trace that was legal for it at its turn. */
  lemma AppliedPlacesEarliest(ctx: Context, f: Func, schedule: seq<nat>, liveIn: seq<set<Ref>>, k: nat)
    requires Valid(f) && ContextOk(ctx, f) && Fits(f, schedule, ctx.trace) && k < |schedule|
    ensures var now := AtTurn(ctx, f, schedule, liveIn, k);
      PlacedEarliest(Rules(ctx.loops, ctx.safe, ctx.options, ctx.budget), ctx.trace,
                     LivesNow(ctx.options.universe, ctx.trace, liveIn, f, now), now, schedule[k],
                     Home(Applied(ctx, f, schedule, liveIn).f, schedule[k]))
  {
    StartIsReady(ctx, f, schedule, liveIn);
    LivesAtTurn(ctx, f, schedule, liveIn, k);
    FinalPlace(ctx, StartOf(ctx, f, schedule, liveIn), schedule, k);
  }

  // ----- Code -----

  /** The block was sorted within its regions, then lost and gained what moved. */
  ghost predicate BlockRewritten(info: seq<Instr>, schedule: seq<nat>, before: seq<nat>, after: seq<nat>) {
    exists sorted :: IsReordering(info, schedule, before, sorted) && Woven(schedule, sorted, after)
  }

  lemma AppliedCode(ctx: Context, f: Func, schedule: seq<nat>, liveIn: seq<set<Ref>>, b: nat)
    requires Valid(f) && ContextOk(ctx, f) && Fits(f, schedule, ctx.trace) && b in ctx.trace
    ensures b < |Applied(ctx, f, schedule, liveIn).f.layout|
    ensures BlockRewritten(f.info, schedule, f.layout[b], Applied(ctx, f, schedule, liveIn).f.layout[b])
  {
    StartIsReady(ctx, f, schedule, liveIn);
    var s := StartOf(ctx, f, schedule, liveIn);
    TurnsWeave(ctx, s, schedule, b);
    assert IsReordering(f.info, schedule, f.layout[b], s.f.layout[b]);
  }

  /** With the complete schedule of a trace, Phase 1 leaves the movable instructions between two fixed ones in schedule
      order. */
  lemma Phase1InScheduleOrder(f: Func, schedule: seq<nat>, trace: seq<nat>, b: nat, p: nat, q: nat, r: nat)
    requires WellFormed(f) && NoDup(trace) && b in trace && b < |f.layout|
    requires forall i: nat :: InBlocks(f, trace, i) && IsOrdinary(f, i) ==> i in schedule
    requires var code := Phase1(f, schedule, trace).layout; b < |code| && p < q < r < |code[b]|
    requires var code := Phase1(f, schedule, trace).layout[b];
      IsFixed(f.info, code[r]) && forall k :: p <= k <= q ==> !IsFixed(f.info, code[k])
    ensures var code := Phase1(f, schedule, trace).layout[b]; Before(schedule, code[p], code[q])
  {
    Phase1Reorders(f, schedule, trace);
    forall i | i in f.layout[b] && !IsFixed(f.info, i)
      ensures i in schedule
    {
      assert In(f, b, i) && InBlocks(f, trace, i) && IsOrdinary(f, i);
    }
    NeighboursInOrder(f.info, schedule, f.layout[b], Phase1(f, schedule, trace).layout[b], p, q, r);
  }

  // ----- Pressure -----

  /** Every instruction that is in block b of g and was not in block b of f has at most `width` operands. */
  ghost predicate HoistedAtMost(f: Func, g: Func, b: nat, width: nat) {
    forall i: nat :: In(g, b, i) && !In(f, b, i) ==> i < |f.info| && |f.info[i].operands| <= width
  }

  lemma NewcomersHadATurn(ctx: Context, s: Snapshot, schedule: seq<nat>, b: nat, d: nat)
    requires Valid(s.f) && ContextOk(ctx, s.f)
    requires In(Turns(ctx, s, schedule).f, b, d) && !In(s.f, b, d)
    ensures d in schedule
  {
    TurnsStayReady(ctx, s, schedule);
    InItsHome(s.f, b, d);
    InItsHome(Turns(ctx, s, schedule).f, b, d);
    if d !in schedule {
      NotYetMoved(ctx, s, schedule, d);
    }
  }

  lemma StillThere(ctx: Context, s: Snapshot, schedule: seq<nat>, i: nat, b: nat, d: nat)
    requires Valid(s.f) && ContextOk(ctx, s.f) && i !in schedule
    requires In(Turns(ctx, s, schedule).f, b, d) && !In(s.f, b, d)
    ensures In(Turn(ctx, Turns(ctx, s, schedule), i).f, b, d)
  {
    NewcomersHadATurn(ctx, s, schedule, b, d);
    TurnsStayReady(ctx, s, schedule);
    TurnPlaces(ctx, Turns(ctx, s, schedule), i, b, d);
  }

  /** What is in a block in the end tells how wide the instructions hoisted into it were. */
  lemma {:induction false} WidthFromPlaces(ctx: Context, s: Snapshot, schedule: seq<nat>, b: nat, width: nat)
    requires Valid(s.f) && ContextOk(ctx, s.f) && NoDup(schedule)
    requires HoistedAtMost(s.f, Turns(ctx, s, schedule).f, b, width)
    ensures HoistedWidth(ctx, s, schedule, b, width)
  {
    if schedule != [] {
      var n := |schedule| - 1;
      var mid, i := Turns(ctx, s, schedule[..n]), schedule[n];
      assert schedule == schedule[..n] + [i];
      forall d: nat | In(mid.f, b, d) && !In(s.f, b, d)
        ensures In(Turns(ctx, s, schedule).f, b, d)
      {
        StillThere(ctx, s, schedule[..n], i, b, d);
      }
      WidthFromPlaces(ctx, s, schedule[..n], b, width);
      if Destination(ctx, mid, i) == Some(b) {
        ArrivesNew(ctx, s, schedule[..n], i, b);
      }
    }
  }

  lemma ArrivesNew(ctx: Context, s: Snapshot, schedule: seq<nat>, i: nat, b: nat)
    requires Valid(s.f) && ContextOk(ctx, s.f) && i !in schedule
    requires Destination(ctx, Turns(ctx, s, schedule), i) == Some(b)
    ensures In(Turn(ctx, Turns(ctx, s, schedule), i).f, b, i) && !In(s.f, b, i)
  {
    TurnsStayReady(ctx, s, schedule);
    PassedGates(ctx, Turns(ctx, s, schedule), i, b);
    TurnPlaces(ctx, Turns(ctx, s, schedule), i, b, i);
    NotYetMoved(ctx, s, schedule, i);
    InItsHome(s.f, b, i);
  }

  /** The live values of block b, those hoisted there included, stay within the larger of what was live on entry and
      the budget plus the operand count of the widest instruction hoisted there. */
  ghost predicate LiveBounded(budget: int, universe: set<Ref>, start: set<Ref>, f: Func, g: Func, b: nat, width: nat) {
    var live := start + HoistedInto(f, g, universe, b);
    |live| <= |start| || |live| <= budget + width
  }

  lemma AppliedBoundsPressure(ctx: Context, f: Func, schedule: seq<nat>, liveIn: seq<set<Ref>>, b: nat, width: nat)
    requires Valid(f) && ContextOk(ctx, f) && Fits(f, schedule, ctx.trace) && b in ctx.trace && b < |liveIn|
    requires ctx.options.useRegPressure && HoistedAtMost(f, Applied(ctx, f, schedule, liveIn).f, b, width)
    ensures LiveBounded(ctx.budget, ctx.options.universe, liveIn[b], f, Applied(ctx, f, schedule, liveIn).f, b, width)
  {
    StartIsReady(ctx, f, schedule, liveIn);
    var s := StartOf(ctx, f, schedule, liveIn);
    WidthFromPlaces(ctx, s, schedule, b, width);
    DynamicPressureBounded(ctx, s, schedule, b, width);
    LiveAfterTurns(ctx, s, schedule, b);
    SameHoistedInto(f, s.f, Applied(ctx, f, schedule, liveIn).f, ctx.options.universe, b);
  }
}
