/** applySchedule (include/applySchedule.hpp): Phase 1 reorders each block of the trace within its regions,
    Phase 2 hoists instruction by instruction.
 */
module ApplySchedule {
  import opened Graphs
  import opened Ir
  import opened FunctionBodies
  import opened Hoisting
  import opened Pressure
  import opened ListScheduler
  import opened Regions
  import opened RegionOrder
  import opened BuildDdg
  import opened HoistTurns

  // ----- Specification -----

  /** The function after Phase 1. */
  function Phase1(f: Func, schedule: seq<nat>, trace: seq<nat>): Func {
    if trace == [] then f
    else
      var b := trace[|trace| - 1];
      var g := Phase1(f, schedule, trace[..|trace| - 1]);
      if b < |g.layout| then WithBlock(g, b, Reordered(g.info, schedule, g.layout[b])) else g
  }

  function StartLive(trace: seq<nat>, liveIn: seq<set<Ref>>): map<nat, set<Ref>> {
    map b | b in trace :: if b < |liveIn| then liveIn[b] else {}
  }

  /** The outcome of applySchedule for one trace. */
  function Applied(ctx: Context, f: Func, schedule: seq<nat>, liveIn: seq<set<Ref>>): Snapshot {
    Turns(ctx, Snapshot(Phase1(f, schedule, ctx.trace), StartLive(ctx.trace, liveIn)), schedule)
  }

  /** The hoist statistics after applySchedule for one trace. */
  function AppliedTally(ctx: Context, f: Func, schedule: seq<nat>, liveIn: seq<set<Ref>>, t: Tally): Tally {
    RunTally(ctx, Snapshot(Phase1(f, schedule, ctx.trace), StartLive(ctx.trace, liveIn)), schedule, t)
  }

  /** A schedule fit for the blocks of a trace. */
  ghost predicate Fits(f: Func, schedule: seq<nat>, trace: seq<nat>) {
    NoDup(schedule) && forall b :: b in trace && b < |f.layout| ==> RespectsBlock(f, schedule, f.layout[b])
  }

  // ----- Phase 1 -----

  /** g is f with every block of the trace sorted by the schedule within its regions, and nothing else changed. */
  ghost predicate TraceReordered(f: Func, g: Func, schedule: seq<nat>, trace: seq<nat>) {
    && SameCode(f, g)
    && forall b :: 0 <= b < |f.layout| ==>
         if b in trace then IsReordering(f.info, schedule, f.layout[b], g.layout[b]) else g.layout[b] == f.layout[b]
  }

  lemma {:induction false} Phase1Blocks(f: Func, schedule: seq<nat>, trace: seq<nat>)
    requires NoDup(trace)
    ensures SameCode(f, Phase1(f, schedule, trace))
    ensures forall b :: 0 <= b < |f.layout| ==>
              Phase1(f, schedule, trace).layout[b]
              == if b in trace then Reordered(f.info, schedule, f.layout[b]) else f.layout[b]
  {
    if trace != [] {
      var n := |trace| - 1;
      Phase1Blocks(f, schedule, trace[..n]);
      assert trace == trace[..n] + [trace[n]];
    }
  }

  /** Phase 1 sorts exactly the covered regions of the trace blocks. */
  lemma Phase1Reorders(f: Func, schedule: seq<nat>, trace: seq<nat>)
    requires NoDup(trace) && forall b :: 0 <= b < |f.layout| ==> NoDup(f.layout[b])
    ensures TraceReordered(f, Phase1(f, schedule, trace), schedule, trace)
  {
    Phase1Blocks(f, schedule, trace);
    forall b | 0 <= b < |f.layout| && b in trace
      ensures IsReordering(f.info, schedule, f.layout[b], Phase1(f, schedule, trace).layout[b])
    {
      ReorderedIsReordering(f.info, schedule, f.layout[b]);
    }
  }

  lemma {:induction false} Phase1Keeps(f: Func, schedule: seq<nat>, trace: seq<nat>)
    requires Valid(f) && NoDup(trace) && Fits(f, schedule, trace)
    ensures var g := Phase1(f, schedule, trace); KeepsMeaning(f, g) && SameCode(f, g)
    ensures forall b :: 0 <= b < |f.layout| && b !in trace ==> Phase1(f, schedule, trace).layout[b] == f.layout[b]
    ensures forall b :: 0 <= b < |f.layout| ==> AnchorsFixed(f.info, f.layout[b], Phase1(f, schedule, trace).layout[b])
    ensures forall b: nat, i: nat :: In(Phase1(f, schedule, trace), b, i) <==> In(f, b, i)
    ensures TraceReordered(f, Phase1(f, schedule, trace), schedule, trace)
  {
    Phase1Reorders(f, schedule, trace);
    if trace != [] {
      var n := |trace| - 1;
      var b := trace[n];
      assert b in trace;
      assert Fits(f, schedule, trace[..n]);
      Phase1Keeps(f, schedule, trace[..n]);
      if b < |f.layout| {
        Phase1Step(f, Phase1(f, schedule, trace[..n]), schedule, b);
      }
    }
  }

  lemma Phase1Step(f: Func, g: Func, schedule: seq<nat>, b: nat)
    requires Valid(f) && KeepsMeaning(f, g) && SameCode(f, g) && b < |f.layout| && g.layout[b] == f.layout[b]
    requires RespectsBlock(f, schedule, f.layout[b])
    ensures KeepsMeaning(f, WithBlock(g, b, Reordered(g.info, schedule, g.layout[b])))
    ensures AnchorsFixed(f.info, f.layout[b], Reordered(g.info, schedule, g.layout[b]))
    ensures forall i: nat :: i in Reordered(g.info, schedule, g.layout[b]) <==> i in f.layout[b]
  {
    forall k: nat, d: nat | k < |schedule| && DependsInside(g, g.layout[b], schedule[k], d)
      ensures d in schedule[..k]
    {
      assert DependsInside(f, f.layout[b], schedule[k], d);
    }
    ReorderKeepsMeaning(g, b, schedule);
    KeepsMeaningTransitive(f, g, WithBlock(g, b, Reordered(g.info, schedule, g.layout[b])));
    ReorderedFixesAnchors(g.info, schedule, g.layout[b]);
    forall i: nat {
      ReorderedContents(g.info, schedule, g.layout[b], i);
    }
  }

  /** The state Phase 2 starts from satisfies what its turns need. */
  lemma ReadyForPhase2(ctx: Context, f: Func, schedule: seq<nat>)
    requires Valid(f) && ContextOk(ctx, f) && Fits(f, schedule, ctx.trace)
    ensures var g := Phase1(f, schedule, ctx.trace);
      && Valid(g) && ContextOk(ctx, g) && KeepsMeaningIfSafe(ctx.safe, f, g)
      && forall i: nat :: Home(g, i) == Home(f, i)
  {
    Phase1Keeps(f, schedule, ctx.trace);
    KeepsRuns(f, Phase1(f, schedule, ctx.trace));
    forall i: nat
      ensures Home(Phase1(f, schedule, ctx.trace), i) == Home(f, i)
    {
      HomeFollowsPlaces(f, Phase1(f, schedule, ctx.trace), i);
    }
  }

  // ----- Theorems about the outcome -----

  /** The rewrite of a trace keeps SSA validity and, with a sound speculation test, every run of the function. */
  lemma AppliedKeepsMeaning(ctx: Context, f: Func, schedule: seq<nat>, liveIn: seq<set<Ref>>)
    requires Valid(f) && ContextOk(ctx, f) && Fits(f, schedule, ctx.trace)
    ensures KeepsMeaningIfSafe(ctx.safe, f, Applied(ctx, f, schedule, liveIn).f)
  {
    ReadyForPhase2(ctx, f, schedule);
    var s := Snapshot(Phase1(f, schedule, ctx.trace), StartLive(ctx.trace, liveIn));
    TurnsKeepMeaning(ctx, s, schedule);
    SafeMeaningTransitive(ctx.safe, f, s.f, Applied(ctx, f, schedule, liveIn).f);
  }

  /** Anchors stay in their blocks in the same order; blocks outside the trace keep their code. */
  lemma AppliedFixesAnchors(ctx: Context, f: Func, schedule: seq<nat>, liveIn: seq<set<Ref>>, b: nat)
    requires Valid(f) && ContextOk(ctx, f) && Fits(f, schedule, ctx.trace) && b < |f.layout|
    ensures |Applied(ctx, f, schedule, liveIn).f.layout| == |f.layout|
    ensures Anchors(f.info, Applied(ctx, f, schedule, liveIn).f.layout[b]) == Anchors(f.info, f.layout[b])
    ensures b !in ctx.trace ==> Applied(ctx, f, schedule, liveIn).f.layout[b] == f.layout[b]
  {
    ReadyForPhase2(ctx, f, schedule);
    Phase1Keeps(f, schedule, ctx.trace);
    var s := Snapshot(Phase1(f, schedule, ctx.trace), StartLive(ctx.trace, liveIn));
    TurnsFixAnchors(ctx, s, schedule, b);
    FixedAnchorsAreSame(f.info, f.layout[b], s.f.layout[b]);
    if b !in ctx.trace {
      TurnsStayInTrace(ctx, s, schedule, b);
    }
  }

  /** Every instruction is still there, in its own block or in an earlier trace block of the same loop that strictly
      dominates it and is no loop header. */
  lemma AppliedPlaces(ctx: Context, f: Func, schedule: seq<nat>, liveIn: seq<set<Ref>>, i: nat)
    requires Valid(f) && ContextOk(ctx, f) && Fits(f, schedule, ctx.trace)
    ensures Placed(Applied(ctx, f, schedule, liveIn).f, i) <==> Placed(f, i)
    ensures var home, final := Home(f, i), Home(Applied(ctx, f, schedule, liveIn).f, i);
      final == home || (!IsFixed(f.info, i) && MovedUp(ctx, f, home, final))
  {
    ReadyForPhase2(ctx, f, schedule);
    Phase1Keeps(f, schedule, ctx.trace);
    var s := Snapshot(Phase1(f, schedule, ctx.trace), StartLive(ctx.trace, liveIn));
    TurnsConserve(ctx, s, schedule, i);
    MovedUpTheTrace(ctx, s, schedule, i);
  }

  ghost predicate MovedUp(ctx: Context, f: Func, home: nat, final: nat) {
    && StrictlyDominates(f.succ, final, home) && Reachable(f.succ, home) && StaysInLoop(ctx.loops, home, final)
    && exists j, k :: 0 <= j < k < |ctx.trace| && ctx.trace[j] == final && ctx.trace[k] == home
  }

  // ----- Statistics -----

  datatype Tally = Tally(
    candidates: nat, done: nat,
    dominance: nat, loop: nat, operand: nat, unsafe: nat, pressure: nat)

  class HoistStats {
    var candidates: nat
    var done: nat
    var blockedDominance: nat
    var blockedLoop: nat
    var blockedOperand: nat
    var blockedUnsafe: nat
    var blockedPressure: nat

    function AsTally(): Tally
      reads this
    {
      Tally(candidates, done, blockedDominance, blockedLoop, blockedOperand, blockedUnsafe, blockedPressure)
    }

    /** resetHoistStats */
    constructor ()
      ensures AsTally() == Tally(0, 0, 0, 0, 0, 0, 0)
    {
      candidates, done := 0, 0;
      blockedDominance, blockedLoop, blockedOperand, blockedUnsafe, blockedPressure := 0, 0, 0, 0, 0;
    }

    method CountCandidate()
      modifies this
      ensures AsTally() == old(AsTally()).(candidates := old(AsTally()).candidates + 1)
    {
      candidates := candidates + 1;
    }

    method CountDone()
      modifies this
      ensures AsTally() == old(AsTally()).(done := old(AsTally()).done + 1)
    {
      done := done + 1;
    }
  }

  /** How far an attempt got before it failed; Pass stands for "no reason noted". */
  function Rank(v: Verdict): nat {
    match v
    case Pass => 0
    case Loop => 1
    case Dominance => 2
    case Operand => 3
    case Unsafe => 4
    case Pressure => 5
  }

  /** The verdict on the k-th trace block. */
  function VerdictAt(ctx: Context, s: Snapshot, i: nat, home: nat, k: nat): Verdict
    requires i < |s.f.info| && k < |ctx.trace|
  {
    TryTarget(ctx, s.f, LiveOf(s, ctx.trace[k]), i, home, ctx.trace[k])
  }

  function Verdicts(ctx: Context, s: Snapshot, i: nat, home: nat, end: nat): seq<Verdict>
    requires i < |s.f.info| && end <= |ctx.trace|
  {
    seq(end, k requires 0 <= k < end => VerdictAt(ctx, s, i, home, k))
  }

  /** The verdict that got furthest. */
  function Highest(vs: seq<Verdict>): Verdict {
    if vs == [] then Pass
    else
      var r, v := Highest(vs[..|vs| - 1]), vs[|vs| - 1];
      if Rank(v) > Rank(r) then v else r
  }

  /** It is ranked no lower than any other, and it is one of them. */
  lemma {:induction false} HighestIsHighest(vs: seq<Verdict>)
    ensures forall v :: v in vs ==> Rank(v) <= Rank(Highest(vs))
    ensures vs != [] ==> Highest(vs) in vs
  {
    if vs != [] {
      var n := |vs| - 1;
      HighestIsHighest(vs[..n]);
      assert vs == vs[..n] + [vs[n]];
    }
  }

  function CountUnder(t: Tally, v: Verdict): Tally {
    match v
    case Pass => t
    case Loop => t.(loop := t.loop + 1)
    case Dominance => t.(dominance := t.dominance + 1)
    case Operand => t.(operand := t.operand + 1)
    case Unsafe => t.(unsafe := t.unsafe + 1)
    case Pressure => t.(pressure := t.pressure + 1)
  }

  /** Only an instruction with an earlier trace block to try is a candidate. */
  predicate IsCandidate(ctx: Context, f: Func, i: nat) {
    i < |f.info| && TraceIndex(ctx.trace, Home(f, i)).Some? && TraceIndex(ctx.trace, Home(f, i)).value > 0
  }

  function Reason(ctx: Context, s: Snapshot, i: nat): Verdict
    requires IsCandidate(ctx, s.f, i)
  {
    if IsAnchor(s.f.info[i]) then Unsafe
    else Highest(Verdicts(ctx, s, i, Home(s.f, i), TraceIndex(ctx.trace, Home(s.f, i)).value))
  }

  /** How a candidate is counted. */
  function Outcome(ctx: Context, s: Snapshot, i: nat, t: Tally): Tally
    requires IsCandidate(ctx, s.f, i)
  {
    if Destination(ctx, s, i).Some? then t.(done := t.done + 1) else CountUnder(t, Reason(ctx, s, i))
  }

  /** What one turn adds to the statistics. */
  function TurnTally(ctx: Context, s: Snapshot, i: nat, t: Tally): Tally {
    if IsCandidate(ctx, s.f, i) then Outcome(ctx, s, i, t.(candidates := t.candidates + 1)) else t
  }

  function RunTally(ctx: Context, s: Snapshot, schedule: seq<nat>, t: Tally): Tally {
    if schedule == [] then t
    else
      var n := |schedule| - 1;
      TurnTally(ctx, Turns(ctx, s, schedule[..n]), schedule[n], RunTally(ctx, s, schedule[..n], t))
  }

  /** Every candidate was hoisted or is counted under exactly one blocking reason. */
  predicate Balanced(t: Tally) {
    t.candidates == t.done + t.dominance + t.loop + t.operand + t.unsafe + t.pressure
  }

  /** A candidate that is not hoisted has a reason: "no reason" cannot be reached. */
  lemma ReasonIsKnown(ctx: Context, s: Snapshot, i: nat)
    requires IsCandidate(ctx, s.f, i) && Destination(ctx, s, i).None?
    ensures Reason(ctx, s, i) != Pass
  {
  }

  lemma TurnTallyBalances(ctx: Context, s: Snapshot, i: nat, t: Tally)
    requires Balanced(t)
    ensures Balanced(TurnTally(ctx, s, i, t))
  {
    if IsCandidate(ctx, s.f, i) && Destination(ctx, s, i).None? {
      ReasonIsKnown(ctx, s, i);
    }
  }

  /** The accounting balances after any run. */
  lemma {:induction false} RunTallyBalances(ctx: Context, s: Snapshot, schedule: seq<nat>, t: Tally)
    requires Balanced(t)
    ensures Balanced(RunTally(ctx, s, schedule, t))
  {
    if schedule != [] {
      var n := |schedule| - 1;
      RunTallyBalances(ctx, s, schedule[..n], t);
      TurnTallyBalances(ctx, Turns(ctx, s, schedule[..n]), schedule[n], RunTally(ctx, s, schedule[..n], t));
    }
  }

  // ----- The gates and the search for a target -----

  method OperandsOk(ctx: Context, f: Func, i: nat, t: nat) returns (ok: bool)
    requires t < |f.layout| && |f.layout[t]| > 0 && i < |f.info|
    ensures ok == OperandsDominate(ctx, f, i, t)
  {
    var ops := f.info[i].operands;
    for k := 0 to |ops|
      invariant forall j :: 0 <= j < k && ops[j].Inst? ==> DefDominates(ctx, f, ops[j].id, t)
    {
      if ops[k].Inst? && !DefDominates(ctx, f, ops[k].id, t) {
        return false;
      }
    }
    return true;
  }

  /** One attempt: the gates in source order. */
  method Attempt(ctx: Context, f: Func, live: set<Ref>, i: nat, home: nat, t: nat) returns (v: Verdict)
    requires i < |f.info|
    ensures v == TryTarget(ctx, f, live, i, home, t)
  {
    if t in ctx.loops.headers || !SameLoop(ctx.loops, home, t) {
      return Loop;
    }
    if !ctx.dominates(t, home) {
      return Dominance;
    }
    if t >= |f.layout| || !EndsInTerminator(f, f.layout[t]) {
      return Unsafe;
    }
    var ok := OperandsOk(ctx, f, i, t);
    if !ok {
      return Operand;
    }
    if !ctx.safe(f, i, t) {
      return Unsafe;
    }
    if ctx.options.useRegPressure {
      var delta := PressureDelta(i, f.info[i], ctx.options.universe, live, OutOf(f, ctx.options, i));
      if |live| + delta > ctx.budget {
        return Verdict.Pressure;
      }
    }
    return Pass;
  }

  /** Tries the blocks before position origIdx from the front of the trace; takes the first that passes, and
      otherwise remembers the attempt that got furthest. */
  method FindTarget(ctx: Context, s: Snapshot, i: nat, home: nat, origIdx: nat, statsOn: bool)
    returns (target: Option<nat>, bestReason: Verdict)
    requires i < |s.f.info| && origIdx <= |ctx.trace|
    ensures target == FirstPass(ctx, s, i, home, 0, origIdx)
    ensures statsOn && target.None? ==> bestReason == Highest(Verdicts(ctx, s, i, home, origIdx))
  {
    bestReason := Pass;
    for targetIdx := 0 to origIdx
      invariant forall k :: 0 <= k < targetIdx ==> VerdictAt(ctx, s, i, home, k) != Pass
      invariant statsOn ==> bestReason == Highest(Verdicts(ctx, s, i, home, targetIdx))
    {
      var targetBB := ctx.trace[targetIdx];
      var v := Attempt(ctx, s.f, LiveOf(s, targetBB), i, home, targetBB);
      assert v == VerdictAt(ctx, s, i, home, targetIdx);
      MoreVerdicts(ctx, s, i, home, targetIdx);
      if v == Pass {
        FirstPassIs(ctx, s, i, home, 0, origIdx, targetIdx);
        return Some(targetIdx), bestReason;
      }
      if statsOn && Rank(v) > Rank(bestReason) {
        bestReason := v;
      }
    }
    NoPassIs(ctx, s, i, home, 0, origIdx);
    return None, bestReason;
  }

  lemma MoreVerdicts(ctx: Context, s: Snapshot, i: nat, home: nat, k: nat)
    requires i < |s.f.info| && k < |ctx.trace|
    ensures var r, v := Highest(Verdicts(ctx, s, i, home, k)), VerdictAt(ctx, s, i, home, k);
      Highest(Verdicts(ctx, s, i, home, k + 1)) == if Rank(v) > Rank(r) then v else r
  {
    assert Verdicts(ctx, s, i, home, k + 1)[..k] == Verdicts(ctx, s, i, home, k);
  }

  lemma FirstPassIs(ctx: Context, s: Snapshot, i: nat, home: nat, from: nat, end: nat, at: nat)
    requires i < |s.f.info| && from <= at < end <= |ctx.trace|
    requires VerdictAt(ctx, s, i, home, at) == Pass
    requires forall k :: from <= k < at ==> VerdictAt(ctx, s, i, home, k) != Pass
    ensures FirstPass(ctx, s, i, home, from, end) == Some(at)
  {
    var r := FirstPass(ctx, s, i, home, from, end);
    assert r.Some? && VerdictAt(ctx, s, i, home, r.value) == Pass;
  }

  lemma NoPassIs(ctx: Context, s: Snapshot, i: nat, home: nat, from: nat, end: nat)
    requires i < |s.f.info| && from <= end <= |ctx.trace|
    requires forall k :: from <= k < end ==> VerdictAt(ctx, s, i, home, k) != Pass
    ensures FirstPass(ctx, s, i, home, from, end) == None
  {
    var r := FirstPass(ctx, s, i, home, from, end);
    assert r.Some? ==> VerdictAt(ctx, s, i, home, r.value) == Pass;
  }

  // ----- Phase 2 in place -----

  /** originalBlock, recorded before any movement. */
  ghost predicate RecordsHomes(f: Func, trace: seq<nat>, original: map<nat, nat>) {
    forall i: nat :: if i in original then original[i] in trace && In(f, original[i], i) else !InBlocks(f, trace, i)
  }

  method RecordHomes(f: Func, trace: seq<nat>) returns (original: map<nat, nat>)
    requires forall b :: b in trace ==> b < |f.layout|
    ensures RecordsHomes(f, trace, original)
  {
    original := map[];
    for n := 0 to |trace|
      invariant RecordsHomes(f, trace[..n], original)
    {
      var b := trace[n];
      assert b in trace && trace[..n + 1] == trace[..n] + [b];
      ghost var before := original;
      for k := 0 to |f.layout[b]|
        invariant forall i: nat :: i in original <==> i in before || i in f.layout[b][..k]
        invariant forall i: nat :: i in original ==>
                    original[i] == if i in f.layout[b][..k] then b else if i in before then before[i] else 0
      {
        assert f.layout[b][..k + 1] == f.layout[b][..k] + [f.layout[b][k]];
        original := original[f.layout[b][k] := b];
      }
      assert f.layout[b][..|f.layout[b]|] == f.layout[b];
    }
    assert trace[..|trace|] == trace;
  }

  /** Counts one failed candidate under the reason it got furthest with. */
  method CountBlocked(stats: HoistStats, bestReason: Verdict)
    modifies stats
    ensures stats.AsTally() == CountUnder(old(stats.AsTally()), bestReason)
  {
    match bestReason
    case Pass =>
    case Loop => stats.blockedLoop := stats.blockedLoop + 1;
    case Dominance => stats.blockedDominance := stats.blockedDominance + 1;
    case Operand => stats.blockedOperand := stats.blockedOperand + 1;
    case Unsafe => stats.blockedUnsafe := stats.blockedUnsafe + 1;
    case Pressure => stats.blockedPressure := stats.blockedPressure + 1;
  }

  lemma OutsideTrace(ctx: Context, s: Snapshot, i: nat, t: Tally)
    requires TraceIndex(ctx.trace, Home(s.f, i)).None?
    ensures Turn(ctx, s, i) == s && TurnTally(ctx, s, i, t) == t
  {
  }

  lemma InsideTrace(ctx: Context, s: Snapshot, i: nat, origIdx: nat)
    requires i < |s.f.info| && TraceIndex(ctx.trace, Home(s.f, i)) == Some(origIdx)
    ensures IsCandidate(ctx, s.f, i) <==> origIdx > 0
    ensures IsAnchor(s.f.info[i]) ==> Turn(ctx, s, i) == s
  {
  }

  lemma AnchorOutcome(ctx: Context, s: Snapshot, i: nat, t: Tally)
    requires IsCandidate(ctx, s.f, i) && IsAnchor(s.f.info[i])
    ensures Outcome(ctx, s, i, t) == CountUnder(t, Unsafe)
  {
  }

  /** The turn of one scheduled instruction. */
  method HoistOne(fn: FunctionBody, ctx: Context, original: map<nat, nat>, live: map<nat, set<Ref>>, i: nat,
                  statsOn: bool, stats: HoistStats)
    returns (live': map<nat, set<Ref>>)
    requires Valid(fn.AsFunc()) && ContextOk(ctx, fn.AsFunc())
    requires if i in original then original[i] == Home(fn.AsFunc(), i) && i < |fn.info|
             else Home(fn.AsFunc(), i) !in ctx.trace
    modifies fn, stats
    ensures Snapshot(fn.AsFunc(), live') == Turn(ctx, old(Snapshot(fn.AsFunc(), live)), i)
    ensures stats.AsTally() == if statsOn then TurnTally(ctx, old(Snapshot(fn.AsFunc(), live)), i, old(stats.AsTally()))
                               else old(stats.AsTally())
  {
    live' := live;
    ghost var s := Snapshot(fn.AsFunc(), live);
    var origBB := if i in original then original[i] else Home(fn.AsFunc(), i);
    var pos := TraceIndex(ctx.trace, origBB);
    if pos.None? {
      OutsideTrace(ctx, s, i, stats.AsTally());
      return;
    }
    InsideTrace(ctx, s, i, pos.value);
    live' := HoistInTrace(fn, ctx, live, i, origBB, pos.value, statsOn, stats);
  }

  /** The turn of an instruction of a trace block: anchors stay, others look for a target. */
  method HoistInTrace(fn: FunctionBody, ctx: Context, live: map<nat, set<Ref>>, i: nat, origBB: nat, origIdx: nat,
                      statsOn: bool, stats: HoistStats)
    returns (live': map<nat, set<Ref>>)
    requires Valid(fn.AsFunc()) && ContextOk(ctx, fn.AsFunc()) && i < |fn.info|
    requires origBB == Home(fn.AsFunc(), i) && TraceIndex(ctx.trace, origBB) == Some(origIdx)
    requires IsCandidate(ctx, fn.AsFunc(), i) <==> origIdx > 0
    modifies fn, stats
    ensures Snapshot(fn.AsFunc(), live') == Turn(ctx, old(Snapshot(fn.AsFunc(), live)), i)
    ensures var s, t := old(Snapshot(fn.AsFunc(), live)), old(stats.AsTally());
      stats.AsTally() ==
        if statsOn && origIdx > 0 then Outcome(ctx, s, i, t.(candidates := t.candidates + 1)) else t
  {
    live' := live;
    InsideTrace(ctx, Snapshot(fn.AsFunc(), live), i, origIdx);
    var isCandidate := statsOn && origIdx > 0;
    if isCandidate {
      stats.CountCandidate();
    }
    if IsAnchor(fn.info[i]) {
      if isCandidate {
        AnchorOutcome(ctx, Snapshot(fn.AsFunc(), live), i, stats.AsTally());
        CountBlocked(stats, Unsafe);
      }
      return;
    }
    live' := TryHoist(fn, ctx, live, i, origBB, origIdx, statsOn, isCandidate, stats);
  }

  /** The search for a target block, the move and the count of its outcome. */
  method TryHoist(fn: FunctionBody, ctx: Context, live: map<nat, set<Ref>>, i: nat, origBB: nat, origIdx: nat,
                  statsOn: bool, isCandidate: bool, stats: HoistStats)
    returns (live': map<nat, set<Ref>>)
    requires Valid(fn.AsFunc()) && ContextOk(ctx, fn.AsFunc()) && i < |fn.info| && !IsAnchor(fn.info[i])
    requires origBB == Home(fn.AsFunc(), i) && TraceIndex(ctx.trace, origBB) == Some(origIdx)
    requires isCandidate ==> statsOn && IsCandidate(ctx, fn.AsFunc(), i)
    modifies fn, stats
    ensures Snapshot(fn.AsFunc(), live') == Turn(ctx, old(Snapshot(fn.AsFunc(), live)), i)
    ensures var s, t := old(Snapshot(fn.AsFunc(), live)), old(stats.AsTally());
      stats.AsTally() == if isCandidate then Outcome(ctx, s, i, t) else t
  {
    live' := live;
    var target, bestReason := FindTarget(ctx, Snapshot(fn.AsFunc(), live), i, origBB, origIdx, statsOn);
    if target.None? {
      if isCandidate {
        CountBlocked(stats, bestReason);
      }
      return;
    }
    live' := MoveToBlock(fn, ctx, live, i, origBB, ctx.trace[target.value]);
    if isCandidate {
      stats.CountDone();
    }
  }

  /** The move itself and the update of the target's dynamic live set. */
  method MoveToBlock(fn: FunctionBody, ctx: Context, live: map<nat, set<Ref>>, i: nat, home: nat, targetBB: nat)
    returns (live': map<nat, set<Ref>>)
    requires Valid(fn.AsFunc()) && ContextOk(ctx, fn.AsFunc()) && home == Home(fn.AsFunc(), i)
    requires Destination(ctx, Snapshot(fn.AsFunc(), live), i) == Some(targetBB)
    modifies fn
    ensures Snapshot(fn.AsFunc(), live') == Turn(ctx, old(Snapshot(fn.AsFunc(), live)), i)
  {
    ghost var s := Snapshot(fn.AsFunc(), live);
    PassedGates(ctx, s, i, targetBB);
    var code := fn.layout[targetBB];
    var terminator := code[|code| - 1];
    assert In(s.f, home, i) && home != targetBB;
    fn.MoveBefore(i, home, targetBB, terminator);
    assert fn.AsFunc() == Hoisted(s.f, i, home, targetBB);
    var atTarget := if targetBB in live then live[targetBB] else {};
    if !fn.info[i].isVoid && Inst(i) in ctx.options.universe {
      atTarget := atTarget + {Inst(i)};
    }
    assert atTarget == LiveOf(s, targetBB) + Defines(i, s.f.info[i], ctx.options.universe);
    live' := live[targetBB := atTarget];
  }

  /** Reorders every block of the trace within its regions. */
  method RunPhase1(fn: FunctionBody, schedule: seq<nat>, trace: seq<nat>)
    requires Valid(fn.AsFunc()) && NoDup(trace) && Fits(fn.AsFunc(), schedule, trace)
    requires forall b :: b in trace ==> b < |fn.layout|
    modifies fn
    ensures fn.AsFunc() == Phase1(old(fn.AsFunc()), schedule, trace)
    ensures TraceReordered(old(fn.AsFunc()), fn.AsFunc(), schedule, trace)
  {
    ghost var f := fn.AsFunc();
    for n := 0 to |trace|
      invariant fn.AsFunc() == Phase1(f, schedule, trace[..n]) && |fn.layout| == |f.layout|
    {
      assert trace[n] in trace && trace[..n + 1][..n] == trace[..n];
      assert Fits(f, schedule, trace[..n]);
      Phase1Keeps(f, schedule, trace[..n]);
      ReorderBlockWithinRegions(fn, schedule, trace[n]);
    }
    assert trace[..|trace|] == trace;
    Phase1Reorders(f, schedule, trace);
  }

  /** applySchedule for one trace. */
  method ApplySchedule(fn: FunctionBody, ctx: Context, schedule: seq<nat>, liveIn: seq<set<Ref>>, statsOn: bool,
                       stats: HoistStats)
    requires Valid(fn.AsFunc()) && ContextOk(ctx, fn.AsFunc()) && Fits(fn.AsFunc(), schedule, ctx.trace)
    modifies fn, stats
    ensures fn.AsFunc() == Applied(ctx, old(fn.AsFunc()), schedule, liveIn).f
    ensures stats.AsTally() ==
              if statsOn then AppliedTally(ctx, old(fn.AsFunc()), schedule, liveIn, old(stats.AsTally()))
              else old(stats.AsTally())
  {
    ghost var f := fn.AsFunc();
    var original := RecordHomes(fn.AsFunc(), ctx.trace);
    RunPhase1(fn, schedule, ctx.trace);
    ReadyForPhase2(ctx, f, schedule);
    ghost var start := Snapshot(fn.AsFunc(), StartLive(ctx.trace, liveIn));
    var live := StartLive(ctx.trace, liveIn);
    for k := 0 to |schedule|
      invariant Snapshot(fn.AsFunc(), live) == Turns(ctx, start, schedule[..k])
      invariant stats.AsTally() == if statsOn then RunTally(ctx, start, schedule[..k], old(stats.AsTally()))
                                   else old(stats.AsTally())
    {
      TurnsKeepMeaning(ctx, start, schedule[..k]);
      NotYetMoved(ctx, start, schedule[..k], schedule[k]);
      HomeIsRecorded(f, ctx.trace, original, schedule[k]);
      assert schedule[..k + 1][..k] == schedule[..k];
      live := HoistOne(fn, ctx, original, live, schedule[k], statsOn, stats);
    }
    assert schedule[..|schedule|] == schedule;
  }

  lemma HomeIsRecorded(f: Func, trace: seq<nat>, original: map<nat, nat>, i: nat)
    requires WellFormed(f) && RecordsHomes(f, trace, original) && forall b :: b in trace ==> b < |f.layout|
    ensures if i in original then original[i] == Home(f, i) && i < |f.info| else Home(f, i) !in trace
  {
    if i in original {
      HomeIsTheBlock(f, original[i], i);
    } else if Home(f, i) < |f.layout| {
      assert In(f, Home(f, i), i);
    }
  }
}
