/** What the hoist statistics count: how many instructions had a chance, how many moved, and what stopped each of the
    others (include/applySchedule.hpp).
 */
module HoistAccounts {
  import opened Graphs
  import opened Ir
  import opened Hoisting
  import opened HoistTurns
  import opened Placement
  import opened ApplySchedule

  // ----- What stopped a candidate -----

  ghost predicate StopsAtLoop(r: Rules, home: nat, t: nat) {
    !StaysInLoop(r.loops, home, t)
  }

  ghost predicate StopsAtDominance(r: Rules, f: Func, home: nat, t: nat) {
    StaysInLoop(r.loops, home, t) && !Dominates(f.succ, t, home)
  }

  ghost predicate StopsAtOperands(r: Rules, f: Func, i: nat, home: nat, t: nat) {
    && StaysInLoop(r.loops, home, t) && Dominates(f.succ, t, home) && t < |f.layout|
    && HasInsertPoint(f, t) && !OperandsReach(f, i, t)
  }

  /** There is nowhere to insert, or the speculation test refuses. */
  ghost predicate StopsAsUnsafe(r: Rules, f: Func, i: nat, home: nat, t: nat) {
    && StaysInLoop(r.loops, home, t) && Dominates(f.succ, t, home) && t < |f.layout|
    && (HasInsertPoint(f, t) ==> OperandsReach(f, i, t) && !r.safe(f, i, t))
  }

  ghost predicate StopsAtPressure(r: Rules, f: Func, live: set<Ref>, i: nat, home: nat, t: nat)
    requires i < |f.info|
  {
    && StaysInLoop(r.loops, home, t) && Dominates(f.succ, t, home) && t < |f.layout|
    && HasInsertPoint(f, t) && OperandsReach(f, i, t) && r.safe(f, i, t)
    && r.options.useRegPressure && !WithinBudget(r, f, live, i, home)
  }

  /** The verdict on a block says where it stops. */
  ghost predicate VerdictSays(r: Rules, f: Func, live: set<Ref>, i: nat, home: nat, t: nat, v: Verdict)
    requires i < |f.info|
  {
    && (v == Pass <==> Legal(r, f, live, i, home, t))
    && (v == Loop <==> StopsAtLoop(r, home, t))
    && (v == Dominance <==> StopsAtDominance(r, f, home, t))
    && (v == Operand <==> StopsAtOperands(r, f, i, home, t))
    && (v == Unsafe <==> StopsAsUnsafe(r, f, i, home, t))
    && (v == Verdict.Pressure <==> StopsAtPressure(r, f, live, i, home, t))
  }

  lemma VerdictMeans(ctx: Context, s: Snapshot, i: nat, home: nat, t: nat)
    requires WellFormed(s.f) && ContextOk(ctx, s.f) && home in ctx.trace && t in ctx.trace
    requires i < |s.f.info| && home == Home(s.f, i)
    ensures VerdictSays(RulesOf(ctx), s.f, LiveOf(s, t), i, home, t, TryTarget(ctx, s.f, LiveOf(s, t), i, home, t))
  {
    PassIsLegal(ctx, s, i, home, t);
    if EndsInTerminator(s.f, s.f.layout[t]) {
      OperandTestIsAvailability(ctx, s.f, i, t);
    }
    assert ctx.dominates(t, home) <==> Dominates(s.f.succ, t, home);
  }

  /** How far the blocks before the k-th got: Pass if one is legal, and otherwise the latest stop any of them made. */
  ghost function LatestStop(r: Rules, trace: seq<nat>, lives: seq<set<Ref>>, f: Func, i: nat, k: nat): Verdict
    requires k < |trace| == |lives| && i < |f.info|
  {
    var home := trace[k];
    if exists j :: 0 <= j < k && LegalAt(r, trace, lives, f, i, home, j) then Pass
    else if exists j :: 0 <= j < k && StopsAtPressure(r, f, lives[j], i, home, trace[j]) then Verdict.Pressure
    else if exists j :: 0 <= j < k && StopsAsUnsafe(r, f, i, home, trace[j]) then Unsafe
    else if exists j :: 0 <= j < k && StopsAtOperands(r, f, i, home, trace[j]) then Operand
    else if exists j :: 0 <= j < k && StopsAtDominance(r, f, home, trace[j]) then Dominance
    else Loop
  }

  /** One candidate more, and one more under what became of it: what must not move is unsafe, what moves is done. */
  ghost function CountedUnder(r: Rules, trace: seq<nat>, lives: seq<set<Ref>>, f: Func, i: nat, k: nat, t: Tally): Tally
    requires k < |trace| == |lives| && i < |f.info|
  {
    var u := t.(candidates := t.candidates + 1);
    if IsFixed(f.info, i) then u.(unsafe := u.unsafe + 1)
    else
      match LatestStop(r, trace, lives, f, i, k)
      case Pass => u.(done := u.done + 1)
      case Loop => u.(loop := u.loop + 1)
      case Dominance => u.(dominance := u.dominance + 1)
      case Operand => u.(operand := u.operand + 1)
      case Unsafe => u.(unsafe := u.unsafe + 1)
      case Pressure => u.(pressure := u.pressure + 1)
  }

  /** A turn counts an instruction of a later trace block once as a candidate and once under what became of it. */
  lemma TurnCounts(ctx: Context, s: Snapshot, i: nat, k: nat, t: Tally)
    requires WellFormed(s.f) && ContextOk(ctx, s.f) && i < |s.f.info|
    requires 0 < k < |ctx.trace| && ctx.trace[k] == Home(s.f, i)
    ensures TurnTally(ctx, s, i, t) == CountedUnder(RulesOf(ctx), ctx.trace, LivesOf(ctx.trace, s), s.f, i, k, t)
  {
    PositionIsUnique(ctx.trace, Home(s.f, i), k);
    TallyOfCandidate(ctx, s, i, k, t);
    if !IsFixed(s.f.info, i) {
      LatestStopIsReason(ctx, s, i, k);
    }
    CountersAgree(RulesOf(ctx), ctx.trace, LivesOf(ctx.trace, s), s.f, i, k,
                  if IsFixed(s.f.info, i) then Unsafe
                  else if Destination(ctx, s, i).Some? then Pass else Reason(ctx, s, i), t);
  }

  lemma TallyOfCandidate(ctx: Context, s: Snapshot, i: nat, k: nat, t: Tally)
    requires i < |s.f.info| && TraceIndex(ctx.trace, Home(s.f, i)) == Some(k) && k > 0
    ensures IsCandidate(ctx, s.f, i)
    ensures var u := t.(candidates := t.candidates + 1);
      TurnTally(ctx, s, i, t) == if IsFixed(s.f.info, i) then CountUnder(u, Unsafe)
                                 else if Destination(ctx, s, i).Some? then u.(done := u.done + 1)
                                 else CountUnder(u, Reason(ctx, s, i))
  {
  }

  lemma CountersAgree(r: Rules, trace: seq<nat>, lives: seq<set<Ref>>, f: Func, i: nat, k: nat, v: Verdict, t: Tally)
    requires k < |trace| == |lives| && i < |f.info|
    requires if IsFixed(f.info, i) then v == Unsafe else v == LatestStop(r, trace, lives, f, i, k)
    ensures var u := t.(candidates := t.candidates + 1);
      CountedUnder(r, trace, lives, f, i, k, t) == if v == Pass then u.(done := u.done + 1) else CountUnder(u, v)
  {
  }

  /** Any other instruction is not counted. */
  lemma NoChanceNoCount(ctx: Context, s: Snapshot, i: nat, t: Tally)
    requires WellFormed(s.f) && ContextOk(ctx, s.f) && !InLaterBlock(s.f, ctx.trace, i)
    ensures TurnTally(ctx, s, i, t) == t
  {
    CandidateIsLater(ctx, s.f, i);
  }

  lemma LatestStopIsReason(ctx: Context, s: Snapshot, i: nat, k: nat)
    requires WellFormed(s.f) && ContextOk(ctx, s.f) && i < |s.f.info| && !IsFixed(s.f.info, i)
    requires 0 < k < |ctx.trace| && ctx.trace[k] == Home(s.f, i) && TraceIndex(ctx.trace, Home(s.f, i)) == Some(k)
    ensures LatestStop(RulesOf(ctx), ctx.trace, LivesOf(ctx.trace, s), s.f, i, k)
         == if Destination(ctx, s, i).Some? then Pass else Reason(ctx, s, i)
  {
    var vs := Verdicts(ctx, s, i, ctx.trace[k], k);
    forall j | 0 <= j < k
      ensures VerdictSays(RulesOf(ctx), s.f, LivesOf(ctx.trace, s)[j], i, ctx.trace[k], ctx.trace[j], vs[j])
    {
      assert ctx.trace[j] in ctx.trace && ctx.trace[k] in ctx.trace;
      VerdictMeans(ctx, s, i, ctx.trace[k], ctx.trace[j]);
    }
    VerdictsTellStops(RulesOf(ctx), ctx.trace, LivesOf(ctx.trace, s), s.f, i, k, vs);
    HighestIsLatest(RulesOf(ctx), ctx.trace, LivesOf(ctx.trace, s), s.f, i, k, vs);
    DestinationIfLegal(ctx, s, i, k);
  }

  lemma DestinationIfLegal(ctx: Context, s: Snapshot, i: nat, k: nat)
    requires i < |s.f.info| && !IsFixed(s.f.info, i)
    requires k < |ctx.trace| && TraceIndex(ctx.trace, Home(s.f, i)) == Some(k)
    ensures Destination(ctx, s, i).Some? <==> Pass in Verdicts(ctx, s, i, Home(s.f, i), k)
  {
    var vs := Verdicts(ctx, s, i, Home(s.f, i), k);
    var r := FirstPass(ctx, s, i, Home(s.f, i), 0, k);
    assert r.Some? ==> vs[r.value] == Pass;
  }

  /** Which stops occur, read off the verdicts. */
  ghost predicate StopsAre(r: Rules, trace: seq<nat>, lives: seq<set<Ref>>, f: Func, i: nat, k: nat, vs: seq<Verdict>)
    requires k < |trace| == |lives| && i < |f.info|
  {
    var home := trace[k];
    && ((exists j :: 0 <= j < k && LegalAt(r, trace, lives, f, i, home, j)) <==> Pass in vs)
    && ((exists j :: 0 <= j < k && StopsAtPressure(r, f, lives[j], i, home, trace[j])) <==> Verdict.Pressure in vs)
    && ((exists j :: 0 <= j < k && StopsAsUnsafe(r, f, i, home, trace[j])) <==> Unsafe in vs)
    && ((exists j :: 0 <= j < k && StopsAtOperands(r, f, i, home, trace[j])) <==> Operand in vs)
    && ((exists j :: 0 <= j < k && StopsAtDominance(r, f, home, trace[j])) <==> Dominance in vs)
  }

  lemma VerdictsTellStops(r: Rules, trace: seq<nat>, lives: seq<set<Ref>>, f: Func, i: nat, k: nat, vs: seq<Verdict>)
    requires k < |trace| == |lives| && i < |f.info| && |vs| == k
    requires forall j :: 0 <= j < k ==> VerdictSays(r, f, lives[j], i, trace[k], trace[j], vs[j])
    ensures StopsAre(r, trace, lives, f, i, k, vs)
  {
    var home := trace[k];
    forall j | 0 <= j < k
      ensures LegalAt(r, trace, lives, f, i, home, j) <==> vs[j] == Pass
      ensures StopsAtPressure(r, f, lives[j], i, home, trace[j]) <==> vs[j] == Verdict.Pressure
      ensures StopsAsUnsafe(r, f, i, home, trace[j]) <==> vs[j] == Unsafe
      ensures StopsAtOperands(r, f, i, home, trace[j]) <==> vs[j] == Operand
      ensures StopsAtDominance(r, f, home, trace[j]) <==> vs[j] == Dominance
    {
      assert VerdictSays(r, f, lives[j], i, home, trace[j], vs[j]);
    }
  }

  lemma TopVerdict(vs: seq<Verdict>)
    requires vs != [] && Pass !in vs
    ensures Highest(vs) == if Verdict.Pressure in vs then Verdict.Pressure
                           else if Unsafe in vs then Unsafe
                           else if Operand in vs then Operand
                           else if Dominance in vs then Dominance
                           else Loop
  {
    HighestIsHighest(vs);
  }

  lemma HighestIsLatest(r: Rules, trace: seq<nat>, lives: seq<set<Ref>>, f: Func, i: nat, k: nat, vs: seq<Verdict>)
    requires k < |trace| == |lives| && i < |f.info| && vs != []
    requires StopsAre(r, trace, lives, f, i, k, vs)
    ensures LatestStop(r, trace, lives, f, i, k) == if Pass in vs then Pass else Highest(vs)
  {
    if Pass !in vs {
      TopVerdict(vs);
    }
  }

  // ----- How many -----

  /** The instructions that change their block. */
  function Moved(f: Func, g: Func): set<nat> {
    set i | 0 <= i < |f.info| && Home(g, i) != Home(f, i)
  }

  /** The instructions, but PHIs and terminators, of the trace blocks after the first. */
  ghost function Chances(f: Func, trace: seq<nat>): set<nat> {
    set i | 0 <= i < |f.info| && !f.info[i].isPhi && !f.info[i].isTerminator && InLaterBlock(f, trace, i)
  }

  ghost predicate InLaterBlock(f: Func, trace: seq<nat>, i: nat) {
    exists k :: 0 < k < |trace| && In(f, trace[k], i)
  }

  ghost function ScheduledChances(f: Func, trace: seq<nat>, schedule: seq<nat>): set<nat> {
    set i | i in schedule && i < |f.info| && InLaterBlock(f, trace, i)
  }

  lemma CandidateIsLater(ctx: Context, f: Func, i: nat)
    requires WellFormed(f) && NoDup(ctx.trace) && forall b :: b in ctx.trace ==> b < |f.layout|
    ensures IsCandidate(ctx, f, i) <==> i < |f.info| && InLaterBlock(f, ctx.trace, i)
  {
    if IsCandidate(ctx, f, i) {
      var k := TraceIndex(ctx.trace, Home(f, i)).value;
      assert ctx.trace[k] in ctx.trace && In(f, ctx.trace[k], i);
    }
    if i < |f.info| && InLaterBlock(f, ctx.trace, i) {
      var k :| 0 < k < |ctx.trace| && In(f, ctx.trace[k], i);
      HomeIsTheBlock(f, ctx.trace[k], i);
      PositionIsUnique(ctx.trace, ctx.trace[k], k);
    }
  }

  lemma SameHomeSameChance(f: Func, g: Func, trace: seq<nat>, i: nat)
    requires WellFormed(f) && WellFormed(g) && |f.layout| == |g.layout| && Home(f, i) == Home(g, i)
    ensures InLaterBlock(f, trace, i) <==> InLaterBlock(g, trace, i)
  {
    forall b: nat
      ensures In(f, b, i) <==> In(g, b, i)
    {
      InItsHome(f, b, i);
      InItsHome(g, b, i);
    }
  }

  lemma LastTally(ctx: Context, s: Snapshot, schedule: seq<nat>, i: nat, t: Tally)
    ensures RunTally(ctx, s, schedule + [i], t)
         == TurnTally(ctx, Turns(ctx, s, schedule), i, RunTally(ctx, s, schedule, t))
    ensures Turns(ctx, s, schedule + [i]) == Turn(ctx, Turns(ctx, s, schedule), i)
  {
    assert (schedule + [i])[..|schedule|] == schedule;
  }

  lemma NothingCountedYet(f: Func, trace: seq<nat>)
    ensures ScheduledChances(f, trace, []) == {} && Moved(f, f) == {}
  {
  }

  /** Phase 2 counts as candidates exactly the scheduled instructions of later blocks, and as done exactly those that
      changed their block. */
  lemma {:induction false} RunCounts(ctx: Context, s: Snapshot, schedule: seq<nat>, t: Tally)
    requires Valid(s.f) && ContextOk(ctx, s.f) && NoDup(schedule)
    ensures RunTally(ctx, s, schedule, t).candidates
         == t.candidates + |ScheduledChances(s.f, ctx.trace, schedule)|
    ensures RunTally(ctx, s, schedule, t).done == t.done + |Moved(s.f, Turns(ctx, s, schedule).f)|
  {
    if schedule == [] {
      NothingCountedYet(s.f, ctx.trace);
    } else {
      var front, i := schedule[..|schedule| - 1], schedule[|schedule| - 1];
      assert schedule == front + [i];
      RunCounts(ctx, s, front, t);
      ChanceCounted(ctx, s, front, i, RunTally(ctx, s, front, t));
      MoveCounted(ctx, s, front, i, RunTally(ctx, s, front, t));
      LastTally(ctx, s, front, i, t);
    }
  }

  lemma ChancesGrow(f: Func, trace: seq<nat>, schedule: seq<nat>, i: nat)
    requires i !in schedule
    ensures |ScheduledChances(f, trace, schedule + [i])|
         == |ScheduledChances(f, trace, schedule)| + if i < |f.info| && InLaterBlock(f, trace, i) then 1 else 0
  {
    var before := ScheduledChances(f, trace, schedule);
    assert ScheduledChances(f, trace, schedule + [i])
        == before + if i < |f.info| && InLaterBlock(f, trace, i) then {i} else {};
  }

  lemma ChanceCounted(ctx: Context, s: Snapshot, schedule: seq<nat>, i: nat, t: Tally)
    requires Valid(s.f) && ContextOk(ctx, s.f) && i !in schedule
    ensures TurnTally(ctx, Turns(ctx, s, schedule), i, t).candidates - t.candidates
         == |ScheduledChances(s.f, ctx.trace, schedule + [i])| - |ScheduledChances(s.f, ctx.trace, schedule)|
  {
    StillACandidate(ctx, s, schedule, i);
    CountedIfCandidate(ctx, Turns(ctx, s, schedule), i, t);
    ChancesGrow(s.f, ctx.trace, schedule, i);
  }

  lemma StillACandidate(ctx: Context, s: Snapshot, schedule: seq<nat>, i: nat)
    requires Valid(s.f) && ContextOk(ctx, s.f) && i !in schedule
    ensures IsCandidate(ctx, Turns(ctx, s, schedule).f, i) <==> i < |s.f.info| && InLaterBlock(s.f, ctx.trace, i)
  {
    var mid := Turns(ctx, s, schedule).f;
    TurnsStayReady(ctx, s, schedule);
    NotYetMoved(ctx, s, schedule, i);
    CandidateIsLater(ctx, mid, i);
    SameHomeSameChance(s.f, mid, ctx.trace, i);
  }

  lemma CountedIfCandidate(ctx: Context, s: Snapshot, i: nat, t: Tally)
    ensures TurnTally(ctx, s, i, t).candidates == t.candidates + if IsCandidate(ctx, s.f, i) then 1 else 0
  {
  }

  lemma MoveCounted(ctx: Context, s: Snapshot, schedule: seq<nat>, i: nat, t: Tally)
    requires Valid(s.f) && ContextOk(ctx, s.f) && i !in schedule
    ensures var mid := Turns(ctx, s, schedule);
      TurnTally(ctx, mid, i, t).done - t.done == |Moved(s.f, Turn(ctx, mid, i).f)| - |Moved(s.f, mid.f)|
  {
    var mid := Turns(ctx, s, schedule);
    TurnsStayReady(ctx, s, schedule);
    NotYetMoved(ctx, s, schedule, i);
    MovedAfterTurn(ctx, s.f, mid, i);
    if Destination(ctx, mid, i).Some? {
      PassedGates(ctx, mid, i, Destination(ctx, mid, i).value);
    }
    DoneIfDestination(ctx, mid, i, t);
  }

  lemma DoneIfDestination(ctx: Context, s: Snapshot, i: nat, t: Tally)
    requires Destination(ctx, s, i).Some? ==> i < |s.f.info| && TraceIndex(ctx.trace, Home(s.f, i)).Some?
    ensures TurnTally(ctx, s, i, t).done == t.done + if Destination(ctx, s, i).Some? then 1 else 0
  {
  }

  lemma MovedAfterTurn(ctx: Context, f: Func, s: Snapshot, i: nat)
    requires Valid(s.f) && ContextOk(ctx, s.f) && SameCode(f, s.f) && Home(s.f, i) == Home(f, i)
    ensures |Moved(f, Turn(ctx, s, i).f)| == |Moved(f, s.f)| + if Destination(ctx, s, i).Some? then 1 else 0
  {
    var before, after := Moved(f, s.f), Moved(f, Turn(ctx, s, i).f);
    if Destination(ctx, s, i).Some? {
      PassedGates(ctx, s, i, Destination(ctx, s, i).value);
    }
    forall d: nat
      ensures d in after <==> d in before || (d == i && Destination(ctx, s, i).Some?)
    {
      TurnMovesOnly(ctx, s, i, d);
    }
    assert after == before + if Destination(ctx, s, i).Some? then {i} else {};
  }
}
