/** Phase 2 of applySchedule as a state machine: one turn per scheduled instruction
    (include/applySchedule.hpp).
 */
module HoistTurns {
  import opened Graphs
  import opened Ir
  import opened Lists
  import opened Semantics
  import opened Hoisting
  import opened Pressure
  import opened ListScheduler

  /** The loop nest: which blocks are loop headers, and the innermost loop a block is in. */
  datatype Loops = Loops(headers: set<nat>, loopOf: nat -> Option<nat>)

  /** The inputs of Phase 2. `dominates` is the dominator tree and `safe` the speculation test at the end of a block. */
  datatype Context = Context(
    trace: seq<nat>,
    dominates: (nat, nat) -> bool,
    loops: Loops,
    safe: (Func, nat, nat) -> bool,
    options: Options,
    budget: int)

  datatype Verdict = Pass | Loop | Dominance | Operand | Unsafe | Pressure

  /** isSameLoopOrOuter */
  predicate SameLoop(loops: Loops, from: nat, target: nat) {
    match (loops.loopOf(from), loops.loopOf(target))
    case (None, None) => true
    case (Some(a), Some(b)) => a == b
    case _ => false
  }

  /** An instruction of block `home` may be moved to block t without leaving its loop or entering a loop header. */
  predicate StaysInLoop(loops: Loops, home: nat, t: nat) {
    loops.loopOf(t) == loops.loopOf(home) && t !in loops.headers
  }

  /** DT.dominates(def, insertPoint) for the terminator of block t. */
  predicate DefDominates(ctx: Context, f: Func, d: nat, t: nat)
    requires t < |f.layout| && |f.layout[t]| > 0
  {
    var a := Home(f, d);
    a < |f.layout| && if a == t then d in f.layout[t][..|f.layout[t]| - 1] else ctx.dominates(a, t)
  }

  predicate OperandsDominate(ctx: Context, f: Func, i: nat, t: nat)
    requires t < |f.layout| && |f.layout[t]| > 0 && i < |f.info|
  {
    forall k :: 0 <= k < |f.info[i].operands| && f.info[i].operands[k].Inst? ==>
      DefDominates(ctx, f, f.info[i].operands[k].id, t)
  }

  predicate OverBudget(ctx: Context, f: Func, i: nat, live: set<Ref>)
    requires i < |f.info|
  {
    |live| + Delta(i, f.info[i], ctx.options.universe, live, OutOf(f, ctx.options, i)) > ctx.budget
  }

  /** The gates for moving i from its block `home` to the end of block t, in the order they are tried. */
  function TryTarget(ctx: Context, f: Func, live: set<Ref>, i: nat, home: nat, t: nat): Verdict
    requires i < |f.info|
  {
    if t in ctx.loops.headers then Loop
    else if !SameLoop(ctx.loops, home, t) then Loop
    else if !ctx.dominates(t, home) then Dominance
    else if t >= |f.layout| || !EndsInTerminator(f, f.layout[t]) then Unsafe
    else if !OperandsDominate(ctx, f, i, t) then Operand
    else if !ctx.safe(f, i, t) then Unsafe
    else if ctx.options.useRegPressure && OverBudget(ctx, f, i, live) then Verdict.Pressure
    else Pass
  }

  datatype Snapshot = Snapshot(f: Func, live: map<nat, set<Ref>>)

  function LiveOf(s: Snapshot, t: nat): set<Ref> {
    if t in s.live then s.live[t] else {}
  }

  function TraceIndex(trace: seq<nat>, b: nat): (r: Option<nat>)
    ensures r.Some? ==> r.value < |trace| && trace[r.value] == b
    ensures r.None? <==> b !in trace
  {
    if trace == [] then None
    else if trace[|trace| - 1] == b then Some(|trace| - 1)
    else TraceIndex(trace[..|trace| - 1], b)
  }

  /** The first position from `from` up to `end` whose block passes every gate. */
  function FirstPass(ctx: Context, s: Snapshot, i: nat, home: nat, from: nat, end: nat): (r: Option<nat>)
    requires i < |s.f.info| && from <= end <= |ctx.trace|
    ensures r.Some? ==>
              && from <= r.value < end
              && TryTarget(ctx, s.f, LiveOf(s, ctx.trace[r.value]), i, home, ctx.trace[r.value]) == Pass
    ensures forall k :: from <= k < (if r.Some? then r.value else end) ==>
              TryTarget(ctx, s.f, LiveOf(s, ctx.trace[k]), i, home, ctx.trace[k]) != Pass
    decreases end - from
  {
    if from == end then None
    else if TryTarget(ctx, s.f, LiveOf(s, ctx.trace[from]), i, home, ctx.trace[from]) == Pass then Some(from)
    else FirstPass(ctx, s, i, home, from + 1, end)
  }

  /** The block instruction i moves to at its turn: the earliest trace block that passes every gate. */
  function Destination(ctx: Context, s: Snapshot, i: nat): Option<nat> {
    var home := Home(s.f, i);
    var idx := TraceIndex(ctx.trace, home);
    if idx.None? || !IsPure(s.f.info, i) then None
    else
      match FirstPass(ctx, s, i, home, 0, idx.value)
      case None => None
      case Some(k) => Some(ctx.trace[k])
  }

  function Move(ctx: Context, s: Snapshot, i: nat, t: nat): Snapshot
    requires i < |s.f.info| && Home(s.f, i) < |s.f.layout| && t < |s.f.layout| && |s.f.layout[t]| > 0
  {
    Snapshot(Hoisted(s.f, i, Home(s.f, i), t),
             s.live[t := LiveOf(s, t) + Defines(i, s.f.info[i], ctx.options.universe)])
  }

  function Turn(ctx: Context, s: Snapshot, i: nat): Snapshot {
    match Destination(ctx, s, i)
    case None => s
    case Some(t) =>
      if i < |s.f.info| && Home(s.f, i) < |s.f.layout| && t < |s.f.layout| && |s.f.layout[t]| > 0
      then Move(ctx, s, i, t)
      else s
  }

  /** All turns of a schedule. */
  function Turns(ctx: Context, s: Snapshot, schedule: seq<nat>): Snapshot {
    if schedule == [] then s
    else Turn(ctx, Turns(ctx, s, schedule[..|schedule| - 1]), schedule[|schedule| - 1])
  }

  // ----- Contracts of the inputs -----

  /** The dominator tree is dominance, for reachable blocks. */
  ghost predicate DominatorTreeCorrect(g: Graph, dominates: (nat, nat) -> bool) {
    forall a: nat, b: nat :: Reachable(g, b) ==> (dominates(a, b) <==> Dominates(g, a, b))
  }

  /** The speculation test only accepts instructions that no run of the function, as it then stands, can trap on
      at the insertion point. `base` fixes the instructions and the control flow; only the layout varies.
   */
  ghost predicate OracleSound(safe: (Func, nat, nat) -> bool, base: Func, w: World) {
    forall f: Func, i: nat, t: nat ::
      SameCode(f, base) && Valid(f) && AtInsertPoint(f, i, t) && safe(f, i, t) ==> NoTrapAt(f, w, i, t)
  }

  ghost predicate SameCode(f: Func, g: Func) {
    f.info == g.info && f.succ == g.succ && |f.layout| == |g.layout|
  }

  ghost predicate AtInsertPoint(f: Func, i: nat, t: nat) {
    IsPure(f.info, i) && t < |f.layout| && EndsInTerminator(f, f.layout[t]) && OperandsAvailable(f, i, t)
  }

  /** The trace consists of distinct reachable blocks and the dominator tree is right. */
  ghost predicate ContextOk(ctx: Context, f: Func) {
    && NoDup(ctx.trace)
    && (forall b :: b in ctx.trace ==> b < |f.layout| && Reachable(f.succ, b))
    && DominatorTreeCorrect(f.succ, ctx.dominates)
  }

  // ----- One turn -----

  /** Passing every gate is enough for the move to be a legal hoist. */
  lemma PassedGates(ctx: Context, s: Snapshot, i: nat, t: nat)
    requires Valid(s.f) && ContextOk(ctx, s.f) && Destination(ctx, s, i) == Some(t)
    ensures Home(s.f, i) in ctx.trace && t in ctx.trace
    ensures CanHoist(s.f, i, Home(s.f, i), t) && ctx.safe(s.f, i, t) && StaysInLoop(ctx.loops, Home(s.f, i), t)
    ensures Turn(ctx, s, i) == Move(ctx, s, i, t)
  {
    var f, home := s.f, Home(s.f, i);
    assert home in ctx.trace && In(f, home, i);
    assert TryTarget(ctx, f, LiveOf(s, t), i, home, t) == Pass;
    assert t != home;
    assert StrictlyDominates(f.succ, t, home);
    DominatorReachable(f.succ, t, home);
    forall d: nat | Uses(f, i, d)
      ensures Available(f, d, t, |f.layout[t]| - 1)
    {
      var k :| 0 <= k < |f.info[i].operands| && f.info[i].operands[k] == Inst(d);
      assert DefDominates(ctx, f, f.info[i].operands[k].id, t);
      assert In(f, Home(f, d), d);
    }
  }

  /** g is valid and, in every world where the speculation test is sound, runs exactly as f does. */
  ghost predicate KeepsMeaningIfSafe(safe: (Func, nat, nat) -> bool, f: Func, g: Func) {
    Valid(g) && SameCode(f, g) && forall w: World :: OracleSound(safe, f, w) ==> SameRuns(f, g, w)
  }

  lemma OracleSoundForSameCode(safe: (Func, nat, nat) -> bool, f: Func, g: Func, w: World)
    requires OracleSound(safe, f, w) && SameCode(f, g)
    ensures OracleSound(safe, g, w)
  {
  }

  lemma SafeMeaningTransitive(safe: (Func, nat, nat) -> bool, f: Func, g: Func, h: Func)
    requires KeepsMeaningIfSafe(safe, f, g) && KeepsMeaningIfSafe(safe, g, h)
    ensures KeepsMeaningIfSafe(safe, f, h)
  {
    forall w: World | OracleSound(safe, f, w)
      ensures SameRuns(f, h, w)
    {
      OracleSoundForSameCode(safe, f, g, w);
      SameRunsTransitive(f, g, h, w);
    }
  }

  /** Every single turn keeps SSA validity and, with a sound speculation test, every run. */
  lemma TurnKeepsMeaning(ctx: Context, s: Snapshot, i: nat)
    requires Valid(s.f) && ContextOk(ctx, s.f)
    ensures KeepsMeaningIfSafe(ctx.safe, s.f, Turn(ctx, s, i).f) && ContextOk(ctx, Turn(ctx, s, i).f)
  {
    if Destination(ctx, s, i).Some? {
      var t, home := Destination(ctx, s, i).value, Home(s.f, i);
      PassedGates(ctx, s, i, t);
      HoistKeepsValid(s.f, i, home, t);
      forall w: World | OracleSound(ctx.safe, s.f, w)
        ensures SameRuns(s.f, Turn(ctx, s, i).f, w)
      {
        assert AtInsertPoint(s.f, i, t);
        HoistKeepsRuns(s.f, w, i, home, t);
      }
    }
  }

  // ----- A whole run -----

  /** Phase 2 over any schedule: SSA validity is an invariant and every run keeps its meaning. */
  lemma {:induction false} TurnsKeepMeaning(ctx: Context, s: Snapshot, schedule: seq<nat>)
    requires Valid(s.f) && ContextOk(ctx, s.f)
    ensures KeepsMeaningIfSafe(ctx.safe, s.f, Turns(ctx, s, schedule).f) && ContextOk(ctx, Turns(ctx, s, schedule).f)
  {
    if schedule != [] {
      var n := |schedule| - 1;
      TurnsKeepMeaning(ctx, s, schedule[..n]);
      var mid := Turns(ctx, s, schedule[..n]);
      TurnKeepsMeaning(ctx, mid, schedule[n]);
      forall w: World | OracleSound(ctx.safe, s.f, w)
        ensures SameRuns(s.f, Turns(ctx, s, schedule).f, w)
      {
        SameRunsTransitive(s.f, mid.f, Turns(ctx, s, schedule).f, w);
      }
    }
  }

  // ----- What moves where -----

  lemma TurnPlaces(ctx: Context, s: Snapshot, i: nat, b: nat, d: nat)
    requires Valid(s.f) && ContextOk(ctx, s.f)
    ensures In(Turn(ctx, s, i).f, b, d) <==>
              if d == i && Destination(ctx, s, i).Some? then b == Destination(ctx, s, i).value else In(s.f, b, d)
  {
    if Destination(ctx, s, i).Some? {
      PassedGates(ctx, s, i, Destination(ctx, s, i).value);
      HoistedPlaces(s.f, i, Home(s.f, i), Destination(ctx, s, i).value, b, d);
    }
  }

  lemma HomeFollowsPlaces(f: Func, g: Func, i: nat)
    requires WellFormed(f) && WellFormed(g) && |f.layout| == |g.layout|
    requires forall b: nat :: In(f, b, i) <==> In(g, b, i)
    ensures Home(f, i) == Home(g, i)
  {
    if Home(f, i) < |f.layout| {
      assert In(f, Home(f, i), i);
      HomeIsTheBlock(g, Home(f, i), i);
    } else if Home(g, i) < |g.layout| {
      assert In(g, Home(g, i), i);
    }
  }

  /** A turn moves its own instruction to its destination, and nothing else. */
  lemma TurnMovesOnly(ctx: Context, s: Snapshot, i: nat, d: nat)
    requires Valid(s.f) && ContextOk(ctx, s.f)
    ensures Home(Turn(ctx, s, i).f, d) ==
              if d == i && Destination(ctx, s, i).Some? then Destination(ctx, s, i).value else Home(s.f, d)
  {
    TurnKeepsMeaning(ctx, s, i);
    var g := Turn(ctx, s, i).f;
    forall b: nat
      ensures In(g, b, d) <==>
                if d == i && Destination(ctx, s, i).Some? then b == Destination(ctx, s, i).value else In(s.f, b, d)
    {
      TurnPlaces(ctx, s, i, b, d);
    }
    if d == i && Destination(ctx, s, i).Some? {
      HomeIsTheBlock(g, Destination(ctx, s, i).value, d);
    } else {
      HomeFollowsPlaces(s.f, g, d);
    }
  }

  /** An instruction that has had no turn is where it was. */
  lemma {:induction false} NotYetMoved(ctx: Context, s: Snapshot, schedule: seq<nat>, d: nat)
    requires Valid(s.f) && ContextOk(ctx, s.f) && d !in schedule
    ensures Home(Turns(ctx, s, schedule).f, d) == Home(s.f, d)
  {
    if schedule != [] {
      var n := |schedule| - 1;
      NotYetMoved(ctx, s, schedule[..n], d);
      TurnsKeepMeaning(ctx, s, schedule[..n]);
      TurnMovesOnly(ctx, Turns(ctx, s, schedule[..n]), schedule[n], d);
    }
  }

  /** The block instruction i is in once its turn, taken from `turn`, is over. */
  function PlaceAfterTurn(ctx: Context, turn: Snapshot, i: nat): nat {
    if Destination(ctx, turn, i).Some? then Destination(ctx, turn, i).value else Home(turn.f, i)
  }

  lemma LastTurn(ctx: Context, s: Snapshot, schedule: seq<nat>, d: nat)
    requires Valid(s.f) && ContextOk(ctx, s.f) && schedule != []
    ensures var before := Turns(ctx, s, schedule[..|schedule| - 1]);
      Home(Turns(ctx, s, schedule).f, d) ==
        if d == schedule[|schedule| - 1] then PlaceAfterTurn(ctx, before, d) else Home(before.f, d)
  {
    var n := |schedule| - 1;
    TurnsKeepMeaning(ctx, s, schedule[..n]);
    TurnMovesOnly(ctx, Turns(ctx, s, schedule[..n]), schedule[n], d);
  }

  /** No later turn moves an instruction again. */
  lemma {:induction false} PlaceIsKept(ctx: Context, s: Snapshot, schedule: seq<nat>, k: nat)
    requires Valid(s.f) && ContextOk(ctx, s.f) && NoDup(schedule) && k < |schedule|
    ensures Home(Turns(ctx, s, schedule).f, schedule[k])
         == PlaceAfterTurn(ctx, Turns(ctx, s, schedule[..k]), schedule[k])
  {
    LastTurn(ctx, s, schedule, schedule[k]);
    if k < |schedule| - 1 {
      PlaceIsKept(ctx, s, schedule[..|schedule| - 1], k);
      PrefixOfFront(schedule, k);
    }
  }

  lemma PrefixOfFront(s: seq<nat>, k: nat)
    requires k < |s| - 1
    ensures s[..|s| - 1][..k] == s[..k] && s[..|s| - 1][k] == s[k]
  {
  }

  /** Every instruction that moved ended in an earlier trace block that strictly dominates its own, in the same loop,
      and never in a loop header. */
  lemma MovedUpTheTrace(ctx: Context, s: Snapshot, schedule: seq<nat>, i: nat)
    requires Valid(s.f) && ContextOk(ctx, s.f) && NoDup(schedule)
    ensures var home := Home(s.f, i);
      var final := Home(Turns(ctx, s, schedule).f, i);
      final == home ||
      (&& !IsFixed(s.f.info, i) && i in schedule && StrictlyDominates(s.f.succ, final, home)
       && StaysInLoop(ctx.loops, home, final)
       && exists j, k :: 0 <= j < k < |ctx.trace| && ctx.trace[j] == final && ctx.trace[k] == home)
  {
    if i in schedule {
      var k :| 0 <= k < |schedule| && schedule[k] == i;
      PlaceIsKept(ctx, s, schedule, k);
      NotYetMoved(ctx, s, schedule[..k], i);
      TurnsKeepMeaning(ctx, s, schedule[..k]);
      var turn := Turns(ctx, s, schedule[..k]);
      if Destination(ctx, turn, i).Some? {
        PassedGates(ctx, turn, i, Destination(ctx, turn, i).value);
      }
    } else {
      NotYetMoved(ctx, s, schedule, i);
    }
  }

  ghost predicate Placed(f: Func, d: nat) {
    exists b: nat :: In(f, b, d)
  }

  lemma TurnConserves(ctx: Context, s: Snapshot, i: nat, d: nat)
    requires Valid(s.f) && ContextOk(ctx, s.f)
    ensures Placed(Turn(ctx, s, i).f, d) <==> Placed(s.f, d)
  {
    var g := Turn(ctx, s, i).f;
    if d == i && Destination(ctx, s, i).Some? {
      PassedGates(ctx, s, i, Destination(ctx, s, i).value);
      TurnPlaces(ctx, s, i, Destination(ctx, s, i).value, d);
      assert In(s.f, Home(s.f, d), d);
    } else {
      forall b: nat
        ensures In(g, b, d) <==> In(s.f, b, d)
      {
        TurnPlaces(ctx, s, i, b, d);
      }
    }
  }

  /** No instruction is lost or invented; validity says none is duplicated. */
  lemma {:induction false} TurnsConserve(ctx: Context, s: Snapshot, schedule: seq<nat>, d: nat)
    requires Valid(s.f) && ContextOk(ctx, s.f)
    ensures Placed(Turns(ctx, s, schedule).f, d) <==> Placed(s.f, d)
  {
    if schedule != [] {
      var n := |schedule| - 1;
      TurnsConserve(ctx, s, schedule[..n], d);
      TurnsKeepMeaning(ctx, s, schedule[..n]);
      TurnConserves(ctx, Turns(ctx, s, schedule[..n]), schedule[n], d);
    }
  }

  lemma {:induction false} AnchorsWithout(info: seq<Instr>, code: seq<nat>, i: nat)
    requires IsPure(info, i)
    ensures Anchors(info, Without(code, i)) == Anchors(info, code)
  {
    if code != [] {
      AnchorsWithout(info, code[..|code| - 1], i);
      if code[|code| - 1] != i {
        LastOfWithout(code, i);
      }
    }
  }

  lemma AnchorsBeforeLast(info: seq<Instr>, code: seq<nat>, i: nat)
    requires IsPure(info, i) && |code| > 0
    ensures Anchors(info, BeforeLast(code, i)) == Anchors(info, code)
  {
  }

  /** Every anchor stays in its block, in the same order. */
  lemma {:induction false} TurnsFixAnchors(ctx: Context, s: Snapshot, schedule: seq<nat>, b: nat)
    requires Valid(s.f) && ContextOk(ctx, s.f) && b < |s.f.layout|
    ensures |Turns(ctx, s, schedule).f.layout| == |s.f.layout|
    ensures Anchors(s.f.info, Turns(ctx, s, schedule).f.layout[b]) == Anchors(s.f.info, s.f.layout[b])
  {
    if schedule != [] {
      var n := |schedule| - 1;
      TurnsFixAnchors(ctx, s, schedule[..n], b);
      TurnsKeepMeaning(ctx, s, schedule[..n]);
      TurnFixesAnchors(ctx, Turns(ctx, s, schedule[..n]), schedule[n], b);
    }
  }

  lemma TurnFixesAnchors(ctx: Context, s: Snapshot, i: nat, b: nat)
    requires Valid(s.f) && ContextOk(ctx, s.f) && b < |s.f.layout|
    ensures |Turn(ctx, s, i).f.layout| == |s.f.layout|
    ensures Anchors(s.f.info, Turn(ctx, s, i).f.layout[b]) == Anchors(s.f.info, s.f.layout[b])
  {
    if Destination(ctx, s, i).Some? {
      PassedGates(ctx, s, i, Destination(ctx, s, i).value);
      AnchorsWithout(s.f.info, s.f.layout[Home(s.f, i)], i);
      AnchorsBeforeLast(s.f.info, s.f.layout[Destination(ctx, s, i).value], i);
    }
  }

  lemma TurnStaysInTrace(ctx: Context, s: Snapshot, i: nat, b: nat)
    requires Valid(s.f) && ContextOk(ctx, s.f) && b < |s.f.layout| && b !in ctx.trace
    ensures |Turn(ctx, s, i).f.layout| == |s.f.layout| && Turn(ctx, s, i).f.layout[b] == s.f.layout[b]
  {
    if Destination(ctx, s, i).Some? {
      PassedGates(ctx, s, i, Destination(ctx, s, i).value);
    }
  }

  /** Blocks outside the trace keep their code. */
  lemma {:induction false} TurnsStayInTrace(ctx: Context, s: Snapshot, schedule: seq<nat>, b: nat)
    requires Valid(s.f) && ContextOk(ctx, s.f) && b < |s.f.layout| && b !in ctx.trace
    ensures |Turns(ctx, s, schedule).f.layout| == |s.f.layout|
    ensures Turns(ctx, s, schedule).f.layout[b] == s.f.layout[b]
  {
    if schedule != [] {
      var n := |schedule| - 1;
      TurnsStayInTrace(ctx, s, schedule[..n], b);
      TurnsKeepMeaning(ctx, s, schedule[..n]);
      TurnStaysInTrace(ctx, Turns(ctx, s, schedule[..n]), schedule[n], b);
    }
  }
}
