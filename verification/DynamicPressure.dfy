/** The pressure budget of Phase 2 and the live sets it guards (include/applySchedule.hpp). */
module DynamicPressure {
  import opened Graphs
  import opened Ir
  import opened Liveness
  import opened Pressure
  import opened ListScheduler
  import opened HoistTurns

  // ----- What bound always holds -----

  lemma {:induction false} DeathsAtMostOperands(ops: seq<Ref>, universe: set<Ref>, live: set<Ref>, out: set<Ref>)
    ensures Deaths(ops, universe, live, out) <= |ops|
  {
    if ops != [] {
      DeathsAtMostOperands(ops[..|ops| - 1], universe, live, out);
    }
  }

  lemma BirthsCount(i: nat, instr: Instr, universe: set<Ref>, live: set<Ref>)
    ensures |live + Defines(i, instr, universe)| ==
              |live| + (if Defines(i, instr, universe) - live != {} then 1 else 0)
  {
  }

  /**
    * The operand occurrences of i that end their lives in its block, had i its turn now, for the live set of block b.
    */
  function DeathsAt(ctx: Context, s: Snapshot, i: nat, b: nat): nat
    requires i < |s.f.info|
  {
    Deaths(s.f.info[i].operands, ctx.options.universe, LiveOf(s, b), OutOf(s.f, ctx.options, i))
  }

  lemma TurnPressureBounded(ctx: Context, s: Snapshot, i: nat, b: nat, width: nat)
    requires ctx.options.useRegPressure
    requires Destination(ctx, s, i) == Some(b) ==> i < |s.f.info| && DeathsAt(ctx, s, i, b) <= width
    ensures |LiveOf(Turn(ctx, s, i), b)| <= |LiveOf(s, b)| || |LiveOf(Turn(ctx, s, i), b)| <= ctx.budget + width
    ensures Turn(ctx, s, i).f.info == s.f.info
  {
    if Destination(ctx, s, i) == Some(b) {
      assert TryTarget(ctx, s.f, LiveOf(s, b), i, Home(s.f, i), b) == Pass;
      BirthsCount(i, s.f.info[i], ctx.options.universe, LiveOf(s, b));
    }
  }

  /** At every hoist into block b at most `width` operand occurrences end their lives. */
  ghost predicate HoistedDeaths(ctx: Context, s: Snapshot, schedule: seq<nat>, b: nat, width: nat) {
    schedule != [] ==>
      var n := |schedule| - 1;
      var before := Turns(ctx, s, schedule[..n]);
      && HoistedDeaths(ctx, s, schedule[..n], b, width)
      && (Destination(ctx, before, schedule[n]) == Some(b) ==>
            schedule[n] < |before.f.info| && DeathsAt(ctx, before, schedule[n], b) <= width)
  }

  lemma {:induction false} BoundedByDeaths(ctx: Context, s: Snapshot, schedule: seq<nat>, b: nat, width: nat)
    requires ctx.options.useRegPressure && HoistedDeaths(ctx, s, schedule, b, width)
    ensures |LiveOf(Turns(ctx, s, schedule), b)| <= |LiveOf(s, b)|
         || |LiveOf(Turns(ctx, s, schedule), b)| <= ctx.budget + width
  {
    if schedule != [] {
      var n := |schedule| - 1;
      BoundedByDeaths(ctx, s, schedule[..n], b, width);
      TurnPressureBounded(ctx, Turns(ctx, s, schedule[..n]), schedule[n], b, width);
    }
  }

  /** Every instruction hoisted into block b has at most `width` operands. */
  ghost predicate HoistedWidth(ctx: Context, s: Snapshot, schedule: seq<nat>, b: nat, width: nat) {
    schedule != [] ==>
      var n := |schedule| - 1;
      && HoistedWidth(ctx, s, schedule[..n], b, width)
      && (Destination(ctx, Turns(ctx, s, schedule[..n]), schedule[n]) == Some(b) ==>
            schedule[n] < |s.f.info| && |s.f.info[schedule[n]].operands| <= width)
  }

  lemma {:induction false} TurnsKeepInfo(ctx: Context, s: Snapshot, schedule: seq<nat>)
    ensures Turns(ctx, s, schedule).f.info == s.f.info
  {
    if schedule != [] {
      TurnsKeepInfo(ctx, s, schedule[..|schedule| - 1]);
    }
  }

  lemma {:induction false} WidthBoundsDeaths(ctx: Context, s: Snapshot, schedule: seq<nat>, b: nat, width: nat)
    requires HoistedWidth(ctx, s, schedule, b, width)
    ensures HoistedDeaths(ctx, s, schedule, b, width)
  {
    if schedule != [] {
      var n := |schedule| - 1;
      var before := Turns(ctx, s, schedule[..n]);
      WidthBoundsDeaths(ctx, s, schedule[..n], b, width);
      TurnsKeepInfo(ctx, s, schedule[..n]);
      if Destination(ctx, before, schedule[n]) == Some(b) {
        DeathsAtMostOperands(before.f.info[schedule[n]].operands, ctx.options.universe, LiveOf(before, b),
                             OutOf(before.f, ctx.options, schedule[n]));
      }
    }
  }

  /** With pressure on, no hoist sequence takes a block's dynamic live set past the larger of its initial size and
      the budget plus the operand count of the widest instruction hoisted into it. */
  lemma DynamicPressureBounded(ctx: Context, s: Snapshot, schedule: seq<nat>, b: nat, width: nat)
    requires ctx.options.useRegPressure && HoistedWidth(ctx, s, schedule, b, width)
    ensures |LiveOf(Turns(ctx, s, schedule), b)| <= |LiveOf(s, b)|
         || |LiveOf(Turns(ctx, s, schedule), b)| <= ctx.budget + width
  {
    WidthBoundsDeaths(ctx, s, schedule, b, width);
    BoundedByDeaths(ctx, s, schedule, b, width);
  }

  // ----- When the budget is a bound -----

  /** No tracked operand ends its life in the block. */
  ghost predicate NothingDies(instr: Instr, universe: set<Ref>, out: set<Ref>) {
    forall r :: r in instr.operands && r in universe ==> r in out
  }

  lemma {:induction false} NoDeaths(ops: seq<Ref>, universe: set<Ref>, live: set<Ref>, out: set<Ref>)
    requires forall r :: r in ops && r in universe ==> r in out
    ensures Deaths(ops, universe, live, out) == 0
  {
    if ops != [] {
      NoDeaths(ops[..|ops| - 1], universe, live, out);
      assert ops[|ops| - 1] in ops;
    }
  }

  /** No instruction hoisted into block b has a tracked operand that ends its life where the instruction then is. */
  ghost predicate NothingDiesAtHoists(ctx: Context, s: Snapshot, schedule: seq<nat>, b: nat) {
    schedule != [] ==>
      var n := |schedule| - 1;
      var before := Turns(ctx, s, schedule[..n]);
      && NothingDiesAtHoists(ctx, s, schedule[..n], b)
      && (Destination(ctx, before, schedule[n]) == Some(b) ==>
            && schedule[n] < |before.f.info|
            && NothingDies(before.f.info[schedule[n]], ctx.options.universe, OutOf(before.f, ctx.options, schedule[n])))
  }

  lemma {:induction false} NothingDiesNoDeaths(ctx: Context, s: Snapshot, schedule: seq<nat>, b: nat)
    requires NothingDiesAtHoists(ctx, s, schedule, b)
    ensures HoistedDeaths(ctx, s, schedule, b, 0)
  {
    if schedule != [] {
      var n := |schedule| - 1;
      var before := Turns(ctx, s, schedule[..n]);
      NothingDiesNoDeaths(ctx, s, schedule[..n], b);
      if Destination(ctx, before, schedule[n]) == Some(b) {
        NoDeaths(before.f.info[schedule[n]].operands, ctx.options.universe, LiveOf(before, b),
                 OutOf(before.f, ctx.options, schedule[n]));
      }
    }
  }

  /** Over a whole run: if nothing dies at the hoists into a block, its live set stays within the larger of its initial
      size and the budget. */
  lemma BudgetHoldsWhenNothingDies(ctx: Context, s: Snapshot, schedule: seq<nat>, b: nat)
    requires ctx.options.useRegPressure && NothingDiesAtHoists(ctx, s, schedule, b)
    ensures |LiveOf(Turns(ctx, s, schedule), b)| <= |LiveOf(s, b)|
         || |LiveOf(Turns(ctx, s, schedule), b)| <= ctx.budget
  {
    NothingDiesNoDeaths(ctx, s, schedule, b);
    BoundedByDeaths(ctx, s, schedule, b, 0);
  }

  /** What the budget test promises: an accepted instruction leaves the live count within the budget. */
  ghost predicate StaysInBudget(i: nat, instr: Instr, universe: set<Ref>, out: set<Ref>, live: set<Ref>, budget: int) {
    |live| + Delta(i, instr, universe, live, out) <= budget ==> |live + Defines(i, instr, universe)| <= budget
  }

  lemma StaysWhenNothingDies(i: nat, instr: Instr, universe: set<Ref>, out: set<Ref>, live: set<Ref>, budget: int)
    requires NothingDies(instr, universe, out)
    ensures StaysInBudget(i, instr, universe, out, live, budget)
  {
    BirthsCount(i, instr, universe, live);
    NoDeaths(instr.operands, universe, live, out);
  }

  lemma {:induction false} Enlarge(base: set<Ref>, pool: set<Ref>, n: nat) returns (t: set<Ref>)
    requires base <= pool && |base| <= n <= |pool|
    ensures base <= t <= pool && |t| == n
    decreases n - |base|
  {
    if |base| == n {
      t := base;
    } else {
      assert pool - base != {} by {
        assert |pool - base| == |pool| - |base|;
      }
      var r :| r in pool - base;
      t := Enlarge(base + {r}, pool, n);
    }
  }

  /** A live set one larger than the budget that already holds the result and a dying operand is let through. */
  lemma BudgetBroken(i: nat, instr: Instr, universe: set<Ref>, out: set<Ref>, budget: nat, pool: set<Ref>)
    returns (live: set<Ref>)
    requires budget >= 1 && universe <= pool && |pool| > budget && !NothingDies(instr, universe, out)
    ensures live <= pool && !StaysInBudget(i, instr, universe, out, live, budget)
  {
    var r :| r in instr.operands && r in universe && r !in out;
    live := Enlarge({r} + Defines(i, instr, universe), pool, budget + 1);
    DeathsCountDead(instr.operands, universe, live, out);
    assert r in Dead(instr.operands, universe, live, out);
    BirthsCount(i, instr, universe, live);
    assert live + Defines(i, instr, universe) == live;
  }

  function Constants(n: nat): (r: set<Ref>)
    ensures |r| == n && forall k :: Const(k) in r <==> 0 <= k < n
  {
    if n == 0 then {} else Constants(n - 1) + {Const(n - 1)}
  }

  /** For any budget the pass can have, the test keeps its promise for every live set exactly for instructions none of
      whose operands ends its life in the block: an operand that dies lowers the prediction, but is never cleared. */
  lemma BudgetIsBoundExactlyWhenNothingDies(i: nat, instr: Instr, universe: set<Ref>, out: set<Ref>, budget: nat)
    requires budget >= 1
    ensures (forall live: set<Ref> :: StaysInBudget(i, instr, universe, out, live, budget)) <==>
            NothingDies(instr, universe, out)
  {
    if NothingDies(instr, universe, out) {
      forall live: set<Ref> {
        StaysWhenNothingDies(i, instr, universe, out, live, budget);
      }
    } else {
      var pool := universe + Constants(budget + 1);
      assert |pool| >= |Constants(budget + 1)| by {
        assert pool == Constants(budget + 1) + (universe - Constants(budget + 1));
      }
      var live := BudgetBroken(i, instr, universe, out, budget, pool);
    }
  }

  /** The same for the live sets that can occur, which hold tracked values only: the one other way to keep the promise
      is to track no more values than the budget. */
  lemma BudgetIsBoundForTrackedValues(i: nat, instr: Instr, universe: set<Ref>, out: set<Ref>, budget: nat)
    requires budget >= 1
    ensures (forall live: set<Ref> :: live <= universe ==> StaysInBudget(i, instr, universe, out, live, budget)) <==>
            NothingDies(instr, universe, out) || |universe| <= budget
  {
    if NothingDies(instr, universe, out) {
      forall live: set<Ref> {
        StaysWhenNothingDies(i, instr, universe, out, live, budget);
      }
    } else if |universe| <= budget {
      forall live: set<Ref> | live <= universe
        ensures StaysInBudget(i, instr, universe, out, live, budget)
      {
        SubsetSize(live + Defines(i, instr, universe), universe);
      }
    } else {
      var live := BudgetBroken(i, instr, universe, out, budget, universe);
    }
  }

  lemma SubsetSize(a: set<Ref>, b: set<Ref>)
    requires a <= b
    ensures |a| <= |b|
  {
    assert b == a + (b - a);
  }

  // ----- A run that passes the budget -----

  /** The argument is used once, in block 1, by an instruction that can be hoisted into block 0. */
  function LastUse(): Func {
    Func([Plain([Arg(0)], [], false, false), Plain([], [], false, true), Plain([], [], false, true)],
         [[1], []], [[1], [0, 2]])
  }

  function LastUseLive(): seq<BlockLive> {
    [BlockLive({Arg(0)}, {Arg(0)}, {}, {}), BlockLive({Arg(0)}, {}, {Arg(0)}, {Inst(0)})]
  }

  /** Its hottest trace, no loops, a test that lets everything through, and a budget of one value. */
  function LastUseContext(): Context {
    Context([0, 1], (a: nat, b: nat) => a == 0 || a == b, Loops({}, (b: nat) => None),
            (f: Func, i: nat, t: nat) => true,
            Options(Universe(LastUse(), 1), LiveOuts(LastUseLive()), true), 1)
  }

  function LastUseStart(): Snapshot {
    Snapshot(LastUse(), map[0 := LiveIns(LastUseLive())[0], 1 := LiveIns(LastUseLive())[1]])
  }

  lemma LastUseWellFormed()
    ensures WellFormed(LastUse())
  {
    var f := LastUse();
    assert f.layout[0] == [1] && f.layout[1] == [0, 2];
  }

  lemma LastUseValid()
    ensures Valid(LastUse()) && Reachable(LastUse().succ, 0) && Reachable(LastUse().succ, 1)
  {
    var f := LastUse();
    LastUseWellFormed();
    assert PathTo(f.succ, [0], 0, 0) && PathTo(f.succ, [0, 1], 0, 1);
    assert f.layout[0] == [1] && f.layout[1] == [0, 2];
    assert UsesDominated(f, 0, 0) && UsesDominated(f, 1, 0) && UsesDominated(f, 1, 1);
  }

  lemma LastUseDominance()
    ensures ContextOk(LastUseContext(), LastUse())
  {
    var g := LastUse().succ;
    LastUseValid();
    forall a: nat, b: nat | Reachable(g, b)
      ensures (a == 0 || a == b) <==> Dominates(g, a, b)
    {
      ReachableInRange(g, b);
      assert PathTo(g, [0], 0, 0) && PathTo(g, [0, 1], 0, 1);
    }
  }

  lemma LastUseUniverse()
    ensures Universe(LastUse(), 1) == {Arg(0), Inst(0)}
  {
    var f := LastUse();
    assert f.layout[0] == [1] && f.layout[1] == [0, 2];
    forall r: Ref
      ensures r in Universe(f, 1) <==> r == Arg(0) || r == Inst(0)
    {
      if r == Inst(0) {
        assert f.layout[1][0] == 0;
      }
    }
  }

  lemma OnlyTheArgumentIsLive(v: Ref, b: nat)
    ensures LiveIn(LastUse(), v, {Arg(0), Inst(0)}, b) ==> v == Arg(0)
  {
  }

  lemma TheArgumentIsLive()
    ensures LiveIn(LastUse(), Arg(0), {Arg(0), Inst(0)}, 0) && LiveIn(LastUse(), Arg(0), {Arg(0), Inst(0)}, 1)
  {
    var f, u := LastUse(), {Arg(0), Inst(0)};
    assert UpwardExposedAt(f, Arg(0), f.layout[1], u, 0);
    assert LivePath(f, Arg(0), u, [1]) && LivePath(f, Arg(0), u, [0, 1]);
  }

  lemma LiveSetsOf(v: Ref, b: nat)
    requires b < 2
    ensures LiveIn(LastUse(), v, {Arg(0), Inst(0)}, b) <==> v == Arg(0)
    ensures LiveOut(LastUse(), v, {Arg(0), Inst(0)}, b) <==> v == Arg(0) && b == 0
  {
    var f := LastUse();
    TheArgumentIsLive();
    OnlyTheArgumentIsLive(v, b);
    OnlyTheArgumentIsLive(v, 1);
    assert Edge(f.succ, 0, 1);
    forall s: nat | Edge(f.succ, b, s)
      ensures b == 0 && s == 1
    {
    }
  }

  /** The live sets are the real ones. */
  lemma LastUseLiveExact()
    ensures LivenessExact(LastUse(), Universe(LastUse(), 1), LastUseLive())
  {
    LastUseUniverse();
    forall b: nat, v: Ref | b < 2
      ensures v in LastUseLive()[b].live_in <==> LiveIn(LastUse(), v, {Arg(0), Inst(0)}, b)
      ensures v in LastUseLive()[b].live_out <==> LiveOut(LastUse(), v, {Arg(0), Inst(0)}, b)
    {
      LiveSetsOf(v, b);
    }
  }

  /** Both counts, before and after: the hoist of the one instruction takes block 0 past the budget. */
  lemma SomeRunsPassTheBudget()
    ensures var ctx, s := LastUseContext(), LastUseStart();
      && Valid(s.f) && ContextOk(ctx, s.f) && ctx.options.useRegPressure
      && |LiveOf(s, 0)| == ctx.budget == 1
      && |LiveOf(Turns(ctx, s, [0]), 0)| == 2
  {
    var ctx, s := LastUseContext(), LastUseStart();
    LastUseValid();
    LastUseDominance();
    LastUseUniverse();
    LastUseTurn();
    assert [0][..0] == [] && Turns(ctx, s, [0]) == Turn(ctx, s, 0);
  }

  lemma LastUseTurn()
    ensures Destination(LastUseContext(), LastUseStart(), 0) == Some(0)
    ensures LiveOf(Turn(LastUseContext(), LastUseStart(), 0), 0) == {Arg(0), Inst(0)}
  {
    var ctx, s := LastUseContext(), LastUseStart();
    LastUseUniverse();
    assert Home(s.f, 0) == 1;
    assert TraceIndex(ctx.trace, 1) == Some(1);
    assert OutOf(s.f, ctx.options, 0) == {};
    assert s.f.info[0].operands[..0] == [];
    assert Deaths(s.f.info[0].operands, ctx.options.universe, {Arg(0)}, {}) == 1;
    assert TryTarget(ctx, s.f, LiveOf(s, 0), 0, 1, 0) == Pass;
    assert FirstPass(ctx, s, 0, 1, 0, 1) == Some(0);
  }
}
