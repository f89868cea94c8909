/** Where Phase 2 puts instructions, said without its search: every instruction ends in the first block of its trace
    that is legal for it, and a block ends with what arrived there, in schedule order (include/applySchedule.hpp).
 */
module Placement {
  import opened Graphs
  import opened Ir
  import opened Lists
  import opened FunctionBodies
  import opened Hoisting
  import opened Pressure
  import opened ListScheduler
  import opened HoistTurns

  // ----- The first legal block -----

  /** What a trace is rewritten under. */
  datatype Rules = Rules(loops: Loops, safe: (Func, nat, nat) -> bool, options: Options, budget: int)

  function RulesOf(ctx: Context): Rules {
    Rules(ctx.loops, ctx.safe, ctx.options, ctx.budget)
  }

  /** The live values of the target, its prediction for i included, stay within the budget. */
  ghost predicate WithinBudget(r: Rules, f: Func, live: set<Ref>, i: nat, home: nat)
    requires i < |f.info|
  {
    var out := if home < |r.options.liveOut| then r.options.liveOut[home] else {};
    |live| + Delta(i, f.info[i], r.options.universe, live, out) <= r.budget
  }

  /** Block t ends in a terminator, before which something can be inserted. */
  ghost predicate HasInsertPoint(f: Func, t: nat) {
    t < |f.layout| && |f.layout[t]| > 0 &&
    var last := f.layout[t][|f.layout[t]| - 1]; last < |f.info| && f.info[last].isTerminator
  }

  /** Everything i computes with is there just before the last instruction of t. */
  ghost predicate OperandsReach(f: Func, i: nat, t: nat)
    requires t < |f.layout| && |f.layout[t]| > 0
  {
    forall d: nat :: Uses(f, i, d) ==>
      d in f.layout[t][..|f.layout[t]| - 1] || exists a: nat :: In(f, a, d) && StrictlyDominates(f.succ, a, t)
  }

  /** Instruction i of block `home` may go to the end of block t, whose live values are `live`. */
  ghost predicate Legal(r: Rules, f: Func, live: set<Ref>, i: nat, home: nat, t: nat) {
    && i < |f.info| && t < |f.layout|
    && StaysInLoop(r.loops, home, t)
    && Dominates(f.succ, t, home)
    && HasInsertPoint(f, t)
    && OperandsReach(f, i, t)
    && r.safe(f, i, t)
    && (r.options.useRegPressure ==> WithinBudget(r, f, live, i, home))
  }

  /** The same for the j-th block of the trace; lives[j] are its live values. */
  ghost predicate LegalAt(r: Rules, trace: seq<nat>, lives: seq<set<Ref>>, f: Func, i: nat, home: nat, j: nat)
    requires j < |trace| == |lives|
  {
    Legal(r, f, lives[j], i, home, trace[j])
  }

  /** `final` is the first block before the k-th that is legal for i; the k-th, its own, if there is none. */
  ghost predicate FirstLegal(r: Rules, trace: seq<nat>, lives: seq<set<Ref>>, f: Func, i: nat, k: nat, final: nat)
    requires k < |trace| == |lives|
  {
    && (forall j :: 0 <= j < k ==>
          (final == trace[j] <==>
             LegalAt(r, trace, lives, f, i, trace[k], j)
             && forall m :: 0 <= m < j ==> !LegalAt(r, trace, lives, f, i, trace[k], m)))
    && (final == trace[k] <==> forall j :: 0 <= j < k ==> !LegalAt(r, trace, lives, f, i, trace[k], j))
  }

  /** Where i goes when the code is f: nowhere if it must not move or is in no block of the trace, else to the first
      legal block before its own. */
  ghost predicate PlacedEarliest(r: Rules, trace: seq<nat>, lives: seq<set<Ref>>, f: Func, i: nat, final: nat)
    requires |trace| == |lives|
  {
    if IsFixed(f.info, i) || Home(f, i) !in trace then final == Home(f, i)
    else forall k :: 0 <= k < |trace| && trace[k] == Home(f, i) ==> FirstLegal(r, trace, lives, f, i, k, final)
  }

  function LivesOf(trace: seq<nat>, s: Snapshot): seq<set<Ref>> {
    seq(|trace|, j requires 0 <= j < |trace| => LiveOf(s, trace[j]))
  }

  /** The test of one operand against the dominator tree is availability at the insertion point. */
  lemma DefDominatesIsAvailable(ctx: Context, f: Func, d: nat, t: nat)
    requires WellFormed(f) && ContextOk(ctx, f) && t in ctx.trace && |f.layout[t]| > 0
    ensures DefDominates(ctx, f, d, t) <==> Available(f, d, t, |f.layout[t]| - 1)
  {
    var a := Home(f, d);
    assert d in f.layout[t][..|f.layout[t]| - 1] ==> In(f, t, d);
    if a < |f.layout| {
      assert In(f, a, d);
      assert ctx.dominates(a, t) <==> Dominates(f.succ, a, t);
      assert AvailableFromAbove(f, d, t) <==> StrictlyDominates(f.succ, a, t);
    } else {
      assert forall b: nat :: In(f, b, d) ==> d in f.layout[b];
      assert !In(f, t, d);
    }
  }

  lemma OperandTestIsAvailability(ctx: Context, f: Func, i: nat, t: nat)
    requires WellFormed(f) && ContextOk(ctx, f) && t in ctx.trace && |f.layout[t]| > 0 && i < |f.info|
    ensures OperandsDominate(ctx, f, i, t) <==> OperandsReach(f, i, t)
  {
    var ops := f.info[i].operands;
    forall k | 0 <= k < |ops| && ops[k].Inst?
      ensures Uses(f, i, ops[k].id)
      ensures DefDominates(ctx, f, ops[k].id, t) <==> Available(f, ops[k].id, t, |f.layout[t]| - 1)
    {
      DefDominatesIsAvailable(ctx, f, ops[k].id, t);
    }
    forall d: nat | Uses(f, i, d)
      ensures exists k :: 0 <= k < |ops| && ops[k].Inst? && ops[k].id == d
    {
      var k :| 0 <= k < |ops| && ops[k] == Inst(d);
    }
  }

  /** A block passes every gate exactly if it is legal. */
  lemma PassIsLegal(ctx: Context, s: Snapshot, i: nat, home: nat, t: nat)
    requires WellFormed(s.f) && ContextOk(ctx, s.f) && home in ctx.trace && t in ctx.trace
    requires i < |s.f.info| && home == Home(s.f, i)
    ensures TryTarget(ctx, s.f, LiveOf(s, t), i, home, t) == Pass <==>
              Legal(RulesOf(ctx), s.f, LiveOf(s, t), i, home, t)
  {
    if EndsInTerminator(s.f, s.f.layout[t]) {
      OperandTestIsAvailability(ctx, s.f, i, t);
    }
    assert ctx.dominates(t, home) <==> Dominates(s.f.succ, t, home);
  }

  lemma PositionIsUnique(trace: seq<nat>, b: nat, k: nat)
    requires NoDup(trace) && k < |trace| && trace[k] == b
    ensures TraceIndex(trace, b) == Some(k)
  {
  }

  /** After its turn an instruction is in the first block of the trace, before its own, that is legal for it, and stays
      where it is if there is none. */
  lemma TurnPlacesEarliest(ctx: Context, s: Snapshot, i: nat)
    requires Valid(s.f) && ContextOk(ctx, s.f)
    ensures PlacedEarliest(RulesOf(ctx), ctx.trace, LivesOf(ctx.trace, s), s.f, i, Home(Turn(ctx, s, i).f, i))
  {
    var home, final := Home(s.f, i), Home(Turn(ctx, s, i).f, i);
    TurnMovesOnly(ctx, s, i, i);
    if !IsFixed(s.f.info, i) && home in ctx.trace {
      forall k | 0 <= k < |ctx.trace| && ctx.trace[k] == home
        ensures FirstLegal(RulesOf(ctx), ctx.trace, LivesOf(ctx.trace, s), s.f, i, k, final)
      {
        DestinationIsFirstPass(ctx, s, i, k);
        FirstPassIsFirstLegal(ctx, s, i, k);
      }
    }
  }

  lemma DestinationIsFirstPass(ctx: Context, s: Snapshot, i: nat, k: nat)
    requires NoDup(ctx.trace) && i < |s.f.info| && !IsFixed(s.f.info, i)
    requires k < |ctx.trace| && ctx.trace[k] == Home(s.f, i)
    ensures var r := FirstPass(ctx, s, i, ctx.trace[k], 0, k);
      Destination(ctx, s, i) == if r.Some? then Some(ctx.trace[r.value]) else None
  {
    PositionIsUnique(ctx.trace, Home(s.f, i), k);
  }

  lemma FirstPassIsFirstLegal(ctx: Context, s: Snapshot, i: nat, k: nat)
    requires WellFormed(s.f) && ContextOk(ctx, s.f) && i < |s.f.info|
    requires k < |ctx.trace| && ctx.trace[k] == Home(s.f, i)
    ensures var r := FirstPass(ctx, s, i, ctx.trace[k], 0, k);
      FirstLegal(RulesOf(ctx), ctx.trace, LivesOf(ctx.trace, s), s.f, i, k,
                 if r.Some? then ctx.trace[r.value] else ctx.trace[k])
  {
    var home := ctx.trace[k];
    forall j | 0 <= j < k
      ensures LegalAt(RulesOf(ctx), ctx.trace, LivesOf(ctx.trace, s), s.f, i, home, j) <==>
                TryTarget(ctx, s.f, LiveOf(s, ctx.trace[j]), i, home, ctx.trace[j]) == Pass
    {
      assert ctx.trace[j] in ctx.trace && home in ctx.trace;
      PassIsLegal(ctx, s, i, home, ctx.trace[j]);
    }
  }

  /** Each instruction of a schedule ends in the first block that was legal for it at its turn. */
  lemma FinalPlace(ctx: Context, s: Snapshot, schedule: seq<nat>, k: nat)
    requires Valid(s.f) && ContextOk(ctx, s.f) && NoDup(schedule) && k < |schedule|
    ensures var turn := Turns(ctx, s, schedule[..k]);
      PlacedEarliest(RulesOf(ctx), ctx.trace, LivesOf(ctx.trace, turn), turn.f, schedule[k],
                     Home(Turns(ctx, s, schedule).f, schedule[k]))
  {
    TurnsStayReady(ctx, s, schedule[..k]);
    TurnPlacesEarliest(ctx, Turns(ctx, s, schedule[..k]), schedule[k]);
    TurnMovesOnly(ctx, Turns(ctx, s, schedule[..k]), schedule[k], schedule[k]);
    PlaceIsKept(ctx, s, schedule, k);
  }

  // ----- What one move changes -----

  /** Nothing but the place of i, which now stands just before the terminator of t, and the live values of t. */
  ghost predicate OnlyMoves(s: Snapshot, s': Snapshot, universe: set<Ref>, i: nat, t: nat) {
    && SameCode(s.f, s'.f)
    && (forall c :: 0 <= c < |s.f.layout| ==> Without(s'.f.layout[c], i) == Without(s.f.layout[c], i))
    && t < |s.f.layout| && |s.f.layout[t]| > 0 && i < |s.f.info|
    && StandsJustBefore(s'.f.layout[t], i, s.f.layout[t][|s.f.layout[t]| - 1])
    && s'.live == s.live[t := LiveOf(s, t) + if !s.f.info[i].isVoid && Inst(i) in universe then {Inst(i)} else {}]
  }

  lemma TurnOnlyMoves(ctx: Context, s: Snapshot, i: nat)
    requires Valid(s.f) && ContextOk(ctx, s.f)
    ensures var s' := Turn(ctx, s, i);
      if Home(s'.f, i) == Home(s.f, i) then s' == s else OnlyMoves(s, s', ctx.options.universe, i, Home(s'.f, i))
  {
    TurnMovesOnly(ctx, s, i, i);
    if Destination(ctx, s, i).Some? {
      var t, home := Destination(ctx, s, i).value, Home(s.f, i);
      PassedGates(ctx, s, i, t);
      assert In(s.f, home, i) && !In(s.f, t, i);
      var last := s.f.layout[t][|s.f.layout[t]| - 1];
      assert last in s.f.layout[t];
      MovedBeforePlaces(s.f.layout, i, home, t, last);
      assert MovedBefore(s.f.layout, i, home, t, last) == Hoisted(s.f, i, home, t).layout;
    }
  }

  lemma TurnsStayReady(ctx: Context, s: Snapshot, schedule: seq<nat>)
    requires Valid(s.f) && ContextOk(ctx, s.f)
    ensures Valid(Turns(ctx, s, schedule).f) && ContextOk(ctx, Turns(ctx, s, schedule).f)
    ensures SameCode(s.f, Turns(ctx, s, schedule).f)
  {
    TurnsKeepMeaning(ctx, s, schedule);
  }

  // ----- The live values Phase 2 keeps -----

  /** The tracked values of the instructions that are in block b of g and were not in block b of f. */
  function HoistedInto(f: Func, g: Func, universe: set<Ref>, b: nat): set<Ref> {
    set r | r in universe && r.Inst? && r.id < |f.info| && !f.info[r.id].isVoid && In(g, b, r.id) && !In(f, b, r.id)
  }

  /** The live set kept for a block is the one it started with and the values hoisted into the block. */
  lemma {:induction false} LiveAfterTurns(ctx: Context, s: Snapshot, schedule: seq<nat>, b: nat)
    requires Valid(s.f) && ContextOk(ctx, s.f) && NoDup(schedule)
    ensures LiveOf(Turns(ctx, s, schedule), b)
         == LiveOf(s, b) + HoistedInto(s.f, Turns(ctx, s, schedule).f, ctx.options.universe, b)
  {
    if schedule != [] {
      var n := |schedule| - 1;
      var mid, i := Turns(ctx, s, schedule[..n]), schedule[n];
      LiveAfterTurns(ctx, s, schedule[..n], b);
      TurnsStayReady(ctx, s, schedule[..n]);
      NotYetMoved(ctx, s, schedule[..n], i);
      LiveAfterTurn(ctx, s.f, LiveOf(s, b), mid, i, b);
    }
  }

  /** A turn adds to the live set what it adds to the block. */
  lemma LiveAfterTurn(ctx: Context, f: Func, start: set<Ref>, s: Snapshot, i: nat, b: nat)
    requires Valid(s.f) && ContextOk(ctx, s.f) && WellFormed(f) && SameCode(f, s.f) && Home(s.f, i) == Home(f, i)
    requires LiveOf(s, b) == start + HoistedInto(f, s.f, ctx.options.universe, b)
    ensures LiveOf(Turn(ctx, s, i), b) == start + HoistedInto(f, Turn(ctx, s, i).f, ctx.options.universe, b)
  {
    TurnOnlyMoves(ctx, s, i);
    TurnKeepsMeaning(ctx, s, i);
    if Home(Turn(ctx, s, i).f, i) != Home(s.f, i) {
      HoistedIntoGrows(f, start, s, Turn(ctx, s, i), ctx.options.universe, i, b);
    }
  }

  lemma HoistedIntoGrows(f: Func, start: set<Ref>, s: Snapshot, s': Snapshot, universe: set<Ref>, i: nat, b: nat)
    requires WellFormed(f) && WellFormed(s.f) && WellFormed(s'.f) && SameCode(f, s.f)
    requires Home(s.f, i) == Home(f, i) != Home(s'.f, i) && OnlyMoves(s, s', universe, i, Home(s'.f, i))
    requires LiveOf(s, b) == start + HoistedInto(f, s.f, universe, b)
    ensures LiveOf(s', b) == start + HoistedInto(f, s'.f, universe, b)
  {
    var t := Home(s'.f, i);
    forall d: nat
      ensures In(s'.f, b, d) <==> if d == i then b == t else In(s.f, b, d)
    {
      MovesOne(s, s', universe, i, t, b, d);
    }
    InItsHome(f, b, i);
    InItsHome(s.f, b, i);
    var before, after := HoistedInto(f, s.f, universe, b), HoistedInto(f, s'.f, universe, b);
    forall r: Ref
      ensures r in after <==> r in before || (b == t && r == Inst(i) && r in universe && !f.info[i].isVoid)
    {
      if r.Inst? {
        assert In(s'.f, b, r.id) <==> if r.id == i then b == t else In(s.f, b, r.id);
      }
    }
  }

  lemma MovesOne(s: Snapshot, s': Snapshot, universe: set<Ref>, i: nat, t: nat, b: nat, d: nat)
    requires WellFormed(s.f) && WellFormed(s'.f) && OnlyMoves(s, s', universe, i, t) && t == Home(s'.f, i)
    ensures In(s'.f, b, d) <==> if d == i then b == t else In(s.f, b, d)
  {
    if d == i {
      assert In(s'.f, t, i);
    } else if b < |s.f.layout| {
      WithoutContents(s.f.layout[b], i, d);
      WithoutContents(s'.f.layout[b], i, d);
    }
  }

  // ----- The code Phase 2 leaves in a block -----

  /** The elements of code that are in `now`, in order. */
  function Staying(code: seq<nat>, now: seq<nat>): seq<nat> {
    if code == [] then []
    else
      var rest := Staying(code[..|code| - 1], now);
      if code[|code| - 1] in now then rest + [code[|code| - 1]] else rest
  }

  /** The elements of the schedule that are in `now` and were not in `before`, in order. */
  function Arriving(schedule: seq<nat>, before: seq<nat>, now: seq<nat>): seq<nat> {
    if schedule == [] then []
    else
      var rest := Arriving(schedule[..|schedule| - 1], before, now);
      var i := schedule[|schedule| - 1];
      if i in now && i !in before then rest + [i] else rest
  }

  /** Block code `before` has become `now`: what stayed is in its old order, what arrived stands before the last
      instruction, in schedule order. */
  ghost predicate Woven(schedule: seq<nat>, before: seq<nat>, now: seq<nat>) {
    var stay, come := Staying(before, now), Arriving(schedule, before, now);
    if come == [] then now == stay
    else |stay| > 0 && now == stay[..|stay| - 1] + come + [stay[|stay| - 1]]
  }

  lemma {:induction false} StayingSame(code: seq<nat>, a: seq<nat>, b: seq<nat>)
    requires forall x :: x in code ==> (x in a <==> x in b)
    ensures Staying(code, a) == Staying(code, b)
  {
    if code != [] {
      assert code[|code| - 1] in code;
      StayingSame(code[..|code| - 1], a, b);
    }
  }

  lemma {:induction false} StayingAll(code: seq<nat>, now: seq<nat>)
    requires forall x :: x in code ==> x in now
    ensures Staying(code, now) == code
  {
    if code != [] {
      assert code[|code| - 1] in code;
      StayingAll(code[..|code| - 1], now);
    }
  }

  lemma {:induction false} StayingWithout(code: seq<nat>, a: seq<nat>, b: seq<nat>, i: nat)
    requires forall x :: x in code ==> (x in b <==> x in a && x != i)
    ensures Staying(code, b) == Without(Staying(code, a), i)
  {
    if code != [] {
      assert code[|code| - 1] in code;
      StayingWithout(code[..|code| - 1], a, b, i);
    }
  }

  lemma {:induction false} ArrivingSame(schedule: seq<nat>, before: seq<nat>, a: seq<nat>, b: seq<nat>)
    requires forall x :: x in schedule && x !in before ==> (x in a <==> x in b)
    ensures Arriving(schedule, before, a) == Arriving(schedule, before, b)
  {
    if schedule != [] {
      assert schedule[|schedule| - 1] in schedule;
      ArrivingSame(schedule[..|schedule| - 1], before, a, b);
    }
  }

  lemma {:induction false} ArrivingContents(schedule: seq<nat>, before: seq<nat>, now: seq<nat>, x: nat)
    ensures x in Arriving(schedule, before, now) <==> x in schedule && x in now && x !in before
  {
    if schedule != [] {
      var n := |schedule| - 1;
      assert schedule == schedule[..n] + [schedule[n]];
      ArrivingContents(schedule[..n], before, now, x);
    }
  }

  /** What the turns keep about block code. */
  ghost predicate Weaving(f: Func, schedule: seq<nat>, before: seq<nat>, now: seq<nat>) {
    Woven(schedule, before, now) && (Arriving(schedule, before, now) != [] ==> EndsInTerminator(f, now))
  }

  lemma WeaveNone(f: Func, schedule: seq<nat>, before: seq<nat>, now: seq<nat>, i: nat)
    requires Weaving(f, schedule, before, now) && (i in now ==> i in before)
    ensures Weaving(f, schedule + [i], before, now)
  {
    assert (schedule + [i])[..|schedule|] == schedule;
  }

  /** An instruction that was there from the start leaves. */
  lemma WeaveOut(f: Func, schedule: seq<nat>, before: seq<nat>, now: seq<nat>, i: nat)
    requires Weaving(f, schedule, before, now) && i in before && IsPure(f.info, i)
    ensures Weaving(f, schedule + [i], before, Without(now, i))
  {
    var now' := Without(now, i);
    forall x: nat
      ensures x in now' <==> x in now && x != i
    {
      WithoutContents(now, i, x);
    }
    StayingWithout(before, now, now', i);
    assert (schedule + [i])[..|schedule|] == schedule;
    ArrivingSame(schedule, before, now, now');
    ArrivingContents(schedule, before, now, i);
    var stay, come := Staying(before, now), Arriving(schedule, before, now);
    if come != [] {
      var front, last := stay[..|stay| - 1], stay[|stay| - 1];
      assert now[|now| - 1] == last && last != i;
      WithoutAppend(front + come, [last], i);
      WithoutAppend(front, come, i);
      WithoutAbsent(come, i);
      WithoutAbsent([last], i);
      LastOfWithout(stay, i);
    }
  }

  /** A new instruction arrives. */
  lemma WeaveIn(f: Func, schedule: seq<nat>, before: seq<nat>, now: seq<nat>, i: nat)
    requires Weaving(f, schedule, before, now) && i !in before && i !in schedule && i !in now
    requires EndsInTerminator(f, now)
    ensures Weaving(f, schedule + [i], before, BeforeLast(now, i))
  {
    var now' := BeforeLast(now, i);
    forall x: nat
      ensures x in now' <==> x in now || x == i
    {
      BeforeLastContents(now, i, x);
    }
    StayingSame(before, now, now');
    assert (schedule + [i])[..|schedule|] == schedule;
    ArrivingSame(schedule, before, now, now');
    var stay, come := Staying(before, now), Arriving(schedule, before, now);
    assert Arriving(schedule + [i], before, now') == come + [i];
    if come == [] {
      assert now' == stay[..|stay| - 1] + [i] + [stay[|stay| - 1]];
    } else {
      var front, last := stay[..|stay| - 1], stay[|stay| - 1];
      assert now[..|now| - 1] == front + come;
      assert front + come + [i] == front + (come + [i]);
    }
  }

  lemma WeaveTurn(ctx: Context, f: Func, schedule: seq<nat>, s: Snapshot, i: nat, b: nat)
    requires Valid(s.f) && ContextOk(ctx, s.f) && WellFormed(f) && SameCode(f, s.f) && b < |f.layout|
    requires Weaving(f, schedule, f.layout[b], s.f.layout[b]) && i !in schedule && Home(s.f, i) == Home(f, i)
    ensures Weaving(f, schedule + [i], f.layout[b], Turn(ctx, s, i).f.layout[b])
  {
    var home := Home(s.f, i);
    InItsHome(s.f, b, i);
    InItsHome(f, b, i);
    if Destination(ctx, s, i).Some? {
      var t := Destination(ctx, s, i).value;
      PassedGates(ctx, s, i, t);
      if b == home {
        WeaveOut(f, schedule, f.layout[b], s.f.layout[b], i);
      } else if b == t {
        WeaveIn(f, schedule, f.layout[b], s.f.layout[b], i);
      } else {
        WeaveNone(f, schedule, f.layout[b], s.f.layout[b], i);
      }
    } else {
      WeaveNone(f, schedule, f.layout[b], s.f.layout[b], i);
    }
  }

  /** After any turns a block holds what stayed, in its order, and before its terminator what arrived, in schedule
      order. */
  lemma {:induction false} TurnsWeave(ctx: Context, s: Snapshot, schedule: seq<nat>, b: nat)
    requires Valid(s.f) && ContextOk(ctx, s.f) && NoDup(schedule) && b < |s.f.layout|
    ensures |Turns(ctx, s, schedule).f.layout| == |s.f.layout|
    ensures Weaving(s.f, schedule, s.f.layout[b], Turns(ctx, s, schedule).f.layout[b])
  {
    TurnsStayReady(ctx, s, schedule);
    if schedule == [] {
      StayingAll(s.f.layout[b], s.f.layout[b]);
    } else {
      var front, i := schedule[..|schedule| - 1], schedule[|schedule| - 1];
      assert schedule == front + [i];
      TurnsWeave(ctx, s, front, b);
      TurnsStayReady(ctx, s, front);
      NotYetMoved(ctx, s, front, i);
      WeaveTurn(ctx, s.f, front, Turns(ctx, s, front), i, b);
    }
  }
}
