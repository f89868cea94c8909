/** Predicted and actual register pressure (include/listScheduler.hpp): pressureDelta and updateLiveSet.

    A live set is a set of values. The universe holds the values that have a bit: arguments and non-void
    instructions. `out` is the live-out set of the block the instruction is in.
 */
module Pressure {
  import opened Ir

  // ----- Specification -----

  /** The value instruction i defines, if it has a bit. */
  function Defines(i: nat, instr: Instr, universe: set<Ref>): set<Ref> {
    if !instr.isVoid && Inst(i) in universe then {Inst(i)} else {}
  }

  predicate Dies(r: Ref, universe: set<Ref>, live: set<Ref>, out: set<Ref>) {
    r in universe && r in live && r !in out
  }

  /** Operand occurrences that die, with multiplicity. */
  function Deaths(ops: seq<Ref>, universe: set<Ref>, live: set<Ref>, out: set<Ref>): nat {
    if ops == [] then 0
    else Deaths(ops[..|ops| - 1], universe, live, out) + (if Dies(ops[|ops| - 1], universe, live, out) then 1 else 0)
  }

  function Delta(i: nat, instr: Instr, universe: set<Ref>, live: set<Ref>, out: set<Ref>): int {
    (if Defines(i, instr, universe) - live != {} then 1 else 0) - Deaths(instr.operands, universe, live, out)
  }

  /** The live set after instruction i. */
  function After(i: nat, instr: Instr, universe: set<Ref>, live: set<Ref>, out: set<Ref>): set<Ref> {
    (live + Defines(i, instr, universe)) - (set r | r in instr.operands && r in universe && r !in out)
  }

  // ----- The two loops -----

  method PressureDelta(i: nat, instr: Instr, universe: set<Ref>, live: set<Ref>, out: set<Ref>) returns (delta: int)
    ensures delta == Delta(i, instr, universe, live, out)
  {
    delta := 0;
    if !instr.isVoid && Inst(i) in universe && Inst(i) !in live {
      delta := delta + 1;
    }
    assert delta == if Defines(i, instr, universe) - live != {} then 1 else 0 by {
      assert Inst(i) in Defines(i, instr, universe) - live <==> delta == 1;
    }
    ghost var born := delta;
    var ops := instr.operands;
    for k := 0 to |ops|
      invariant delta == born - Deaths(ops[..k], universe, live, out)
    {
      assert ops[..k + 1][..k] == ops[..k];
      if ops[k] in universe && ops[k] in live && ops[k] !in out {
        delta := delta - 1;
      }
    }
    assert ops[..|ops|] == ops;
  }

  method UpdateLiveSet(i: nat, instr: Instr, universe: set<Ref>, live: set<Ref>, out: set<Ref>)
    returns (live': set<Ref>)
    ensures live' == After(i, instr, universe, live, out)
  {
    live' := live;
    if !instr.isVoid && Inst(i) in universe {
      live' := live' + {Inst(i)};
    }
    ghost var base := live';
    var ops := instr.operands;
    for k := 0 to |ops|
      invariant live' == base - (set r | r in ops[..k] && r in universe && r !in out)
    {
      assert ops[..k + 1] == ops[..k] + [ops[k]];
      if ops[k] in universe && ops[k] !in out {
        live' := live' - {ops[k]};
      }
    }
    assert ops[..|ops|] == ops;
  }

  // ----- Prediction against effect -----

  function Dead(ops: seq<Ref>, universe: set<Ref>, live: set<Ref>, out: set<Ref>): set<Ref> {
    set r | r in ops && Dies(r, universe, live, out)
  }

  /** Some dying live operand occurs twice. */
  ghost predicate DiesTwice(ops: seq<Ref>, universe: set<Ref>, live: set<Ref>, out: set<Ref>) {
    exists j, k :: 0 <= j < k < |ops| && ops[j] == ops[k] && Dies(ops[j], universe, live, out)
  }

  lemma {:induction false} DeathsCountDead(ops: seq<Ref>, universe: set<Ref>, live: set<Ref>, out: set<Ref>)
    ensures |Dead(ops, universe, live, out)| <= Deaths(ops, universe, live, out)
    ensures |Dead(ops, universe, live, out)| == Deaths(ops, universe, live, out) <==>
              !DiesTwice(ops, universe, live, out)
  {
    if ops != [] {
      var n := |ops| - 1;
      var front, r := ops[..n], ops[n];
      DeathsCountDead(front, universe, live, out);
      assert ops == front + [r];
      var d := Dead(front, universe, live, out);
      if Dies(r, universe, live, out) {
        assert Dead(ops, universe, live, out) == d + {r};
        if r in front {
          var j :| 0 <= j < n && front[j] == r;
          assert ops[j] == ops[n];
          assert d + {r} == d;
        } else {
          DiesTwiceFront(ops, universe, live, out);
        }
      } else {
        assert Dead(ops, universe, live, out) == d;
        DiesTwiceFront(ops, universe, live, out);
      }
    }
  }

  lemma DiesTwiceFront(ops: seq<Ref>, universe: set<Ref>, live: set<Ref>, out: set<Ref>)
    requires ops != []
    requires Dies(ops[|ops| - 1], universe, live, out) ==> ops[|ops| - 1] !in ops[..|ops| - 1]
    ensures DiesTwice(ops, universe, live, out) <==> DiesTwice(ops[..|ops| - 1], universe, live, out)
  {
    var n := |ops| - 1;
    var front := ops[..n];
    if DiesTwice(ops, universe, live, out) {
      var j, k :| 0 <= j < k < |ops| && ops[j] == ops[k] && Dies(ops[j], universe, live, out);
      assert front[j] == ops[j] && front[j] in front;
      assert k < n;
      assert front[k] == ops[k];
    }
    if DiesTwice(front, universe, live, out) {
      var j, k :| 0 <= j < k < n && front[j] == front[k] && Dies(front[j], universe, live, out);
      assert ops[j] == ops[k];
    }
  }

  lemma SizeAfter(live: set<Ref>, dead: set<Ref>, born: set<Ref>)
    requires dead <= live && born * live == {}
    ensures |(live - dead) + born| == |live| - |dead| + |born|
  {
    assert |live - dead| == |live| - |dead|;
    assert (live - dead) * born == {};
  }

  lemma AfterIsLiveMinusDead(i: nat, instr: Instr, universe: set<Ref>, live: set<Ref>, out: set<Ref>)
    requires Inst(i) !in instr.operands
    ensures After(i, instr, universe, live, out)
         == (live - Dead(instr.operands, universe, live, out)) + (Defines(i, instr, universe) - live)
    ensures Dead(instr.operands, universe, live, out) <= live
  {
  }

  /** For an instruction that is not its own operand the prediction never exceeds the actual change, and it is
      exact just when no dying operand is listed twice. */
  lemma PredictionIsLowerBound(i: nat, instr: Instr, universe: set<Ref>, live: set<Ref>, out: set<Ref>)
    requires Inst(i) !in instr.operands
    ensures Delta(i, instr, universe, live, out) <= |After(i, instr, universe, live, out)| - |live|
    ensures Delta(i, instr, universe, live, out) == |After(i, instr, universe, live, out)| - |live| <==>
              !DiesTwice(instr.operands, universe, live, out)
  {
    var born := Defines(i, instr, universe) - live;
    var dead := Dead(instr.operands, universe, live, out);
    DeathsCountDead(instr.operands, universe, live, out);
    AfterIsLiveMinusDead(i, instr, universe, live, out);
    SizeAfter(live, dead, born);
    assert born == if born != {} then {Inst(i)} else {};
  }

  // ----- Over a whole schedule -----

  /** The live set after scheduling xs; outs gives each instruction's block live-out set. */
  ghost function AfterAll(f: Func, universe: set<Ref>, outs: nat -> set<Ref>, live: set<Ref>, xs: seq<nat>): set<Ref> {
    if xs == [] then live
    else
      var i := xs[|xs| - 1];
      var before := AfterAll(f, universe, outs, live, xs[..|xs| - 1]);
      if i < |f.info| then After(i, f.info[i], universe, before, outs(i)) else before
  }

  ghost function SumOfDeltas(f: Func, universe: set<Ref>, outs: nat -> set<Ref>, live: set<Ref>, xs: seq<nat>): int {
    if xs == [] then 0
    else
      var i := xs[|xs| - 1];
      var before := AfterAll(f, universe, outs, live, xs[..|xs| - 1]);
      SumOfDeltas(f, universe, outs, live, xs[..|xs| - 1])
      + (if i < |f.info| then Delta(i, f.info[i], universe, before, outs(i)) else 0)
  }

  /** Instruction i computes v. */
  ghost predicate Computes(f: Func, universe: set<Ref>, i: nat, v: Ref) {
    i < |f.info| && !f.info[i].isVoid && v == Inst(i) && v in universe
  }

  /** Instruction i uses v, and v is not needed after i's block. */
  ghost predicate UsesUp(f: Func, universe: set<Ref>, outs: nat -> set<Ref>, i: nat, v: Ref) {
    i < |f.info| && v in f.info[i].operands && v in universe && v !in outs(i)
  }

  /** From position k on, nothing uses v up. */
  ghost predicate NotUsedUp(f: Func, universe: set<Ref>, outs: nat -> set<Ref>, xs: seq<nat>, v: Ref, k: nat) {
    forall j :: k <= j < |xs| ==> !UsesUp(f, universe, outs, xs[j], v)
  }

  /** A value is live after some instructions exactly if it was live at first or one of them computed it, and neither
      that one nor any later one used it up. */
  lemma {:induction false} LiveAfterAll(f: Func, universe: set<Ref>, outs: nat -> set<Ref>, live: set<Ref>,
                                        xs: seq<nat>, v: Ref)
    ensures v in AfterAll(f, universe, outs, live, xs) <==>
              || (v in live && NotUsedUp(f, universe, outs, xs, v, 0))
              || (exists k :: 0 <= k < |xs| && Computes(f, universe, xs[k], v)
                             && NotUsedUp(f, universe, outs, xs, v, k))
  {
    if xs != [] {
      var n := |xs| - 1;
      LiveAfterAll(f, universe, outs, live, xs[..n], v);
      forall k | 0 <= k <= n
        ensures NotUsedUp(f, universe, outs, xs, v, k) <==>
                  NotUsedUp(f, universe, outs, xs[..n], v, k) && !UsesUp(f, universe, outs, xs[n], v)
      {
        assert forall j :: 0 <= j < n ==> xs[..n][j] == xs[j];
      }
      assert forall k :: 0 <= k < n ==> xs[..n][k] == xs[k];
    }
  }

  /** The final live count is at least the initial one plus every prediction made on the way. */
  lemma {:induction false} PredictionsSumToLowerBound(f: Func, universe: set<Ref>, outs: nat -> set<Ref>,
                                                      live: set<Ref>, xs: seq<nat>)
    requires forall i: nat :: i in xs ==> !Uses(f, i, i)
    ensures |live| + SumOfDeltas(f, universe, outs, live, xs) <= |AfterAll(f, universe, outs, live, xs)|
  {
    if xs != [] {
      var n := |xs| - 1;
      PredictionsSumToLowerBound(f, universe, outs, live, xs[..n]);
      assert xs[n] in xs;
      if xs[n] < |f.info| {
        PredictionIsLowerBound(xs[n], f.info[xs[n]], universe, AfterAll(f, universe, outs, live, xs[..n]), outs(xs[n]));
      }
    }
  }
}
