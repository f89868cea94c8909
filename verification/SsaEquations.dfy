/** What valid SSA guarantees about every run: a definition that dominates the current point has been
    computed, and a pure one still equals its own right-hand side, even around loops.
 */
module SsaEquations {
  import opened Graphs
  import opened Ir
  import opened Semantics

  /** At a point d dominates, d has a value, and if d is pure that value solves d's equation. */
  ghost predicate Holds(f: Func, w: World, d: nat, b: nat, k: nat, env: Env)
    requires b < |f.layout| && k <= |f.layout[b]|
  {
    Available(f, d, b, k) ==>
      && d in env
      && (IsPure(f.info, d) ==> Eval(f, w, d, env) == Some(env[d]))
  }

  ghost predicate HoldsIn(f: Func, w: World, d: nat, b: nat, k: nat, s: State)
    requires b < |f.layout| && k <= |f.layout[b]|
  {
    s.Trapped? || Holds(f, w, d, b, k, s.env)
  }

  /** Writing j keeps d's equation when j is not an operand of d. */
  lemma WriteElsewhere(f: Func, w: World, d: nat, env: Env, j: nat, v: int)
    requires d < |f.info| && !Uses(f, d, j)
    ensures Eval(f, w, d, env[j := v]) == Eval(f, w, d, env)
  {
    ReadAllAgree(w, env[j := v], env, f.info[d].operands);
  }

  /** The instruction about to execute is not an operand of a definition that dominates it. */
  lemma OperandsAreDone(f: Func, d: nat, b: nat, k: nat)
    requires Valid(f) && b < |f.layout| && k < |f.layout[b]| && Reachable(f.succ, b)
    requires IsPure(f.info, d) && Available(f, d, b, k)
    ensures !Uses(f, d, f.layout[b][k])
  {
    var j := f.layout[b][k];
    if Uses(f, d, j) {
      var a := BlockHolding(f, d, b, k);
      var m :| 0 <= m < |f.layout[a]| && f.layout[a][m] == d;
      assert ValidAt(f, a, m);
      AvailableTransitive(f, j, a, m, b, k);
      NotAvailableAtSelf(f, b, k);
    }
  }

  lemma BlockHolding(f: Func, d: nat, b: nat, k: nat) returns (a: nat)
    requires WellFormed(f) && b < |f.layout| && k <= |f.layout[b]| && Reachable(f.succ, b)
    requires Available(f, d, b, k)
    ensures In(f, a, d) && Reachable(f.succ, a)
  {
    if d in f.layout[b][..k] {
      a := b;
    } else {
      a :| In(f, a, d) && StrictlyDominates(f.succ, a, b);
      DominatorReachable(f.succ, a, b);
    }
  }

  lemma NotOwnOperand(f: Func, b: nat, k: nat)
    requires Valid(f) && b < |f.layout| && k < |f.layout[b]| && Reachable(f.succ, b)
    requires IsPure(f.info, f.layout[b][k])
    ensures !Uses(f, f.layout[b][k], f.layout[b][k])
  {
    assert ValidAt(f, b, k);
    NotAvailableAtSelf(f, b, k);
  }

  lemma StepHolds(f: Func, w: World, d: nat, b: nat, k: nat, from: Entry, s: State)
    requires Valid(f) && b < |f.layout| && k < |f.layout[b]| && Reachable(f.succ, b)
    requires s.Running? && Holds(f, w, d, b, k, s.env)
    ensures HoldsIn(f, w, d, b, k + 1, Step(f, w, from, s, f.layout[b][k]))
  {
    var j := f.layout[b][k];
    assert In(f, b, j);
    var t := Step(f, w, from, s, j);
    if !t.Trapped? && Available(f, d, b, k + 1) {
      var v := t.env[j];
      assert t.env == s.env[j := v];
      if d == j {
        if IsPure(f.info, d) {
          NotOwnOperand(f, b, k);
          WriteElsewhere(f, w, d, s.env, j, v);
        }
      } else {
        assert Available(f, d, b, k);
        if IsPure(f.info, d) {
          OperandsAreDone(f, d, b, k);
          WriteElsewhere(f, w, d, s.env, j, v);
        }
      }
    }
  }

  /** Only the last instruction of a block can leave it. */
  lemma {:induction false} JumpsAtEnd(f: Func, w: World, from: Entry, s: State, b: nat, k: nat)
    requires WellFormed(f) && b < |f.layout| && k <= |f.layout[b]| && s.Running?
    ensures Exec(f, w, from, s, f.layout[b][..k]).Jumped? ==> k == |f.layout[b]|
  {
    if k > 0 {
      JumpsAtEnd(f, w, from, s, b, k - 1);
      ExecSnoc(f, w, from, s, f.layout[b], k - 1);
      assert In(f, b, f.layout[b][k - 1]);
    }
  }

  lemma {:induction false} PrefixHolds(f: Func, w: World, d: nat, b: nat, k: nat, from: Entry, s: State)
    requires Valid(f) && b < |f.layout| && k <= |f.layout[b]| && Reachable(f.succ, b)
    requires s.Running? && Holds(f, w, d, b, 0, s.env)
    ensures HoldsIn(f, w, d, b, k, Exec(f, w, from, s, f.layout[b][..k]))
  {
    if k > 0 {
      PrefixHolds(f, w, d, b, k - 1, from, s);
      ExecSnoc(f, w, from, s, f.layout[b], k - 1);
      JumpsAtEnd(f, w, from, s, b, k - 1);
      var t := Exec(f, w, from, s, f.layout[b][..k - 1]);
      if t.Running? {
        StepHolds(f, w, d, b, k - 1, from, t);
      }
    }
  }

  lemma {:induction false} EntryHolds(f: Func, w: World, d: nat, n: nat)
    requires Valid(f) && Run(f, w, n).At?
    ensures Run(f, w, n).block < |f.layout|
    ensures Holds(f, w, d, Run(f, w, n).block, 0, Run(f, w, n).from.env)
  {
    RunReachable(f, w, n);
    var e := Run(f, w, n);
    if n == 0 {
      forall a: nat {
        NothingStrictlyDominatesEntry(f.succ, a);
      }
    } else {
      var c := Run(f, w, n - 1);
      RunReachable(f, w, n - 1);
      var code := f.layout[c.block];
      EntryHolds(f, w, d, n - 1);
      PrefixHolds(f, w, d, c.block, |code|, c.from, Enter(f, w, c));
      assert code[..|code|] == code;
      if Available(f, d, e.block, 0) {
        AvailableAcrossEdge(f, d, c.block, e.block);
      }
    }
  }

  /** In every run of a valid function, at every point, for every definition. */
  lemma EquationsHold(f: Func, w: World, d: nat, n: nat, k: nat)
    requires Valid(f) && Run(f, w, n).At?
    ensures Run(f, w, n).block < |f.layout|
    ensures k <= |f.layout[Run(f, w, n).block]| ==>
      var c := Run(f, w, n);
      HoldsIn(f, w, d, c.block, k, Exec(f, w, c.from, Enter(f, w, c), f.layout[c.block][..k]))
  {
    RunReachable(f, w, n);
    var c := Run(f, w, n);
    EntryHolds(f, w, d, n);
    if k <= |f.layout[c.block]| {
      PrefixHolds(f, w, d, c.block, k, c.from, Enter(f, w, c));
    }
  }

  predicate IsPhiAt(f: Func, b: nat, k: nat) {
    b < |f.layout| && k < |f.layout[b]| && f.layout[b][k] < |f.info| && f.info[f.layout[b][k]].isPhi
  }

  /** The PHI has an entry for the block control came from, and the value it names had been computed there. */
  ghost predicate PhiReadDefined(phi: Instr, from: Entry)
    requires from.pred.Some?
  {
    && PhiOperand(phi, from.pred.value).Some?
    && forall d: nat :: PhiOperand(phi, from.pred.value) == Some(Inst(d)) ==> d in from.env
  }

  /** A block entered along an edge is entered with what its predecessor ended with. */
  lemma CameFrom(f: Func, w: World, c: Config)
    requires c.At? && c.block < |f.layout| && BlockStep(f, w, c).At?
    ensures var t := Exec(f, w, c.from, Enter(f, w, c), f.layout[c.block]);
      && t.Jumped? && BlockStep(f, w, c).from == Entry(Some(c.block), t.env)
      && Edge(f.succ, c.block, BlockStep(f, w, c).block)
  {
  }

  lemma PhiReadIsDefined(f: Func, w: World, n: nat, e: Config, k: nat)
    requires Valid(f) && Run(f, w, n).At? && e == BlockStep(f, w, Run(f, w, n)) && e.At? && IsPhiAt(f, e.block, k)
    ensures e.from.pred.Some? && PhiReadDefined(f.info[f.layout[e.block][k]], e.from)
  {
    RunReachable(f, w, n);
    var c := Run(f, w, n);
    CameFrom(f, w, c);
    ReachesStep(f.succ, 0, c.block, e.block);
    var phi, code := f.info[f.layout[e.block][k]], f.layout[c.block];
    assert ValidAt(f, e.block, k);
    assert code[..|code|] == code;
    forall d: nat | PhiOperand(phi, c.block) == Some(Inst(d))
      ensures d in e.from.env
    {
      EquationsHold(f, w, d, n, |code|);
    }
  }

  /** No run of a valid function reads a value that has not been computed: ordinary instructions read what is there,
      PHIs what was there when control left the predecessor. */
  lemma NoUndefinedRead(f: Func, w: World, n: nat, k: nat, d: nat)
    requires Valid(f) && Run(f, w, n).At?
    ensures var c := Run(f, w, n);
      c.block < |f.layout| &&
      (k < |f.layout[c.block]| && f.layout[c.block][k] < |f.info| && !f.info[f.layout[c.block][k]].isPhi
       && Uses(f, f.layout[c.block][k], d) ==>
         var s := Exec(f, w, c.from, Enter(f, w, c), f.layout[c.block][..k]);
         s.Trapped? || d in s.env)
    ensures IsPhiAt(f, Run(f, w, n).block, k) && Run(f, w, n).from.pred.Some? ==>
              PhiReadDefined(f.info[f.layout[Run(f, w, n).block][k]], Run(f, w, n).from)
  {
    if IsPhiAt(f, Run(f, w, n).block, k) && Run(f, w, n).from.pred.Some? {
      RunReachable(f, w, n - 1);
      PhiReadIsDefined(f, w, n - 1, Run(f, w, n), k);
    }
    RunReachable(f, w, n);
    var c := Run(f, w, n);
    if k < |f.layout[c.block]| {
      assert ValidAt(f, c.block, k);
      EquationsHold(f, w, d, n, k);
    }
  }
}
