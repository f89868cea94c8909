/** The elementary cross-block move: one pure instruction leaves its block y and is placed just before the
    terminator of a block t that strictly dominates y. It keeps SSA validity and every run.
 */
module Hoisting {
  import opened Graphs
  import opened Ir
  import opened Lists
  import opened Semantics
  import opened SsaEquations

  predicate EndsInTerminator(f: Func, code: seq<nat>) {
    |code| > 0 && code[|code| - 1] < |f.info| && f.info[code[|code| - 1]].isTerminator
  }

  /** What the source checks before moving i from y to the end of t, apart from speculation safety. */
  ghost predicate CanHoist(f: Func, i: nat, y: nat, t: nat) {
    && IsPure(f.info, i)
    && In(f, y, i)
    && t < |f.layout|
    && Reachable(f.succ, y)
    && StrictlyDominates(f.succ, t, y)
    && EndsInTerminator(f, f.layout[t])
    && OperandsAvailable(f, i, t)
  }

  ghost predicate OperandsAvailable(f: Func, i: nat, t: nat)
    requires t < |f.layout| && |f.layout[t]| > 0
  {
    forall d: nat :: Uses(f, i, d) ==> Available(f, d, t, |f.layout[t]| - 1)
  }

  function Hoisted(f: Func, i: nat, y: nat, t: nat): Func
    requires y < |f.layout| && t < |f.layout| && |f.layout[t]| > 0
  {
    f.(layout := f.layout[y := Without(f.layout[y], i)][t := BeforeLast(f.layout[t], i)])
  }

  /** No run of f makes i trap when evaluated just before the terminator of t. */
  ghost predicate NoTrapAt(f: Func, w: World, i: nat, t: nat)
    requires i < |f.info| && t < |f.layout| && |f.layout[t]| > 0
  {
    forall n: nat :: Run(f, w, n).At? && Run(f, w, n).block == t ==>
      var c := Run(f, w, n);
      var s := Exec(f, w, c.from, Enter(f, w, c), f.layout[t][..|f.layout[t]| - 1]);
      s.Running? ==> Eval(f, w, i, s.env).Some?
  }

  // ----- Validity -----

  lemma HoistedPlaces(f: Func, i: nat, y: nat, t: nat, b: nat, d: nat)
    requires WellFormed(f) && CanHoist(f, i, y, t)
    ensures In(Hoisted(f, i, y, t), b, d) <==> if d == i then b == t else In(f, b, d)
  {
    WithoutContents(f.layout[y], i, d);
    BeforeLastContents(f.layout[t], i, d);
    assert !In(f, t, i);
    if d == i && In(f, b, i) {
      assert b == y;
    }
  }

  lemma HoistKeepsWellFormed(f: Func, i: nat, y: nat, t: nat)
    requires WellFormed(f) && CanHoist(f, i, y, t)
    ensures WellFormed(Hoisted(f, i, y, t))
  {
    var g := Hoisted(f, i, y, t);
    forall b: nat, d: nat
      ensures In(g, b, d) <==> if d == i then b == t else In(f, b, d)
    {
      HoistedPlaces(f, i, y, t, b, d);
    }
    assert !In(f, t, i);
    HoistKeepsNoDup(f, i, y, t);
    assert TerminatorsLast(f, f.layout[y]) && TerminatorsLast(f, f.layout[t]);
    var p :| 0 <= p < |f.layout[y]| && f.layout[y][p] == i;
    WithoutAt(f.layout[y], i, p);
    assert TerminatorsLast(f, g.layout[y]) && TerminatorsLast(f, g.layout[t]);
  }

  lemma HoistKeepsNoDup(f: Func, i: nat, y: nat, t: nat)
    requires WellFormed(f) && CanHoist(f, i, y, t)
    ensures forall b :: 0 <= b < |f.layout| ==> NoDup(Hoisted(f, i, y, t).layout[b])
  {
    assert !In(f, t, i);
    WithoutNoDup(f.layout[y], i);
    assert NoDup(BeforeLast(f.layout[t], i));
  }

  /** Availability before a move carries over to the same instruction's new position. */
  lemma AvailableAfterHoist(f: Func, i: nat, y: nat, t: nat, d: nat, b: nat, k: nat, m: nat)
    requires WellFormed(f) && CanHoist(f, i, y, t) && Reachable(f.succ, b)
    requires b < |f.layout| && k <= |f.layout[b]| && Available(f, d, b, k)
    requires m <= |Hoisted(f, i, y, t).layout[b]|
    requires forall j :: 0 <= j < k && f.layout[b][j] != i ==> f.layout[b][j] in Hoisted(f, i, y, t).layout[b][..m]
    ensures Available(Hoisted(f, i, y, t), d, b, m)
  {
    var g := Hoisted(f, i, y, t);
    if d == i {
      HoistReachesFurther(f, i, y, t, b, k);
    } else if AvailableFromAbove(f, d, b) {
      var a: nat :| In(f, a, d) && StrictlyDominates(f.succ, a, b);
      HoistedPlaces(f, i, y, t, a, d);
      assert In(g, a, d);
    }
  }

  /** Wherever i was available, its new definition is available from a strictly dominating block. */
  lemma HoistReachesFurther(f: Func, i: nat, y: nat, t: nat, b: nat, k: nat)
    requires WellFormed(f) && CanHoist(f, i, y, t) && Reachable(f.succ, b)
    requires b < |f.layout| && k <= |f.layout[b]| && (b == y || Available(f, i, b, k))
    ensures AvailableFromAbove(Hoisted(f, i, y, t), i, b)
  {
    HoistedPlaces(f, i, y, t, t, i);
    if b != y {
      assert In(f, b, i) ==> b == y;
      var a: nat :| In(f, a, i) && StrictlyDominates(f.succ, a, b);
      assert a == y;
      StrictlyDominatesTransitive(f.succ, t, y, b);
    }
  }

  /** Position k of the new code and position o of the old hold the same instruction, after the same others. */
  ghost predicate SamePlace(old_: seq<nat>, o: nat, code: seq<nat>, k: nat, i: nat) {
    && o < |old_| && k < |code| && old_[o] == code[k]
    && forall j :: 0 <= j < o && old_[j] != i ==> old_[j] in code[..k]
  }

  lemma PlaceAfterRemoval(code: seq<nat>, i: nat, k: nat) returns (o: nat)
    requires NoDup(code) && i in code && k < |Without(code, i)|
    ensures SamePlace(code, o, Without(code, i), k, i)
  {
    var p :| 0 <= p < |code| && code[p] == i;
    WithoutAt(code, i, p);
    o := if k < p then k else k + 1;
    forall j | 0 <= j < o && code[j] != i
      ensures code[j] in Without(code, i)[..k]
    {
      assert Without(code, i)[..k][if j < p then j else j - 1] == code[j];
    }
  }

  lemma PlaceAfterInsertion(code: seq<nat>, i: nat, k: nat) returns (o: nat)
    requires |code| > 0 && k < |BeforeLast(code, i)| && BeforeLast(code, i)[k] != i
    ensures SamePlace(code, o, BeforeLast(code, i), k, i)
  {
    o := if k < |code| - 1 then k else |code| - 1;
    assert BeforeLast(code, i)[..k][..o] == code[..o];
    assert forall j :: 0 <= j < o ==> code[..o][j] == code[j] && code[j] in code[..o];
  }

  lemma OldPosition(f: Func, i: nat, y: nat, t: nat, b: nat, k: nat) returns (o: nat)
    requires WellFormed(f) && CanHoist(f, i, y, t)
    requires b < |f.layout| && k < |Hoisted(f, i, y, t).layout[b]|
    requires Hoisted(f, i, y, t).layout[b][k] != i
    ensures SamePlace(f.layout[b], o, Hoisted(f, i, y, t).layout[b], k, i)
  {
    if b == t {
      o := PlaceAfterInsertion(f.layout[t], i, k);
    } else if b == y {
      o := PlaceAfterRemoval(f.layout[y], i, k);
    } else {
      o := k;
    }
  }

  lemma HoistKeepsValidAt(f: Func, i: nat, y: nat, t: nat, b: nat, k: nat)
    requires Valid(f) && CanHoist(f, i, y, t)
    requires b < |f.layout| && k < |Hoisted(f, i, y, t).layout[b]| && Reachable(f.succ, b)
    requires Hoisted(f, i, y, t).layout[b][k] < |f.info|
    requires !f.info[Hoisted(f, i, y, t).layout[b][k]].isPhi
    ensures UsesDominated(Hoisted(f, i, y, t), b, k)
  {
    var g := Hoisted(f, i, y, t);
    if g.layout[b][k] == i {
      HoistedPlaces(f, i, y, t, b, i);
      assert In(g, b, i);
      assert b == t;
      HoistKeepsWellFormed(f, i, y, t);
      assert k == |f.layout[t]| - 1 by {
        assert g.layout[t][|f.layout[t]| - 1] == i;
      }
      forall d: nat | Uses(g, i, d)
        ensures Available(g, d, t, k)
      {
        assert Uses(f, i, d);
        assert g.layout[t][..k] == f.layout[t][..k];
        AvailableAfterHoist(f, i, y, t, d, t, k, k);
      }
    } else {
      var o := OldPosition(f, i, y, t, b, k);
      assert ValidAt(f, b, o);
      forall d: nat | Uses(g, g.layout[b][k], d)
        ensures Available(g, d, b, k)
      {
        assert Uses(f, f.layout[b][o], d);
        AvailableAfterHoist(f, i, y, t, d, b, o, k);
      }
    }
  }

  lemma HoistKeepsPhis(f: Func, i: nat, y: nat, t: nat, b: nat, k: nat)
    requires Valid(f) && CanHoist(f, i, y, t)
    requires b < |f.layout| && k < |Hoisted(f, i, y, t).layout[b]| && Reachable(f.succ, b)
    requires Hoisted(f, i, y, t).layout[b][k] < |f.info|
    requires f.info[Hoisted(f, i, y, t).layout[b][k]].isPhi
    ensures PhiUsesDominated(Hoisted(f, i, y, t), b, Hoisted(f, i, y, t).layout[b][k])
  {
    var g := Hoisted(f, i, y, t);
    var phi := g.layout[b][k];
    var o := OldPosition(f, i, y, t, b, k);
    assert ValidAt(f, b, o);
    forall a: nat | Edge(f.succ, a, b) && Reachable(f.succ, a) && a < |f.layout|
      ensures PhiOperand(f.info[phi], a).Some?
      ensures PhiOperand(f.info[phi], a).value.Inst? ==>
                Available(g, PhiOperand(f.info[phi], a).value.id, a, |g.layout[a]|)
    {
      var r := PhiOperand(f.info[phi], a).value;
      if r.Inst? {
        forall j | 0 <= j < |f.layout[a]| && f.layout[a][j] != i
          ensures f.layout[a][j] in g.layout[a][..|g.layout[a]|]
        {
          assert In(f, a, f.layout[a][j]);
          HoistedPlaces(f, i, y, t, a, f.layout[a][j]);
          assert g.layout[a][..|g.layout[a]|] == g.layout[a];
        }
        AvailableAfterHoist(f, i, y, t, r.id, a, |f.layout[a]|, |g.layout[a]|);
      }
    }
  }

  /** SSA validity survives the move. */
  lemma HoistKeepsValid(f: Func, i: nat, y: nat, t: nat)
    requires Valid(f) && CanHoist(f, i, y, t)
    ensures Valid(Hoisted(f, i, y, t))
  {
    var g := Hoisted(f, i, y, t);
    HoistKeepsWellFormed(f, i, y, t);
    forall b: nat, k: nat
      ensures ValidAt(g, b, k)
    {
      if b < |g.layout| && k < |g.layout[b]| && g.layout[b][k] < |g.info| && Reachable(g.succ, b) {
        if g.info[g.layout[b][k]].isPhi {
          HoistKeepsPhis(f, i, y, t, b, k);
        } else {
          HoistKeepsValidAt(f, i, y, t, b, k);
        }
      }
    }
  }

  // ----- Meaning -----

  /** The same state up to the value of i. */
  ghost predicate Twin(i: nat, s: State, t: State) {
    match s
    case Running(env, mem, events) => t.Running? && t.mem == mem && t.events == events && SameOff(i, env, t.env)
    case Jumped(env, mem, events, next) =>
      t.Jumped? && t.mem == mem && t.events == events && t.next == next && SameOff(i, env, t.env)
    case Trapped(mem, events) => t.Trapped? && t.mem == mem && t.events == events
  }

  ghost predicate SameOff(i: nat, e1: Env, e2: Env) {
    forall d: nat :: d != i ==> (d in e1 <==> d in e2) && (d in e1 ==> e1[d] == e2[d])
  }

  lemma SameEval(f: Func, w: World, i: nat, e1: Env, e2: Env)
    requires i < |f.info| && SameOff(i, e1, e2) && !Uses(f, i, i)
    ensures Eval(f, w, i, e1) == Eval(f, w, i, e2)
  {
    forall r | r in f.info[i].operands
      ensures Read(w, e1, r) == Read(w, e2, r)
    {
      ReadOff(w, i, e1, e2, r);
    }
    ReadAllAgree(w, e1, e2, f.info[i].operands);
  }

  lemma ReadOff(w: World, i: nat, e1: Env, e2: Env, r: Ref)
    requires SameOff(i, e1, e2)
    ensures r != Inst(i) ==> Read(w, e1, r) == Read(w, e2, r)
  {
  }

  /** Instruction j reads the same value for i on both sides, if it reads i at all. */
  ghost predicate ReadsAgree(f: Func, w: World, i: nat, from1: Entry, from2: Entry, s1: State, s2: State, j: nat) {
    s1.Running? && s2.Running? && j < |f.info| ==>
      if f.info[j].isPhi then
        from1.pred.Some? && PhiOperand(f.info[j], from1.pred.value) == Some(Inst(i)) ==>
          Read(w, from1.env, Inst(i)) == Read(w, from2.env, Inst(i))
      else
        Uses(f, j, i) ==> Read(w, s1.env, Inst(i)) == Read(w, s2.env, Inst(i))
  }

  /** One instruction, executed from twin states that agree on what it reads. */
  lemma TwinStep(f: Func, w: World, i: nat, from1: Entry, from2: Entry, s1: State, s2: State, j: nat)
    requires Twin(i, s1, s2) && from1.pred == from2.pred && SameOff(i, from1.env, from2.env)
    requires ReadsAgree(f, w, i, from1, from2, s1, s2, j)
    ensures Twin(i, Step(f, w, from1, s1, j), Step(f, w, from2, s2, j))
  {
    if s1.Running? && j < |f.info| {
      var instr := f.info[j];
      if instr.isPhi {
        if from1.pred.Some? && PhiOperand(instr, from1.pred.value).Some? {
          ReadOff(w, i, from1.env, from2.env, PhiOperand(instr, from1.pred.value).value);
        }
      } else {
        forall r | r in instr.operands
          ensures Read(w, s1.env, r) == Read(w, s2.env, r)
        {
          ReadOff(w, i, s1.env, s2.env, r);
        }
        ReadAllAgree(w, s1.env, s2.env, instr.operands);
      }
    }
  }

  /** Two prefixes that lead to twin states, each extended by the same instruction. */
  lemma TwinExtend(f: Func, g: Func, w: World, i: nat, from1: Entry, from2: Entry, e1: State, e2: State,
                   code1: seq<nat>, k: nat, code2: seq<nat>, m: nat)
    requires g.info == f.info && from1.pred == from2.pred && SameOff(i, from1.env, from2.env)
    requires k < |code1| && m < |code2| && code1[k] == code2[m]
    requires Twin(i, Exec(f, w, from1, e1, code1[..k]), Exec(g, w, from2, e2, code2[..m]))
    requires ReadsAgree(f, w, i, from1, from2, Exec(f, w, from1, e1, code1[..k]),
                        Exec(g, w, from2, e2, code2[..m]), code1[k])
    ensures Twin(i, Exec(f, w, from1, e1, code1[..k + 1]), Exec(g, w, from2, e2, code2[..m + 1]))
  {
    ExecSnoc(f, w, from1, e1, code1, k);
    ExecSnoc(g, w, from2, e2, code2, m);
    TwinStep(f, w, i, from1, from2, Exec(f, w, from1, e1, code1[..k]), Exec(g, w, from2, e2, code2[..m]), code1[k]);
  }

  /** Executing i itself on one side only. */
  lemma TwinSkip(f: Func, w: World, i: nat, from: Entry, s: State, t: State)
    requires IsPure(f.info, i) && Twin(i, s, t) && s.Running? && Eval(f, w, i, s.env).Some?
    ensures Twin(i, Step(f, w, from, s, i), t) && Twin(i, t, Step(f, w, from, s, i))
  {
  }

  /** Two configurations of the original and the hoisted function that agree up to i. */
  ghost predicate TwinConfigs(f: Func, w: World, i: nat, c: Config, d: Config) {
    && Observe(c) == Observe(d)
    && (c.At? ==>
          && c.block == d.block
          && c.from.pred == d.from.pred
          && SameOff(i, c.from.env, d.from.env)
          && (c.from.pred.Some? && c.from.pred.value < |f.layout|
              && Available(f, i, c.from.pred.value, |f.layout[c.from.pred.value]|) ==>
                Read(w, c.from.env, Inst(i)) == Read(w, d.from.env, Inst(i))))
  }

  /** Where i is available on both sides, both sides hold the same value for it. */
  lemma SameValue(f: Func, g: Func, w: World, i: nat, b: nat, k: nat, m: nat, e1: Env, e2: Env)
    requires IsPure(f.info, i) && g.info == f.info && !Uses(f, i, i) && SameOff(i, e1, e2)
    requires b < |f.layout| && k <= |f.layout[b]| && b < |g.layout| && m <= |g.layout[b]|
    requires Holds(f, w, i, b, k, e1) && Holds(g, w, i, b, m, e2)
    requires Available(f, i, b, k) && Available(g, i, b, m)
    ensures Read(w, e1, Inst(i)) == Read(w, e2, Inst(i))
  {
    SameEval(f, w, i, e1, e2);
    assert Eval(g, w, i, e2) == Eval(f, w, i, e2);
  }

  lemma NotOwnOperandWhereverPlaced(f: Func, i: nat, b: nat)
    requires Valid(f) && IsPure(f.info, i) && In(f, b, i) && Reachable(f.succ, b)
    ensures !Uses(f, i, i)
  {
    var k :| 0 <= k < |f.layout[b]| && f.layout[b][k] == i;
    NotOwnOperand(f, b, k);
  }

  /** Two points of twin runs hold the same value for i wherever i is available in the original. */
  lemma SameValueAt(f: Func, w: World, i: nat, y: nat, t: nat, n: nat, k: nat, m: nat)
    requires Valid(f) && CanHoist(f, i, y, t)
    requires var g := Hoisted(f, i, y, t); var c := Run(f, w, n); var d := Run(g, w, n);
      && c.At? && d.At? && c.block == d.block && c.block < |f.layout|
      && k <= |f.layout[c.block]| && m <= |g.layout[c.block]|
      && Available(f, i, c.block, k)
      && Twin(i, Exec(f, w, c.from, Enter(f, w, c), f.layout[c.block][..k]),
              Exec(g, w, d.from, Enter(g, w, d), g.layout[c.block][..m]))
    ensures var g := Hoisted(f, i, y, t); var c := Run(f, w, n); var d := Run(g, w, n);
      var s := Exec(f, w, c.from, Enter(f, w, c), f.layout[c.block][..k]);
      var u := Exec(g, w, d.from, Enter(g, w, d), g.layout[c.block][..m]);
      !s.Trapped? ==> Read(w, s.env, Inst(i)) == Read(w, u.env, Inst(i))
  {
    var g := Hoisted(f, i, y, t);
    var c, d := Run(f, w, n), Run(g, w, n);
    RunReachable(f, w, n);
    HoistKeepsValid(f, i, y, t);
    HoistReachesFurther(f, i, y, t, c.block, k);
    EquationsHold(f, w, i, n, k);
    EquationsHold(g, w, i, n, m);
    NotOwnOperandWhereverPlaced(f, i, y);
    var s := Exec(f, w, c.from, Enter(f, w, c), f.layout[c.block][..k]);
    var u := Exec(g, w, d.from, Enter(g, w, d), g.layout[c.block][..m]);
    if !s.Trapped? {
      SameValue(f, g, w, i, c.block, k, m, s.env, u.env);
    }
  }

  /** In its old place i does not trap: the hoisted function has already computed the same value. */
  lemma NoTrapInOldPlace(f: Func, w: World, i: nat, y: nat, t: nat, n: nat, k: nat, m: nat)
    requires Valid(f) && CanHoist(f, i, y, t)
    requires var g := Hoisted(f, i, y, t); var c := Run(f, w, n); var d := Run(g, w, n);
      && c.At? && d.At? && c.block == d.block == y
      && k <= |f.layout[y]| && m <= |g.layout[y]|
      && Twin(i, Exec(f, w, c.from, Enter(f, w, c), f.layout[y][..k]),
              Exec(g, w, d.from, Enter(g, w, d), g.layout[y][..m]))
    ensures var c := Run(f, w, n);
      var s := Exec(f, w, c.from, Enter(f, w, c), f.layout[y][..k]);
      s.Running? ==> Eval(f, w, i, s.env).Some?
  {
    var g := Hoisted(f, i, y, t);
    var c, d := Run(f, w, n), Run(g, w, n);
    RunReachable(f, w, n);
    HoistKeepsValid(f, i, y, t);
    HoistReachesFurther(f, i, y, t, y, 0);
    EquationsHold(g, w, i, n, m);
    NotOwnOperandWhereverPlaced(f, i, y);
    var s := Exec(f, w, c.from, Enter(f, w, c), f.layout[y][..k]);
    var u := Exec(g, w, d.from, Enter(g, w, d), g.layout[y][..m]);
    if s.Running? {
      SameEval(f, w, i, s.env, u.env);
      assert Eval(g, w, i, u.env) == Eval(f, w, i, u.env);
    }
  }

  /** The hoisted instruction stands at the end of t, after everything that stood before the terminator there. */
  lemma NewPlaceIsLast(f: Func, i: nat, y: nat, t: nat, b: nat, k: nat, m: nat)
    requires WellFormed(f) && CanHoist(f, i, y, t)
    requires var g := Hoisted(f, i, y, t);
      && b < |f.layout| && k <= |f.layout[b]| && m < |g.layout[b]| && g.layout[b][m] == i
      && Without(f.layout[b][..k], i) == Without(g.layout[b][..m], i)
    ensures b == t && f.layout[t][..k] == f.layout[t][..|f.layout[t]| - 1]
  {
    var g := Hoisted(f, i, y, t);
    HoistedPlaces(f, i, y, t, b, i);
    assert In(g, b, i);
    HoistKeepsWellFormed(f, i, y, t);
    var last := |f.layout[t]| - 1;
    assert g.layout[t][last] == i;
    assert m == last;
    assert g.layout[t][..m] == f.layout[t][..last];
    assert !In(f, t, i);
    WithoutAbsent(f.layout[t][..last], i);
    WithoutAbsent(f.layout[t][..k], i);
  }

  /** In its new place i does not trap: the speculation oracle vouched for that point. */
  lemma NoTrapInNewPlace(f: Func, w: World, i: nat, y: nat, t: nat, n: nat, k: nat, m: nat)
    requires Valid(f) && CanHoist(f, i, y, t) && NoTrapAt(f, w, i, t)
    requires var g := Hoisted(f, i, y, t); var c := Run(f, w, n); var d := Run(g, w, n);
      && c.At? && d.At? && c.block == d.block && c.block < |f.layout|
      && k <= |f.layout[c.block]| && m < |g.layout[c.block]| && g.layout[c.block][m] == i
      && Without(f.layout[c.block][..k], i) == Without(g.layout[c.block][..m], i)
      && Twin(i, Exec(f, w, c.from, Enter(f, w, c), f.layout[c.block][..k]),
              Exec(g, w, d.from, Enter(g, w, d), g.layout[c.block][..m]))
    ensures var g := Hoisted(f, i, y, t); var d := Run(g, w, n);
      var u := Exec(g, w, d.from, Enter(g, w, d), g.layout[d.block][..m]);
      u.Running? ==> Eval(f, w, i, u.env).Some?
  {
    var g := Hoisted(f, i, y, t);
    var c, d := Run(f, w, n), Run(g, w, n);
    NewPlaceIsLast(f, i, y, t, c.block, k, m);
    NotOwnOperandWhereverPlaced(f, i, y);
    var s := Exec(f, w, c.from, Enter(f, w, c), f.layout[t][..k]);
    var u := Exec(g, w, d.from, Enter(g, w, d), g.layout[t][..m]);
    if u.Running? {
      SameEval(f, w, i, s.env, u.env);
    }
  }

  /** An instruction other than i reads the same values on both sides. */
  lemma SameReads(f: Func, w: World, i: nat, y: nat, t: nat, n: nat, k: nat, m: nat)
    requires Valid(f) && CanHoist(f, i, y, t)
    requires TwinConfigs(f, w, i, Run(f, w, n), Run(Hoisted(f, i, y, t), w, n))
    requires var g := Hoisted(f, i, y, t); var c := Run(f, w, n); var d := Run(g, w, n);
      && c.At? && c.block < |f.layout|
      && k < |f.layout[c.block]| && m <= |g.layout[c.block]|
      && Twin(i, Exec(f, w, c.from, Enter(f, w, c), f.layout[c.block][..k]),
              Exec(g, w, d.from, Enter(g, w, d), g.layout[c.block][..m]))
    ensures var g := Hoisted(f, i, y, t); var c := Run(f, w, n); var d := Run(g, w, n);
      var s := Exec(f, w, c.from, Enter(f, w, c), f.layout[c.block][..k]);
      var u := Exec(g, w, d.from, Enter(g, w, d), g.layout[c.block][..m]);
      ReadsAgree(f, w, i, c.from, d.from, s, u, f.layout[c.block][k])
  {
    var g := Hoisted(f, i, y, t);
    var c, d := Run(f, w, n), Run(g, w, n);
    RunReachable(f, w, n);
    var j := f.layout[c.block][k];
    assert ValidAt(f, c.block, k);
    if j < |f.info| && !f.info[j].isPhi && Uses(f, j, i) {
      SameValueAt(f, w, i, y, t, n, k, m);
    }
  }

  /** Prefixes k and m of the block run n stands in lead to twin states. */
  ghost predicate TwinAt(f: Func, g: Func, w: World, i: nat, n: nat, k: nat, m: nat) {
    var c, d := Run(f, w, n), Run(g, w, n);
    c.At? && d.At? && c.block < |f.layout| && c.block < |g.layout|
    && k <= |f.layout[c.block]| && m <= |g.layout[c.block]| ==>
      Twin(i, Exec(f, w, c.from, Enter(f, w, c), f.layout[c.block][..k]),
           Exec(g, w, d.from, Enter(g, w, d), g.layout[c.block][..m]))
  }

  lemma TwinOldStep(f: Func, w: World, i: nat, y: nat, t: nat, n: nat, k: nat, m: nat)
    requires Valid(f) && CanHoist(f, i, y, t)
    requires var g := Hoisted(f, i, y, t); var c := Run(f, w, n); var d := Run(g, w, n);
      && c.At? && d.At? && c.block == d.block && c.block < |f.layout|
      && k < |f.layout[c.block]| && m <= |g.layout[c.block]| && f.layout[c.block][k] == i
    ensures TwinAt(f, Hoisted(f, i, y, t), w, i, n, k, m) ==> TwinAt(f, Hoisted(f, i, y, t), w, i, n, k + 1, m)
  {
    var g := Hoisted(f, i, y, t);
    var c, d := Run(f, w, n), Run(g, w, n);
    ExecSnoc(f, w, c.from, Enter(f, w, c), f.layout[c.block], k);
    var s := Exec(f, w, c.from, Enter(f, w, c), f.layout[c.block][..k]);
    if s.Running? && TwinAt(f, g, w, i, n, k, m) {
      assert In(f, c.block, i);
      NoTrapInOldPlace(f, w, i, y, t, n, k, m);
      TwinSkip(f, w, i, c.from, s, Exec(g, w, d.from, Enter(g, w, d), g.layout[c.block][..m]));
    }
  }

  lemma TwinNewStep(f: Func, w: World, i: nat, y: nat, t: nat, n: nat, k: nat, m: nat)
    requires Valid(f) && CanHoist(f, i, y, t) && NoTrapAt(f, w, i, t)
    requires var g := Hoisted(f, i, y, t); var c := Run(f, w, n); var d := Run(g, w, n);
      && c.At? && d.At? && c.block == d.block && c.block < |f.layout|
      && k <= |f.layout[c.block]| && m < |g.layout[c.block]| && g.layout[c.block][m] == i
      && Without(f.layout[c.block][..k], i) == Without(g.layout[c.block][..m], i)
    ensures TwinAt(f, Hoisted(f, i, y, t), w, i, n, k, m) ==> TwinAt(f, Hoisted(f, i, y, t), w, i, n, k, m + 1)
  {
    var g := Hoisted(f, i, y, t);
    var c, d := Run(f, w, n), Run(g, w, n);
    ExecSnoc(g, w, d.from, Enter(g, w, d), g.layout[c.block], m);
    var u := Exec(g, w, d.from, Enter(g, w, d), g.layout[c.block][..m]);
    if u.Running? && TwinAt(f, g, w, i, n, k, m) {
      NoTrapInNewPlace(f, w, i, y, t, n, k, m);
      TwinSkip(g, w, i, d.from, u, Exec(f, w, c.from, Enter(f, w, c), f.layout[c.block][..k]));
    }
  }

  lemma TwinCommonStep(f: Func, w: World, i: nat, y: nat, t: nat, n: nat, k: nat, m: nat)
    requires Valid(f) && CanHoist(f, i, y, t)
    requires TwinConfigs(f, w, i, Run(f, w, n), Run(Hoisted(f, i, y, t), w, n))
    requires var g := Hoisted(f, i, y, t); var c := Run(f, w, n);
      && c.At? && c.block < |f.layout|
      && k < |f.layout[c.block]| && m < |g.layout[c.block]|
      && f.layout[c.block][k] == g.layout[c.block][m]
    ensures TwinAt(f, Hoisted(f, i, y, t), w, i, n, k, m) ==> TwinAt(f, Hoisted(f, i, y, t), w, i, n, k + 1, m + 1)
  {
    var g := Hoisted(f, i, y, t);
    var c, d := Run(f, w, n), Run(g, w, n);
    if TwinAt(f, g, w, i, n, k, m) {
      SameReads(f, w, i, y, t, n, k, m);
      TwinExtend(f, g, w, i, c.from, d.from, Enter(f, w, c), Enter(g, w, d),
                 f.layout[c.block], k, g.layout[c.block], m);
    }
  }

  lemma TwinAtStart(f: Func, g: Func, w: World, i: nat, n: nat)
    requires TwinConfigs(f, w, i, Run(f, w, n), Run(g, w, n))
    ensures TwinAt(f, g, w, i, n, 0, 0)
  {
  }

  /** A longer pair of prefixes of the block that run n stands in, one instruction on on one side or both. */
  lemma TwinForward(f: Func, w: World, i: nat, y: nat, t: nat, n: nat, k: nat, m: nat, k': nat, m': nat)
    requires Valid(f) && CanHoist(f, i, y, t) && NoTrapAt(f, w, i, t)
    requires TwinConfigs(f, w, i, Run(f, w, n), Run(Hoisted(f, i, y, t), w, n))
    requires Run(f, w, n).At? && Run(f, w, n).block < |f.layout|
    requires var code1 := f.layout[Run(f, w, n).block];
      var code2 := Hoisted(f, i, y, t).layout[Run(f, w, n).block];
      OneMore(code1, k, code2, m, i, k', m') && Without(code1[..k], i) == Without(code2[..m], i)
    ensures TwinAt(f, Hoisted(f, i, y, t), w, i, n, k, m) ==> TwinAt(f, Hoisted(f, i, y, t), w, i, n, k', m')
  {
    if m' == m {
      TwinOldStep(f, w, i, y, t, n, k, m);
    } else if k' == k {
      TwinNewStep(f, w, i, y, t, n, k, m);
    } else {
      TwinCommonStep(f, w, i, y, t, n, k, m);
    }
  }

  lemma {:induction false} TwinPrefix(f: Func, w: World, i: nat, y: nat, t: nat, n: nat, k: nat, m: nat,
                                      code1: seq<nat>, code2: seq<nat>)
    requires Valid(f) && CanHoist(f, i, y, t) && NoTrapAt(f, w, i, t)
    requires TwinConfigs(f, w, i, Run(f, w, n), Run(Hoisted(f, i, y, t), w, n))
    requires Run(f, w, n).At? && Run(f, w, n).block < |f.layout|
    requires code1 == f.layout[Run(f, w, n).block] && code2 == Hoisted(f, i, y, t).layout[Run(f, w, n).block]
    requires k <= |code1| && m <= |code2| && Without(code1[..k], i) == Without(code2[..m], i)
    ensures TwinAt(f, Hoisted(f, i, y, t), w, i, n, k, m)
    decreases k + m
  {
    if k + m == 0 {
      TwinAtStart(f, Hoisted(f, i, y, t), w, i, n);
    } else {
      var k0, m0 := OneLess(code1, k, code2, m, i);
      TwinPrefix(f, w, i, y, t, n, k0, m0, code1, code2);
      TwinForward(f, w, i, y, t, n, k0, m0, k, m);
    }
  }

  lemma SameCodeWithout(f: Func, i: nat, y: nat, t: nat, b: nat)
    requires WellFormed(f) && CanHoist(f, i, y, t) && b < |f.layout|
    ensures Without(f.layout[b], i) == Without(Hoisted(f, i, y, t).layout[b], i)
  {
    if b == t {
      assert !In(f, t, i);
      WithoutAbsent(f.layout[t], i);
      BeforeLastWithout(f.layout[t], i);
    } else if b == y {
      WithoutContents(f.layout[y], i, i);
      WithoutAbsent(Without(f.layout[y], i), i);
    }
  }

  /** Twin configurations whose block runs to twin states, agreeing on i where it is available. */
  ghost predicate TwinBlocks(f: Func, g: Func, w: World, i: nat, c: Config, d: Config) {
    c.At? && d.At? && c.block < |f.layout| && c.block < |g.layout| ==>
      var s := Exec(f, w, c.from, Enter(f, w, c), f.layout[c.block]);
      var u := Exec(g, w, d.from, Enter(g, w, d), g.layout[c.block]);
      && Twin(i, s, u)
      && (Available(f, i, c.block, |f.layout[c.block]|) ==>
            !s.Trapped? ==> Read(w, s.env, Inst(i)) == Read(w, u.env, Inst(i)))
  }

  lemma TwinExit(f: Func, g: Func, w: World, i: nat, c: Config, d: Config)
    requires g.info == f.info && g.succ == f.succ && |g.layout| == |f.layout|
    requires TwinConfigs(f, w, i, c, d) && TwinBlocks(f, g, w, i, c, d)
    ensures TwinConfigs(f, w, i, BlockStep(f, w, c), BlockStep(g, w, d))
  {
  }

  lemma TwinBlock(f: Func, w: World, i: nat, y: nat, t: nat, n: nat)
    requires Valid(f) && CanHoist(f, i, y, t) && NoTrapAt(f, w, i, t)
    requires TwinConfigs(f, w, i, Run(f, w, n), Run(Hoisted(f, i, y, t), w, n))
    ensures TwinBlocks(f, Hoisted(f, i, y, t), w, i, Run(f, w, n), Run(Hoisted(f, i, y, t), w, n))
  {
    var g := Hoisted(f, i, y, t);
    var c := Run(f, w, n);
    if c.At? && c.block < |f.layout| {
      var b := c.block;
      var k, m := |f.layout[b]|, |g.layout[b]|;
      assert f.layout[b][..k] == f.layout[b] && g.layout[b][..m] == g.layout[b];
      SameCodeWithout(f, i, y, t, b);
      TwinPrefix(f, w, i, y, t, n, k, m, f.layout[b], g.layout[b]);
      if Available(f, i, b, k) {
        SameValueAt(f, w, i, y, t, n, k, m);
      }
    }
  }

  lemma TwinNext(f: Func, w: World, i: nat, y: nat, t: nat, n: nat)
    requires Valid(f) && CanHoist(f, i, y, t) && NoTrapAt(f, w, i, t)
    requires TwinConfigs(f, w, i, Run(f, w, n), Run(Hoisted(f, i, y, t), w, n))
    ensures TwinConfigs(f, w, i, Run(f, w, n + 1), Run(Hoisted(f, i, y, t), w, n + 1))
  {
    TwinBlock(f, w, i, y, t, n);
    TwinExit(f, Hoisted(f, i, y, t), w, i, Run(f, w, n), Run(Hoisted(f, i, y, t), w, n));
  }

  lemma {:induction false} TwinRuns(f: Func, w: World, i: nat, y: nat, t: nat, n: nat)
    requires Valid(f) && CanHoist(f, i, y, t) && NoTrapAt(f, w, i, t)
    ensures TwinConfigs(f, w, i, Run(f, w, n), Run(Hoisted(f, i, y, t), w, n))
  {
    if n > 0 {
      TwinRuns(f, w, i, y, t, n - 1);
      TwinNext(f, w, i, y, t, n - 1);
    }
  }

  /** The move keeps every run: same block path, same events, same memory, same way of stopping. */
  lemma HoistKeepsRuns(f: Func, w: World, i: nat, y: nat, t: nat)
    requires Valid(f) && CanHoist(f, i, y, t) && NoTrapAt(f, w, i, t)
    ensures SameRuns(f, Hoisted(f, i, y, t), w)
  {
    forall n: nat {
      TwinRuns(f, w, i, y, t, n);
    }
  }
}
