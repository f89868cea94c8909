/** Functions in SSA form: instructions, their placement in blocks, and SSA validity.

    An instruction is named by its number, which is also the name of the value it defines. What an
    instruction is never changes; scheduling only changes the layout, the list of instruction numbers
    each block holds.
 */
module Ir {
  import opened Graphs

  datatype Option<+T> = None | Some(value: T)

  /** What an operand refers to: another instruction's value, a function argument, or neither. */
  datatype Ref = Inst(id: nat) | Arg(index: nat) | Const(bits: int)

  datatype Opcode = Load | Store | Call | Mul | UDiv | SDiv | OtherOp

  /** For a PHI, incoming[k] is the predecessor block operand k belongs to. */
  datatype Instr = Instr(
    operands: seq<Ref>,
    incoming: seq<nat>,
    opcode: Opcode,
    isPhi: bool,
    isTerminator: bool,
    isAlloca: bool,
    isCall: bool,
    isEHPad: bool,
    isToken: bool,
    touchesMemory: bool,
    hasSideEffects: bool,
    isVoid: bool)

  /** An instruction that only computes from its operands, a PHI, or a plain branch. */
  function Plain(operands: seq<Ref>, incoming: seq<nat>, isPhi: bool, isTerminator: bool): Instr {
    Instr(operands, incoming, OtherOp, isPhi, isTerminator, false, false, false, false, false, false, isTerminator)
  }

  datatype Func = Func(info: seq<Instr>, succ: Graph, layout: seq<seq<nat>>)

  /** The instruction may read or change something outside the values it computes with: memory, the stack, control. */
  predicate HasEffect(i: Instr) {
    i.touchesMemory || i.hasSideEffects || i.isCall || i.isAlloca || i.isEHPad || i.isToken
  }

  /** Instruction i must not move: it is a PHI, ends its block, or has an effect. */
  predicate IsFixed(info: seq<Instr>, i: nat) {
    i < |info| ==> info[i].isPhi || info[i].isTerminator || HasEffect(info[i])
  }

  /** isSchedulingAnchor: the fixed boundaries of scheduling. */
  predicate IsAnchor(i: Instr) {
    || i.isPhi || i.isTerminator || i.isAlloca || i.isCall || i.isEHPad || i.isToken
    || i.touchesMemory || i.hasSideEffects
  }

  predicate IsPure(info: seq<Instr>, i: nat) {
    i < |info| && !IsAnchor(info[i])
  }

  predicate IsOrdered(i: Instr) {
    i.isCall || i.touchesMemory || i.hasSideEffects
  }

  /** Some operand of i is the value of instruction d. */
  predicate Uses(f: Func, i: nat, d: nat) {
    i < |f.info| && Inst(d) in f.info[i].operands
  }

  predicate In(f: Func, b: nat, i: nat) {
    b < |f.layout| && i in f.layout[b]
  }

  /** The instructions of a piece of code that must not move, in order. */
  function Anchors(info: seq<Instr>, code: seq<nat>): seq<nat> {
    if code == [] then []
    else
      var rest := Anchors(info, code[..|code| - 1]);
      if IsFixed(info, code[|code| - 1]) then rest + [code[|code| - 1]] else rest
  }

  lemma {:induction false} AnchorsAppend(info: seq<Instr>, a: seq<nat>, b: seq<nat>)
    ensures Anchors(info, a + b) == Anchors(info, a) + Anchors(info, b)
    decreases |b|
  {
    if b == [] {
      assert a + b == a;
    } else {
      assert (a + b)[..|a + b| - 1] == a + b[..|b| - 1];
      AnchorsAppend(info, a, b[..|b| - 1]);
    }
  }

  /** The block instruction i is in (its parent); the number of blocks when it is in none. */
  function Home(f: Func, i: nat): nat {
    HomeFrom(f.layout, i, 0)
  }

  function HomeFrom(layout: seq<seq<nat>>, i: nat, b: nat): (r: nat)
    ensures b <= r <= |layout| || r == |layout|
    ensures b <= r < |layout| ==> i in layout[r]
    ensures forall a :: b <= a < r && a < |layout| ==> i !in layout[a]
    decreases |layout| - b
  {
    if b >= |layout| then |layout|
    else if i in layout[b] then b
    else HomeFrom(layout, i, b + 1)
  }

  lemma HomeIsTheBlock(f: Func, b: nat, i: nat)
    requires WellFormed(f) && In(f, b, i)
    ensures Home(f, i) == b
  {
    assert In(f, Home(f, i), i);
  }

  lemma InItsHome(f: Func, b: nat, i: nat)
    requires WellFormed(f)
    ensures In(f, b, i) <==> b < |f.layout| && b == Home(f, i)
  {
    if In(f, b, i) {
      HomeIsTheBlock(f, b, i);
    }
  }

  // ----- Dominance between definitions and program points -----

  /** The definition d dominates the point just before position k of block b. */
  ghost predicate Available(f: Func, d: nat, b: nat, k: nat)
    requires b < |f.layout| && k <= |f.layout[b]|
  {
    d in f.layout[b][..k] || AvailableFromAbove(f, d, b)
  }

  ghost predicate AvailableFromAbove(f: Func, d: nat, b: nat) {
    exists a: nat :: In(f, a, d) && StrictlyDominates(f.succ, a, b)
  }

  /** Shape: every instruction is placed at most once, and a terminator only ever ends a block. */
  ghost predicate WellFormed(f: Func) {
    && |f.succ| == |f.layout|
    && |f.layout| > 0
    && Closed(f.succ)
    && (forall b: nat, i: nat :: In(f, b, i) ==> i < |f.info|)
    && (forall b :: 0 <= b < |f.layout| ==> NoDup(f.layout[b]))
    && (forall a: nat, b: nat, i: nat :: In(f, a, i) && In(f, b, i) ==> a == b)
    && (forall b: nat :: b < |f.layout| ==> TerminatorsLast(f, f.layout[b]))
  }

  predicate TerminatorsLast(f: Func, code: seq<nat>) {
    forall k :: 0 <= k < |code| - 1 ==> code[k] < |f.info| ==> !f.info[code[k]].isTerminator
  }

  /** Every definition an ordinary instruction at position k of block b uses dominates it. */
  ghost predicate UsesDominated(f: Func, b: nat, k: nat)
    requires b < |f.layout| && k < |f.layout[b]|
  {
    forall d: nat :: Uses(f, f.layout[b][k], d) ==> Available(f, d, b, k)
  }

  /** PHI uses happen at the end of the incoming block, and every reachable predecessor has an entry. */
  ghost predicate PhiUsesDominated(f: Func, b: nat, i: nat)
    requires i < |f.info|
  {
    forall a: nat :: Edge(f.succ, a, b) && Reachable(f.succ, a) && a < |f.layout| ==>
      && PhiOperand(f.info[i], a).Some?
      && (PhiOperand(f.info[i], a).value.Inst? ==>
            Available(f, PhiOperand(f.info[i], a).value.id, a, |f.layout[a]|))
  }

  /** The operand a PHI takes when control arrives from block a. */
  function PhiOperand(i: Instr, a: nat): Option<Ref> {
    PhiOperandFrom(i, a, 0)
  }

  function PhiOperandFrom(i: Instr, a: nat, k: nat): Option<Ref>
    decreases |i.incoming| - k
  {
    if k >= |i.incoming| || k >= |i.operands| then None
    else if i.incoming[k] == a then Some(i.operands[k])
    else PhiOperandFrom(i, a, k + 1)
  }

  /** Valid SSA: in reachable code every definition dominates every use. */
  ghost predicate Valid(f: Func) {
    && WellFormed(f)
    && forall b: nat, k: nat :: ValidAt(f, b, k)
  }

  ghost predicate ValidAt(f: Func, b: nat, k: nat) {
    b < |f.layout| && k < |f.layout[b]| && f.layout[b][k] < |f.info| && Reachable(f.succ, b) ==>
      if f.info[f.layout[b][k]].isPhi then PhiUsesDominated(f, b, f.layout[b][k])
      else UsesDominated(f, b, k)
  }

  // ----- Facts about availability -----

  /** No definition dominates itself. */
  lemma NotAvailableAtSelf(f: Func, b: nat, k: nat)
    requires WellFormed(f) && b < |f.layout| && k < |f.layout[b]|
    ensures !Available(f, f.layout[b][k], b, k)
  {
    assert In(f, b, f.layout[b][k]);
  }

  lemma AvailableTransitive(f: Func, d: nat, a: nat, j: nat, b: nat, k: nat)
    requires WellFormed(f) && Reachable(f.succ, b)
    requires a < |f.layout| && j < |f.layout[a]| && b < |f.layout| && k <= |f.layout[b]|
    requires Available(f, d, a, j) && Available(f, f.layout[a][j], b, k)
    ensures Available(f, d, b, k)
  {
    var i := f.layout[a][j];
    assert In(f, a, i);
    if i in f.layout[b][..k] {
      assert In(f, b, i);
      var m :| 0 <= m < k && f.layout[b][m] == i;
      assert m == j;
      assert d in f.layout[a][..j] ==> d in f.layout[b][..k];
    } else {
      assert StrictlyDominates(f.succ, a, b);
      if d in f.layout[a][..j] {
        assert In(f, a, d);
      } else {
        var c: nat :| In(f, c, d) && StrictlyDominates(f.succ, c, a);
        StrictlyDominatesTransitive(f.succ, c, a, b);
      }
    }
  }

  /** Entering s from b, nothing new dominates: what is available in s was available at the end of b. */
  lemma AvailableAcrossEdge(f: Func, d: nat, b: nat, s: nat)
    requires WellFormed(f) && b < |f.layout| && s < |f.layout| && Edge(f.succ, b, s)
    requires Available(f, d, s, 0)
    ensures Available(f, d, b, |f.layout[b]|)
  {
    var a: nat :| In(f, a, d) && StrictlyDominates(f.succ, a, s);
    DominatesAcrossEdge(f.succ, a, b, s);
    if a == b {
      assert f.layout[b][..|f.layout[b]|] == f.layout[b];
    }
  }
}
