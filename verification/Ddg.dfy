/** Data dependence graphs (include/ddg.hpp, include/localScheduler.hpp). A node is named by its instruction. */
module Ddgs {
  import opened Graphs
  import opened Ir

  /** What the scheduler sees of a graph: its nodes and the two mirrored edge lists. */
  datatype Deps = Deps(nodes: seq<nat>, succ: Graph, pred: Graph)

  ghost predicate DepsOk(d: Deps) {
    && |d.succ| == |d.pred|
    && NoDup(d.nodes)
    && (forall a: nat, b: nat :: Edge(d.succ, a, b) <==> Edge(d.pred, b, a))
    && (forall a: nat, b: nat :: Edge(d.succ, a, b) ==> a in d.nodes && b in d.nodes)
    && (forall a: nat :: a in d.nodes ==> a < |d.succ|)
    && (forall a :: 0 <= a < |d.succ| ==> NoDup(d.succ[a]) && NoDup(d.pred[a]))
  }

  function WithEdge(d: Deps, src: nat, dst: nat): Deps {
    if src >= |d.succ| || dst >= |d.pred| || dst in d.succ[src] then d
    else d.(succ := d.succ[src := d.succ[src] + [dst]], pred := d.pred[dst := d.pred[dst] + [src]])
  }

  /** Cycles an operation takes. */
  function Delay(i: Instr): (r: nat)
    ensures r >= 1
  {
    match i.opcode
    case Load => 3
    case Store => 1
    case Call => 5
    case Mul => 2
    case UDiv => 10
    case SDiv => 10
    case OtherOp => 1
  }

  class Ddg {
    var nodes: seq<nat>
    var successors: seq<seq<nat>>
    var predecessors: seq<seq<nat>>
    var delay: seq<nat>
    var criticalPath: seq<nat>
    var predCount: seq<int>

    function AsDeps(): Deps
      reads this
    {
      Deps(nodes, successors, predecessors)
    }

    ghost predicate Valid()
      reads this
    {
      && DepsOk(AsDeps())
      && |delay| == |criticalPath| == |predCount| == |successors|
      && forall n :: n in nodes ==> delay[n] >= 1
    }

    /** A graph over `size` instructions without nodes or edges. */
    constructor (size: nat)
      ensures Valid() && nodes == [] && |successors| == size
      ensures forall a: nat, b: nat :: !Edge(successors, a, b)
      ensures forall a :: 0 <= a < size ==> predCount[a] == 0
    {
      nodes := [];
      successors := seq(size, _ => []);
      predecessors := seq(size, _ => []);
      delay := seq(size, _ => 1);
      criticalPath := seq(size, _ => 0);
      predCount := seq(size, _ => 0);
    }

    method AddNode(i: nat, cycles: nat)
      requires Valid() && i < |successors| && i !in nodes && cycles >= 1
      modifies this
      ensures Valid() && nodes == old(nodes) + [i]
      ensures successors == old(successors) && predecessors == old(predecessors) && predCount == old(predCount)
      ensures delay == old(delay)[i := cycles] && criticalPath == old(criticalPath)[i := 0]
    {
      nodes := nodes + [i];
      delay := delay[i := cycles];
      criticalPath := criticalPath[i := 0];
    }

    /** addEdge: src must execute before dst; a duplicate is ignored. */
    method AddEdge(src: nat, dst: nat)
      requires Valid() && src in nodes && dst in nodes
      modifies this`successors, this`predecessors, this`predCount
      ensures Valid()
      ensures AsDeps() == WithEdge(old(AsDeps()), src, dst)
      ensures forall a: nat, b: nat :: Edge(successors, a, b) <==> old(Edge(successors, a, b)) || (a == src && b == dst)
      ensures predCount == if old(dst in successors[src]) then old(predCount)
                           else old(predCount)[dst := old(predCount)[dst] + 1]
    {
      for k := 0 to |successors[src]|
        invariant dst !in successors[src][..k]
      {
        if successors[src][k] == dst {
          return;
        }
      }
      assert successors[src][..|successors[src]|] == successors[src];
      successors := successors[src := successors[src] + [dst]];
      predecessors := predecessors[dst := predecessors[dst] + [src]];
      predCount := predCount[dst := predCount[dst] + 1];
      EdgesAfter(old(AsDeps()), src, dst);
    }
  }

  lemma EdgesAfter(d: Deps, src: nat, dst: nat)
    requires DepsOk(d) && src in d.nodes && dst in d.nodes && dst !in d.succ[src]
    ensures DepsOk(WithEdge(d, src, dst))
    ensures forall a: nat, b: nat ::
              Edge(WithEdge(d, src, dst).succ, a, b) <==> Edge(d.succ, a, b) || (a == src && b == dst)
  {
    var e := WithEdge(d, src, dst);
    forall a: nat, b: nat
      ensures Edge(e.succ, a, b) <==> Edge(d.succ, a, b) || (a == src && b == dst)
      ensures Edge(e.pred, b, a) <==> Edge(d.pred, b, a) || (a == src && b == dst)
    {
    }
    assert !Edge(d.succ, src, dst) && !Edge(d.pred, dst, src);
  }

  // ----- Which edges a graph has -----

  /** A true dependence. The trace graph leaves out PHIs and terminators, the local graph does not. */
  predicate OperandEdge(f: Func, nodes: seq<nat>, local: bool, a: nat, b: nat) {
    && a in nodes && b in nodes && Uses(f, b, a) && a < |f.info|
    && (local || (!f.info[a].isPhi && !f.info[a].isTerminator && !f.info[b].isPhi && !f.info[b].isTerminator))
  }

  /** Both a and b may observe or alter memory or state, and a comes first in block c. */
  ghost predicate OrderEdge(f: Func, nodes: seq<nat>, c: nat, a: nat, b: nat) {
    && c < |f.layout| && a in nodes && b in nodes
    && exists k: nat :: k < |f.layout[c]| && OrderedPair(f, f.layout[c], a, b, k)
  }

  predicate OrderedPair(f: Func, code: seq<nat>, a: nat, b: nat, k: nat)
    requires k < |code|
  {
    code[k] == b && a in code[..k] && a < |f.info| && b < |f.info| && IsOrdered(f.info[a]) && IsOrdered(f.info[b])
  }

  ghost predicate HasEdge(f: Func, nodes: seq<nat>, local: bool, blocks: seq<nat>, a: nat, b: nat) {
    OperandEdge(f, nodes, local, a, b) || exists c: nat :: c in blocks && OrderEdge(f, nodes, c, a, b)
  }

  /** The instructions a graph over some blocks has nodes for, in order. */
  function BlockNodes(f: Func, local: bool, code: seq<nat>): seq<nat> {
    if code == [] then []
    else
      var rest := BlockNodes(f, local, code[..|code| - 1]);
      var i := code[|code| - 1];
      if !local && i < |f.info| && f.info[i].isPhi then rest else rest + [i]
  }

  function TraceNodes(f: Func, local: bool, blocks: seq<nat>): seq<nat> {
    if blocks == [] then []
    else
      var b := blocks[|blocks| - 1];
      TraceNodes(f, local, blocks[..|blocks| - 1])
      + (if b < |f.layout| then BlockNodes(f, local, f.layout[b]) else [])
  }

  /** d is the dependence graph of the blocks. */
  ghost predicate IsGraphOf(f: Func, local: bool, blocks: seq<nat>, d: Deps) {
    && DepsOk(d)
    && |d.succ| == |f.info|
    && d.nodes == TraceNodes(f, local, blocks)
    && forall a: nat, b: nat :: Edge(d.succ, a, b) <==> HasEdge(f, d.nodes, local, blocks, a, b)
  }
}
