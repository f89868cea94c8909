/** buildDDG and buildLocalDDG: both add one node per instruction, then the true dependences, then the order
    of operations that touch memory or state.
 */
module BuildDdg {
  import opened Graphs
  import opened Ir
  import opened Ddgs

  ghost predicate InBlocks(f: Func, blocks: seq<nat>, i: nat) {
    exists b: nat :: b in blocks && In(f, b, i)
  }

  predicate HasNode(f: Func, local: bool, i: nat) {
    local || i >= |f.info| || !f.info[i].isPhi
  }

  lemma {:induction false} BlockNodesContents(f: Func, local: bool, code: seq<nat>, i: nat)
    ensures i in BlockNodes(f, local, code) <==> i in code && HasNode(f, local, i)
  {
    if code != [] {
      var n := |code| - 1;
      BlockNodesContents(f, local, code[..n], i);
      assert code == code[..n] + [code[n]];
    }
  }

  lemma {:induction false} TraceNodesContents(f: Func, local: bool, blocks: seq<nat>, i: nat)
    ensures i in TraceNodes(f, local, blocks) <==> InBlocks(f, blocks, i) && HasNode(f, local, i)
  {
    if blocks != [] {
      var n := |blocks| - 1;
      var b := blocks[n];
      TraceNodesContents(f, local, blocks[..n], i);
      assert blocks == blocks[..n] + [b];
      if b < |f.layout| {
        BlockNodesContents(f, local, f.layout[b], i);
        assert i in f.layout[b] ==> In(f, b, i);
      }
    }
  }

  ghost predicate Buildable(f: Func, blocks: seq<nat>) {
    WellFormed(f) && NoDup(blocks) && forall b :: b in blocks ==> b < |f.layout|
  }

  lemma NotYetANode(f: Func, local: bool, blocks: seq<nat>, n: nat, k: nat)
    requires Buildable(f, blocks) && n < |blocks| && blocks[n] < |f.layout| && k < |f.layout[blocks[n]]|
    ensures f.layout[blocks[n]][k]
         !in TraceNodes(f, local, blocks[..n]) + BlockNodes(f, local, f.layout[blocks[n]][..k])
  {
    var b := blocks[n];
    var i := f.layout[b][k];
    assert In(f, b, i);
    TraceNodesContents(f, local, blocks[..n], i);
    BlockNodesContents(f, local, f.layout[b][..k], i);
  }

  /** Each node has its operation's latency. */
  ghost predicate DelaysRight(f: Func, nodes: seq<nat>, delay: seq<nat>) {
    forall n: nat :: n in nodes ==> n < |delay| && n < |f.info| && delay[n] == Delay(f.info[n])
  }

  lemma PushDelay(f: Func, nodes: seq<nat>, delay: seq<nat>, i: nat)
    requires DelaysRight(f, nodes, delay) && i < |f.info| && i < |delay|
    ensures DelaysRight(f, nodes + [i], delay[i := Delay(f.info[i])])
  {
  }

  lemma NodesAfter(f: Func, local: bool, before: seq<nat>, code: seq<nat>, k: nat)
    requires k < |code| && code[k] < |f.info|
    ensures before + BlockNodes(f, local, code[..k + 1])
         == before + BlockNodes(f, local, code[..k]) + (if local || !f.info[code[k]].isPhi then [code[k]] else [])
  {
    assert code[..k + 1][..k] == code[..k];
  }

  method AddBlockNodes(d: Ddg, f: Func, local: bool, blocks: seq<nat>, n: nat)
    requires Buildable(f, blocks) && n < |blocks|
    requires d.Valid() && d.nodes == TraceNodes(f, local, blocks[..n]) && |d.successors| == |f.info|
    requires DelaysRight(f, d.nodes, d.delay)
    modifies d
    ensures d.Valid() && d.nodes == TraceNodes(f, local, blocks[..n + 1]) && DelaysRight(f, d.nodes, d.delay)
    ensures d.successors == old(d.successors)
  {
    var b := blocks[n];
    assert b in blocks;
    var code := f.layout[b];
    for k := 0 to |code|
      invariant d.Valid() && d.successors == old(d.successors) && DelaysRight(f, d.nodes, d.delay)
      invariant d.nodes == TraceNodes(f, local, blocks[..n]) + BlockNodes(f, local, code[..k])
    {
      var i := code[k];
      assert In(f, b, i);
      NodesAfter(f, local, TraceNodes(f, local, blocks[..n]), code, k);
      if local || !f.info[i].isPhi {
        NotYetANode(f, local, blocks, n, k);
        PushDelay(f, d.nodes, d.delay, i);
        d.AddNode(i, Delay(f.info[i]));
      }
    }
    assert code[..|code|] == code;
    assert blocks[..n + 1][..n] == blocks[..n];
  }

  method AddNodes(d: Ddg, f: Func, local: bool, blocks: seq<nat>)
    requires Buildable(f, blocks)
    requires d.Valid() && d.nodes == [] && |d.successors| == |f.info|
    modifies d
    ensures d.Valid() && d.nodes == TraceNodes(f, local, blocks) && DelaysRight(f, d.nodes, d.delay)
    ensures d.successors == old(d.successors)
  {
    for n := 0 to |blocks|
      invariant d.Valid() && d.successors == old(d.successors)
      invariant d.nodes == TraceNodes(f, local, blocks[..n]) && DelaysRight(f, d.nodes, d.delay)
    {
      AddBlockNodes(d, f, local, blocks, n);
    }
    assert blocks[..|blocks|] == blocks;
  }

  /** The true dependences of instruction i. */
  method AddOperandEdges(d: Ddg, f: Func, local: bool, i: nat)
    requires d.Valid() && i in d.nodes && i < |f.info| == |d.successors|
    modifies d`successors, d`predecessors, d`predCount
    ensures d.Valid() && |d.successors| == |f.info|
    ensures forall a: nat, b: nat :: Edge(d.successors, a, b) <==>
              old(Edge(d.successors, a, b)) || (b == i && OperandEdge(f, d.nodes, local, a, b))
  {
    if !local && (f.info[i].isPhi || f.info[i].isTerminator) {
      return;
    }
    var ops := f.info[i].operands;
    for k := 0 to |ops|
      invariant d.Valid() && |d.successors| == |f.info|
      invariant forall a: nat, b: nat :: Edge(d.successors, a, b) <==>
                  old(Edge(d.successors, a, b))
                  || (b == i && Inst(a) in ops[..k] && OperandEdge(f, d.nodes, local, a, b))
    {
      assert ops[..k + 1] == ops[..k] + [ops[k]];
      if ops[k].Const? || ops[k].Arg? {
        continue;
      }
      var src := ops[k].id;
      if src !in d.nodes || (!local && (f.info[src].isPhi || f.info[src].isTerminator)) {
        continue;
      }
      d.AddEdge(src, i);
    }
    assert ops[..|ops|] == ops;
  }

  /** The order of the operations of one block that may observe or change memory or state. */
  method AddOrderEdges(d: Ddg, f: Func, c: nat)
    requires d.Valid() && c < |f.layout| && |f.info| == |d.successors|
    requires forall i :: i in f.layout[c] ==> i < |f.info|
    modifies d`successors, d`predecessors, d`predCount
    ensures d.Valid() && |d.successors| == |f.info|
    ensures forall a: nat, b: nat :: Edge(d.successors, a, b) <==>
              old(Edge(d.successors, a, b)) || OrderEdge(f, d.nodes, c, a, b)
  {
    var code := f.layout[c];
    var orderedOps: seq<nat> := [];
    for k := 0 to |code|
      invariant d.Valid() && |d.successors| == |f.info|
      invariant forall i: nat :: i in orderedOps <==> i in code[..k] && i < |f.info| && IsOrdered(f.info[i])
      invariant forall a: nat, b: nat :: Edge(d.successors, a, b) <==>
                  old(Edge(d.successors, a, b)) || OrderedBefore(f, d.nodes, code, a, b, k)
    {
      var i := code[k];
      assert code[..k + 1] == code[..k] + [i] && i in code;
      if IsOrdered(f.info[i]) {
        AddEdgesInto(d, orderedOps, i);
        orderedOps := orderedOps + [i];
      }
      OrderedBeforeStep(f, d.nodes, code, k);
    }
    assert code[..|code|] == code;
  }

  /** Edges from every listed instruction into dst, where both have nodes. */
  method AddEdgesInto(d: Ddg, srcs: seq<nat>, dst: nat)
    requires d.Valid()
    modifies d`successors, d`predecessors, d`predCount
    ensures d.Valid() && |d.successors| == old(|d.successors|)
    ensures forall a: nat, b: nat :: Edge(d.successors, a, b) <==>
              old(Edge(d.successors, a, b)) || (b == dst && a in srcs && a in d.nodes && b in d.nodes)
  {
    for k := 0 to |srcs|
      invariant d.Valid() && |d.successors| == old(|d.successors|)
      invariant forall a: nat, b: nat :: Edge(d.successors, a, b) <==>
                  old(Edge(d.successors, a, b)) || (b == dst && a in srcs[..k] && a in d.nodes && b in d.nodes)
    {
      assert srcs[..k + 1] == srcs[..k] + [srcs[k]];
      if srcs[k] in d.nodes && dst in d.nodes {
        d.AddEdge(srcs[k], dst);
      }
    }
    assert srcs[..|srcs|] == srcs;
  }

  ghost predicate OrderedBefore(f: Func, nodes: seq<nat>, code: seq<nat>, a: nat, b: nat, k: nat) {
    a in nodes && b in nodes && exists j: nat :: j < k && j < |code| && OrderedPair(f, code, a, b, j)
  }

  lemma OrderedBeforeStep(f: Func, nodes: seq<nat>, code: seq<nat>, k: nat)
    requires k < |code|
    ensures forall a: nat, b: nat :: OrderedBefore(f, nodes, code, a, b, k + 1) <==>
              OrderedBefore(f, nodes, code, a, b, k)
              || (a in nodes && b in nodes && OrderedPair(f, code, a, b, k))
  {
  }

  method BuildGraph(f: Func, local: bool, blocks: seq<nat>) returns (d: Ddg)
    requires Buildable(f, blocks)
    ensures fresh(d) && d.Valid()
    ensures IsGraphOf(f, local, blocks, d.AsDeps()) && DelaysRight(f, d.nodes, d.delay)
  {
    d := new Ddg(|f.info|);
    AddNodes(d, f, local, blocks);
    AddAllOperandEdges(d, f, local, blocks);
    for n := 0 to |blocks|
      invariant d.Valid() && d.nodes == TraceNodes(f, local, blocks) && |d.successors| == |f.info|
      invariant DelaysRight(f, d.nodes, d.delay)
      invariant forall a: nat, b: nat :: Edge(d.successors, a, b) <==>
                  HasEdge(f, d.nodes, local, blocks[..n], a, b)
    {
      assert blocks[..n + 1] == blocks[..n] + [blocks[n]] && blocks[n] in blocks;
      forall i | i in f.layout[blocks[n]]
        ensures i < |f.info|
      {
        assert In(f, blocks[n], i);
      }
      AddOrderEdges(d, f, blocks[n]);
    }
    assert blocks[..|blocks|] == blocks;
  }

  method AddAllOperandEdges(d: Ddg, f: Func, local: bool, blocks: seq<nat>)
    requires Buildable(f, blocks)
    requires d.Valid() && d.nodes == TraceNodes(f, local, blocks) && |d.successors| == |f.info|
    requires forall a: nat, b: nat :: !Edge(d.successors, a, b)
    modifies d`successors, d`predecessors, d`predCount
    ensures d.Valid() && |d.successors| == |f.info|
    ensures forall a: nat, b: nat :: Edge(d.successors, a, b) <==> OperandEdge(f, d.nodes, local, a, b)
  {
    for n := 0 to |d.nodes|
      invariant d.Valid() && |d.successors| == |f.info|
      invariant forall a: nat, b: nat :: Edge(d.successors, a, b) <==>
                  b in d.nodes[..n] && OperandEdge(f, d.nodes, local, a, b)
    {
      assert d.nodes[..n + 1] == d.nodes[..n] + [d.nodes[n]];
      AddOperandEdges(d, f, local, d.nodes[n]);
    }
    assert d.nodes[..|d.nodes|] == d.nodes;
  }
}
