/** What the dependence graphs of valid SSA code look like, and what that makes of their list schedules. */
module Dependence {
  import opened Graphs
  import opened Ir
  import opened Lists
  import opened Ddgs
  import opened BuildDdg
  import opened ListScheduler
  import opened Regions
  import opened RegionOrder

  /** a strictly precedes b: earlier in the same block, or in a strictly dominating block. */
  ghost predicate Precedes(f: Func, a: nat, b: nat) {
    exists c: nat, k: nat :: PrecedesAt(f, a, b, c, k)
  }

  ghost predicate PrecedesAt(f: Func, a: nat, b: nat, c: nat, k: nat) {
    c < |f.layout| && k < |f.layout[c]| && f.layout[c][k] == b && Reachable(f.succ, c) && Available(f, a, c, k)
  }

  lemma PrecedesTransitive(f: Func, a: nat, b: nat, c: nat)
    requires WellFormed(f) && Precedes(f, a, b) && Precedes(f, b, c)
    ensures Precedes(f, a, c)
  {
    var x: nat, j: nat :| PrecedesAt(f, a, b, x, j);
    var y: nat, k: nat :| PrecedesAt(f, b, c, y, k);
    AvailableTransitive(f, a, x, j, y, k);
    assert PrecedesAt(f, a, c, y, k);
  }

  lemma NeverPrecedesItself(f: Func, a: nat)
    requires WellFormed(f)
    ensures !Precedes(f, a, a)
  {
    forall c: nat, k: nat
      ensures !PrecedesAt(f, a, a, c, k)
    {
      if c < |f.layout| && k < |f.layout[c]| && f.layout[c][k] == a {
        NotAvailableAtSelf(f, c, k);
      }
    }
  }

  /** All blocks scheduled together are reachable blocks of a valid function. */
  ghost predicate ReachableBlocks(f: Func, blocks: seq<nat>) {
    Buildable(f, blocks) && forall b :: b in blocks ==> Reachable(f.succ, b)
  }

  /** Every edge into an ordinary instruction leads from a definition that strictly precedes it. */
  lemma EdgesGoForward(f: Func, local: bool, blocks: seq<nat>, d: Deps, a: nat, b: nat)
    requires Valid(f) && ReachableBlocks(f, blocks) && IsGraphOf(f, local, blocks, d)
    requires Edge(d.succ, a, b) && b < |f.info| && !f.info[b].isPhi
    ensures Precedes(f, a, b)
  {
    assert HasEdge(f, d.nodes, local, blocks, a, b);
    if OperandEdge(f, d.nodes, local, a, b) {
      TraceNodesContents(f, local, blocks, b);
      var c: nat :| c in blocks && In(f, c, b);
      var k :| 0 <= k < |f.layout[c]| && f.layout[c][k] == b;
      assert ValidAt(f, c, k);
      assert PrecedesAt(f, a, b, c, k);
    } else {
      var c: nat :| c in blocks && OrderEdge(f, d.nodes, c, a, b);
      var k: nat :| k < |f.layout[c]| && OrderedPair(f, f.layout[c], a, b, k);
      assert PrecedesAt(f, a, b, c, k);
    }
  }

  lemma {:induction false} PathGoesForward(f: Func, local: bool, blocks: seq<nat>, d: Deps, p: seq<nat>)
    requires Valid(f) && ReachableBlocks(f, blocks) && IsGraphOf(f, local, blocks, d)
    requires IsPath(d.succ, p) && |p| > 1
    requires forall k :: 1 <= k < |p| ==> p[k] < |f.info| && !f.info[p[k]].isPhi
    ensures Precedes(f, p[0], p[|p| - 1])
  {
    var n := |p| - 1;
    assert Edge(d.succ, p[n - 1], p[n]);
    EdgesGoForward(f, local, blocks, d, p[n - 1], p[n]);
    if n > 1 {
      PathPrefix(d.succ, p, n - 1);
      PathGoesForward(f, local, blocks, d, p[..n]);
      PrecedesTransitive(f, p[0], p[n - 1], p[n]);
    }
  }

  lemma NodesAreInstructions(f: Func, local: bool, blocks: seq<nat>, d: Deps, n: nat)
    requires Buildable(f, blocks) && IsGraphOf(f, local, blocks, d) && n in d.nodes
    ensures n < |f.info| && InBlocks(f, blocks, n) && (local || !f.info[n].isPhi)
  {
    TraceNodesContents(f, local, blocks, n);
  }

  /** In valid SSA every cycle of a dependence graph passes through a PHI. */
  lemma CyclesNeedPhis(f: Func, local: bool, blocks: seq<nat>, d: Deps, p: seq<nat>)
    requires Valid(f) && ReachableBlocks(f, blocks) && IsGraphOf(f, local, blocks, d)
    requires |p| > 1 && PathTo(d.succ, p, p[0], p[0])
    ensures exists k :: 1 <= k < |p| && p[k] < |f.info| && f.info[p[k]].isPhi
  {
    forall k | 1 <= k < |p|
      ensures p[k] < |f.info|
    {
      assert Edge(d.succ, p[k - 1], p[k]);
      NodesAreInstructions(f, local, blocks, d, p[k]);
    }
    if forall k :: 1 <= k < |p| ==> !f.info[p[k]].isPhi {
      PathGoesForward(f, local, blocks, d, p);
      NeverPrecedesItself(f, p[0]);
    }
  }

  /** The graph of a trace leaves PHIs out, so it has no cycle. */
  lemma TraceGraphAcyclic(f: Func, trace: seq<nat>, d: Deps)
    requires Valid(f) && ReachableBlocks(f, trace) && IsGraphOf(f, false, trace, d)
    ensures Acyclic(d.succ)
  {
    forall a: nat
      ensures !OnCycle(d.succ, a)
    {
      forall p | |p| > 1 && PathTo(d.succ, p, a, a)
        ensures false
      {
        CyclesNeedPhis(f, false, trace, d, p);
        var k :| 1 <= k < |p| && p[k] < |f.info| && f.info[p[k]].isPhi;
        assert Edge(d.succ, p[k - 1], p[k]);
        NodesAreInstructions(f, false, trace, d, p[k]);
      }
    }
  }

  /** A terminator or PHI has no successor in a trace graph. */
  lemma SourcesAreOrdinary(f: Func, trace: seq<nat>, d: Deps, a: nat, b: nat)
    requires WellFormed(f) && Buildable(f, trace) && IsGraphOf(f, false, trace, d) && Edge(d.succ, a, b)
    ensures !NeverReady(f, a)
  {
    NodesAreInstructions(f, false, trace, d, a);
    assert HasEdge(f, d.nodes, false, trace, a, b);
    if !OperandEdge(f, d.nodes, false, a, b) {
      var c: nat :| c in trace && OrderEdge(f, d.nodes, c, a, b);
      var k: nat :| k < |f.layout[c]| && OrderedPair(f, f.layout[c], a, b, k);
      var j :| 0 <= j < k && f.layout[c][j] == a;
      assert TerminatorsLast(f, f.layout[c]);
    }
  }

  ghost predicate IsOrdinary(f: Func, n: nat) {
    n < |f.info| && !f.info[n].isPhi && !f.info[n].isTerminator
  }

  /** The global list schedule holds every instruction of the trace but PHIs and terminators, each once. */
  lemma TraceScheduleIsComplete(f: Func, trace: seq<nat>, d: Deps, schedule: seq<nat>)
    requires Valid(f) && ReachableBlocks(f, trace) && IsGraphOf(f, false, trace, d)
    requires IsListSchedule(f, d, schedule)
    ensures NoDup(schedule)
    ensures forall n: nat :: n in schedule <==> InBlocks(f, trace, n) && IsOrdinary(f, n)
  {
    TraceGraphAcyclic(f, trace, d);
    forall n: nat
      ensures n in schedule <==> InBlocks(f, trace, n) && !NeverReady(f, n)
    {
      TraceNodesContents(f, false, trace, n);
      if n in d.nodes {
        assert PathTo(d.succ, [n], n, n);
        if !NeverReady(f, n) {
          NotBlockedInTrace(f, trace, d, n);
        }
      }
      assert n in schedule <==> Emitted(f, d, n);
    }
  }

  lemma NotBlockedInTrace(f: Func, trace: seq<nat>, d: Deps, n: nat)
    requires Valid(f) && ReachableBlocks(f, trace) && IsGraphOf(f, false, trace, d)
    requires n in d.nodes && !NeverReady(f, n)
    ensures !Blocked(f, d, n)
  {
    TraceGraphAcyclic(f, trace, d);
    forall m: nat | Reaches(d.succ, m, n)
      ensures !NeverReady(f, m)
    {
      var p :| PathTo(d.succ, p, m, n);
      if |p| > 1 {
        assert Edge(d.succ, p[1 - 1], p[1]);
        SourcesAreOrdinary(f, trace, d, m, p[1]);
      }
    }
  }

  /** The local list schedule of a reachable block holds exactly the instructions, other than the terminator,
      that are no PHI and depend on no PHI of the block. */
  lemma LocalScheduleIsExact(f: Func, b: nat, d: Deps, schedule: seq<nat>, n: nat)
    requires Valid(f) && b < |f.layout| && Reachable(f.succ, b) && IsGraphOf(f, true, [b], d)
    requires IsListSchedule(f, d, schedule)
    ensures n in schedule <==>
              In(f, b, n) && !f.info[n].isTerminator && NoPhiReaches(f, d, n)
  {
    TraceNodesContents(f, true, [b], n);
    assert InBlocks(f, [b], n) <==> In(f, b, n) by {
      assert b in [b];
    }
    assert n in schedule <==> Emitted(f, d, n);
    if n in d.nodes {
      assert PathTo(d.succ, [n], n, n);
      if !Blocked(f, d, n) {
        assert !NeverReady(f, n);
      } else if !f.info[n].isTerminator && NoPhiReaches(f, d, n) {
        var m: nat :| Reaches(d.succ, m, n) && (NeverReady(f, m) || OnCycle(d.succ, m));
        LocalAncestorIsOrdinary(f, b, d, m, n);
        NoPhiNoCycle(f, b, d, m, n);
      }
    }
  }

  ghost predicate NoPhiReaches(f: Func, d: Deps, n: nat) {
    forall m: nat :: m < |f.info| && f.info[m].isPhi ==> !Reaches(d.succ, m, n)
  }

  lemma LocalAncestorIsOrdinary(f: Func, b: nat, d: Deps, m: nat, n: nat)
    requires Valid(f) && b < |f.layout| && Reachable(f.succ, b) && IsGraphOf(f, true, [b], d)
    requires In(f, b, n) && !f.info[n].isTerminator && Reaches(d.succ, m, n) && NoPhiReaches(f, d, n)
    ensures !NeverReady(f, m)
  {
    var p :| PathTo(d.succ, p, m, n);
    if |p| > 1 {
      assert Edge(d.succ, p[1 - 1], p[1]);
      NodesAreInstructions(f, true, [b], d, m);
      NodesAreInstructions(f, true, [b], d, p[1]);
      PathSuffix(d.succ, p, 1);
      assert Reaches(d.succ, p[1], n);
      EdgesGoForward(f, true, [b], d, m, p[1]);
      NotLastIfPrecedes(f, b, m, p[1]);
    }
  }

  lemma CycleReachesFromPhi(f: Func, b: nat, d: Deps, c: seq<nat>, n: nat)
    requires Valid(f) && b < |f.layout| && Reachable(f.succ, b) && IsGraphOf(f, true, [b], d)
    requires |c| > 1 && PathTo(d.succ, c, c[0], c[0]) && Reaches(d.succ, c[0], n)
    ensures !NoPhiReaches(f, d, n)
  {
    var p :| PathTo(d.succ, p, c[0], n);
    CyclesNeedPhis(f, true, [b], d, c);
    var k :| 1 <= k < |c| && c[k] < |f.info| && f.info[c[k]].isPhi;
    PathSuffix(d.succ, c, k);
    PathConcat(d.succ, c[k..], p);
    assert Reaches(d.succ, c[k], n);
  }

  lemma NoPhiNoCycle(f: Func, b: nat, d: Deps, m: nat, n: nat)
    requires Valid(f) && b < |f.layout| && Reachable(f.succ, b) && IsGraphOf(f, true, [b], d)
    requires Reaches(d.succ, m, n) && NoPhiReaches(f, d, n)
    ensures !OnCycle(d.succ, m)
  {
    forall c | |c| > 1 && PathTo(d.succ, c, m, m)
      ensures false
    {
      CycleReachesFromPhi(f, b, d, c, n);
    }
  }

  lemma NotLastIfPrecedes(f: Func, b: nat, m: nat, n: nat)
    requires WellFormed(f) && In(f, b, m) && In(f, b, n) && Precedes(f, m, n)
    ensures m < |f.info| && !f.info[m].isTerminator
  {
    var c: nat, k: nat :| PrecedesAt(f, m, n, c, k);
    assert In(f, c, n) && c == b;
    var j :| 0 <= j < k && f.layout[b][j] == m;
    assert TerminatorsLast(f, f.layout[b]);
  }

  /** A list schedule of a graph over some blocks respects the in-block dependences of each of them. */
  lemma ScheduleRespectsBlock(f: Func, local: bool, blocks: seq<nat>, d: Deps, schedule: seq<nat>, b: nat)
    requires Buildable(f, blocks) && b in blocks && IsGraphOf(f, local, blocks, d)
    requires IsListSchedule(f, d, schedule)
    ensures RespectsBlock(f, schedule, f.layout[b])
  {
    forall k: nat, o: nat | k < |schedule| && DependsInside(f, f.layout[b], schedule[k], o)
      ensures o in schedule[..k]
    {
      var i := schedule[k];
      assert In(f, b, i) && In(f, b, o);
      TraceNodesContents(f, local, blocks, i);
      TraceNodesContents(f, local, blocks, o);
      assert HasEdge(f, d.nodes, local, blocks, o, i);
      assert Edge(d.pred, i, o);
    }
  }

  /** In a trace every region is complete, so every region that ends at an anchor is put in schedule order. */
  lemma TraceRegionsAreComplete(f: Func, trace: seq<nat>, d: Deps, schedule: seq<nat>, b: nat, region: seq<nat>)
    requires Valid(f) && ReachableBlocks(f, trace) && IsGraphOf(f, false, trace, d)
    requires IsListSchedule(f, d, schedule) && b in trace
    requires NoDup(region) && forall i :: i in region ==> In(f, b, i) && IsPure(f.info, i)
    ensures Arranged(schedule, region) == Pick(schedule, region)
    ensures forall i :: i in region <==> i in Pick(schedule, region)
  {
    TraceScheduleIsComplete(f, trace, d, schedule);
    PickContents(schedule, region);
    SameElements(region, Pick(schedule, region)) by {
      assert |region| >= |Pick(schedule, region)| by {
        if |region| < |Pick(schedule, region)| {
          SameElements(Pick(schedule, region), region);
        }
      }
    }
  }

  /** Which schedules a graph has does not depend on the layout. */
  lemma SameListSchedule(f: Func, g: Func, d: Deps, schedule: seq<nat>)
    requires f.info == g.info && IsListSchedule(g, d, schedule)
    ensures IsListSchedule(f, d, schedule)
  {
  }

  // ----- The order of the nodes -----

  lemma {:induction false} BlockNodesInOrder(f: Func, local: bool, code: seq<nat>, a: nat, b: nat)
    requires StandsBefore(code, a, b) && HasNode(f, local, a) && HasNode(f, local, b)
    ensures StandsBefore(BlockNodes(f, local, code), a, b)
  {
    var i, j :| 0 <= i < j < |code| && code[i] == a && code[j] == b;
    var n := |code| - 1;
    var last := BlockNodes(f, local, code)[|BlockNodes(f, local, code[..n])|..];
    assert BlockNodes(f, local, code) == BlockNodes(f, local, code[..n]) + last;
    if j < n {
      assert code[..n][i] == a && code[..n][j] == b;
      BlockNodesInOrder(f, local, code[..n], a, b);
    } else {
      assert code[..n][i] == a;
      BlockNodesContents(f, local, code[..n], a);
      assert last == [b];
    }
    StandsBeforeIn(BlockNodes(f, local, code[..n]), last, a, b);
  }

  /** The graph lists its nodes in program order: block by block along the trace, and in each block in its order. */
  lemma {:induction false} NodesInProgramOrder(f: Func, local: bool, blocks: seq<nat>, m: nat, n: nat, a: nat, b: nat)
    requires m <= n < |blocks| && In(f, blocks[m], a) && In(f, blocks[n], b)
    requires HasNode(f, local, a) && HasNode(f, local, b)
    requires m == n ==> StandsBefore(f.layout[blocks[n]], a, b)
    ensures StandsBefore(TraceNodes(f, local, blocks), a, b)
  {
    var k := |blocks| - 1;
    var front, last := TraceNodes(f, local, blocks[..k]),
                       if blocks[k] < |f.layout| then BlockNodes(f, local, f.layout[blocks[k]]) else [];
    if n < k {
      NodesInProgramOrder(f, local, blocks[..k], m, n, a, b);
    } else if m == n {
      BlockNodesInOrder(f, local, f.layout[blocks[n]], a, b);
    } else {
      assert blocks[..k][m] == blocks[m];
      TraceNodesContents(f, local, blocks[..k], a);
      BlockNodesContents(f, local, f.layout[blocks[k]], b);
    }
    StandsBeforeIn(front, last, a, b);
  }

  // ----- The order a schedule keeps -----

  /** a stands before b in block c, and both may touch memory or program state, or call. */
  ghost predicate StateOrder(f: Func, c: nat, a: nat, b: nat) {
    && c < |f.layout| && a < |f.info| && b < |f.info|
    && (f.info[a].isCall || f.info[a].touchesMemory || f.info[a].hasSideEffects)
    && (f.info[b].isCall || f.info[b].touchesMemory || f.info[b].hasSideEffects)
    && exists p, q :: 0 <= p < q < |f.layout[c]| && f.layout[c][p] == a && f.layout[c][q] == b
  }

  /** An edge of the graph has one of two reasons: b computes with a's value, or both are state operations of one block,
      a first. */
  lemma EdgesHaveReasons(f: Func, local: bool, blocks: seq<nat>, d: Deps, a: nat, b: nat)
    requires IsGraphOf(f, local, blocks, d) && Buildable(f, blocks) && a in d.nodes && b in d.nodes
    requires local || (!NeverReady(f, a) && !NeverReady(f, b))
    ensures Edge(d.succ, a, b) <==> Uses(f, b, a) || exists c: nat :: c in blocks && StateOrder(f, c, a, b)
  {
    NodesAreInstructions(f, local, blocks, d, a);
    forall c: nat
      ensures OrderEdge(f, d.nodes, c, a, b) <==> StateOrder(f, c, a, b)
    {
      OrderEdgeIsStateOrder(f, d.nodes, c, a, b);
    }
  }

  lemma OrderEdgeIsStateOrder(f: Func, nodes: seq<nat>, c: nat, a: nat, b: nat)
    requires a in nodes && b in nodes
    ensures OrderEdge(f, nodes, c, a, b) <==> StateOrder(f, c, a, b)
  {
    if OrderEdge(f, nodes, c, a, b) {
      var k: nat :| k < |f.layout[c]| && OrderedPair(f, f.layout[c], a, b, k);
      var j :| 0 <= j < k && f.layout[c][..k][j] == a;
      assert f.layout[c][j] == a;
    }
    if StateOrder(f, c, a, b) {
      var p, q :| 0 <= p < q < |f.layout[c]| && f.layout[c][p] == a && f.layout[c][q] == b;
      assert f.layout[c][..q][p] == a;
      assert OrderedPair(f, f.layout[c], a, b, q);
    }
  }

  /** In the schedule every instruction comes after those whose values it uses, also from other blocks, and the state
      operations of a block keep their order. */
  lemma ScheduleKeepsOrder(f: Func, local: bool, blocks: seq<nat>, d: Deps, schedule: seq<nat>, a: nat, b: nat)
    requires IsGraphOf(f, local, blocks, d) && Buildable(f, blocks) && IsListSchedule(f, d, schedule)
    requires a in schedule && b in schedule
    requires Uses(f, b, a) || exists c: nat :: c in blocks && StateOrder(f, c, a, b)
    ensures Before(schedule, a, b)
  {
    assert PathTo(d.succ, [a], a, a) && PathTo(d.succ, [b], b, b);
    EdgesHaveReasons(f, local, blocks, d, a, b);
    var k :| 0 <= k < |schedule| && schedule[k] == b;
    assert Edge(d.pred, schedule[k], a);
    var m :| 0 <= m < k && schedule[m] == a;
    assert b !in schedule[..m + 1];
  }

  // ----- When a local graph is acyclic -----

  /** q leads from instruction to dependent instruction inside block b. */
  ghost predicate DependencePath(f: Func, b: nat, q: seq<nat>)
    requires b < |f.layout|
  {
    |q| > 0 && forall k :: 1 <= k < |q| ==> HasEdge(f, f.layout[b], true, [b], q[k - 1], q[k])
  }

  /** Going round its own block, p depends on itself. */
  ghost predicate FeedsItself(f: Func, b: nat, p: nat)
    requires b < |f.layout|
  {
    exists q :: |q| > 1 && DependencePath(f, b, q) && q[0] == p && q[|q| - 1] == p
  }

  lemma {:induction false} EveryInstructionIsANode(f: Func, code: seq<nat>)
    ensures BlockNodes(f, true, code) == code
  {
    if code != [] {
      EveryInstructionIsANode(f, code[..|code| - 1]);
    }
  }

  lemma NodesOfBlock(f: Func, b: nat)
    requires b < |f.layout|
    ensures TraceNodes(f, true, [b]) == f.layout[b]
  {
    EveryInstructionIsANode(f, f.layout[b]);
    assert [b][..0] == [];
    assert TraceNodes(f, true, []) == [];
    assert [] + f.layout[b] == f.layout[b];
  }

  lemma PathsAreDependencePaths(f: Func, b: nat, d: Deps, q: seq<nat>)
    requires b < |f.layout| && IsGraphOf(f, true, [b], d) && |q| > 1
    ensures IsPath(d.succ, q) <==> DependencePath(f, b, q)
  {
    NodesOfBlock(f, b);
    forall k | 1 <= k < |q|
      ensures Edge(d.succ, q[k - 1], q[k]) <==> HasEdge(f, f.layout[b], true, [b], q[k - 1], q[k])
    {
    }
    if DependencePath(f, b, q) {
      assert HasEdge(f, f.layout[b], true, [b], q[1 - 1], q[1]);
      assert Edge(d.succ, q[1 - 1], q[1]);
    }
  }

  /** A local graph is acyclic, as every dependence graph is meant to be, if and only if no PHI depends on itself
      through instructions of the block. */
  lemma LocalGraphAcyclicExactly(f: Func, b: nat, d: Deps)
    requires Valid(f) && b < |f.layout| && Reachable(f.succ, b) && IsGraphOf(f, true, [b], d)
    ensures Acyclic(d.succ) <==> forall p: nat :: p < |f.info| && f.info[p].isPhi ==> !FeedsItself(f, b, p)
  {
    if Acyclic(d.succ) {
      forall p: nat | FeedsItself(f, b, p)
        ensures OnCycle(d.succ, p)
      {
        var q :| |q| > 1 && DependencePath(f, b, q) && q[0] == p && q[|q| - 1] == p;
        PathsAreDependencePaths(f, b, d, q);
        assert PathTo(d.succ, q, p, p);
      }
    } else {
      var a: nat :| OnCycle(d.succ, a);
      var c :| |c| > 1 && PathTo(d.succ, c, a, a);
      CyclesNeedPhis(f, true, [b], d, c);
      var k :| 1 <= k < |c| && c[k] < |f.info| && f.info[c[k]].isPhi;
      assert Closed(d.succ);
      var q := AroundTheCycle(d.succ, c, k);
      PathsAreDependencePaths(f, b, d, q);
      assert FeedsItself(f, b, c[k]);
    }
  }

  /** A cycle can be walked from any of its nodes. */
  lemma AroundTheCycle(g: Graph, c: seq<nat>, k: nat) returns (q: seq<nat>)
    requires Closed(g) && IsPath(g, c) && c[0] == c[|c| - 1] && 1 <= k < |c|
    ensures |q| > 1 && PathTo(g, q, c[k], c[k])
  {
    PathSuffix(g, c, k);
    PathPrefix(g, c, k);
    PathConcat(g, c[k..], c[..k + 1]);
    q := c[k..] + c[..k + 1][1..];
  }

  /** A counting loop: block 1 holds the counter 0, its increment 1 and the branch 2 back to block 1. */
  function CountingLoop(): Func {
    Func([Plain([Const(0), Inst(1)], [0, 1], true, false), Plain([Inst(0), Const(1)], [], false, false),
          Plain([], [], false, true), Plain([], [], false, true)],
         [[1], [1]], [[3], [0, 1, 2]])
  }

  lemma CountingLoopWellFormed()
    ensures WellFormed(CountingLoop())
  {
    var f := CountingLoop();
    assert f.layout[0] == [3] && f.layout[1] == [0, 1, 2];
    forall b: nat, i: nat | In(f, b, i)
      ensures i < |f.info| && b == if i == 3 then 0 else 1
    {
    }
  }

  lemma CountingLoopValid()
    ensures Valid(CountingLoop()) && Reachable(CountingLoop().succ, 1)
  {
    var f := CountingLoop();
    CountingLoopWellFormed();
    assert PathTo(f.succ, [0, 1], 0, 1);
    assert f.layout[1] == [0, 1, 2];
    assert PhiUsesDominated(f, 1, 0) by {
      assert f.layout[1][..3] == [0, 1, 2];
      assert PhiOperand(f.info[0], 0) == Some(Const(0)) && PhiOperand(f.info[0], 1) == Some(Inst(1));
    }
    assert UsesDominated(f, 1, 1) by {
      assert f.layout[1][..1] == [0];
    }
    assert UsesDominated(f, 1, 2) && UsesDominated(f, 0, 0);
  }

  /** Its local dependence graph is a cycle. */
  lemma SomeLocalGraphsAreCyclic()
    ensures exists f: Func, d: Deps ::
              Valid(f) && Reachable(f.succ, 1) && IsGraphOf(f, true, [1], d) && !Acyclic(d.succ)
  {
    var f := CountingLoop();
    var d := CountingLoopDeps();
    CountingLoopValid();
    CountingLoopGraph();
    assert PathTo(d.succ, [0, 1, 0], 0, 0);
    assert OnCycle(d.succ, 0);
  }

  function CountingLoopDeps(): Deps {
    Deps([0, 1, 2], [[1], [0], [], []], [[1], [0], [], []])
  }

  lemma CountingLoopDepsOk()
    ensures DepsOk(CountingLoopDeps())
  {
    var d := CountingLoopDeps();
    forall a: nat, b: nat
      ensures Edge(d.succ, a, b) <==> Edge(d.pred, b, a)
      ensures Edge(d.succ, a, b) ==> a in d.nodes && b in d.nodes
    {
      assert Edge(d.succ, a, b) <==> (a == 0 && b == 1) || (a == 1 && b == 0);
      assert Edge(d.pred, b, a) <==> (a == 0 && b == 1) || (a == 1 && b == 0);
    }
  }

  lemma CountingLoopGraph()
    ensures IsGraphOf(CountingLoop(), true, [1], CountingLoopDeps())
  {
    var f, d := CountingLoop(), CountingLoopDeps();
    CountingLoopDepsOk();
    NodesOfBlock(f, 1);
    forall a: nat, b: nat
      ensures Edge(d.succ, a, b) <==> HasEdge(f, d.nodes, true, [1], a, b)
    {
      CountingLoopEdge(f, d, a, b);
    }
  }

  lemma CountingLoopEdge(f: Func, d: Deps, a: nat, b: nat)
    requires f == CountingLoop() && d == CountingLoopDeps()
    ensures Edge(d.succ, a, b) <==> (a == 0 && b == 1) || (a == 1 && b == 0)
    ensures HasEdge(f, d.nodes, true, [1], a, b) <==> (a == 0 && b == 1) || (a == 1 && b == 0)
  {
    assert OperandEdge(f, d.nodes, true, a, b) <==> (a == 0 && b == 1) || (a == 1 && b == 0);
    assert a < |f.info| ==> !IsOrdered(f.info[a]);
  }
}
