/** Critical paths in cycles: what the latency model makes of the longest path (include/ddg.hpp,
    include/critical.hpp). */
module Latencies {
  import opened Graphs
  import opened Ir
  import opened Ddgs
  import opened BuildDdg
  import opened CriticalPaths

  /** How many instructions of p have the opcode. */
  function Count(info: seq<Instr>, p: seq<nat>, op: Opcode): nat {
    if p == [] then 0
    else Count(info, p[1..], op) + if p[0] < |info| && info[p[0]].opcode == op then 1 else 0
  }

  /** A cycle per instruction, and more for each load, call, multiplication and division. */
  function Cycles(info: seq<Instr>, p: seq<nat>): nat {
    |p| + 2 * Count(info, p, Load) + 4 * Count(info, p, Call) + Count(info, p, Mul)
    + 9 * (Count(info, p, UDiv) + Count(info, p, SDiv))
  }

  lemma {:induction false} PathDelayIsCycles(f: Func, nodes: seq<nat>, delay: seq<nat>, p: seq<nat>)
    requires DelaysRight(f, nodes, delay) && forall n :: n in p ==> n in nodes
    ensures PathDelay(delay, p) == Cycles(f.info, p)
  {
    if p != [] {
      assert p[0] in p;
      PathDelayIsCycles(f, nodes, delay, p[1..]);
    }
  }

  lemma SinkPathInNodes(d: Deps, p: seq<nat>, n: nat)
    requires DepsOk(d) && n in d.nodes && SinkPath(d.succ, p, n)
    ensures forall m :: m in p ==> m in d.nodes
  {
    forall k | 0 <= k < |p|
      ensures p[k] in d.nodes
    {
      assert k > 0 ==> Edge(d.succ, p[k - 1], p[k]);
    }
  }

  /** The critical path of an instruction that reaches no cycle is the largest number of cycles of any dependence path
      from it to an instruction nothing depends on. */
  lemma CriticalPathInCycles(f: Func, d: Deps, delay: seq<nat>, cp: seq<nat>, n: nat)
    requires Solved(d, delay, cp) && DelaysRight(f, d.nodes, delay) && n in d.nodes && !ReachesCycle(d.succ, n)
    ensures n < |cp|
    ensures forall p :: SinkPath(d.succ, p, n) ==> Cycles(f.info, p) <= cp[n]
    ensures exists p :: SinkPath(d.succ, p, n) && Cycles(f.info, p) == cp[n]
  {
    CriticalPathIsLongest(d, delay, cp, n);
    forall p | SinkPath(d.succ, p, n)
      ensures Cycles(f.info, p) == PathDelay(delay, p)
    {
      SinkPathInNodes(d, p, n);
      PathDelayIsCycles(f, d.nodes, delay, p);
    }
  }
}
