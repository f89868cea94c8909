/** Critical paths (include/critical.hpp): a depth-first post-order, then a longest-path recurrence. */
module CriticalPaths {
  import opened Graphs
  import opened Ddgs

  // ----- Specification -----

  /** The summed delays of the nodes of a path. */
  function PathDelay(delay: seq<nat>, p: seq<nat>): nat {
    if p == [] then 0 else (if p[0] < |delay| then delay[p[0]] else 0) + PathDelay(delay, p[1..])
  }

  ghost predicate SinkPath(g: Graph, p: seq<nat>, n: nat) {
    IsPath(g, p) && p[0] == n && p[|p| - 1] < |g| && g[p[|p| - 1]] == []
  }

  /** c is the length of the longest latency-weighted path from n to a sink. */
  ghost predicate IsLongest(g: Graph, delay: seq<nat>, n: nat, c: nat) {
    && (forall p :: SinkPath(g, p, n) ==> PathDelay(delay, p) <= c)
    && (exists p :: SinkPath(g, p, n) && PathDelay(delay, p) == c)
  }

  function MaxOf(cp: seq<nat>, ns: seq<nat>): nat {
    if ns == [] then 0
    else
      var m := MaxOf(cp, ns[..|ns| - 1]);
      var n := ns[|ns| - 1];
      if n < |cp| && cp[n] > m then cp[n] else m
  }

  ghost predicate CpEquation(d: Deps, delay: seq<nat>, cp: seq<nat>, n: nat) {
    && |cp| == |delay| == |d.succ|
    && n < |cp|
    && cp[n] == delay[n] + MaxOf(cp, d.succ[n])
  }

  /** Every node that is on no cycle stands after all its successors. */
  ghost predicate PostOrdered(g: Graph, order: seq<nat>) {
    forall k: nat, s: nat :: k < |order| && !OnCycle(g, order[k]) && Edge(g, order[k], s) ==> s in order[..k]
  }

  // ----- The depth-first post-order -----

  ghost predicate SameSet(a: set<nat>, b: seq<nat>, c: set<nat>) {
    forall x: nat :: x in a <==> x in b || x in c
  }

  ghost predicate AllReach(g: Graph, xs: set<nat>, node: nat) {
    forall x: nat :: x in xs ==> Reaches(g, x, node)
  }

  /** topoSortDFS, on any graph. `gray` holds the nodes whose visit is under way; they all reach `node`. */
  method TopoSortDFS(d: Deps, node: nat, visited: set<nat>, result: seq<nat>, ghost gray: set<nat>)
    returns (visited': set<nat>, result': seq<nat>)
    requires DepsOk(d) && node in d.nodes && node !in visited
    requires SameSet(visited, result, gray) && NoDup(result) && (forall x :: x in gray ==> x !in result)
    requires forall x :: x in result ==> x in d.nodes
    requires PostOrdered(d.succ, result) && AllReach(d.succ, gray, node)
    ensures SameSet(visited', result', gray) && NoDup(result') && (forall x :: x in gray ==> x !in result')
    ensures forall x :: x in result' ==> x in d.nodes
    ensures result <= result' && node in result'
    ensures PostOrdered(d.succ, result')
    decreases Unvisited(d, visited)
  {
    visited' := visited + {node};
    result' := result;
    ghost var stack := gray + {node};
    Shrinks(d, visited, visited', node);
    StackReaches(d, gray, node);
    var succs := d.succ[node];
    for k := 0 to |succs|
      invariant SameSet(visited', result', stack) && NoDup(result') && (forall x :: x in stack ==> x !in result')
      invariant forall x :: x in result' ==> x in d.nodes
      invariant result <= result' && visited + {node} <= visited'
      invariant PostOrdered(d.succ, result')
      invariant forall j :: 0 <= j < k ==> succs[j] in visited'
    {
      var succ := succs[k];
      assert Edge(d.succ, node, succ);
      if succ !in visited' {
        Shrinks(d, visited, visited', node);
        StackReachesNext(d, stack, node, succ);
        visited', result' := TopoSortDFS(d, succ, visited', result', stack);
      }
    }
    NoSuccessorOnStack(d, stack, node);
    AppendKeepsPostOrder(d.succ, result', node);
    result' := result' + [node];
  }

  ghost function Unvisited(d: Deps, visited: set<nat>): set<nat> {
    set x | x in d.nodes && x !in visited
  }

  lemma Shrinks(d: Deps, visited: set<nat>, more: set<nat>, node: nat)
    requires visited <= more && node in more && node !in visited && node in d.nodes
    ensures Unvisited(d, more) < Unvisited(d, visited)
  {
    assert node in Unvisited(d, visited);
  }

  lemma StackReaches(d: Deps, gray: set<nat>, node: nat)
    requires DepsOk(d) && node in d.nodes && AllReach(d.succ, gray, node)
    ensures AllReach(d.succ, gray + {node}, node)
  {
    assert PathTo(d.succ, [node], node, node);
  }

  lemma StackReachesNext(d: Deps, stack: set<nat>, node: nat, succ: nat)
    requires Edge(d.succ, node, succ) && AllReach(d.succ, stack, node)
    ensures AllReach(d.succ, stack, succ)
  {
    forall x: nat | x in stack
      ensures Reaches(d.succ, x, succ)
    {
      ReachesStep(d.succ, x, node, succ);
    }
  }

  /** A successor still on the stack puts the node on a cycle. */
  lemma NoSuccessorOnStack(d: Deps, stack: set<nat>, node: nat)
    requires DepsOk(d) && AllReach(d.succ, stack, node)
    ensures !OnCycle(d.succ, node) ==> forall s: nat :: Edge(d.succ, node, s) ==> s !in stack
  {
    forall s: nat | Edge(d.succ, node, s) && s in stack
      ensures OnCycle(d.succ, node)
    {
      var p :| PathTo(d.succ, p, s, node);
      PathConcat(d.succ, [node, s], p);
      assert PathTo(d.succ, [node, s] + p[1..], node, node);
    }
  }

  lemma AppendKeepsPostOrder(g: Graph, result: seq<nat>, node: nat)
    requires PostOrdered(g, result)
    requires !OnCycle(g, node) ==> forall s: nat :: Edge(g, node, s) ==> s in result
    ensures PostOrdered(g, result + [node])
  {
    var more := result + [node];
    forall k: nat, s: nat | k < |more| && !OnCycle(g, more[k]) && Edge(g, more[k], s)
      ensures s in more[..k]
    {
      assert more[..k] == if k < |result| then result[..k] else result;
    }
  }

  function Reverse(s: seq<nat>): seq<nat> {
    seq(|s|, k requires 0 <= k < |s| => s[|s| - 1 - k])
  }

  /** topologicalSort: sources first, on any graph each node once. */
  method TopologicalSort(d: Deps) returns (order: seq<nat>)
    requires DepsOk(d)
    ensures NoDup(order) && forall x :: x in order <==> x in d.nodes
    ensures PostOrdered(d.succ, Reverse(order))
  {
    var visited: set<nat>, result: seq<nat> := {}, [];
    for k := 0 to |d.nodes|
      invariant SameSet(visited, result, {}) && NoDup(result)
      invariant forall x :: x in result ==> x in d.nodes
      invariant PostOrdered(d.succ, result)
      invariant forall j :: 0 <= j < k ==> d.nodes[j] in result
    {
      if d.nodes[k] !in visited {
        visited, result := TopoSortDFS(d, d.nodes[k], visited, result, {});
      }
    }
    order := Reverse(result);
    ReversedTwice(result);
    ReversedNoDup(result);
    forall x: nat
      ensures x in order <==> x in d.nodes
    {
      ReversedContents(result, x);
    }
  }

  lemma ReversedNoDup(s: seq<nat>)
    requires NoDup(s)
    ensures NoDup(Reverse(s))
  {
  }

  lemma ReversedContents(s: seq<nat>, x: nat)
    ensures x in Reverse(s) <==> x in s
  {
    if x in s {
      var j :| 0 <= j < |s| && s[j] == x;
      assert Reverse(s)[|s| - 1 - j] == x;
    }
  }

  lemma ReversedTwice(s: seq<nat>)
    ensures Reverse(Reverse(s)) == s
  {
  }

  // ----- The recurrence -----

  /** computeCriticalPath: on exit every node on no cycle satisfies the longest-path recurrence. */
  method ComputeCriticalPath(ddg: Ddg)
    requires ddg.Valid()
    modifies ddg`criticalPath
    ensures ddg.Valid()
    ensures Solved(ddg.AsDeps(), ddg.delay, ddg.criticalPath)
  {
    ghost var d := ddg.AsDeps();
    var topoOrder := TopologicalSort(ddg.AsDeps());
    ghost var post := Reverse(topoOrder);
    for k := |topoOrder| downto 0
      invariant ddg.Valid()
      invariant SolvedUpTo(d, ddg.delay, ddg.criticalPath, post, |topoOrder| - k)
    {
      var n := topoOrder[k];
      ghost var done := |topoOrder| - 1 - k;
      assert post[done] == n;
      assert n in d.nodes;
      SolveNext(ddg, n, post, done);
    }
    AllSolved(d, ddg.delay, ddg.criticalPath, topoOrder);
  }

  lemma AllSolved(d: Deps, delay: seq<nat>, cp: seq<nat>, order: seq<nat>)
    requires SolvedUpTo(d, delay, cp, Reverse(order), |order|)
    ensures forall n: nat :: n in order && !OnCycle(d.succ, n) ==> CpEquation(d, delay, cp, n)
  {
    forall n: nat | n in order && !OnCycle(d.succ, n)
      ensures CpEquation(d, delay, cp, n)
    {
      var j :| 0 <= j < |order| && order[j] == n;
      assert Reverse(order)[|order| - 1 - j] == n;
    }
  }

  /** One node of the reverse order. */
  method SolveNext(ddg: Ddg, n: nat, ghost post: seq<nat>, ghost done: nat)
    requires ddg.Valid() && n in ddg.nodes && done < |post| && post[done] == n
    requires NoDup(post) && PostOrdered(ddg.successors, post)
    requires SolvedUpTo(ddg.AsDeps(), ddg.delay, ddg.criticalPath, post, done)
    modifies ddg`criticalPath
    ensures ddg.Valid() && SolvedUpTo(ddg.AsDeps(), ddg.delay, ddg.criticalPath, post, done + 1)
  {
    PathStep(ddg.AsDeps(), ddg.delay, ddg.criticalPath, post, done,
             ddg.delay[n] + MaxOf(ddg.criticalPath, ddg.successors[n]));
    SetCriticalPath(ddg, n);
  }

  method SetCriticalPath(ddg: Ddg, n: nat)
    requires ddg.Valid() && n in ddg.nodes
    modifies ddg`criticalPath
    ensures ddg.Valid()
    ensures ddg.criticalPath ==
              old(ddg.criticalPath)[n := ddg.delay[n] + MaxOf(old(ddg.criticalPath), ddg.successors[n])]
  {
    if ddg.successors[n] == [] {
      ddg.criticalPath := ddg.criticalPath[n := ddg.delay[n]];
    } else {
      assert forall s :: s in ddg.successors[n] ==> Edge(ddg.successors, n, s);
      var maxSuccCP := MaxSuccessor(ddg.criticalPath, ddg.successors[n]);
      ddg.criticalPath := ddg.criticalPath[n := ddg.delay[n] + maxSuccCP];
    }
  }

  method MaxSuccessor(cp: seq<nat>, succs: seq<nat>) returns (m: nat)
    requires forall s :: s in succs ==> s < |cp|
    ensures m == MaxOf(cp, succs)
  {
    m := 0;
    for k := 0 to |succs|
      invariant m == MaxOf(cp, succs[..k])
    {
      assert succs[..k + 1][..k] == succs[..k];
      assert succs[k] in succs;
      if cp[succs[k]] > m {
        m := cp[succs[k]];
      }
    }
    assert succs[..|succs|] == succs;
  }

  lemma {:induction false} MaxOfUnchanged(cp: seq<nat>, n: nat, v: nat, ns: seq<nat>)
    requires n < |cp| && n !in ns
    ensures MaxOf(cp[n := v], ns) == MaxOf(cp, ns)
  {
    if ns != [] {
      MaxOfUnchanged(cp, n, v, ns[..|ns| - 1]);
    }
  }

  /** The recurrence holds at the first `count` nodes of the post-order that are on no cycle. */
  ghost predicate SolvedUpTo(d: Deps, delay: seq<nat>, cp: seq<nat>, post: seq<nat>, count: nat) {
    forall j :: 0 <= j < count && j < |post| && !OnCycle(d.succ, post[j]) ==> CpEquation(d, delay, cp, post[j])
  }

  /** Writing the value of a later node leaves the recurrence of an earlier one alone. */
  lemma LaterWrite(d: Deps, delay: seq<nat>, cp: seq<nat>, post: seq<nat>, j: nat, k: nat, v: nat)
    requires |cp| == |delay| == |d.succ| && NoDup(post) && PostOrdered(d.succ, post)
    requires j <= k < |post| && post[j] < |d.succ| && post[k] < |d.succ| && !OnCycle(d.succ, post[j])
    ensures MaxOf(cp[post[k] := v], d.succ[post[j]]) == MaxOf(cp, d.succ[post[j]])
  {
    forall s | s in d.succ[post[j]]
      ensures s != post[k]
    {
      assert Edge(d.succ, post[j], s);
      assert s in post[..j];
    }
    MaxOfUnchanged(cp, post[k], v, d.succ[post[j]]);
  }

  lemma EarlierStaysSolved(d: Deps, delay: seq<nat>, cp: seq<nat>, post: seq<nat>, j: nat, k: nat, v: nat)
    requires NoDup(post) && PostOrdered(d.succ, post)
    requires j < k < |post| && post[k] < |d.succ| && !OnCycle(d.succ, post[j])
    requires CpEquation(d, delay, cp, post[j])
    ensures CpEquation(d, delay, cp[post[k] := v], post[j])
  {
    LaterWrite(d, delay, cp, post, j, k, v);
    assert post[j] != post[k];
  }

  lemma JustSolved(d: Deps, delay: seq<nat>, cp: seq<nat>, post: seq<nat>, k: nat, v: nat)
    requires |cp| == |delay| == |d.succ| && NoDup(post) && PostOrdered(d.succ, post)
    requires k < |post| && post[k] < |d.succ| && !OnCycle(d.succ, post[k])
    requires v == delay[post[k]] + MaxOf(cp, d.succ[post[k]])
    ensures CpEquation(d, delay, cp[post[k] := v], post[k])
  {
    LaterWrite(d, delay, cp, post, k, k, v);
  }

  lemma PathStep(d: Deps, delay: seq<nat>, cp: seq<nat>, post: seq<nat>, done: nat, v: nat)
    requires |cp| == |delay| == |d.succ| && NoDup(post) && PostOrdered(d.succ, post)
    requires done < |post| && post[done] < |d.succ| && SolvedUpTo(d, delay, cp, post, done)
    requires v == delay[post[done]] + MaxOf(cp, d.succ[post[done]])
    ensures SolvedUpTo(d, delay, cp[post[done] := v], post, done + 1)
  {
    forall j | 0 <= j < done + 1 && j < |post| && !OnCycle(d.succ, post[j])
      ensures CpEquation(d, delay, cp[post[done] := v], post[j])
    {
      if j < done {
        EarlierStaysSolved(d, delay, cp, post, j, done, v);
      } else {
        JustSolved(d, delay, cp, post, done, v);
      }
    }
  }

  // ----- What the recurrence means -----

  /** The result of computeCriticalPath: positive delays, and the recurrence at every node on no cycle. */
  ghost predicate Solved(d: Deps, delay: seq<nat>, cp: seq<nat>) {
    && DepsOk(d)
    && |cp| == |delay| == |d.succ|
    && (forall n :: n in d.nodes ==> delay[n] >= 1)
    && (forall n: nat :: n in d.nodes && !OnCycle(d.succ, n) ==> CpEquation(d, delay, cp, n))
  }

  ghost predicate ReachesCycle(g: Graph, n: nat) {
    exists m: nat :: Reaches(g, n, m) && OnCycle(g, m)
  }

  lemma {:induction false} MaxOfBounds(cp: seq<nat>, ns: seq<nat>)
    ensures forall n :: n in ns && n < |cp| ==> cp[n] <= MaxOf(cp, ns)
    ensures MaxOf(cp, ns) > 0 ==> exists n :: n in ns && n < |cp| && cp[n] == MaxOf(cp, ns)
  {
    if ns != [] {
      var k := |ns| - 1;
      MaxOfBounds(cp, ns[..k]);
      assert ns == ns[..k] + [ns[k]];
    }
  }

  /** Along every edge out of a node on no cycle the critical path strictly decreases. */
  lemma CriticalPathDecreases(d: Deps, delay: seq<nat>, cp: seq<nat>, a: nat, b: nat)
    requires Solved(d, delay, cp) && Edge(d.succ, a, b) && !OnCycle(d.succ, a)
    ensures b < |cp| && cp[b] < cp[a]
  {
    assert a in d.nodes && b in d.nodes;
    MaxOfBounds(cp, d.succ[a]);
  }

  lemma NoCycleAfterEdge(g: Graph, a: nat, b: nat)
    requires a < |g| && !ReachesCycle(g, a) && Edge(g, a, b)
    ensures !ReachesCycle(g, b) && !OnCycle(g, a)
  {
    assert PathTo(g, [a], a, a);
    forall m: nat | Reaches(g, b, m)
      ensures Reaches(g, a, m)
    {
      var p :| PathTo(g, p, b, m);
      PathConcat(g, [a, b], p);
    }
  }

  lemma {:induction false} NoLongerPath(d: Deps, delay: seq<nat>, cp: seq<nat>, n: nat, p: seq<nat>)
    requires Solved(d, delay, cp) && n in d.nodes && !ReachesCycle(d.succ, n) && SinkPath(d.succ, p, n)
    ensures n < |cp| && PathDelay(delay, p) <= cp[n]
    decreases |p|
  {
    assert PathTo(d.succ, [n], n, n);
    if |p| > 1 {
      assert Edge(d.succ, p[1 - 1], p[1]);
      NoCycleAfterEdge(d.succ, n, p[1]);
      forall k | 1 <= k < |p[1..]|
        ensures Edge(d.succ, p[1..][k - 1], p[1..][k])
      {
        assert Edge(d.succ, p[k + 1 - 1], p[k + 1]);
      }
      NoLongerPath(d, delay, cp, p[1], p[1..]);
      MaxOfBounds(cp, d.succ[n]);
    }
  }

  /** Some successor continues the longest path. */
  lemma LongestSuccessor(d: Deps, delay: seq<nat>, cp: seq<nat>, n: nat) returns (t: nat)
    requires Solved(d, delay, cp) && n in d.nodes && !OnCycle(d.succ, n) && n < |d.succ| && d.succ[n] != []
    requires forall s: nat :: Edge(d.succ, n, s) ==> !OnCycle(d.succ, s)
    ensures Edge(d.succ, n, t) && t in d.nodes && t < |cp| && n < |cp| && cp[n] == delay[n] + cp[t]
  {
    MaxOfBounds(cp, d.succ[n]);
    var s := d.succ[n][0];
    assert Edge(d.succ, n, s) && s in d.nodes;
    assert CpEquation(d, delay, cp, s);
    t :| t in d.succ[n] && t < |cp| && cp[t] == MaxOf(cp, d.succ[n]);
    assert Edge(d.succ, n, t);
  }

  lemma ConsSinkPath(d: Deps, delay: seq<nat>, n: nat, t: nat, q: seq<nat>)
    requires n < |d.succ| && n < |delay| && Edge(d.succ, n, t) && SinkPath(d.succ, q, t)
    ensures SinkPath(d.succ, [n] + q, n) && PathDelay(delay, [n] + q) == delay[n] + PathDelay(delay, q)
  {
    PathConcat(d.succ, [n, t], q);
    assert [n] + q == [n, t] + q[1..];
    assert ([n] + q)[1..] == q;
  }

  lemma {:induction false} AttainedByPath(d: Deps, delay: seq<nat>, cp: seq<nat>, n: nat) returns (p: seq<nat>)
    requires Solved(d, delay, cp) && n in d.nodes && !ReachesCycle(d.succ, n)
    ensures SinkPath(d.succ, p, n) && n < |cp| && PathDelay(delay, p) == cp[n]
    decreases if n < |cp| then cp[n] else 0
  {
    assert PathTo(d.succ, [n], n, n);
    assert !OnCycle(d.succ, n);
    if d.succ[n] == [] {
      p := [n];
      assert [n][1..] == [];
    } else {
      forall s: nat | Edge(d.succ, n, s)
        ensures !ReachesCycle(d.succ, s) && !OnCycle(d.succ, s)
      {
        assert s in d.nodes;
        NoCycleAfterEdge(d.succ, n, s);
        assert PathTo(d.succ, [s], s, s);
      }
      var t := LongestSuccessor(d, delay, cp, n);
      var q := AttainedByPath(d, delay, cp, t);
      ConsSinkPath(d, delay, n, t, q);
      p := [n] + q;
    }
  }

  /** The critical path of a node no cycle can be reached from is exactly its longest path. */
  lemma CriticalPathIsLongest(d: Deps, delay: seq<nat>, cp: seq<nat>, n: nat)
    requires Solved(d, delay, cp) && n in d.nodes && !ReachesCycle(d.succ, n)
    ensures n < |cp| && IsLongest(d.succ, delay, n, cp[n])
  {
    var p := AttainedByPath(d, delay, cp, n);
    forall q | SinkPath(d.succ, q, n)
      ensures PathDelay(delay, q) <= cp[n]
    {
      NoLongerPath(d, delay, cp, n, q);
    }
  }
}
