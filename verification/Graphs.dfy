/** Directed graphs, their paths, and dominance by its path definition.

    A graph is an adjacency list over the numbers below its length. A function's control-flow graph is
    one (node 0 is the entry block), and so is a data dependence graph (nodes are instruction numbers).
 */
module Graphs {
  type Graph = seq<seq<nat>>

  ghost predicate Closed(g: Graph) {
    forall a: nat, b: nat :: Edge(g, a, b) ==> b < |g|
  }

  predicate Edge(g: Graph, a: nat, b: nat) {
    a < |g| && b in g[a]
  }

  predicate NoDup(s: seq<nat>) {
    forall i, j :: 0 <= i < j < |s| ==> s[i] != s[j]
  }

  ghost predicate IsPath(g: Graph, p: seq<nat>) {
    && |p| > 0
    && p[0] < |g|
    && forall k :: 1 <= k < |p| ==> Edge(g, p[k - 1], p[k])
  }

  ghost predicate PathTo(g: Graph, p: seq<nat>, a: nat, b: nat) {
    IsPath(g, p) && p[0] == a && p[|p| - 1] == b
  }

  ghost predicate Reaches(g: Graph, a: nat, b: nat) {
    exists p :: PathTo(g, p, a, b)
  }

  /** Reachable from the entry block. */
  ghost predicate Reachable(g: Graph, b: nat) {
    Reaches(g, 0, b)
  }

  /** Every path from the entry to b passes through a. */
  ghost predicate Dominates(g: Graph, a: nat, b: nat) {
    forall p :: PathTo(g, p, 0, b) ==> a in p
  }

  ghost predicate StrictlyDominates(g: Graph, a: nat, b: nat) {
    a != b && Dominates(g, a, b)
  }

  /** No path leads from a node back to itself. */
  ghost predicate OnCycle(g: Graph, a: nat) {
    exists p :: |p| > 1 && PathTo(g, p, a, a)
  }

  ghost predicate Acyclic(g: Graph) {
    forall a :: !OnCycle(g, a)
  }

  // ----- Paths -----

  lemma PathPrefix(g: Graph, p: seq<nat>, k: nat)
    requires IsPath(g, p) && k < |p|
    ensures PathTo(g, p[..k + 1], p[0], p[k])
  {
  }

  lemma PathSuffix(g: Graph, p: seq<nat>, k: nat)
    requires Closed(g) && IsPath(g, p) && k < |p|
    ensures PathTo(g, p[k..], p[k], p[|p| - 1])
  {
    PathInRange(g, p, k);
  }

  lemma PathInRange(g: Graph, p: seq<nat>, k: nat)
    requires Closed(g) && IsPath(g, p) && k < |p|
    ensures p[k] < |g|
  {
    if k > 0 {
      assert Edge(g, p[k - 1], p[k]);
    }
  }

  lemma PathSnoc(g: Graph, p: seq<nat>, s: nat)
    requires IsPath(g, p) && Edge(g, p[|p| - 1], s)
    ensures PathTo(g, p + [s], p[0], s)
  {
  }

  lemma PathConcat(g: Graph, p: seq<nat>, q: seq<nat>)
    requires IsPath(g, p) && IsPath(g, q) && p[|p| - 1] == q[0]
    ensures PathTo(g, p + q[1..], p[0], q[|q| - 1])
  {
  }

  lemma ReachesStep(g: Graph, a: nat, b: nat, c: nat)
    requires Reaches(g, a, b) && Edge(g, b, c)
    ensures Reaches(g, a, c)
  {
    var p :| PathTo(g, p, a, b);
    PathSnoc(g, p, c);
  }

  lemma ReachableInRange(g: Graph, b: nat)
    requires Closed(g) && Reachable(g, b)
    ensures b < |g|
  {
    var p :| PathTo(g, p, 0, b);
    PathInRange(g, p, |p| - 1);
  }

  /** A reachable block other than the entry has a reachable predecessor. */
  lemma ReachablePredecessor(g: Graph, b: nat) returns (a: nat)
    requires Reachable(g, b) && b != 0
    ensures Reachable(g, a) && Edge(g, a, b)
  {
    var p :| PathTo(g, p, 0, b);
    assert |p| > 1;
    a := p[|p| - 2];
    assert Edge(g, p[|p| - 1 - 1], p[|p| - 1]);
    PathPrefix(g, p, |p| - 2);
  }

  /** A sequence of distinct numbers below n has at most n entries. */
  lemma {:induction false} Pigeonhole(s: seq<nat>, n: nat)
    requires NoDup(s)
    requires forall i :: 0 <= i < |s| ==> s[i] < n
    ensures |s| <= n
  {
    if |s| > 0 {
      assert s[0] < n;
      if n - 1 in s {
        var k :| 0 <= k < |s| && s[k] == n - 1;
        var t := s[..k] + s[k + 1..];
        forall i, j | 0 <= i < j < |t|
          ensures t[i] != t[j]
        {
          assert t[i] == s[if i < k then i else i + 1];
          assert t[j] == s[if j < k then j else j + 1];
        }
        Pigeonhole(t, n - 1);
      } else {
        Pigeonhole(s, n - 1);
      }
    }
  }

  // ----- Dominance -----

  /** The lemma hoisting rests on: dominance of a block extends back over any edge into it. */
  lemma DominatesAcrossEdge(g: Graph, t: nat, x: nat, y: nat)
    requires StrictlyDominates(g, t, y) && Edge(g, x, y)
    ensures Dominates(g, t, x)
  {
    forall p | PathTo(g, p, 0, x)
      ensures t in p
    {
      PathSnoc(g, p, y);
      assert t in p + [y];
    }
  }

  lemma DominatesTransitive(g: Graph, a: nat, b: nat, c: nat)
    requires Dominates(g, a, b) && Dominates(g, b, c)
    ensures Dominates(g, a, c)
  {
    forall p | PathTo(g, p, 0, c)
      ensures a in p
    {
      assert b in p;
      var k :| 0 <= k < |p| && p[k] == b;
      PathPrefix(g, p, k);
      assert a in p[..k + 1];
    }
  }

  lemma {:induction false} NoMutualDominance(g: Graph, a: nat, b: nat, p: seq<nat>)
    requires Dominates(g, a, b) && Dominates(g, b, a) && PathTo(g, p, 0, b)
    ensures a == b
    decreases |p|
  {
    assert a in p;
    var k :| 0 <= k < |p| && p[k] == a;
    PathPrefix(g, p, k);
    assert b in p[..k + 1];
    var j :| 0 <= j < k + 1 && p[j] == b;
    if a != b {
      PathPrefix(g, p, j);
      NoMutualDominance(g, a, b, p[..j + 1]);
    }
  }

  lemma DominatesAntisymmetric(g: Graph, a: nat, b: nat)
    requires Dominates(g, a, b) && Dominates(g, b, a) && Reachable(g, b)
    ensures a == b
  {
    var p :| PathTo(g, p, 0, b);
    NoMutualDominance(g, a, b, p);
  }

  lemma StrictlyDominatesTransitive(g: Graph, a: nat, b: nat, c: nat)
    requires StrictlyDominates(g, a, b) && StrictlyDominates(g, b, c) && Reachable(g, c)
    ensures StrictlyDominates(g, a, c)
  {
    DominatesTransitive(g, a, b, c);
    if a == c {
      DominatesAntisymmetric(g, b, c);
    }
  }

  lemma NothingStrictlyDominatesEntry(g: Graph, a: nat)
    requires |g| > 0
    ensures !StrictlyDominates(g, a, 0)
  {
    assert PathTo(g, [0], 0, 0);
  }

  lemma DominatorReachable(g: Graph, a: nat, b: nat)
    requires Dominates(g, a, b) && Reachable(g, b)
    ensures Reachable(g, a)
  {
    var p :| PathTo(g, p, 0, b);
    assert a in p;
    var k :| 0 <= k < |p| && p[k] == a;
    PathPrefix(g, p, k);
  }

  lemma {:induction false} LastOf(p: seq<nat>, a: nat, b: nat) returns (k: nat)
    requires a in p
    ensures k < |p| && (p[k] == a || p[k] == b)
    ensures forall j :: k < j < |p| ==> p[j] != a && p[j] != b
  {
    if p[|p| - 1] == a || p[|p| - 1] == b {
      k := |p| - 1;
    } else {
      assert a in p[..|p| - 1];
      k := LastOf(p[..|p| - 1], a, b);
    }
  }

  /** Splicing a path that avoids `avoid` into the tail of another after its last meeting point. */
  lemma SplicedPathAvoids(g: Graph, q: seq<nat>, r: seq<nat>, k: nat, avoid: nat)
    requires IsPath(g, q) && IsPath(g, r) && k < |r| && r[k] < |g| && q[|q| - 1] == r[k]
    requires avoid !in q && forall j :: k < j < |r| ==> r[j] != avoid
    ensures PathTo(g, q + r[k..][1..], q[0], r[|r| - 1]) && avoid !in q + r[k..][1..]
  {
  }

  /** The dominators of a reachable block form a chain. */
  lemma DominatorsFormChain(g: Graph, a: nat, b: nat, c: nat)
    requires Closed(g) && Dominates(g, a, c) && Dominates(g, b, c) && Reachable(g, c)
    ensures Dominates(g, a, b) || Dominates(g, b, a)
  {
    var r :| PathTo(g, r, 0, c);
    var k := LastOf(r, a, b);
    PathInRange(g, r, k);
    if r[k] == a {
      if !Dominates(g, b, a) {
        var q :| PathTo(g, q, 0, a) && b !in q;
        assert forall j :: k < j < |r| ==> r[j] != b;
        SplicedPathAvoids(g, q, r, k, b);
      }
    } else {
      if !Dominates(g, a, b) {
        var q :| PathTo(g, q, 0, b) && a !in q;
        SplicedPathAvoids(g, q, r, k, a);
      }
    }
  }

  // ----- Cycles -----

  lemma {:induction false} RepeatIsCycle(g: Graph, p: seq<nat>, i: nat, j: nat)
    requires Closed(g) && IsPath(g, p) && i < j < |p| && p[i] == p[j]
    ensures OnCycle(g, p[i])
  {
    PathPrefix(g, p, j);
    PathSuffix(g, p[..j + 1], i);
    assert |p[..j + 1][i..]| > 1;
  }
}
