/** Breadth-first order of a control-flow graph (include/dom.hpp, include/traceIdentification.hpp). */
module BreadthFirst {
  import opened Graphs

  /** Every path to b is at least as long as some path to a. */
  ghost predicate NoFarther(g: Graph, a: nat, b: nat) {
    forall q :: PathTo(g, q, 0, b) ==> exists p :: PathTo(g, p, 0, a) && |p| <= |q|
  }

  /** The reachable blocks, each once, the entry first, by non-decreasing shortest distance. */
  ghost predicate IsBfsOrder(g: Graph, order: seq<nat>) {
    && NoDup(order)
    && (forall b: nat :: b in order <==> Reachable(g, b))
    && |order| > 0 && order[0] == 0
    && forall i, j :: 0 <= i < j < |order| ==> NoFarther(g, order[i], order[j])
  }

  /** A place in a walk through blocks and, for each, its successors. */
  datatype Place = Place(at: nat, nth: nat)

  predicate Sooner(a: Place, b: Place) {
    a.at < b.at || (a.at == b.at && a.nth < b.nth)
  }

  /** Walking through the order and each block's successors, block order[j] is first met at this place. */
  ghost predicate FirstMet(g: Graph, order: seq<nat>, j: nat, p: Place) {
    && j < |order| && p.at < j && order[p.at] < |g|
    && p.nth < |g[order[p.at]]| && g[order[p.at]][p.nth] == order[j]
    && order[j] !in g[order[p.at]][..p.nth]
    && forall i: nat :: i < p.at ==> !Edge(g, order[i], order[j])
  }

  ghost predicate IsMet(g: Graph, order: seq<nat>, j: nat) {
    exists p :: FirstMet(g, order, j, p)
  }

  /** Blocks are listed in the order in which they are met. */
  ghost predicate InOrderMet(g: Graph, order: seq<nat>) {
    && (forall j: nat :: 0 < j < |order| ==> IsMet(g, order, j))
    && forall i: nat, j: nat, p: Place, q: Place ::
         0 < i < j && FirstMet(g, order, i, p) && FirstMet(g, order, j, q) ==> Sooner(p, q)
  }

  ghost predicate IsIndexOf(order: seq<nat>, index: map<nat, nat>) {
    && (forall b: nat :: b in index <==> b in order)
    && forall b :: b in index ==> index[b] < |order| && order[index[b]] == b
  }

  lemma {:induction false} DistinctCount(s: seq<nat>, t: set<nat>)
    requires NoDup(s) && forall x: nat :: x in t <==> x in s
    ensures |t| == |s|
  {
    if s == [] {
      assert t == {};
    } else {
      var n := |s| - 1;
      assert s == s[..n] + [s[n]];
      DistinctCount(s[..n], t - {s[n]});
    }
  }

  /** The index has one entry per listed block, so a block that is not listed is after everything. */
  lemma IndexSize(order: seq<nat>, index: map<nat, nat>)
    requires NoDup(order) && IsIndexOf(order, index)
    ensures |index| == |order|
  {
    DistinctCount(order, index.Keys);
    assert |index| == |index.Keys|;
  }

  /** dist[i] is the length of some path to order[i]; distances never decrease along the order and span at most one
      step beyond the block being expanded. */
  ghost predicate Layered(g: Graph, order: seq<nat>, dist: seq<nat>, head: nat) {
    && |dist| == |order|
    && (forall i :: 0 <= i < |order| ==> exists p :: PathTo(g, p, 0, order[i]) && |p| == dist[i] + 1)
    && (forall i, j :: 0 <= i < j < |order| ==> dist[i] <= dist[j])
    && (head < |order| ==> dist[|order| - 1] <= dist[head] + 1)
  }

  /** Each successor of an expanded block is in the order, at most one step further. */
  ghost predicate Expanded(g: Graph, order: seq<nat>, dist: seq<nat>, head: nat) {
    |dist| == |order| &&
    forall i: nat, s: nat :: i < head && i < |order| && Edge(g, order[i], s) ==>
      exists j :: 0 <= j < |order| && order[j] == s && dist[j] <= dist[i] + 1
  }

  lemma PushKeepsLayers(g: Graph, order: seq<nat>, dist: seq<nat>, head: nat, s: nat)
    requires Layered(g, order, dist, head) && head < |order| && Edge(g, order[head], s)
    ensures Layered(g, order + [s], dist + [dist[head] + 1], head)
  {
    var p :| PathTo(g, p, 0, order[head]) && |p| == dist[head] + 1;
    PathSnoc(g, p, s);
    assert |p + [s]| == dist[head] + 2;
    forall i | 0 <= i < |order + [s]|
      ensures exists p :: PathTo(g, p, 0, (order + [s])[i]) && |p| == (dist + [dist[head] + 1])[i] + 1
    {
      if i < |order| {
        var q :| PathTo(g, q, 0, order[i]) && |q| == dist[i] + 1;
      }
    }
  }

  /** The list under construction: distinct blocks with their positions. */
  ghost predicate Listed(g: Graph, order: seq<nat>, index: map<nat, nat>) {
    NoDup(order) && IsIndexOf(order, index) && forall k :: 0 <= k < |order| ==> order[k] < |g|
  }

  lemma PushListed(g: Graph, order: seq<nat>, index: map<nat, nat>, s: nat)
    requires Listed(g, order, index) && s !in index && s < |g|
    ensures Listed(g, order + [s], index[s := |order|])
  {
  }

  method Bfs(g: Graph) returns (order: seq<nat>, index: map<nat, nat>)
    requires |g| > 0 && Closed(g)
    ensures IsBfsOrder(g, order) && InOrderMet(g, order) && IsIndexOf(order, index)
  {
    order, index := [0], map[0 := 0];
    ghost var dist, met := [0], [Place(0, 0)];
    assert PathTo(g, [0], 0, 0);
    var i := 0;
    while i < |order|
      invariant i <= |order| && |order| > 0 && order[0] == 0 && Listed(g, order, index)
      invariant Layered(g, order, dist, i) && Expanded(g, order, dist, i) && dist[0] == 0
      invariant Met(g, order, met, Place(i, 0))
      decreases |g| - i
    {
      order, index, dist, met := Expand(g, order, index, dist, met, i);
      Pigeonhole(order, |g|);
      i := i + 1;
    }
    FinishedOrder(g, order, dist);
    MetInOrder(g, order, met, Place(i, 0));
  }

  /** met[j] is where order[j] was first met; all were met before `now`, one after another. */
  ghost predicate Met(g: Graph, order: seq<nat>, met: seq<Place>, now: Place) {
    && |met| == |order|
    && (forall j: nat :: 0 < j < |order| ==> FirstMet(g, order, j, met[j]) && Sooner(met[j], now))
    && forall i, j :: 0 < i < j < |order| ==> Sooner(met[i], met[j])
  }

  lemma MetOnce(g: Graph, order: seq<nat>, j: nat, p: Place, q: Place)
    requires FirstMet(g, order, j, p) && FirstMet(g, order, j, q)
    ensures p == q
  {
    assert Edge(g, order[p.at], order[j]) && Edge(g, order[q.at], order[j]);
  }

  lemma MetInOrder(g: Graph, order: seq<nat>, met: seq<Place>, now: Place)
    requires Met(g, order, met, now)
    ensures InOrderMet(g, order)
  {
    forall j: nat | 0 < j < |order|
      ensures IsMet(g, order, j)
    {
      assert FirstMet(g, order, j, met[j]);
    }
    forall i: nat, j: nat, p: Place, q: Place | 0 < i < j && FirstMet(g, order, i, p) && FirstMet(g, order, j, q)
      ensures Sooner(p, q)
    {
      MetOnce(g, order, i, p, met[i]);
      MetOnce(g, order, j, q, met[j]);
    }
  }

  lemma MetAlike(g: Graph, a: seq<nat>, b: seq<nat>, n: nat, i: nat, j: nat, p: Place)
    requires n <= |a| && n <= |b| && a[..n] == b[..n] && FirstMet(g, a, i, p) && p.at < n
    requires p.at < j < |b| && b[j] == a[i]
    ensures FirstMet(g, b, j, p)
  {
    assert forall k :: 0 <= k < n ==> a[k] == a[..n][k] == b[k];
  }

  ghost predicate SameBlocks(a: seq<nat>, b: seq<nat>) {
    NoDup(a) && NoDup(b) && (forall x: nat :: x in a <==> x in b) && |a| > 0 && |b| > 0 && a[0] == b[0]
  }

  /** Where two lists of the same blocks part, the next block of each is met sooner than that of the other. */
  lemma NextIsSooner(g: Graph, a: seq<nat>, b: seq<nat>, n: nat, p: Place, q: Place)
    requires SameBlocks(a, b) && InOrderMet(g, b)
    requires 0 < n < |a| && n < |b| && a[..n] == b[..n] && a[n] != b[n]
    requires FirstMet(g, a, n, p) && FirstMet(g, b, n, q)
    ensures Sooner(q, p)
  {
    assert a[n] in a;
    assert a[n] in b;
    var j :| 0 <= j < |b| && b[j] == a[n];
    assert j > n;
    MetAlike(g, a, b, n, n, j, p);
  }

  lemma {:induction false} SameOrderUpTo(g: Graph, a: seq<nat>, b: seq<nat>, n: nat)
    requires SameBlocks(a, b) && InOrderMet(g, a) && InOrderMet(g, b)
    requires 0 < n <= |a| && n <= |b|
    ensures a[..n] == b[..n]
  {
    if n > 1 {
      SameOrderUpTo(g, a, b, n - 1);
      assert IsMet(g, a, n - 1) && IsMet(g, b, n - 1);
      var p :| FirstMet(g, a, n - 1, p);
      var q :| FirstMet(g, b, n - 1, q);
      if a[n - 1] != b[n - 1] {
        NextIsSooner(g, a, b, n - 1, p, q);
        NextIsSooner(g, b, a, n - 1, q, p);
      }
      assert a[..n] == a[..n - 1] + [a[n - 1]] && b[..n] == b[..n - 1] + [b[n - 1]];
    }
  }

  /** A graph has one such order. */
  lemma BfsOrderIsUnique(g: Graph, a: seq<nat>, b: seq<nat>)
    requires IsBfsOrder(g, a) && IsBfsOrder(g, b) && InOrderMet(g, a) && InOrderMet(g, b)
    ensures a == b
  {
    DistinctCount(a, set x | x in a);
    DistinctCount(b, set x | x in a);
    SameOrderUpTo(g, a, b, |a|);
    assert a[..|a|] == a && b[..|b|] == b;
  }

  lemma LaterNow(g: Graph, order: seq<nat>, met: seq<Place>, now: Place, later: Place)
    requires Met(g, order, met, now) && Sooner(now, later)
    ensures Met(g, order, met, later)
  {
  }

  /** A block met for the first time is listed next. */
  lemma MeetNew(g: Graph, order: seq<nat>, met: seq<Place>, i: nat, k: nat)
    requires i < |order| && order[i] < |g| && k < |g[order[i]]| && Met(g, order, met, Place(i, k))
    requires g[order[i]][k] !in order
    requires forall q: nat, s: nat :: q < i && Edge(g, order[q], s) ==> s in order
    requires forall s :: s in g[order[i]][..k] ==> s in order
    ensures Met(g, order + [g[order[i]][k]], met + [Place(i, k)], Place(i, k + 1))
  {
    var more := order + [g[order[i]][k]];
    forall j: nat | 0 < j < |order|
      ensures FirstMet(g, more, j, met[j])
    {
      assert FirstMet(g, order, j, met[j]);
      forall q: nat | q < met[j].at
        ensures !Edge(g, more[q], more[j])
      {
        assert !Edge(g, order[q], order[j]);
      }
    }
    assert FirstMet(g, more, |order|, Place(i, k));
  }

  /** The successors of blocks expanded already are listed. */
  lemma ExpandedListed(g: Graph, order: seq<nat>, dist: seq<nat>, order': seq<nat>, i: nat)
    requires Expanded(g, order, dist, i) && order <= order' && i <= |order|
    ensures forall q: nat, s: nat :: q < i && Edge(g, order'[q], s) ==> s in order'
  {
    forall q: nat, s: nat | q < i && Edge(g, order'[q], s)
      ensures s in order'
    {
      assert Edge(g, order[q], s);
      var j :| 0 <= j < |order| && order[j] == s && dist[j] <= dist[q] + 1;
      assert order'[j] == s;
    }
  }

  lemma NearIsListed(order: seq<nat>, dist: seq<nat>, succs: seq<nat>, k: nat, d: nat)
    requires SuccsNear(order, dist, succs, k, d) && k <= |succs|
    ensures forall s :: s in succs[..k] ==> s in order
  {
    forall s | s in succs[..k]
      ensures s in order
    {
      var m :| 0 <= m < k && succs[..k][m] == s;
      assert HasNear(order, dist, succs[m], d);
    }
  }

  /** Midway through the successors of order[i]: the first k of them are listed, at most one step further. */
  ghost predicate Expanding(g: Graph, order: seq<nat>, dist: seq<nat>, order': seq<nat>, index': map<nat, nat>,
                            dist': seq<nat>, i: nat, k: nat) {
    && i < |order| && i < |dist| && order[i] < |g| && order <= order' && dist <= dist'
    && Listed(g, order', index') && Layered(g, order', dist', i)
    && SuccsNear(order', dist', g[order[i]], k, dist[i] + 1)
  }

  lemma ExpandPush(g: Graph, order: seq<nat>, dist: seq<nat>, order': seq<nat>, index': map<nat, nat>,
                   dist': seq<nat>, i: nat, k: nat)
    requires Closed(g) && Expanding(g, order, dist, order', index', dist', i, k) && k < |g[order[i]]|
    requires g[order[i]][k] !in index'
    ensures var s := g[order[i]][k];
      Expanding(g, order, dist, order' + [s], index'[s := |order'|], dist' + [dist[i] + 1], i, k + 1)
  {
    var s := g[order[i]][k];
    assert Edge(g, order'[i], s);
    PushKeepsLayers(g, order', dist', i, s);
    PushListed(g, order', index', s);
    PushIsNear(order', dist', g[order[i]], k, dist[i] + 1);
  }

  lemma ExpandSkip(g: Graph, order: seq<nat>, dist: seq<nat>, order': seq<nat>, index': map<nat, nat>,
                   dist': seq<nat>, i: nat, k: nat)
    requires Expanding(g, order, dist, order', index', dist', i, k) && k < |g[order[i]]|
    requires g[order[i]][k] in index'
    ensures Expanding(g, order, dist, order', index', dist', i, k + 1)
  {
    ListedIsNear(g, order', index', dist', i, g[order[i]][k]);
  }

  /** The inner loop: appends the successors of order[i] that are not listed yet. */
  method Expand(g: Graph, order: seq<nat>, index: map<nat, nat>, ghost dist: seq<nat>, ghost met: seq<Place>, i: nat)
    returns (order': seq<nat>, index': map<nat, nat>, ghost dist': seq<nat>, ghost met': seq<Place>)
    requires Met(g, order, met, Place(i, 0))
    requires Closed(g) && i < |order| && Listed(g, order, index)
    requires Layered(g, order, dist, i) && Expanded(g, order, dist, i)
    ensures order <= order' && dist <= dist' && Listed(g, order', index')
    ensures Layered(g, order', dist', i + 1) && Expanded(g, order', dist', i + 1)
    ensures Met(g, order', met', Place(i + 1, 0))
  {
    order', index', dist', met' := order, index, dist, met;
    var succs := g[order[i]];
    for k := 0 to |succs|
      invariant Expanding(g, order, dist, order', index', dist', i, k)
      invariant Met(g, order', met', Place(i, k))
    {
      var s := succs[k];
      if s !in index' {
        ExpandedListed(g, order, dist, order', i);
        NearIsListed(order', dist', succs, k, dist[i] + 1);
        MeetNew(g, order', met', i, k);
        met' := met' + [Place(i, k)];
        ExpandPush(g, order, dist, order', index', dist', i, k);
        index' := index'[s := |order'|];
        order' := order' + [s];
        dist' := dist' + [dist[i] + 1];
      } else {
        ExpandSkip(g, order, dist, order', index', dist', i, k);
        LaterNow(g, order', met', Place(i, k), Place(i, k + 1));
      }
    }
    LaterNow(g, order', met', Place(i, |succs|), Place(i + 1, 0));
    NowExpanded(g, order, dist, order', dist', i);
  }

  ghost predicate SuccsNear(order: seq<nat>, dist: seq<nat>, succs: seq<nat>, k: nat, d: nat) {
    forall m :: 0 <= m < k && m < |succs| ==> HasNear(order, dist, succs[m], d)
  }

  lemma PushIsNear(order: seq<nat>, dist: seq<nat>, succs: seq<nat>, k: nat, d: nat)
    requires k < |succs| && |dist| == |order| && SuccsNear(order, dist, succs, k, d)
    ensures SuccsNear(order + [succs[k]], dist + [d], succs, k + 1, d)
  {
    assert (order + [succs[k]])[|order|] == succs[k];
    NearSurvives(order, dist, succs[k], d);
  }

  lemma ListedIsNear(g: Graph, order: seq<nat>, index: map<nat, nat>, dist: seq<nat>, i: nat, s: nat)
    requires IsIndexOf(order, index) && s in index && Layered(g, order, dist, i) && i < |order|
    ensures HasNear(order, dist, s, dist[i] + 1)
  {
  }

  ghost predicate HasNear(order: seq<nat>, dist: seq<nat>, s: nat, d: nat) {
    |dist| == |order| && exists j :: 0 <= j < |order| && order[j] == s && dist[j] <= d
  }

  lemma NearSurvives(order: seq<nat>, dist: seq<nat>, x: nat, e: nat)
    ensures forall s: nat, d: nat :: HasNear(order, dist, s, d) ==> HasNear(order + [x], dist + [e], s, d)
  {
    forall s: nat, d: nat | HasNear(order, dist, s, d)
      ensures HasNear(order + [x], dist + [e], s, d)
    {
      var j :| 0 <= j < |order| && order[j] == s && dist[j] <= d;
      assert (order + [x])[j] == s && (dist + [e])[j] == dist[j];
    }
  }

  lemma NowExpanded(g: Graph, order: seq<nat>, dist: seq<nat>, order': seq<nat>, dist': seq<nat>, i: nat)
    requires order <= order' && dist <= dist' && |dist'| == |order'| && i < |order| && order[i] < |g|
    requires Layered(g, order', dist', i) && Expanded(g, order, dist, i)
    requires SuccsNear(order', dist', g[order[i]], |g[order[i]]|, dist[i] + 1)
    ensures Expanded(g, order', dist', i + 1) && Layered(g, order', dist', i + 1)
  {
  }

  /** With every listed block expanded, each path to a block bounds that block's recorded distance. */
  lemma {:induction false} DistanceIsShortest(g: Graph, order: seq<nat>, dist: seq<nat>, q: seq<nat>)
    requires Layered(g, order, dist, |order|) && Expanded(g, order, dist, |order|)
    requires |order| > 0 && order[0] == 0 && dist[0] == 0 && IsPath(g, q) && q[0] == 0
    ensures HasNear(order, dist, q[|q| - 1], |q| - 1)
  {
    if |q| > 1 {
      var n := |q| - 1;
      PathPrefix(g, q, n - 1);
      DistanceIsShortest(g, order, dist, q[..n]);
      var i :| 0 <= i < |order| && order[i] == q[n - 1] && dist[i] <= n - 1;
      assert Edge(g, order[i], q[n]);
    }
  }

  lemma FinishedOrder(g: Graph, order: seq<nat>, dist: seq<nat>)
    requires Layered(g, order, dist, |order|) && Expanded(g, order, dist, |order|)
    requires NoDup(order) && |order| > 0 && order[0] == 0 && dist[0] == 0
    ensures IsBfsOrder(g, order)
  {
    forall b: nat | Reachable(g, b)
      ensures b in order
    {
      var p :| PathTo(g, p, 0, b);
      DistanceIsShortest(g, order, dist, p);
    }
    forall b: nat | b in order
      ensures Reachable(g, b)
    {
      var i :| 0 <= i < |order| && order[i] == b;
    }
    forall i, j | 0 <= i < j < |order|
      ensures NoFarther(g, order[i], order[j])
    {
      forall q | PathTo(g, q, 0, order[j])
        ensures exists p :: PathTo(g, p, 0, order[i]) && |p| <= |q|
      {
        DistanceIsShortest(g, order, dist, q);
        var m :| 0 <= m < |order| && order[m] == order[j] && dist[m] <= |q| - 1;
        assert m == j;
        var p :| PathTo(g, p, 0, order[i]) && |p| == dist[i] + 1;
      }
    }
  }
}
