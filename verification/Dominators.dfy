/** Dominator sets by iteration and immediate dominators (include/dom.hpp).

    A bit vector over the breadth-first positions is a set of positions.
 */
module Dominators {
  import opened Graphs
  import opened Ir
  import opened BreadthFirst

  type DomSets = map<nat, set<nat>>

  datatype DomInfo = DomInfo(order: seq<nat>, idx: map<nat, nat>, dom: DomSets, idom: map<nat, Option<nat>>)

  ghost predicate Mirror(succ: Graph, pred: Graph) {
    |succ| == |pred| && forall a: nat, b: nat :: Edge(succ, a, b) <==> Edge(pred, b, a)
  }

  // ----- Specification -----

  /** Bit d of a reachable block's set is set exactly when the d-th block lies on every path from the entry. */
  ghost predicate DomSetsExact(g: Graph, order: seq<nat>, dom: DomSets) {
    forall b: nat, d: nat :: b in order && d < |order| ==>
      b in dom && (d in dom[b] <==> Dominates(g, order[d], b))
  }

  /** x is the closest strict dominator of b: every other strict dominator of b dominates it. */
  ghost predicate IsIdom(g: Graph, x: nat, b: nat) {
    && StrictlyDominates(g, x, b)
    && forall y: nat :: StrictlyDominates(g, y, b) ==> Dominates(g, y, x)
  }

  // ----- The transfer function -----

  function AllBits(n: nat): (r: set<nat>)
    ensures forall d: nat :: d in r <==> d < n
  {
    if n == 0 then {} else AllBits(n - 1) + {n - 1}
  }

  /** The meet over the predecessors that have an index. */
  function Meet(dom: DomSets, idx: map<nat, nat>, preds: seq<nat>, n: nat): set<nat> {
    if preds == [] then AllBits(n)
    else
      var p := preds[|preds| - 1];
      var rest := Meet(dom, idx, preds[..|preds| - 1], n);
      if p in idx && p in dom then rest * dom[p] else rest
  }

  predicate HasPred(idx: map<nat, nat>, preds: seq<nat>) {
    exists p :: p in preds && p in idx
  }

  function NewDom(dom: DomSets, idx: map<nat, nat>, preds: seq<nat>, i: nat, n: nat): set<nat> {
    (if HasPred(idx, preds) then Meet(dom, idx, preds, n) else {}) + {i}
  }

  lemma {:induction false} MeetContents(dom: DomSets, idx: map<nat, nat>, preds: seq<nat>, n: nat, d: nat)
    ensures d in Meet(dom, idx, preds, n) <==>
              d < n && forall p :: p in preds && p in idx && p in dom ==> d in dom[p]
  {
    if preds != [] {
      var m := |preds| - 1;
      MeetContents(dom, idx, preds[..m], n, d);
      assert preds == preds[..m] + [preds[m]];
    }
  }

  method ComputeNewDom(dom: DomSets, idx: map<nat, nat>, preds: seq<nat>, i: nat, n: nat) returns (newDom: set<nat>)
    requires forall p :: p in idx ==> p in dom
    ensures newDom == NewDom(dom, idx, preds, i, n)
  {
    newDom := AllBits(n);
    var hasPred := false;
    for k := 0 to |preds|
      invariant newDom == Meet(dom, idx, preds[..k], n)
      invariant hasPred <==> HasPred(idx, preds[..k])
    {
      assert preds[..k + 1] == preds[..k] + [preds[k]];
      if preds[k] in idx {
        newDom := newDom * dom[preds[k]];
        hasPred := true;
      }
    }
    assert preds[..|preds|] == preds;
    if !hasPred {
      newDom := {};
    }
    newDom := newDom + {i};
  }

  // ----- What the iteration keeps -----

  ghost predicate ListsReachable(g: Graph, order: seq<nat>) {
    NoDup(order) && |order| > 0 && order[0] == 0 && forall b: nat :: b in order <==> Reachable(g, b)
  }

  /** The setting: a graph with its predecessor lists and its breadth-first order. */
  ghost predicate Setting(g: Graph, pred: Graph, order: seq<nat>, idx: map<nat, nat>) {
    && |g| > 0 && Closed(g) && Mirror(g, pred)
    && ListsReachable(g, order) && IsIndexOf(order, idx)
  }

  ghost predicate SetsFor(order: seq<nat>, dom: DomSets) {
    && (forall b: nat :: b in dom <==> b in order)
    && forall b :: b in dom ==> forall d :: d in dom[b] ==> d < |order|
  }

  /** No dominator is ever dropped. */
  ghost predicate KeepsDominators(g: Graph, order: seq<nat>, dom: DomSets) {
    forall b: nat, d: nat :: b in dom && d < |order| && Dominates(g, order[d], b) ==> d in dom[b]
  }

  /** Every set may only shrink when recomputed. */
  ghost predicate Shrinking(pred: Graph, order: seq<nat>, idx: map<nat, nat>, dom: DomSets) {
    forall i :: 1 <= i < |order| && order[i] < |pred| && order[i] in dom ==>
      NewDom(dom, idx, pred[order[i]], i, |order|) <= dom[order[i]]
  }

  ghost predicate Iterating(g: Graph, pred: Graph, order: seq<nat>, idx: map<nat, nat>, dom: DomSets) {
    && Setting(g, pred, order, idx)
    && SetsFor(order, dom) && dom[order[0]] == {0}
    && KeepsDominators(g, order, dom)
    && Shrinking(pred, order, idx, dom)
  }

  lemma NewDomKeepsDominators(g: Graph, pred: Graph, order: seq<nat>, idx: map<nat, nat>, dom: DomSets, i: nat, d: nat)
    requires Setting(g, pred, order, idx) && SetsFor(order, dom) && KeepsDominators(g, order, dom)
    requires 1 <= i < |order| && d < |order| && order[i] < |pred| && Dominates(g, order[d], order[i])
    ensures d in NewDom(dom, idx, pred[order[i]], i, |order|)
  {
    var b := order[i];
    if d != i {
      assert b in order && b != order[0];
      var a := ReachablePredecessor(g, b);
      assert Edge(pred, b, a) && a in order && a in idx;
      assert HasPred(idx, pred[b]);
      MeetContents(dom, idx, pred[b], |order|, d);
      forall p | p in pred[b] && p in idx && p in dom
        ensures d in dom[p]
      {
        assert Edge(pred, b, p) && Edge(g, p, b);
        DominatesAcrossEdge(g, order[d], p, b);
      }
    }
  }

  lemma SmallerSetsSmallerMeet(small: DomSets, big: DomSets, idx: map<nat, nat>, preds: seq<nat>, i: nat, n: nat)
    requires forall b :: b in big <==> b in small
    requires forall b :: b in big ==> small[b] <= big[b]
    ensures NewDom(small, idx, preds, i, n) <= NewDom(big, idx, preds, i, n)
  {
    forall d | d in Meet(small, idx, preds, n)
      ensures d in Meet(big, idx, preds, n)
    {
      MeetContents(small, idx, preds, n, d);
      MeetContents(big, idx, preds, n, d);
    }
  }

  lemma UpdateKeepsDominators(g: Graph, pred: Graph, order: seq<nat>, idx: map<nat, nat>, dom: DomSets, i: nat)
    requires Setting(g, pred, order, idx) && SetsFor(order, dom) && KeepsDominators(g, order, dom)
    requires 1 <= i < |order| && order[i] < |pred|
    ensures KeepsDominators(g, order, dom[order[i] := NewDom(dom, idx, pred[order[i]], i, |order|)])
  {
    var dom' := dom[order[i] := NewDom(dom, idx, pred[order[i]], i, |order|)];
    forall c: nat, d: nat | c in dom' && d < |order| && Dominates(g, order[d], c)
      ensures d in dom'[c]
    {
      if c == order[i] {
        NewDomKeepsDominators(g, pred, order, idx, dom, i, d);
      } else {
        assert c in dom;
      }
    }
  }

  lemma UpdateKeepsShrinking(pred: Graph, order: seq<nat>, idx: map<nat, nat>, dom: DomSets, i: nat)
    requires Shrinking(pred, order, idx, dom) && NoDup(order)
    requires 1 <= i < |order| && order[i] < |pred| && order[i] in dom
    ensures Shrinking(pred, order, idx, dom[order[i] := NewDom(dom, idx, pred[order[i]], i, |order|)])
  {
    var b := order[i];
    var dom' := dom[b := NewDom(dom, idx, pred[b], i, |order|)];
    assert dom'[b] <= dom[b];
    forall j | 1 <= j < |order| && order[j] < |pred| && order[j] in dom'
      ensures NewDom(dom', idx, pred[order[j]], j, |order|) <= dom'[order[j]]
    {
      SmallerSetsSmallerMeet(dom', dom, idx, pred[order[j]], j, |order|);
      assert j != i ==> order[j] != b && order[j] in dom;
    }
  }

  /** One in-place update keeps the invariant and only removes bits. */
  lemma UpdateKeepsIterating(g: Graph, pred: Graph, order: seq<nat>, idx: map<nat, nat>, dom: DomSets, i: nat)
    requires Iterating(g, pred, order, idx, dom) && 1 <= i < |order| && order[i] < |pred|
    ensures order[i] in dom
    ensures Iterating(g, pred, order, idx, dom[order[i] := NewDom(dom, idx, pred[order[i]], i, |order|)])
    ensures NewDom(dom, idx, pred[order[i]], i, |order|) <= dom[order[i]]
  {
    assert order[i] in order;
    UpdateKeepsDominators(g, pred, order, idx, dom, i);
    UpdateKeepsShrinking(pred, order, idx, dom, i);
    assert order[i] != order[0];
  }

  lemma StartShrinking(pred: Graph, order: seq<nat>, idx: map<nat, nat>, dom: DomSets)
    requires NoDup(order) && |order| > 0
    requires forall b :: b in dom && b != order[0] ==> dom[b] == AllBits(|order|)
    ensures Shrinking(pred, order, idx, dom)
  {
    forall i | 1 <= i < |order| && order[i] < |pred| && order[i] in dom
      ensures NewDom(dom, idx, pred[order[i]], i, |order|) <= dom[order[i]]
    {
      assert order[i] != order[0];
      forall d | d in Meet(dom, idx, pred[order[i]], |order|)
        ensures d < |order|
      {
        MeetContents(dom, idx, pred[order[i]], |order|, d);
      }
    }
  }

  /** DOM[entry] = {entry}, all bits set elsewhere. */
  function StartSets(order: seq<nat>): DomSets {
    map b | b in order :: if b == order[0] then {0} else AllBits(|order|)
  }

  /** The entry's own bit and full sets elsewhere start the iteration. */
  lemma StartIterating(g: Graph, pred: Graph, order: seq<nat>, idx: map<nat, nat>, dom: DomSets)
    requires Setting(g, pred, order, idx) && dom == StartSets(order)
    ensures Iterating(g, pred, order, idx, dom)
  {
    forall b: nat, d: nat | b in dom && d < |order| && Dominates(g, order[d], b)
      ensures d in dom[b]
    {
      if b == 0 {
        NothingStrictlyDominatesEntry(g, order[d]);
        assert order[d] == order[0];
      }
    }
    StartShrinking(pred, order, idx, dom);
  }

  // ----- At the fixed point -----

  ghost predicate FixedAt(pred: Graph, order: seq<nat>, idx: map<nat, nat>, dom: DomSets, i: nat) {
    i < |order| && order[i] < |pred| && order[i] in dom ==>
      dom[order[i]] == NewDom(dom, idx, pred[order[i]], i, |order|)
  }

  ghost predicate FixedPoint(pred: Graph, order: seq<nat>, idx: map<nat, nat>, dom: DomSets, upTo: nat) {
    forall i :: 1 <= i < upTo ==> FixedAt(pred, order, idx, dom, i)
  }

  /** At the fixed point a block's bits, but its own, are set in each of its predecessors. */
  lemma BitComesFromPred(g: Graph, pred: Graph, order: seq<nat>, idx: map<nat, nat>, dom: DomSets,
                         i: nat, a: nat, d: nat)
    requires Iterating(g, pred, order, idx, dom) && FixedPoint(pred, order, idx, dom, |order|)
    requires 1 <= i < |order| && order[i] in dom && d in dom[order[i]] && d != i
    requires Reachable(g, a) && Edge(g, a, order[i])
    ensures d < |order| && a in dom && d in dom[a]
  {
    assert FixedAt(pred, order, idx, dom, i);
    assert Edge(pred, order[i], a);
    MeetContents(dom, idx, pred[order[i]], |order|, d);
  }

  lemma {:induction false} BitsLieOnPaths(g: Graph, pred: Graph, order: seq<nat>, idx: map<nat, nat>, dom: DomSets,
                                          p: seq<nat>, d: nat)
    requires Iterating(g, pred, order, idx, dom) && FixedPoint(pred, order, idx, dom, |order|)
    requires IsPath(g, p) && p[0] == 0 && p[|p| - 1] in dom && d in dom[p[|p| - 1]]
    ensures d < |order| && order[d] in p
    decreases |p|
  {
    var b := p[|p| - 1];
    assert b in order;
    var i :| 0 <= i < |order| && order[i] == b;
    if i > 0 && d != i {
      var n := |p| - 1;
      assert n > 0;
      assert Edge(g, p[n - 1], p[n]);
      PathPrefix(g, p, n - 1);
      assert Reachable(g, p[n - 1]);
      BitComesFromPred(g, pred, order, idx, dom, i, p[n - 1], d);
      BitsLieOnPaths(g, pred, order, idx, dom, p[..n], d);
    }
  }

  lemma FixedPointIsExact(g: Graph, pred: Graph, order: seq<nat>, idx: map<nat, nat>, dom: DomSets)
    requires Iterating(g, pred, order, idx, dom) && FixedPoint(pred, order, idx, dom, |order|)
    ensures DomSetsExact(g, order, dom)
  {
    forall b: nat, d: nat | b in order && d < |order|
      ensures d in dom[b] <==> Dominates(g, order[d], b)
    {
      if d in dom[b] {
        forall p | PathTo(g, p, 0, b)
          ensures order[d] in p
        {
          BitsLieOnPaths(g, pred, order, idx, dom, p, d);
        }
      }
    }
  }

  // ----- The loops -----

  /** The pairs (block position, bit) that are still set; it only shrinks. */
  ghost function SetBits(order: seq<nat>, dom: DomSets): set<(nat, nat)> {
    set b, d | b in dom && d in dom[b] :: (b, d)
  }

  lemma SetBitsShrink(order: seq<nat>, dom: DomSets, b: nat, new_: set<nat>)
    requires b in dom && new_ <= dom[b]
    ensures SetBits(order, dom[b := new_]) <= SetBits(order, dom)
    ensures new_ != dom[b] ==> SetBits(order, dom[b := new_]) < SetBits(order, dom)
  {
    if new_ != dom[b] {
      var d :| d in dom[b] && d !in new_;
      assert (b, d) in SetBits(order, dom) && (b, d) !in SetBits(order, dom[b := new_]);
    }
  }

  /** Recomputes the set of the i-th block in place. */
  method UpdateBlock(g: Graph, pred: Graph, order: seq<nat>, idx: map<nat, nat>, dom: DomSets, i: nat)
    returns (dom': DomSets, changed: bool)
    requires Iterating(g, pred, order, idx, dom) && 1 <= i < |order|
    ensures Iterating(g, pred, order, idx, dom')
    ensures if changed then SetBits(order, dom') < SetBits(order, dom) else dom' == dom
    ensures !changed ==> FixedAt(pred, order, idx, dom, i)
  {
    var b := order[i];
    assert b in order;
    ReachableInRange(g, b);
    UpdateKeepsIterating(g, pred, order, idx, dom, i);
    var newDom := ComputeNewDom(dom, idx, pred[b], i, |order|);
    SetBitsShrink(order, dom, b, newDom);
    changed := newDom != dom[b];
    dom' := if changed then dom[b := newDom] else dom;
  }

  /** After the blocks before the i-th: something has shrunk, or nothing has changed and these blocks are fixed. */
  ghost predicate Swept(pred: Graph, order: seq<nat>, idx: map<nat, nat>, before: DomSets, dom: DomSets, changed: bool,
                        i: nat) {
    if changed then SetBits(order, dom) < SetBits(order, before)
    else dom == before && FixedPoint(pred, order, idx, dom, i)
  }

  lemma SweptOneMore(pred: Graph, order: seq<nat>, idx: map<nat, nat>, before: DomSets, dom: DomSets, changed: bool,
                     dom': DomSets, updated: bool, i: nat)
    requires Swept(pred, order, idx, before, dom, changed, i)
    requires if updated then SetBits(order, dom') < SetBits(order, dom)
             else dom' == dom && FixedAt(pred, order, idx, dom, i)
    ensures Swept(pred, order, idx, before, dom', changed || updated, i + 1)
  {
  }

  /** One pass over all blocks but the entry. */
  method Sweep(g: Graph, pred: Graph, order: seq<nat>, idx: map<nat, nat>, dom: DomSets)
    returns (dom': DomSets, changed: bool)
    requires Iterating(g, pred, order, idx, dom)
    ensures Iterating(g, pred, order, idx, dom')
    ensures if changed then SetBits(order, dom') < SetBits(order, dom)
            else dom' == dom && FixedPoint(pred, order, idx, dom, |order|)
  {
    dom', changed := dom, false;
    for i := 1 to |order|
      invariant Iterating(g, pred, order, idx, dom')
      invariant Swept(pred, order, idx, dom, dom', changed, i)
    {
      ghost var last, was := dom', changed;
      var updated: bool;
      dom', updated := UpdateBlock(g, pred, order, idx, dom', i);
      changed := changed || updated;
      SweptOneMore(pred, order, idx, dom, last, was, dom', updated, i);
    }
  }

  method IterateDominators(g: Graph, pred: Graph, order: seq<nat>, idx: map<nat, nat>) returns (dom: DomSets)
    requires Setting(g, pred, order, idx)
    ensures SetsFor(order, dom) && DomSetsExact(g, order, dom)
  {
    dom := StartSets(order);
    StartIterating(g, pred, order, idx, dom);
    var changed := true;
    while changed
      invariant Iterating(g, pred, order, idx, dom)
      invariant !changed ==> FixedPoint(pred, order, idx, dom, |order|)
      decreases SetBits(order, dom), changed
    {
      dom, changed := Sweep(g, pred, order, idx, dom);
    }
    FixedPointIsExact(g, pred, order, idx, dom);
  }

  // ----- Immediate dominators -----

  /** The bits stand for strict dominators of b. */
  ghost predicate AreStrict(g: Graph, order: seq<nat>, bits: set<nat>, b: nat) {
    forall d :: d in bits ==> d < |order| && StrictlyDominates(g, order[d], b)
  }

  /** Bit d stands for a block that strictly dominates none of the others. */
  ghost predicate IsDeepest(g: Graph, order: seq<nat>, bits: set<nat>, d: nat) {
    d < |order| && forall e :: e in bits && e < |order| ==> !StrictlyDominates(g, order[d], order[e])
  }

  /** Some strict dominator of b strictly dominates no other strict dominator of b. */
  lemma {:induction false} DeepestDominator(g: Graph, order: seq<nat>, b: nat, bits: set<nat>) returns (d: nat)
    requires Reachable(g, b) && bits != {} && AreStrict(g, order, bits, b)
    ensures d in bits && IsDeepest(g, order, bits, d)
    decreases bits
  {
    var start :| start in bits;
    var below := set e | e in bits && StrictlyDominates(g, order[start], order[e]);
    if below == {} {
      d := start;
      forall e | e in bits && e < |order|
        ensures !StrictlyDominates(g, order[d], order[e])
      {
        assert e !in below;
      }
    } else {
      assert start !in below;
      d := DeepestDominator(g, order, b, below);
      forall e | e in bits && e < |order|
        ensures !StrictlyDominates(g, order[d], order[e])
      {
        if StrictlyDominates(g, order[d], order[e]) {
          DominatorReachable(g, order[e], b);
          StrictlyDominatesTransitive(g, order[start], order[d], order[e]);
        }
      }
    }
  }

  /** A strict dominator that dominates no other is the immediate dominator: the dominators form a chain. */
  lemma DeepestIsIdom(g: Graph, x: nat, b: nat)
    requires Closed(g) && Reachable(g, b) && StrictlyDominates(g, x, b)
    requires forall y: nat :: StrictlyDominates(g, y, b) ==> !StrictlyDominates(g, x, y)
    ensures IsIdom(g, x, b)
  {
    forall y: nat | StrictlyDominates(g, y, b)
      ensures Dominates(g, y, x)
    {
      DominatorsFormChain(g, x, y, b);
    }
  }

  lemma IdomIsUnique(g: Graph, x: nat, y: nat, b: nat)
    requires Reachable(g, b) && IsIdom(g, x, b) && IsIdom(g, y, b)
    ensures x == y
  {
    DominatorReachable(g, x, b);
    DominatesAntisymmetric(g, y, x);
  }

  /** Bit d of strictDom is dominated by another strict dominator. */
  predicate DominatedByAnother(order: seq<nat>, dom: DomSets, strictDom: set<nat>, d: nat) {
    exists d2 :: d2 in strictDom && d2 != d && d2 < |order| && order[d2] in dom && d in dom[order[d2]]
  }

  method IsDominatedByAnother(order: seq<nat>, dom: DomSets, strictDom: set<nat>, d: nat) returns (r: bool)
    requires forall e :: e in strictDom ==> e < |order| && order[e] in dom
    ensures r == DominatedByAnother(order, dom, strictDom, d)
  {
    for d2 := 0 to |order|
      invariant forall e :: e in strictDom && e < d2 && e != d ==> d !in dom[order[e]]
    {
      if d2 in strictDom && d2 != d && d in dom[order[d2]] {
        return true;
      }
    }
    return false;
  }

  /** What the bits say about blocks. */
  lemma StrictBits(g: Graph, order: seq<nat>, dom: DomSets, i: nat)
    requires ListsReachable(g, order) && SetsFor(order, dom) && DomSetsExact(g, order, dom) && i < |order|
    ensures order[i] in dom
    ensures forall d: nat :: d in dom[order[i]] - {i} <==> d < |order| && StrictlyDominates(g, order[d], order[i])
  {
  }

  lemma StrictDominatorIsListed(g: Graph, order: seq<nat>, i: nat, y: nat) returns (d: nat)
    requires ListsReachable(g, order) && i < |order| && StrictlyDominates(g, y, order[i])
    ensures d < |order| && order[d] == y
  {
    assert order[i] in order;
    DominatorReachable(g, y, order[i]);
    assert y in order;
    d :| 0 <= d < |order| && order[d] == y;
  }

  /** The outer loop for one block: the first bit no other bit is dominated by. */
  method FirstSurvivor(order: seq<nat>, dom: DomSets, strictDom: set<nat>) returns (survivor: Option<nat>)
    requires forall e :: e in strictDom ==> e < |order| && order[e] in dom
    ensures survivor.Some? ==>
              survivor.value in strictDom && !DominatedByAnother(order, dom, strictDom, survivor.value)
    ensures survivor.None? ==> forall e :: e in strictDom ==> DominatedByAnother(order, dom, strictDom, e)
  {
    for d := 0 to |order|
      invariant forall e :: e in strictDom && e < d ==> DominatedByAnother(order, dom, strictDom, e)
    {
      if d in strictDom {
        var other := IsDominatedByAnother(order, dom, strictDom, d);
        if !other {
          return Some(d);
        }
      }
    }
    return None;
  }

  /** The double loop for one block always finds its immediate dominator. */
  method ImmediateDominator(g: Graph, order: seq<nat>, dom: DomSets, i: nat) returns (immDom: Option<nat>)
    requires Closed(g) && ListsReachable(g, order) && SetsFor(order, dom) && DomSetsExact(g, order, dom)
    requires 1 <= i < |order|
    ensures immDom.Some? && IsIdom(g, immDom.value, order[i])
  {
    StrictBits(g, order, dom, i);
    StrictBitsHaveSets(g, order, dom, i);
    var strictDom := dom[order[i]] - {i};
    var survivor := FirstSurvivor(order, dom, strictDom);
    SomeBitSurvives(g, order, dom, i);
    SurvivorIsIdom(g, order, dom, i, survivor.value);
    immDom := if survivor.Some? then Some(order[survivor.value]) else None;
  }

  lemma StrictBitsHaveSets(g: Graph, order: seq<nat>, dom: DomSets, i: nat)
    requires ListsReachable(g, order) && SetsFor(order, dom) && DomSetsExact(g, order, dom) && i < |order|
    ensures order[i] in dom && forall e :: e in dom[order[i]] - {i} ==> e < |order| && order[e] in dom
  {
    StrictBits(g, order, dom, i);
    forall e | e in dom[order[i]] - {i}
      ensures e < |order| && order[e] in dom
    {
      assert order[e] in order;
    }
  }

  lemma SurvivorIsIdom(g: Graph, order: seq<nat>, dom: DomSets, i: nat, d: nat)
    requires Closed(g) && ListsReachable(g, order) && SetsFor(order, dom) && DomSetsExact(g, order, dom)
    requires i < |order| && order[i] in dom && d in dom[order[i]] - {i}
    requires !DominatedByAnother(order, dom, dom[order[i]] - {i}, d)
    ensures d < |order| && IsIdom(g, order[d], order[i])
  {
    StrictBits(g, order, dom, i);
    assert order[i] in order;
    forall y: nat | StrictlyDominates(g, y, order[i])
      ensures !StrictlyDominates(g, order[d], y)
    {
      var e := StrictDominatorIsListed(g, order, i, y);
      assert e in dom[order[i]] - {i} && order[e] in order;
    }
    DeepestIsIdom(g, order[d], order[i]);
  }

  /** The entry strictly dominates every other listed block. */
  lemma EntryBitIsSet(g: Graph, order: seq<nat>, dom: DomSets, i: nat)
    requires ListsReachable(g, order) && SetsFor(order, dom) && DomSetsExact(g, order, dom) && 1 <= i < |order|
    ensures order[i] in dom && 0 in dom[order[i]] - {i}
  {
    StrictBits(g, order, dom, i);
    assert order[0] == 0 && order[i] != order[0];
    assert Dominates(g, 0, order[i]);
  }

  lemma DeepestSurvives(g: Graph, order: seq<nat>, dom: DomSets, i: nat, d: nat)
    requires ListsReachable(g, order) && SetsFor(order, dom) && DomSetsExact(g, order, dom) && i < |order|
    requires order[i] in dom && d in dom[order[i]] - {i} && IsDeepest(g, order, dom[order[i]] - {i}, d)
    ensures !DominatedByAnother(order, dom, dom[order[i]] - {i}, d)
  {
    forall e | e in dom[order[i]] - {i} && e != d && e < |order| && order[e] in dom
      ensures d !in dom[order[e]]
    {
      assert order[e] in order && order[e] != order[d];
      assert !StrictlyDominates(g, order[d], order[e]);
    }
  }

  lemma SomeBitSurvives(g: Graph, order: seq<nat>, dom: DomSets, i: nat)
    requires ListsReachable(g, order) && SetsFor(order, dom) && DomSetsExact(g, order, dom)
    requires 1 <= i < |order|
    ensures order[i] in dom
    ensures exists d :: d in dom[order[i]] - {i} && !DominatedByAnother(order, dom, dom[order[i]] - {i}, d)
  {
    StrictBits(g, order, dom, i);
    EntryBitIsSet(g, order, dom, i);
    assert order[i] in order;
    var d := DeepestDominator(g, order, order[i], dom[order[i]] - {i});
    DeepestSurvives(g, order, dom, i, d);
  }

  // ----- The whole analysis -----

  ghost predicate IdomsExact(g: Graph, blocks: seq<nat>, idom: map<nat, Option<nat>>) {
    && (forall b: nat :: b in idom <==> b in blocks)
    && (0 in idom ==> idom[0] == None)
    && forall b: nat :: b in idom && b != 0 ==> idom[b].Some? && IsIdom(g, idom[b].value, b)
  }

  lemma IdomsPush(g: Graph, blocks: seq<nat>, idom: map<nat, Option<nat>>, b: nat, x: Option<nat>)
    requires IdomsExact(g, blocks, idom) && b != 0 && x.Some? && IsIdom(g, x.value, b)
    ensures IdomsExact(g, blocks + [b], idom[b := x])
  {
  }

  lemma IdomsStart(g: Graph, order: seq<nat>)
    requires |order| > 0 && order[0] == 0
    ensures IdomsExact(g, order[..1], map[order[0] := None])
  {
  }

  method ComputeIdoms(g: Graph, order: seq<nat>, dom: DomSets) returns (idom: map<nat, Option<nat>>)
    requires Closed(g) && ListsReachable(g, order) && SetsFor(order, dom) && DomSetsExact(g, order, dom)
    ensures IdomsExact(g, order, idom)
  {
    idom := map[order[0] := None];
    IdomsStart(g, order);
    for i := 1 to |order|
      invariant IdomsExact(g, order[..i], idom)
    {
      var immDom := ImmediateDominator(g, order, dom, i);
      assert order[..i + 1] == order[..i] + [order[i]];
      assert order[i] != order[0];
      IdomsPush(g, order[..i], idom, order[i], immDom);
      idom := idom[order[i] := immDom];
    }
    assert order[..|order|] == order;
  }

  /** computeDominators */
  method ComputeDominators(g: Graph, pred: Graph) returns (info: DomInfo)
    requires |g| > 0 && Closed(g) && Mirror(g, pred)
    ensures IsBfsOrder(g, info.order) && IsIndexOf(info.order, info.idx)
    ensures SetsFor(info.order, info.dom) && DomSetsExact(g, info.order, info.dom)
    ensures IdomsExact(g, info.order, info.idom)
  {
    var order, idx := Bfs(g);
    var dom := IterateDominators(g, pred, order, idx);
    var idom := ComputeIdoms(g, order, dom);
    info := DomInfo(order, idx, dom, idom);
  }

  /** The analysis as a dominance test. */
  function DomTest(info: DomInfo, a: nat, b: nat): bool {
    a in info.idx && b in info.dom && info.idx[a] in info.dom[b]
  }

  lemma DomTestIsDominance(g: Graph, info: DomInfo, a: nat, b: nat)
    requires IsBfsOrder(g, info.order) && IsIndexOf(info.order, info.idx)
    requires SetsFor(info.order, info.dom) && DomSetsExact(g, info.order, info.dom)
    requires Reachable(g, b)
    ensures DomTest(info, a, b) <==> Dominates(g, a, b)
  {
    assert b in info.order;
    if Dominates(g, a, b) {
      DominatorReachable(g, a, b);
      assert a in info.order;
    }
  }
}
