/** How traces are grown, said without the loops (include/traceIdentification.hpp): the next seed is the hottest free
    block, every step goes to the likeliest free neighbour, and a trace ends only where there is none.
 */
module TraceGrowth {
  import opened Graphs
  import opened Ir
  import opened Traces

  ghost function Of(blocks: seq<nat>): set<nat> {
    set b | b in blocks
  }

  /** Control is likely to go from a to b, and b does not come before a in breadth-first order. */
  predicate LikelyForward(x: Input, a: nat, b: nat) {
    Edge(x.g, a, b) && x.profile.prob(a, b) > x.profile.threshold && BfsPos(x.index, a) <= BfsPos(x.index, b)
  }

  /** The k-th successor of b is free and likely, and the first of those with the largest probability. */
  ghost predicate IsBestNext(x: Input, taken: set<nat>, b: nat, k: nat)
    requires b < |x.g| && k < |x.g[b]|
  {
    var succs := x.g[b];
    && LikelyForward(x, b, succs[k]) && succs[k] !in taken
    && forall j :: 0 <= j < |succs| && LikelyForward(x, b, succs[j]) && succs[j] !in taken ==>
         && x.profile.prob(b, succs[j]) <= x.profile.prob(b, succs[k])
         && (j < k ==> x.profile.prob(b, succs[j]) < x.profile.prob(b, succs[k]))
  }

  ghost predicate IsBestPrevious(x: Input, taken: set<nat>, b: nat, k: nat)
    requires b < |x.pred| && k < |x.pred[b]|
  {
    var preds := x.pred[b];
    && LikelyForward(x, preds[k], b) && preds[k] !in taken
    && forall j :: 0 <= j < |preds| && LikelyForward(x, preds[j], b) && preds[j] !in taken ==>
         && x.profile.prob(preds[j], b) <= x.profile.prob(preds[k], b)
         && (j < k ==> x.profile.prob(preds[j], b) < x.profile.prob(preds[k], b))
  }

  ghost predicate StepsForward(x: Input, taken: set<nat>, b: nat, s: nat) {
    b < |x.g| && exists k :: 0 <= k < |x.g[b]| && x.g[b][k] == s && IsBestNext(x, taken, b, k)
  }

  ghost predicate StepsBack(x: Input, taken: set<nat>, b: nat, p: nat) {
    b < |x.pred| && exists k :: 0 <= k < |x.pred[b]| && x.pred[b][k] == p && IsBestPrevious(x, taken, b, k)
  }

  ghost predicate NothingNext(x: Input, taken: set<nat>, b: nat) {
    forall s: nat :: LikelyForward(x, b, s) ==> s in taken
  }

  ghost predicate NothingPrevious(x: Input, taken: set<nat>, b: nat) {
    forall p: nat :: LikelyForward(x, p, b) ==> p in taken
  }

  ghost predicate StepsForwardAt(x: Input, taken: set<nat>, p: seq<nat>, k: nat)
    requires k + 1 < |p|
  {
    StepsForward(x, taken + Of(p[..k + 1]), p[k], p[k + 1])
  }

  ghost predicate StepsBackAt(x: Input, taken: set<nat>, p: seq<nat>, k: nat)
    requires 0 < k < |p|
  {
    StepsBack(x, taken + Of(p[k..]), p[k], p[k - 1])
  }

  /** From p[0] on, every step goes to the best free successor, until there is none. */
  ghost predicate GrownForward(x: Input, taken: set<nat>, p: seq<nat>) {
    && |p| > 0
    && (forall k :: 0 <= k < |p| - 1 ==> StepsForwardAt(x, taken, p, k))
    && NothingNext(x, taken + Of(p), p[|p| - 1])
  }

  /** From the last of p back, every step goes to the best free predecessor, until there is none. */
  ghost predicate GrownBack(x: Input, taken: set<nat>, p: seq<nat>) {
    && |p| > 0
    && (forall k :: 0 < k < |p| ==> StepsBackAt(x, taken, p, k))
    && NothingPrevious(x, taken + Of(p), p[0])
  }

  /** The trace is its seed grown forward, and then back from the seed. */
  ghost predicate GrownAround(x: Input, taken: set<nat>, t: Formed) {
    exists at :: 0 <= at < |t.blocks| && GrownAroundAt(x, taken, t, at)
  }

  ghost predicate GrownAroundAt(x: Input, taken: set<nat>, t: Formed, at: nat)
    requires at < |t.blocks|
  {
    && t.blocks[at] == t.seed
    && GrownForward(x, taken, t.blocks[at..])
    && GrownBack(x, taken + Of(t.blocks[at + 1..]), t.blocks[..at + 1])
  }

  /** The hottest free block seeds the next trace, as long as one was ever executed. */
  ghost predicate GreedyTraces(x: Input, taken: set<nat>, formed: seq<Formed>)
    decreases |formed|
  {
    if formed == [] then IsSeed(x, taken, x.order, None)
    else
      && IsSeed(x, taken, x.order, Some(formed[0].seed))
      && GrownAround(x, taken, formed[0])
      && GreedyTraces(x, taken + Of(formed[0].blocks), formed[1..])
  }

  lemma OfAppend(a: seq<nat>, b: seq<nat>)
    ensures Of(a + b) == Of(a) + Of(b)
  {
  }

  lemma MoreTaken(x: Input, taken: set<nat>, more: set<nat>, b: nat)
    requires taken <= more
    ensures NothingNext(x, taken, b) ==> NothingNext(x, more, b)
    ensures NothingPrevious(x, taken, b) ==> NothingPrevious(x, more, b)
  {
  }

  // ----- One step -----

  /** Among the first n successors of b, the k-th is the first with the largest probability. */
  ghost predicate LeadsSuccs(x: Input, taken: set<nat>, b: nat, n: nat, k: nat)
    requires b < |x.g| && k < n <= |x.g[b]|
  {
    var succs := x.g[b];
    && GoodSucc(x, taken, b, succs[k])
    && forall j :: 0 <= j < n && GoodSucc(x, taken, b, succs[j]) ==>
         && x.profile.prob(b, succs[j]) <= x.profile.prob(b, succs[k])
         && (j < k ==> x.profile.prob(b, succs[j]) < x.profile.prob(b, succs[k]))
  }

  ghost predicate LeadsPreds(x: Input, taken: set<nat>, b: nat, n: nat, k: nat)
    requires b < |x.pred| && k < n <= |x.pred[b]|
  {
    var preds := x.pred[b];
    && GoodPred(x, taken, b, preds[k])
    && forall j :: 0 <= j < n && GoodPred(x, taken, b, preds[j]) ==>
         && x.profile.prob(preds[j], b) <= x.profile.prob(preds[k], b)
         && (j < k ==> x.profile.prob(preds[j], b) < x.profile.prob(preds[k], b))
  }

  lemma {:induction false} BestSuccLeads(x: Input, taken: set<nat>, b: nat, n: nat) returns (k: nat)
    requires b < |x.g| && n <= |x.g[b]|
    ensures match BestSucc(x, taken, b, x.g[b][..n])
      case None => forall j :: 0 <= j < n ==> !GoodSucc(x, taken, b, x.g[b][j])
      case Some(s) => k < n && x.g[b][k] == s && LeadsSuccs(x, taken, b, n, k)
  {
    k := 0;
    if n > 0 {
      k := BestSuccLeads(x, taken, b, n - 1);
      var s, best := x.g[b][n - 1], BestSucc(x, taken, b, x.g[b][..n - 1]);
      assert x.g[b][..n][..n - 1] == x.g[b][..n - 1];
      if GoodSucc(x, taken, b, s) && (best.None? || x.profile.prob(b, s) > x.profile.prob(b, best.value)) {
        k := n - 1;
      }
    }
  }

  lemma {:induction false} BestPredLeads(x: Input, taken: set<nat>, b: nat, n: nat) returns (k: nat)
    requires b < |x.pred| && n <= |x.pred[b]|
    ensures match BestPred(x, taken, b, x.pred[b][..n])
      case None => forall j :: 0 <= j < n ==> !GoodPred(x, taken, b, x.pred[b][j])
      case Some(p) => k < n && x.pred[b][k] == p && LeadsPreds(x, taken, b, n, k)
  {
    k := 0;
    if n > 0 {
      k := BestPredLeads(x, taken, b, n - 1);
      var p, best := x.pred[b][n - 1], BestPred(x, taken, b, x.pred[b][..n - 1]);
      assert x.pred[b][..n][..n - 1] == x.pred[b][..n - 1];
      if GoodPred(x, taken, b, p) && (best.None? || x.profile.prob(p, b) > x.profile.prob(best.value, b)) {
        k := n - 1;
      }
    }
  }

  /** The best successor is the step forward, and there is one exactly if something likely is free. */
  lemma BestSuccessorSteps(x: Input, taken: set<nat>, b: nat)
    requires b < |x.g|
    ensures match BestSucc(x, taken, b, x.g[b])
      case None => NothingNext(x, taken, b)
      case Some(s) => StepsForward(x, taken, b, s)
  {
    var succs := x.g[b];
    assert succs[..|succs|] == succs;
    var k := BestSuccLeads(x, taken, b, |succs|);
    forall j | 0 <= j < |succs|
      ensures GoodSucc(x, taken, b, succs[j]) <==> LikelyForward(x, b, succs[j]) && succs[j] !in taken
    {
    }
    match BestSucc(x, taken, b, succs)
    case None =>
      forall s: nat | LikelyForward(x, b, s)
        ensures s in taken
      {
        var j :| 0 <= j < |succs| && succs[j] == s;
      }
    case Some(s) =>
      assert IsBestNext(x, taken, b, k);
  }

  lemma BestPredecessorSteps(x: Input, taken: set<nat>, b: nat)
    requires InputOk(x) && b < |x.pred|
    ensures match BestPred(x, taken, b, x.pred[b])
      case None => NothingPrevious(x, taken, b)
      case Some(p) => StepsBack(x, taken, b, p)
  {
    var preds := x.pred[b];
    assert preds[..|preds|] == preds;
    var k := BestPredLeads(x, taken, b, |preds|);
    forall p: nat
      ensures p in preds <==> Edge(x.g, p, b)
    {
      assert Edge(x.pred, b, p) <==> p in preds;
    }
    forall j | 0 <= j < |preds|
      ensures GoodPred(x, taken, b, preds[j]) <==> LikelyForward(x, preds[j], b) && preds[j] !in taken
    {
      assert preds[j] in preds;
    }
    match BestPred(x, taken, b, preds)
    case None =>
      forall p: nat | LikelyForward(x, p, b)
        ensures p in taken
      {
        var j :| 0 <= j < |preds| && preds[j] == p;
      }
    case Some(p) =>
      assert IsBestPrevious(x, taken, b, k);
  }

  // ----- One trace -----

  lemma ConsStep(x: Input, taken: set<nat>, b: nat, p: seq<nat>, k: nat)
    requires k + 1 < |p| && StepsForwardAt(x, taken + {b}, p, k)
    ensures StepsForwardAt(x, taken, [b] + p, k + 1)
  {
    assert ([b] + p)[..k + 2] == [b] + p[..k + 1];
    OfAppend([b], p[..k + 1]);
    assert taken + Of([b] + p[..k + 1]) == taken + {b} + Of(p[..k + 1]);
  }

  lemma ConsForward(x: Input, taken: set<nat>, b: nat, p: seq<nat>)
    requires GrownForward(x, taken + {b}, p) && StepsForward(x, taken + {b}, b, p[0])
    ensures GrownForward(x, taken, [b] + p)
  {
    var q := [b] + p;
    forall k | 0 <= k < |q| - 1
      ensures StepsForwardAt(x, taken, q, k)
    {
      if k == 0 {
        assert taken + Of(q[..1]) == taken + {b};
      } else {
        ConsStep(x, taken, b, p, k - 1);
      }
    }
    assert taken + Of(q) == taken + {b} + Of(p);
  }

  lemma SnocBack(x: Input, taken: set<nat>, p: seq<nat>, b: nat)
    requires GrownBack(x, taken + {b}, p) && StepsBack(x, taken + {b}, b, p[|p| - 1])
    ensures GrownBack(x, taken, p + [b])
  {
    var q := p + [b];
    forall k | 0 < k < |q|
      ensures StepsBackAt(x, taken, q, k)
    {
      if k == |p| {
        assert q[k..] == [b];
        assert taken + Of(q[k..]) == taken + {b};
      } else {
        assert StepsBackAt(x, taken + {b}, p, k);
        assert q[k..] == p[k..] + [b];
        assert taken + Of(q[k..]) == taken + {b} + Of(p[k..]);
      }
    }
    assert taken + Of(q) == taken + {b} + Of(p);
  }

  lemma {:induction false} ForwardIsGrown(x: Input, b: nat, taken: set<nat>)
    requires InputOk(x) && b in x.order
    ensures GrownForward(x, taken, [b] + Forward(x, b, taken + {b}).blocks)
    decreases Remaining(x, taken + {b})
  {
    ReachableInRange(x.g, b);
    BestSuccessorSteps(x, taken + {b}, b);
    var next := BestSucc(x, taken + {b}, b, x.g[b]);
    if next.Some? {
      var s := next.value;
      SuccessorIsLater(x, taken + {b}, b, s);
      RemainingShrinks(x, taken + {b}, taken + {b} + {s}, s);
      ForwardIsGrown(x, s, taken + {b});
      var rest := Forward(x, s, taken + {b} + {s}).blocks;
      ConsForward(x, taken, b, [s] + rest);
    } else {
      assert Of([b]) == {b};
    }
  }

  lemma {:induction false} BackwardIsGrown(x: Input, b: nat, taken: set<nat>)
    requires InputOk(x) && b in x.order
    ensures GrownBack(x, taken, Backward(x, b, taken + {b}).blocks + [b])
    decreases Remaining(x, taken + {b})
  {
    ReachableInRange(x.g, b);
    BestPredecessorSteps(x, taken + {b}, b);
    var prev := BestPred(x, taken + {b}, b, x.pred[b]);
    if prev.Some? {
      var p := prev.value;
      PredecessorIsEarlier(x, taken + {b}, b, p);
      RemainingShrinks(x, taken + {b}, taken + {b} + {p}, p);
      BackwardIsGrown(x, p, taken + {b});
      var rest := Backward(x, p, taken + {b} + {p}).blocks;
      SnocBack(x, taken, rest + [p], b);
    } else {
      assert Of([b]) == {b};
    }
  }

  lemma TraceIsGrown(x: Input, seed: nat, taken: set<nat>)
    requires InputOk(x) && seed in x.order && seed !in taken
    ensures GrownAround(x, taken, Formed(seed, TraceAround(x, seed, taken).blocks))
    ensures TraceAround(x, seed, taken).visited == taken + Of(TraceAround(x, seed, taken).blocks)
  {
    var f := Forward(x, seed, taken + {seed});
    var b := Backward(x, seed, f.visited);
    ForwardIsGrown(x, seed, taken);
    VisitedAre(x, seed, taken);
    BackwardIsGrown(x, seed, taken + Of(f.blocks));
    PartsOf(b.blocks, seed, f.blocks);
    assert GrownAroundAt(x, taken, Formed(seed, b.blocks + [seed] + f.blocks), |b.blocks|);
  }

  lemma VisitedAre(x: Input, seed: nat, taken: set<nat>)
    requires InputOk(x) && seed in x.order && seed !in taken
    ensures var f := Forward(x, seed, taken + {seed}); f.visited == taken + Of(f.blocks) + {seed}
    ensures TraceAround(x, seed, taken).visited == taken + Of(TraceAround(x, seed, taken).blocks)
  {
    ForwardIsLikely(x, seed, taken + {seed});
    TraceIsLikely(x, seed, taken);
  }

  lemma PartsOf(a: seq<nat>, b: nat, c: seq<nat>)
    ensures var all := a + [b] + c;
      all[|a|..] == [b] + c && all[|a| + 1..] == c && all[..|a| + 1] == a + [b]
  {
  }

  // ----- All traces -----

  /** The traces are grown greedily, one after another, from the hottest free block. */
  lemma {:induction false} TracesAreGreedy(x: Input, taken: set<nat>)
    requires InputOk(x)
    ensures GreedyTraces(x, taken, NaiveTraces(x, taken))
    decreases Remaining(x, taken)
  {
    SeedIsBlock(x, taken);
    var seed := NaiveSeed(x, taken, x.order);
    if seed.Some? {
      var t := TraceAround(x, seed.value, taken);
      TraceIsGrown(x, seed.value, taken);
      RemainingShrinks(x, taken, t.visited, seed.value);
      TracesAreGreedy(x, t.visited);
    }
  }

  /** Block c is taken from the start or in one of the first k + 1 traces. */
  ghost predicate TakenBy(taken: set<nat>, formed: seq<Formed>, k: nat, c: nat) {
    c in taken || exists j :: 0 <= j <= k && j < |formed| && c in formed[j].blocks
  }

  /** Every likely neighbour of a trace's ends is in the trace or in an earlier one. */
  ghost predicate MaximalAt(x: Input, taken: set<nat>, formed: seq<Formed>, k: nat)
    requires k < |formed|
  {
    var p := formed[k].blocks;
    |p| > 0 && forall c: nat :: LikelyForward(x, c, p[0]) || LikelyForward(x, p[|p| - 1], c) ==>
      TakenBy(taken, formed, k, c)
  }

  lemma OfParts(taken: set<nat>, p: seq<nat>, n: nat)
    requires n <= |p|
    ensures taken + Of(p[n..]) + Of(p[..n]) == taken + Of(p)
    ensures taken + Of(p[n..]) <= taken + Of(p)
  {
    assert p[..n] + p[n..] == p;
    OfAppend(p[..n], p[n..]);
  }

  lemma FirstHasNothing(x: Input, taken: set<nat>, p: seq<nat>, n: nat)
    requires 0 < n <= |p| && GrownBack(x, taken + Of(p[n..]), p[..n])
    ensures NothingPrevious(x, taken + Of(p), p[0])
  {
    OfParts(taken, p, n);
  }

  lemma LastHasNothing(x: Input, taken: set<nat>, p: seq<nat>, n: nat)
    requires n < |p| && GrownForward(x, taken, p[n..])
    ensures NothingNext(x, taken + Of(p), p[|p| - 1])
  {
    OfParts(taken, p, n);
    MoreTaken(x, taken + Of(p[n..]), taken + Of(p), p[|p| - 1]);
  }

  lemma FirstIsMaximal(x: Input, taken: set<nat>, formed: seq<Formed>)
    requires formed != [] && GrownAround(x, taken, formed[0])
    ensures MaximalAt(x, taken, formed, 0)
  {
    var p := formed[0].blocks;
    var at :| 0 <= at < |p| && GrownAroundAt(x, taken, formed[0], at);
    FirstHasNothing(x, taken, p, at + 1);
    LastHasNothing(x, taken, p, at);
    forall c: nat | c in taken + Of(p)
      ensures TakenBy(taken, formed, 0, c)
    {
    }
  }

  lemma LaterIsMaximal(x: Input, taken: set<nat>, formed: seq<Formed>, k: nat)
    requires 0 < k < |formed| && MaximalAt(x, taken + Of(formed[0].blocks), formed[1..], k - 1)
    ensures MaximalAt(x, taken, formed, k)
  {
    forall c: nat
      ensures TakenBy(taken + Of(formed[0].blocks), formed[1..], k - 1, c) ==> TakenBy(taken, formed, k, c)
    {
      TakenLater(taken, formed, k, c);
    }
  }

  /** A trace ends only where nothing likely is free: it cannot be made longer. */
  lemma {:induction false} GreedyTracesAreMaximal(x: Input, taken: set<nat>, formed: seq<Formed>, k: nat)
    requires GreedyTraces(x, taken, formed) && k < |formed|
    ensures MaximalAt(x, taken, formed, k)
    decreases |formed|
  {
    if k == 0 {
      FirstIsMaximal(x, taken, formed);
    } else {
      GreedyTracesAreMaximal(x, taken + Of(formed[0].blocks), formed[1..], k - 1);
      LaterIsMaximal(x, taken, formed, k);
    }
  }

  lemma TakenLater(taken: set<nat>, formed: seq<Formed>, k: nat, c: nat)
    requires 0 < k < |formed|
    ensures TakenBy(taken + Of(formed[0].blocks), formed[1..], k - 1, c) ==> TakenBy(taken, formed, k, c)
  {
    if j :| 0 <= j <= k - 1 && j < |formed[1..]| && c in formed[1..][j].blocks {
      assert formed[j + 1] == formed[1..][j];
    }
  }

  /** No trace the pass forms can be extended at either end by a likely block that no earlier trace has. */
  lemma TracesAreMaximal(x: Input, k: nat)
    requires InputOk(x) && k < |NaiveTraces(x, {})|
    ensures MaximalAt(x, {}, NaiveTraces(x, {}), k)
  {
    TracesAreGreedy(x, {});
    GreedyTracesAreMaximal(x, {}, NaiveTraces(x, {}), k);
  }

  // ----- The description leaves no choice -----

  lemma OneStepForward(x: Input, taken: set<nat>, b: nat, s: nat, s': nat)
    requires StepsForward(x, taken, b, s) && StepsForward(x, taken, b, s')
    ensures s == s'
  {
    var k :| 0 <= k < |x.g[b]| && x.g[b][k] == s && IsBestNext(x, taken, b, k);
    var k' :| 0 <= k' < |x.g[b]| && x.g[b][k'] == s' && IsBestNext(x, taken, b, k');
  }

  lemma OneStepBack(x: Input, taken: set<nat>, b: nat, p: nat, p': nat)
    requires StepsBack(x, taken, b, p) && StepsBack(x, taken, b, p')
    ensures p == p'
  {
    var k :| 0 <= k < |x.pred[b]| && x.pred[b][k] == p && IsBestPrevious(x, taken, b, k);
    var k' :| 0 <= k' < |x.pred[b]| && x.pred[b][k'] == p' && IsBestPrevious(x, taken, b, k');
  }

  lemma {:induction false} SameFront(x: Input, taken: set<nat>, p: seq<nat>, q: seq<nat>, n: nat)
    requires GrownForward(x, taken, p) && GrownForward(x, taken, q) && p[0] == q[0]
    requires 0 < n <= |p| && n <= |q|
    ensures p[..n] == q[..n]
  {
    if n > 1 {
      SameFront(x, taken, p, q, n - 1);
      assert StepsForwardAt(x, taken, p, n - 2) && StepsForwardAt(x, taken, q, n - 2);
      assert p[n - 2] == p[..n - 1][n - 2] == q[n - 2];
      OneStepForward(x, taken + Of(p[..n - 1]), p[n - 2], p[n - 1], q[n - 1]);
      assert p[..n] == p[..n - 1] + [p[n - 1]] && q[..n] == q[..n - 1] + [q[n - 1]];
    }
  }

  lemma {:induction false} SameBack(x: Input, taken: set<nat>, p: seq<nat>, q: seq<nat>, n: nat)
    requires GrownBack(x, taken, p) && GrownBack(x, taken, q) && p[|p| - 1] == q[|q| - 1]
    requires 0 < n <= |p| && n <= |q|
    ensures p[|p| - n..] == q[|q| - n..]
  {
    if n > 1 {
      var j, k := |p| - n + 1, |q| - n + 1;
      SameBack(x, taken, p, q, n - 1);
      assert StepsBackAt(x, taken, p, j) && StepsBackAt(x, taken, q, k);
      assert p[j] == p[j..][0] == q[k];
      OneStepBack(x, taken + Of(p[j..]), p[j], p[j - 1], q[k - 1]);
      assert p[j - 1..] == [p[j - 1]] + p[j..] && q[k - 1..] == [q[k - 1]] + q[k..];
    }
  }

  lemma GoesOnForward(x: Input, taken: set<nat>, p: seq<nat>, q: seq<nat>)
    requires GrownForward(x, taken, q) && 0 < |p| < |q| && p == q[..|p|]
    ensures !NothingNext(x, taken + Of(p), p[|p| - 1])
  {
    assert StepsForwardAt(x, taken, q, |p| - 1);
  }

  lemma GoesOnBack(x: Input, taken: set<nat>, p: seq<nat>, q: seq<nat>)
    requires GrownBack(x, taken, q) && 0 < |p| < |q| && p == q[|q| - |p|..]
    ensures !NothingPrevious(x, taken + Of(p), p[0])
  {
    assert StepsBackAt(x, taken, q, |q| - |p|);
  }

  lemma NotShorterForward(x: Input, taken: set<nat>, p: seq<nat>, q: seq<nat>)
    requires GrownForward(x, taken, p) && GrownForward(x, taken, q) && p[0] == q[0]
    ensures |p| >= |q|
  {
    if |p| < |q| {
      SameFront(x, taken, p, q, |p|);
      assert p[..|p|] == p;
      GoesOnForward(x, taken, p, q);
    }
  }

  lemma NotShorterBack(x: Input, taken: set<nat>, p: seq<nat>, q: seq<nat>)
    requires GrownBack(x, taken, p) && GrownBack(x, taken, q) && p[|p| - 1] == q[|q| - 1]
    ensures |p| >= |q|
  {
    if |p| < |q| {
      SameBack(x, taken, p, q, |p|);
      assert p[0..] == p;
      GoesOnBack(x, taken, p, q);
    }
  }

  /** The same seed grows into the same trace. */
  lemma OneTrace(x: Input, taken: set<nat>, t: Formed, u: Formed)
    requires GrownAround(x, taken, t) && GrownAround(x, taken, u) && t.seed == u.seed
    ensures t == u
  {
    var i :| 0 <= i < |t.blocks| && GrownAroundAt(x, taken, t, i);
    var j :| 0 <= j < |u.blocks| && GrownAroundAt(x, taken, u, j);
    SamePathAround(x, taken, t.blocks, i, u.blocks, j);
  }

  lemma SamePathAround(x: Input, taken: set<nat>, p: seq<nat>, i: nat, q: seq<nat>, j: nat)
    requires i < |p| && j < |q| && p[i] == q[j]
    requires GrownForward(x, taken, p[i..]) && GrownBack(x, taken + Of(p[i + 1..]), p[..i + 1])
    requires GrownForward(x, taken, q[j..]) && GrownBack(x, taken + Of(q[j + 1..]), q[..j + 1])
    ensures p == q
  {
    OneForward(x, taken, p[i..], q[j..]);
    assert p[i + 1..] == p[i..][1..] && q[j + 1..] == q[j..][1..];
    OneBack(x, taken + Of(p[i + 1..]), p[..i + 1], q[..j + 1]);
    assert p == p[..i + 1] + p[i + 1..] && q == q[..j + 1] + q[j + 1..];
  }

  lemma OneForward(x: Input, taken: set<nat>, p: seq<nat>, q: seq<nat>)
    requires GrownForward(x, taken, p) && GrownForward(x, taken, q) && p[0] == q[0]
    ensures p == q
  {
    NotShorterForward(x, taken, p, q);
    NotShorterForward(x, taken, q, p);
    SameFront(x, taken, p, q, |p|);
    assert p[..|p|] == p && q[..|q|] == q;
  }

  lemma OneBack(x: Input, taken: set<nat>, p: seq<nat>, q: seq<nat>)
    requires GrownBack(x, taken, p) && GrownBack(x, taken, q) && p[|p| - 1] == q[|q| - 1]
    ensures p == q
  {
    NotShorterBack(x, taken, p, q);
    NotShorterBack(x, taken, q, p);
    SameBack(x, taken, p, q, |p|);
    assert p[0..] == p && q[0..] == q;
  }

  lemma {:induction false} OneGreedyList(x: Input, taken: set<nat>, a: seq<Formed>, b: seq<Formed>)
    requires GreedyTraces(x, taken, a) && GreedyTraces(x, taken, b)
    ensures a == b
    decreases |a|
  {
    SeedIsUnique(x, taken, x.order, if a == [] then None else Some(a[0].seed),
                 if b == [] then None else Some(b[0].seed));
    if a != [] {
      OneTrace(x, taken, a[0], b[0]);
      OneGreedyList(x, taken + Of(a[0].blocks), a[1..], b[1..]);
      assert a == [a[0]] + a[1..] && b == [b[0]] + b[1..];
    }
  }

  /** The traces are exactly the greedy ones. */
  lemma TracesAreExactlyGreedy(x: Input, formed: seq<Formed>)
    requires InputOk(x)
    ensures formed == NaiveTraces(x, {}) <==> GreedyTraces(x, {}, formed)
  {
    TracesAreGreedy(x, {});
    if GreedyTraces(x, {}, formed) {
      OneGreedyList(x, {}, formed, NaiveTraces(x, {}));
    }
  }
}
