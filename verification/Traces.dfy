/** Hot traces from profile data (include/traceIdentification.hpp).

    Block frequencies and edge probabilities are numbers; a probability is a numerator over a fixed denominator.
 */
module Traces {
  import opened Graphs
  import opened Ir
  import opened BreadthFirst
  import opened Dominators

  datatype Profile = Profile(freq: nat -> nat, prob: (nat, nat) -> nat, threshold: nat)

  /** Everything trace formation looks at; order is the breadth-first order and index its positions. */
  datatype Input = Input(g: Graph, pred: Graph, profile: Profile, order: seq<nat>, index: map<nat, nat>)

  ghost predicate InputOk(x: Input) {
    && |x.g| > 0 && Closed(x.g) && Mirror(x.g, x.pred)
    && ListsReachable(x.g, x.order) && IsIndexOf(x.order, x.index)
  }

  /** Position in the breadth-first order; after everything when the block was not reached. */
  function BfsPos(index: map<nat, nat>, b: nat): nat {
    if b in index then index[b] else |index|
  }

  // ----- Growing a trace -----

  /** s may extend a trace forward from b. */
  predicate GoodSucc(x: Input, visited: set<nat>, b: nat, s: nat) {
    && s !in visited
    && x.profile.prob(b, s) > x.profile.threshold
    && !(BfsPos(x.index, s) < BfsPos(x.index, b))
  }

  /** p may extend a trace backward from b. */
  predicate GoodPred(x: Input, visited: set<nat>, b: nat, p: nat) {
    && p !in visited
    && x.profile.prob(p, b) > x.profile.threshold
    && !(BfsPos(x.index, p) > BfsPos(x.index, b))
  }

  /** The first candidate of largest probability. */
  function BestSucc(x: Input, visited: set<nat>, b: nat, succs: seq<nat>): Option<nat> {
    if succs == [] then None
    else
      var rest := BestSucc(x, visited, b, succs[..|succs| - 1]);
      var s := succs[|succs| - 1];
      if GoodSucc(x, visited, b, s) && (rest.None? || x.profile.prob(b, s) > x.profile.prob(b, rest.value)) then Some(s)
      else rest
  }

  function BestPred(x: Input, visited: set<nat>, b: nat, preds: seq<nat>): Option<nat> {
    if preds == [] then None
    else
      var rest := BestPred(x, visited, b, preds[..|preds| - 1]);
      var p := preds[|preds| - 1];
      if GoodPred(x, visited, b, p) && (rest.None? || x.profile.prob(p, b) > x.profile.prob(rest.value, b)) then Some(p)
      else rest
  }

  lemma {:induction false} BestSuccIsGood(x: Input, visited: set<nat>, b: nat, succs: seq<nat>)
    ensures var r := BestSucc(x, visited, b, succs);
      && (r.Some? ==> r.value in succs && GoodSucc(x, visited, b, r.value))
      && forall s :: s in succs && GoodSucc(x, visited, b, s) ==>
           r.Some? && x.profile.prob(b, s) <= x.profile.prob(b, r.value)
  {
    if succs != [] {
      BestSuccIsGood(x, visited, b, succs[..|succs| - 1]);
      assert succs == succs[..|succs| - 1] + [succs[|succs| - 1]];
    }
  }

  lemma {:induction false} BestPredIsGood(x: Input, visited: set<nat>, b: nat, preds: seq<nat>)
    ensures var r := BestPred(x, visited, b, preds);
      && (r.Some? ==> r.value in preds && GoodPred(x, visited, b, r.value))
      && forall p :: p in preds && GoodPred(x, visited, b, p) ==>
           r.Some? && x.profile.prob(p, b) <= x.profile.prob(r.value, b)
  {
    if preds != [] {
      BestPredIsGood(x, visited, b, preds[..|preds| - 1]);
      assert preds == preds[..|preds| - 1] + [preds[|preds| - 1]];
    }
  }

  method BestSuccessor(x: Input, visited: set<nat>, b: nat) returns (best: Option<nat>)
    requires b < |x.g|
    ensures best == BestSucc(x, visited, b, x.g[b])
  {
    best := None;
    var bestProb := 0;
    var succs := x.g[b];
    for k := 0 to |succs|
      invariant best == BestSucc(x, visited, b, succs[..k])
      invariant bestProb == if best.Some? then x.profile.prob(b, best.value) else 0
    {
      assert succs[..k + 1][..k] == succs[..k];
      var s := succs[k];
      if s in visited {
        continue;
      }
      var prob := x.profile.prob(b, s);
      if prob <= x.profile.threshold || BfsPos(x.index, s) < BfsPos(x.index, b) {
        continue;
      }
      if prob > bestProb {
        bestProb, best := prob, Some(s);
      }
    }
    assert succs[..|succs|] == succs;
  }

  method BestPredecessor(x: Input, visited: set<nat>, b: nat) returns (best: Option<nat>)
    requires b < |x.pred|
    ensures best == BestPred(x, visited, b, x.pred[b])
  {
    best := None;
    var bestProb := 0;
    var preds := x.pred[b];
    for k := 0 to |preds|
      invariant best == BestPred(x, visited, b, preds[..k])
      invariant bestProb == if best.Some? then x.profile.prob(best.value, b) else 0
    {
      assert preds[..k + 1][..k] == preds[..k];
      var p := preds[k];
      if p in visited {
        continue;
      }
      var prob := x.profile.prob(p, b);
      if prob <= x.profile.threshold || BfsPos(x.index, p) > BfsPos(x.index, b) {
        continue;
      }
      if prob > bestProb {
        bestProb, best := prob, Some(p);
      }
    }
    assert preds[..|preds|] == preds;
  }

  datatype Grown = Grown(blocks: seq<nat>, visited: set<nat>)

  function Remaining(x: Input, visited: set<nat>): set<nat> {
    set b | 0 <= b < |x.g| && b !in visited
  }

  lemma RemainingShrinks(x: Input, visited: set<nat>, more: set<nat>, b: nat)
    requires b < |x.g| && b !in visited && b in more && visited <= more
    ensures Remaining(x, more) < Remaining(x, visited)
  {
    assert b in Remaining(x, visited);
  }

  /** Follows best successors from b. */
  function Forward(x: Input, b: nat, visited: set<nat>): (r: Grown)
    ensures visited <= r.visited
    decreases Remaining(x, visited)
  {
    var next := if b < |x.g| then BestSucc(x, visited, b, x.g[b]) else None;
    if next.None? || next.value >= |x.g| || next.value in visited then Grown([], visited)
    else
      RemainingShrinks(x, visited, visited + {next.value}, next.value);
      var rest := Forward(x, next.value, visited + {next.value});
      Grown([next.value] + rest.blocks, rest.visited)
  }

  /** Follows best predecessors from b. */
  function Backward(x: Input, b: nat, visited: set<nat>): (r: Grown)
    ensures visited <= r.visited
    decreases Remaining(x, visited)
  {
    var prev := if b < |x.pred| then BestPred(x, visited, b, x.pred[b]) else None;
    if prev.None? || prev.value >= |x.g| || prev.value in visited then Grown([], visited)
    else
      RemainingShrinks(x, visited, visited + {prev.value}, prev.value);
      var rest := Backward(x, prev.value, visited + {prev.value});
      Grown(rest.blocks + [prev.value], rest.visited)
  }

  /** The trace around a seed: backward part, seed, forward part. */
  function TraceAround(x: Input, seed: nat, visited: set<nat>): (r: Grown)
    ensures visited + {seed} <= r.visited
  {
    var f := Forward(x, seed, visited + {seed});
    var b := Backward(x, seed, f.visited);
    Grown(b.blocks + [seed] + f.blocks, b.visited)
  }

  // ----- The naive builder: rescan for the hottest unvisited block -----

  /** The first unvisited block of strictly largest nonzero frequency. */
  function NaiveSeed(x: Input, visited: set<nat>, order: seq<nat>): Option<nat> {
    if order == [] then None
    else
      var best := NaiveSeed(x, visited, order[..|order| - 1]);
      var b := order[|order| - 1];
      var bestFreq := if best.Some? then x.profile.freq(best.value) else 0;
      if b !in visited && x.profile.freq(b) > bestFreq then Some(b) else best
  }

  datatype Formed = Formed(seed: nat, blocks: seq<nat>)

  function NaiveTraces(x: Input, visited: set<nat>): seq<Formed>
    decreases Remaining(x, visited)
  {
    var seed := NaiveSeed(x, visited, x.order);
    if seed.None? || seed.value >= |x.g| || seed.value in visited then []
    else
      var t := TraceAround(x, seed.value, visited);
      RemainingShrinks(x, visited, t.visited, seed.value);
      [Formed(seed.value, t.blocks)] + NaiveTraces(x, t.visited)
  }

  // ----- Sorting by descending frequency, stable -----

  function InsertDesc(freq: nat -> nat, sorted: seq<nat>, b: nat): seq<nat> {
    if sorted == [] then [b]
    else if freq(sorted[|sorted| - 1]) >= freq(b) then sorted + [b]
    else InsertDesc(freq, sorted[..|sorted| - 1], b) + [sorted[|sorted| - 1]]
  }

  /** std::stable_sort by descending frequency. */
  function StableSortDesc(freq: nat -> nat, order: seq<nat>): seq<nat> {
    if order == [] then []
    else InsertDesc(freq, StableSortDesc(freq, order[..|order| - 1]), order[|order| - 1])
  }

  /** a comes before b: hotter, or equally hot and earlier in breadth-first order. */
  predicate Ahead(freq: nat -> nat, index: map<nat, nat>, a: nat, b: nat) {
    freq(a) > freq(b) || (freq(a) == freq(b) && BfsPos(index, a) < BfsPos(index, b))
  }

  ghost predicate SortedByHeat(freq: nat -> nat, index: map<nat, nat>, s: seq<nat>) {
    forall i, j :: 0 <= i < j < |s| ==> Ahead(freq, index, s[i], s[j])
  }

  lemma {:induction false} InsertDescSorts(freq: nat -> nat, index: map<nat, nat>, s: seq<nat>, b: nat)
    requires SortedByHeat(freq, index, s)
    requires forall a :: a in s ==> BfsPos(index, a) < BfsPos(index, b)
    ensures SortedByHeat(freq, index, InsertDesc(freq, s, b))
  {
    if s == [] {
    } else if freq(s[|s| - 1]) < freq(b) {
      var n := |s| - 1;
      InsertDescSorts(freq, index, s[..n], b);
      forall a | a in InsertDesc(freq, s[..n], b)
        ensures Ahead(freq, index, a, s[n])
      {
        InsertDescContents(freq, s[..n], b, a);
        if a != b {
          var j :| 0 <= j < n && s[j] == a;
        }
      }
      SortedSnoc(freq, index, InsertDesc(freq, s[..n], b), s[n]);
    } else {
      forall a | a in s
        ensures Ahead(freq, index, a, b)
      {
        var j :| 0 <= j < |s| && s[j] == a;
      }
      SortedSnoc(freq, index, s, b);
    }
  }

  lemma SortedSnoc(freq: nat -> nat, index: map<nat, nat>, s: seq<nat>, c: nat)
    requires SortedByHeat(freq, index, s) && forall a :: a in s ==> Ahead(freq, index, a, c)
    ensures SortedByHeat(freq, index, s + [c])
  {
  }

  lemma {:induction false} InsertDescContents(freq: nat -> nat, s: seq<nat>, b: nat, a: nat)
    ensures a in InsertDesc(freq, s, b) <==> a in s || a == b
  {
    if s != [] {
      var n := |s| - 1;
      assert s == s[..n] + [s[n]];
      InsertDescContents(freq, s[..n], b, a);
    }
  }

  lemma {:induction false} StableSortDescSorts(x: Input, n: nat)
    requires InputOk(x) && n <= |x.order|
    ensures SortedByHeat(x.profile.freq, x.index, StableSortDesc(x.profile.freq, x.order[..n]))
    ensures forall a :: a in StableSortDesc(x.profile.freq, x.order[..n]) <==> a in x.order[..n]
  {
    if n > 0 {
      StableSortDescSorts(x, n - 1);
      assert x.order[..n][..n - 1] == x.order[..n - 1];
      assert x.order[..n] == x.order[..n - 1] + [x.order[n - 1]];
      forall a | a in x.order[..n - 1]
        ensures BfsPos(x.index, a) < BfsPos(x.index, x.order[n - 1])
      {
        PositionOf(x, a, n - 1);
      }
      var sorted := StableSortDesc(x.profile.freq, x.order[..n - 1]);
      InsertDescSorts(x.profile.freq, x.index, sorted, x.order[n - 1]);
      forall a: nat
        ensures a in InsertDesc(x.profile.freq, sorted, x.order[n - 1]) <==> a in x.order[..n]
      {
        InsertDescContents(x.profile.freq, sorted, x.order[n - 1], a);
      }
    }
  }

  lemma PositionOf(x: Input, a: nat, n: nat)
    requires InputOk(x) && n < |x.order| && a in x.order[..n]
    ensures BfsPos(x.index, a) < n == BfsPos(x.index, x.order[n])
  {
  }

  // ----- Both find the same seed -----

  /** seed is unvisited, has nonzero frequency, and is ahead of every other unvisited block. */
  ghost predicate IsSeed(x: Input, visited: set<nat>, blocks: seq<nat>, seed: Option<nat>) {
    match seed
    case Some(b) =>
      && b in blocks && b !in visited && x.profile.freq(b) > 0
      && forall c :: c in blocks && c !in visited && c != b ==> Ahead(x.profile.freq, x.index, b, c)
    case None => forall c :: c in blocks && c !in visited ==> x.profile.freq(c) == 0
  }

  /** One more block, later in breadth-first order than all seen so far. */
  lemma SeedGrows(x: Input, visited: set<nat>, blocks: seq<nat>, best: Option<nat>, b: nat)
    requires IsSeed(x, visited, blocks, best)
    requires forall a :: a in blocks ==> BfsPos(x.index, a) < BfsPos(x.index, b)
    ensures var bestFreq := if best.Some? then x.profile.freq(best.value) else 0;
      IsSeed(x, visited, blocks + [b], if b !in visited && x.profile.freq(b) > bestFreq then Some(b) else best)
  {
  }

  lemma {:induction false} NaiveSeedIsSeed(x: Input, visited: set<nat>, n: nat)
    requires InputOk(x) && n <= |x.order|
    ensures IsSeed(x, visited, x.order[..n], NaiveSeed(x, visited, x.order[..n]))
  {
    if n > 0 {
      NaiveSeedIsSeed(x, visited, n - 1);
      var blocks, b := x.order[..n - 1], x.order[n - 1];
      assert x.order[..n][..n - 1] == blocks && x.order[..n] == blocks + [b];
      forall a | a in blocks
        ensures BfsPos(x.index, a) < BfsPos(x.index, b)
      {
        PositionOf(x, a, n - 1);
      }
      SeedGrows(x, visited, blocks, NaiveSeed(x, visited, blocks), b);
    }
  }

  lemma SeedIsUnique(x: Input, visited: set<nat>, blocks: seq<nat>, a: Option<nat>, b: Option<nat>)
    requires IsSeed(x, visited, blocks, a) && IsSeed(x, visited, blocks, b)
    ensures a == b
  {
  }

  /** The seed under the cursor of the sorted list. */
  function CursorSeed(x: Input, sorted: seq<nat>, cursor: nat): Option<nat> {
    if cursor < |sorted| && x.profile.freq(sorted[cursor]) > 0 then Some(sorted[cursor]) else None
  }

  lemma CursorIsSeed(x: Input, visited: set<nat>, sorted: seq<nat>, cursor: nat, blocks: seq<nat>)
    requires SortedByHeat(x.profile.freq, x.index, sorted) && forall c :: c in blocks <==> c in sorted
    requires cursor <= |sorted| && CursorAt(visited, sorted, cursor)
    requires cursor < |sorted| ==> sorted[cursor] !in visited
    ensures IsSeed(x, visited, blocks, CursorSeed(x, sorted, cursor))
  {
    forall c | c in blocks && c !in visited
      ensures cursor < |sorted|
      ensures c != sorted[cursor] ==> Ahead(x.profile.freq, x.index, sorted[cursor], c)
    {
      var k :| 0 <= k < |sorted| && sorted[k] == c;
      assert k >= cursor;
    }
  }

  /** With everything before the cursor visited, the cursor finds what a full rescan finds. */
  lemma CursorFindsNaiveSeed(x: Input, visited: set<nat>, sorted: seq<nat>, cursor: nat)
    requires InputOk(x) && sorted == StableSortDesc(x.profile.freq, x.order) && cursor <= |sorted|
    requires CursorAt(visited, sorted, cursor) && (cursor < |sorted| ==> sorted[cursor] !in visited)
    ensures CursorSeed(x, sorted, cursor) == NaiveSeed(x, visited, x.order)
  {
    assert x.order[..|x.order|] == x.order;
    StableSortDescSorts(x, |x.order|);
    NaiveSeedIsSeed(x, visited, |x.order|);
    CursorIsSeed(x, visited, sorted, cursor, x.order);
    SeedIsUnique(x, visited, x.order, CursorSeed(x, sorted, cursor), NaiveSeed(x, visited, x.order));
  }

  // ----- The loops of identifyTraces -----

  method GrowForward(x: Input, seed: nat, visited: set<nat>) returns (ext: seq<nat>, visited': set<nat>)
    requires InputOk(x) && seed < |x.g|
    ensures Grown(ext, visited') == Forward(x, seed, visited)
  {
    ext, visited' := [], visited;
    var current: nat := seed;
    while true
      invariant current < |x.g|
      invariant Forward(x, seed, visited)
             == Grown(ext + Forward(x, current, visited').blocks, Forward(x, current, visited').visited)
      decreases Remaining(x, visited')
    {
      var next := BestSuccessor(x, visited', current);
      if next.None? {
        break;
      }
      BestSuccIsGood(x, visited', current, x.g[current]);
      assert Edge(x.g, current, next.value);
      RemainingShrinks(x, visited', visited' + {next.value}, next.value);
      AppendOne(ext, next.value, Forward(x, next.value, visited' + {next.value}).blocks);
      ext := ext + [next.value];
      visited' := visited' + {next.value};
      current := next.value;
    }
  }

  lemma AppendOne(a: seq<nat>, x: nat, b: seq<nat>)
    ensures a + ([x] + b) == a + [x] + b && (b + [x]) + a == b + ([x] + a)
  {
  }

  method GrowBackward(x: Input, seed: nat, visited: set<nat>) returns (ext: seq<nat>, visited': set<nat>)
    requires InputOk(x) && seed < |x.g|
    ensures Grown(ext, visited') == Backward(x, seed, visited)
  {
    ext, visited' := [], visited;
    var current: nat := seed;
    while true
      invariant current < |x.g|
      invariant Backward(x, seed, visited)
             == Grown(Backward(x, current, visited').blocks + ext, Backward(x, current, visited').visited)
      decreases Remaining(x, visited')
    {
      var prev := BestPredecessor(x, visited', current);
      if prev.None? {
        break;
      }
      BestPredIsGood(x, visited', current, x.pred[current]);
      assert Edge(x.pred, current, prev.value) && Edge(x.g, prev.value, current);
      RemainingShrinks(x, visited', visited' + {prev.value}, prev.value);
      AppendOne(ext, prev.value, Backward(x, prev.value, visited' + {prev.value}).blocks);
      ext := [prev.value] + ext;
      visited' := visited' + {prev.value};
      current := prev.value;
    }
  }

  /** The trace of one seed: forward part first, then the backward part in front. */
  method FormTrace(x: Input, seed: nat, visited: set<nat>) returns (trace: seq<nat>, visited': set<nat>)
    requires InputOk(x) && seed < |x.g|
    ensures Grown(trace, visited') == TraceAround(x, seed, visited)
  {
    trace := [seed];
    visited' := visited + {seed};
    var forward, backward;
    forward, visited' := GrowForward(x, seed, visited');
    trace := trace + forward;
    backward, visited' := GrowBackward(x, seed, visited');
    trace := backward + trace;
    AroundSeed(backward, seed, forward);
  }

  lemma AroundSeed(a: seq<nat>, b: nat, c: seq<nat>)
    ensures a + ([b] + c) == a + [b] + c
  {
  }

  /** Sorting once and walking a cursor forms exactly the traces of the naive builder. */
  method FormTraces(x: Input) returns (formed: seq<Formed>)
    requires InputOk(x)
    ensures formed == NaiveTraces(x, {})
  {
    var byFreqDesc := StableSortDesc(x.profile.freq, x.order);
    var seedCursor := 0;
    var visited: set<nat> := {};
    formed := [];
    while true
      invariant CursorAt(visited, byFreqDesc, seedCursor)
      invariant NaiveTraces(x, {}) == formed + NaiveTraces(x, visited)
      decreases Remaining(x, visited)
    {
      seedCursor := SkipVisited(visited, byFreqDesc, seedCursor);
      CursorFindsNaiveSeed(x, visited, byFreqDesc, seedCursor);
      var seed := CursorSeed(x, byFreqDesc, seedCursor);
      if seed.None? {
        break;
      }
      SeedIsBlock(x, visited);
      ghost var before := visited;
      var trace;
      trace, visited := FormTrace(x, seed.value, visited);
      RemainingShrinks(x, before, visited, seed.value);
      NaiveUnfolds(x, before, formed);
      formed := formed + [Formed(seed.value, trace)];
    }
    assert formed + [] == formed;
  }

  ghost predicate CursorAt(visited: set<nat>, sorted: seq<nat>, cursor: nat) {
    cursor <= |sorted| && forall k :: 0 <= k < cursor ==> sorted[k] in visited
  }

  /** Advances the cursor past blocks already in a trace. */
  method SkipVisited(visited: set<nat>, sorted: seq<nat>, cursor: nat) returns (cursor': nat)
    requires CursorAt(visited, sorted, cursor)
    ensures CursorAt(visited, sorted, cursor') && (cursor' < |sorted| ==> sorted[cursor'] !in visited)
  {
    cursor' := cursor;
    while cursor' < |sorted| && sorted[cursor'] in visited
      invariant CursorAt(visited, sorted, cursor')
    {
      cursor' := cursor' + 1;
    }
  }

  lemma NaiveUnfolds(x: Input, visited: set<nat>, formed: seq<Formed>)
    requires InputOk(x) && NaiveSeed(x, visited, x.order).Some?
    ensures var seed := NaiveSeed(x, visited, x.order).value;
      var t := TraceAround(x, seed, visited);
      formed + NaiveTraces(x, visited) == formed + [Formed(seed, t.blocks)] + NaiveTraces(x, t.visited)
  {
    SeedIsBlock(x, visited);
  }

  lemma SeedIsBlock(x: Input, visited: set<nat>)
    requires InputOk(x)
    ensures var r := NaiveSeed(x, visited, x.order);
      r.Some? ==> r.value in x.order && r.value < |x.g| && r.value !in visited && x.profile.freq(r.value) > 0
    ensures IsSeed(x, visited, x.order, NaiveSeed(x, visited, x.order))
  {
    assert x.order[..|x.order|] == x.order;
    NaiveSeedIsSeed(x, visited, |x.order|);
    if NaiveSeed(x, visited, x.order).Some? {
      ReachableInRange(x.g, NaiveSeed(x, visited, x.order).value);
    }
  }

  /** identifyTraces */
  method IdentifyTraces(g: Graph, pred: Graph, profile: Profile) returns (x: Input, formed: seq<Formed>)
    requires |g| > 0 && Closed(g) && Mirror(g, pred)
    ensures InputOk(x) && x.g == g && x.pred == pred && x.profile == profile && IsBfsOrder(g, x.order)
    ensures InOrderMet(g, x.order)
    ensures formed == NaiveTraces(x, {})
  {
    var order, index := Bfs(g);
    x := Input(g, pred, profile, order, index);
    formed := FormTraces(x);
  }

  // ----- What a trace is -----

  /** A path of the control-flow graph over likely edges, forward in breadth-first order. */
  ghost predicate LikelyPath(x: Input, blocks: seq<nat>) {
    forall k :: 1 <= k < |blocks| ==> LikelyStep(x, blocks[k - 1], blocks[k])
  }

  predicate LikelyStep(x: Input, a: nat, b: nat) {
    && Edge(x.g, a, b)
    && x.profile.prob(a, b) > x.profile.threshold
    && BfsPos(x.index, a) < BfsPos(x.index, b)
  }

  /** New, distinct, reachable blocks, and exactly the ones that became visited. */
  ghost predicate FreshBlocks(x: Input, visited: set<nat>, r: Grown) {
    && NoDup(r.blocks)
    && (forall b :: b in r.blocks ==> b !in visited && b in x.order)
    && (forall b: nat :: b in r.visited <==> b in visited || b in r.blocks)
  }

  lemma SuccessorIsLater(x: Input, visited: set<nat>, b: nat, s: nat)
    requires InputOk(x) && b in x.order && b in visited && b < |x.g|
    requires BestSucc(x, visited, b, x.g[b]) == Some(s)
    ensures s in x.order && s < |x.g| && s !in visited && LikelyPath(x, [b, s])
  {
    BestSuccIsGood(x, visited, b, x.g[b]);
    assert Edge(x.g, b, s);
    ReachesStep(x.g, 0, b, s);
    assert s in x.order && s != b;
    assert x.order[x.index[s]] == s && x.order[x.index[b]] == b;
  }

  lemma PredecessorIsEarlier(x: Input, visited: set<nat>, b: nat, p: nat)
    requires InputOk(x) && b in x.order && b in visited && b < |x.pred|
    requires BestPred(x, visited, b, x.pred[b]) == Some(p)
    ensures p in x.order && p < |x.g| && p !in visited && LikelyPath(x, [p, b])
  {
    BestPredIsGood(x, visited, b, x.pred[b]);
    assert Edge(x.pred, b, p) && Edge(x.g, p, b);
    IndexSize(x.order, x.index);
    assert p in x.index;
    assert p in x.order && p != b;
    assert x.order[x.index[p]] == p && x.order[x.index[b]] == b;
  }

  lemma LikelyCons(x: Input, b: nat, blocks: seq<nat>)
    requires LikelyPath(x, blocks) && (blocks != [] ==> LikelyPath(x, [b, blocks[0]]))
    ensures LikelyPath(x, [b] + blocks)
  {
    if blocks != [] {
      assert [b, blocks[0]][1 - 1] == b && [b, blocks[0]][1] == blocks[0];
    }
  }

  lemma LikelySnoc(x: Input, blocks: seq<nat>, b: nat)
    requires LikelyPath(x, blocks) && (blocks != [] ==> LikelyPath(x, [blocks[|blocks| - 1], b]))
    ensures LikelyPath(x, blocks + [b])
  {
    if blocks != [] {
      var a := blocks[|blocks| - 1];
      assert [a, b][1 - 1] == a && [a, b][1] == b;
    }
  }

  lemma {:induction false} ForwardIsLikely(x: Input, b: nat, visited: set<nat>)
    requires InputOk(x) && b in x.order && b in visited
    ensures FreshBlocks(x, visited, Forward(x, b, visited))
    ensures LikelyPath(x, [b] + Forward(x, b, visited).blocks)
    decreases Remaining(x, visited)
  {
    ReachableInRange(x.g, b);
    var next := BestSucc(x, visited, b, x.g[b]);
    if next.Some? {
      var s := next.value;
      SuccessorIsLater(x, visited, b, s);
      RemainingShrinks(x, visited, visited + {s}, s);
      ForwardIsLikely(x, s, visited + {s});
      LikelyCons(x, b, [s] + Forward(x, s, visited + {s}).blocks);
    }
  }

  lemma {:induction false} BackwardIsLikely(x: Input, b: nat, visited: set<nat>)
    requires InputOk(x) && b in x.order && b in visited
    ensures FreshBlocks(x, visited, Backward(x, b, visited))
    ensures LikelyPath(x, Backward(x, b, visited).blocks + [b])
    decreases Remaining(x, visited)
  {
    ReachableInRange(x.g, b);
    var prev := BestPred(x, visited, b, x.pred[b]);
    if prev.Some? {
      var p := prev.value;
      PredecessorIsEarlier(x, visited, b, p);
      RemainingShrinks(x, visited, visited + {p}, p);
      BackwardIsLikely(x, p, visited + {p});
      LikelySnoc(x, Backward(x, p, visited + {p}).blocks + [p], b);
    }
  }

  lemma LikelyJoin(x: Input, a: seq<nat>, b: nat, c: seq<nat>)
    requires LikelyPath(x, a + [b]) && LikelyPath(x, [b] + c)
    ensures LikelyPath(x, a + [b] + c)
  {
    var all := a + [b] + c;
    forall k | 1 <= k < |all|
      ensures Edge(x.g, all[k - 1], all[k]) && x.profile.prob(all[k - 1], all[k]) > x.profile.threshold
              && BfsPos(x.index, all[k - 1]) < BfsPos(x.index, all[k])
    {
      if k <= |a| {
        assert (a + [b])[k - 1] == all[k - 1] && (a + [b])[k] == all[k];
      } else {
        assert ([b] + c)[k - |a| - 1] == all[k - 1] && ([b] + c)[k - |a|] == all[k];
      }
    }
  }

  lemma FreshJoin(x: Input, visited: set<nat>, seed: nat, f: Grown, b: Grown)
    requires seed in x.order && seed !in visited
    requires FreshBlocks(x, visited + {seed}, f) && FreshBlocks(x, f.visited, b)
    ensures FreshBlocks(x, visited, Grown(b.blocks + [seed] + f.blocks, b.visited))
  {
    var all := b.blocks + [seed] + f.blocks;
    assert seed in f.visited;
    forall i, j | 0 <= i < j < |all|
      ensures all[i] != all[j]
    {
      if i < |b.blocks| {
        assert b.blocks[i] in b.blocks;
        assert j > |b.blocks| ==> all[j] in f.blocks;
      } else if i == |b.blocks| {
        assert all[j] in f.blocks;
      }
    }
  }

  /** A trace is a likely path through its seed, over blocks no earlier trace has. */
  lemma TraceIsLikely(x: Input, seed: nat, visited: set<nat>)
    requires InputOk(x) && seed in x.order && seed !in visited
    ensures FreshBlocks(x, visited, TraceAround(x, seed, visited))
    ensures LikelyPath(x, TraceAround(x, seed, visited).blocks) && seed in TraceAround(x, seed, visited).blocks
  {
    var f := Forward(x, seed, visited + {seed});
    ForwardIsLikely(x, seed, visited + {seed});
    var b := Backward(x, seed, f.visited);
    BackwardIsLikely(x, seed, f.visited);
    LikelyJoin(x, b.blocks, seed, f.blocks);
    FreshJoin(x, visited, seed, f, b);
  }

  // ----- What the list of traces is -----

  ghost predicate Disjoint(a: seq<nat>, b: seq<nat>) {
    forall c :: c in a ==> c !in b
  }

  ghost predicate TraceOk(x: Input, t: Formed) {
    && t.seed in t.blocks && x.profile.freq(t.seed) > 0
    && NoDup(t.blocks) && (forall b :: b in t.blocks ==> b in x.order)
    && LikelyPath(x, t.blocks)
    && forall b :: b in t.blocks ==> x.profile.freq(b) <= x.profile.freq(t.seed)
  }

  ghost predicate InSome(formed: seq<Formed>, b: nat) {
    exists k :: 0 <= k < |formed| && b in formed[k].blocks
  }

  /** Each trace is in order and takes no block visited before. */
  ghost predicate EachOk(x: Input, visited: set<nat>, formed: seq<Formed>) {
    forall k :: 0 <= k < |formed| ==> TraceOk(x, formed[k]) && forall b :: b in formed[k].blocks ==> b !in visited
  }

  ghost predicate PairwiseDisjoint(formed: seq<Formed>) {
    forall j, k :: 0 <= j < k < |formed| ==> Disjoint(formed[j].blocks, formed[k].blocks)
  }

  ghost predicate HottestFirst(x: Input, formed: seq<Formed>) {
    forall j, k :: 0 <= j < k < |formed| ==> x.profile.freq(formed[j].seed) >= x.profile.freq(formed[k].seed)
  }

  ghost predicate Covers(x: Input, visited: set<nat>, formed: seq<Formed>) {
    forall b: nat :: b in x.order && x.profile.freq(b) > 0 && b !in visited ==> InSome(formed, b)
  }

  /** Pairwise disjoint likely paths with non-increasing seed frequencies that cover every reachable block of nonzero
      frequency that was not visited before. */
  ghost predicate TracesOk(x: Input, visited: set<nat>, formed: seq<Formed>) {
    EachOk(x, visited, formed) && PairwiseDisjoint(formed) && HottestFirst(x, formed) && Covers(x, visited, formed)
  }

  /** A trace formed first against one formed later. */
  lemma FirstAgainstLater(x: Input, visited: set<nat>, t: Formed, more: set<nat>, rest: seq<Formed>, k: nat)
    requires InputOk(x) && EachOk(x, more, rest) && k < |rest|
    requires IsSeed(x, visited, x.order, Some(t.seed)) && FreshBlocks(x, visited, Grown(t.blocks, more))
    ensures Disjoint(t.blocks, rest[k].blocks)
    ensures x.profile.freq(t.seed) >= x.profile.freq(rest[k].seed)
    ensures forall b :: b in rest[k].blocks ==> b !in visited
  {
  }

  lemma ConsCovers(x: Input, visited: set<nat>, t: Formed, more: set<nat>, rest: seq<Formed>)
    requires Covers(x, more, rest) && FreshBlocks(x, visited, Grown(t.blocks, more))
    ensures Covers(x, visited, [t] + rest)
  {
    var all := [t] + rest;
    forall b: nat | b in x.order && x.profile.freq(b) > 0 && b !in visited
      ensures InSome(all, b)
    {
      if b in t.blocks {
        assert b in all[0].blocks;
      } else {
        assert InSome(rest, b);
        var k :| 0 <= k < |rest| && b in rest[k].blocks;
        assert b in all[k + 1].blocks;
      }
    }
  }

  lemma ConsEach(x: Input, visited: set<nat>, t: Formed, rest: seq<Formed>)
    requires EachOk(x, visited, rest) && TraceOk(x, t) && forall b :: b in t.blocks ==> b !in visited
    ensures EachOk(x, visited, [t] + rest)
  {
  }

  lemma ConsDisjoint(t: Formed, rest: seq<Formed>)
    requires PairwiseDisjoint(rest) && forall k :: 0 <= k < |rest| ==> Disjoint(t.blocks, rest[k].blocks)
    ensures PairwiseDisjoint([t] + rest)
  {
  }

  lemma ConsHottest(x: Input, t: Formed, rest: seq<Formed>)
    requires HottestFirst(x, rest)
    requires forall k :: 0 <= k < |rest| ==> x.profile.freq(t.seed) >= x.profile.freq(rest[k].seed)
    ensures HottestFirst(x, [t] + rest)
  {
  }

  lemma ConsTraces(x: Input, visited: set<nat>, t: Formed, more: set<nat>, rest: seq<Formed>)
    requires InputOk(x) && TracesOk(x, more, rest) && TraceOk(x, t)
    requires IsSeed(x, visited, x.order, Some(t.seed)) && FreshBlocks(x, visited, Grown(t.blocks, more))
    ensures TracesOk(x, visited, [t] + rest)
  {
    forall k | 0 <= k < |rest|
      ensures Disjoint(t.blocks, rest[k].blocks) && x.profile.freq(t.seed) >= x.profile.freq(rest[k].seed)
      ensures TraceOk(x, rest[k]) && forall b :: b in rest[k].blocks ==> b !in visited
    {
      FirstAgainstLater(x, visited, t, more, rest, k);
    }
    ConsEach(x, visited, t, rest);
    ConsDisjoint(t, rest);
    ConsHottest(x, t, rest);
    ConsCovers(x, visited, t, more, rest);
  }

  lemma {:induction false} NaiveTracesOk(x: Input, visited: set<nat>)
    requires InputOk(x)
    ensures TracesOk(x, visited, NaiveTraces(x, visited))
    decreases Remaining(x, visited)
  {
    SeedIsBlock(x, visited);
    var seed := NaiveSeed(x, visited, x.order);
    if seed.Some? {
      var t := TraceAround(x, seed.value, visited);
      TraceIsLikely(x, seed.value, visited);
      RemainingShrinks(x, visited, t.visited, seed.value);
      NaiveTracesOk(x, t.visited);
      assert TraceOk(x, Formed(seed.value, t.blocks));
      ConsTraces(x, visited, Formed(seed.value, t.blocks), t.visited, NaiveTraces(x, t.visited));
    }
  }

  /** Blocks of traces are reachable, and every reachable block of nonzero frequency is in one. */
  lemma CoveredBlocks(x: Input, b: nat)
    requires InputOk(x)
    ensures InSome(NaiveTraces(x, {}), b) ==> Reachable(x.g, b)
    ensures Reachable(x.g, b) && x.profile.freq(b) > 0 ==> InSome(NaiveTraces(x, {}), b)
  {
    NaiveTracesOk(x, {});
    if InSome(NaiveTraces(x, {}), b) {
      var k :| 0 <= k < |NaiveTraces(x, {})| && b in NaiveTraces(x, {})[k].blocks;
      assert TraceOk(x, NaiveTraces(x, {})[k]);
    }
  }

  // ----- Which blocks are left out -----

  /** Never executed blocks that no likely edge enters or leaves. */
  ghost predicate ColdRegion(x: Input, cold: set<nat>) {
    && (forall b :: b in cold ==> x.profile.freq(b) == 0)
    && forall a: nat, b: nat :: Edge(x.g, a, b) && x.profile.prob(a, b) > x.profile.threshold ==>
         (a in cold <==> b in cold)
  }

  lemma {:induction false} ColdTogether(x: Input, cold: set<nat>, blocks: seq<nat>, j: nat)
    requires ColdRegion(x, cold) && LikelyPath(x, blocks) && j < |blocks|
    ensures blocks[j] in cold <==> blocks[0] in cold
  {
    if j > 0 {
      ColdTogether(x, cold, blocks, j - 1);
      assert LikelyStep(x, blocks[j - 1], blocks[j]);
    }
  }

  lemma NoTraceInColdRegion(x: Input, cold: set<nat>, t: Formed, b: nat)
    requires ColdRegion(x, cold) && TraceOk(x, t) && b in t.blocks
    ensures b !in cold
  {
    var i :| 0 <= i < |t.blocks| && t.blocks[i] == t.seed;
    var j :| 0 <= j < |t.blocks| && t.blocks[j] == b;
    ColdTogether(x, cold, t.blocks, i);
    ColdTogether(x, cold, t.blocks, j);
  }

  lemma ColdIsLeftOut(x: Input, cold: set<nat>, b: nat)
    requires InputOk(x) && ColdRegion(x, cold) && b in cold
    ensures !InSome(NaiveTraces(x, {}), b)
  {
    NaiveTracesOk(x, {});
    forall k | 0 <= k < |NaiveTraces(x, {})|
      ensures b !in NaiveTraces(x, {})[k].blocks
    {
      if b in NaiveTraces(x, {})[k].blocks {
        NoTraceInColdRegion(x, cold, NaiveTraces(x, {})[k], b);
      }
    }
  }

  /** b is the only block control is likely to go to from a, and it does not come before a. */
  predicate OnlyLikelyNext(x: Input, a: nat, b: nat) {
    && a < |x.g| && Edge(x.g, a, b) && x.profile.prob(a, b) > x.profile.threshold
    && BfsPos(x.index, b) >= BfsPos(x.index, a)
    && forall s :: s in x.g[a] && x.profile.prob(a, s) > x.profile.threshold ==> s == b
  }

  /** Growing forward does not stop before an only likely next block. */
  lemma {:induction false} ForwardFollows(x: Input, b: nat, visited: set<nat>, c: nat, s: nat)
    requires InputOk(x) && b in x.order && b in visited && OnlyLikelyNext(x, c, s)
    requires c == b || c in Forward(x, b, visited).blocks
    ensures s in Forward(x, b, visited).visited
    decreases Remaining(x, visited)
  {
    BestSuccIsGood(x, visited, b, x.g[b]);
    var next := BestSucc(x, visited, b, x.g[b]);
    if next.Some? {
      var n := next.value;
      SuccessorIsLater(x, visited, b, n);
      RemainingShrinks(x, visited, visited + {n}, n);
      if c == n || c in Forward(x, n, visited + {n}).blocks {
        ForwardFollows(x, n, visited + {n}, c, s);
      }
    }
  }

  /** A block added in front was left towards its only likely next block. */
  lemma {:induction false} BackwardFollows(x: Input, b: nat, visited: set<nat>, c: nat, s: nat)
    requires InputOk(x) && b in x.order && b in visited && OnlyLikelyNext(x, c, s)
    requires c in Backward(x, b, visited).blocks
    ensures s in Backward(x, b, visited).visited
    decreases Remaining(x, visited)
  {
    ReachableInRange(x.g, b);
    var prev := BestPred(x, visited, b, x.pred[b]);
    if prev.Some? {
      var p := prev.value;
      PredecessorIsEarlier(x, visited, b, p);
      RemainingShrinks(x, visited, visited + {p}, p);
      if c == p {
        BestPredIsGood(x, visited, b, x.pred[b]);
        assert Edge(x.pred, b, p) && b in x.g[p];
        assert s == b;
      } else {
        BackwardFollows(x, p, visited + {p}, c, s);
      }
    }
  }

  lemma TraceFollows(x: Input, seed: nat, visited: set<nat>, c: nat, s: nat)
    requires InputOk(x) && seed in x.order && OnlyLikelyNext(x, c, s)
    requires c in TraceAround(x, seed, visited).blocks
    ensures s in TraceAround(x, seed, visited).visited
  {
    var f := Forward(x, seed, visited + {seed});
    if c == seed || c in f.blocks {
      ForwardFollows(x, seed, visited + {seed}, c, s);
    } else {
      BackwardFollows(x, seed, f.visited, c, s);
    }
  }

  lemma {:induction false} TracesFollow(x: Input, visited: set<nat>, c: nat, s: nat)
    requires InputOk(x) && OnlyLikelyNext(x, c, s) && InSome(NaiveTraces(x, visited), c)
    ensures s in visited || InSome(NaiveTraces(x, visited), s)
    decreases Remaining(x, visited)
  {
    SeedIsBlock(x, visited);
    var seed := NaiveSeed(x, visited, x.order).value;
    var t := TraceAround(x, seed, visited);
    var rest := NaiveTraces(x, t.visited);
    assert NaiveTraces(x, visited) == [Formed(seed, t.blocks)] + rest;
    RemainingShrinks(x, visited, t.visited, seed);
    TraceIsLikely(x, seed, visited);
    InFirstOrRest(Formed(seed, t.blocks), rest, c);
    InFirstOrRest(Formed(seed, t.blocks), rest, s);
    if c in t.blocks {
      TraceFollows(x, seed, visited, c, s);
    } else {
      TracesFollow(x, t.visited, c, s);
    }
  }

  lemma InFirstOrRest(t: Formed, rest: seq<Formed>, b: nat)
    ensures InSome([t] + rest, b) <==> b in t.blocks || InSome(rest, b)
  {
    var all := [t] + rest;
    assert all[0] == t;
    forall k | 0 <= k < |rest|
      ensures all[k + 1] == rest[k]
    {
    }
    if InSome(all, b) {
      var k :| 0 <= k < |all| && b in all[k].blocks;
      assert k > 0 ==> b in rest[k - 1].blocks;
    }
    if InSome(rest, b) {
      var k :| 0 <= k < |rest| && b in rest[k].blocks;
      assert b in all[k + 1].blocks;
    }
  }

  /** Each block of p is the only likely next block of the one before it. */
  ghost predicate OnlyWay(x: Input, p: seq<nat>) {
    forall k :: 1 <= k < |p| ==> OnlyLikelyNext(x, p[k - 1], p[k])
  }

  /** Control that reaches some executed block is likely to reach b, and nothing else, from there on. */
  ghost predicate PulledIn(x: Input, b: nat) {
    exists p :: |p| > 0 && OnlyWay(x, p) && Reachable(x.g, p[0]) && x.profile.freq(p[0]) > 0 && p[|p| - 1] == b
  }

  lemma {:induction false} OnlyWayIsCovered(x: Input, p: seq<nat>)
    requires InputOk(x) && |p| > 0 && OnlyWay(x, p) && Reachable(x.g, p[0]) && x.profile.freq(p[0]) > 0
    ensures InSome(NaiveTraces(x, {}), p[|p| - 1])
  {
    var n := |p| - 1;
    if n == 0 {
      CoveredBlocks(x, p[0]);
    } else {
      OnlyWayIsCovered(x, p[..n]);
      TracesFollow(x, {}, p[n - 1], p[n]);
    }
  }

  /** An executed block, a block pulled in by executed ones, or a block in a cold region is in a trace if and only if it
      is reachable and one of the first two. */
  lemma CoveredExactly(x: Input, cold: set<nat>, b: nat)
    requires InputOk(x) && ColdRegion(x, cold) && (x.profile.freq(b) > 0 || PulledIn(x, b) || b in cold)
    ensures InSome(NaiveTraces(x, {}), b) <==> Reachable(x.g, b) && (x.profile.freq(b) > 0 || PulledIn(x, b))
  {
    CoveredBlocks(x, b);
    if PulledIn(x, b) {
      var p :| |p| > 0 && OnlyWay(x, p) && Reachable(x.g, p[0]) && x.profile.freq(p[0]) > 0 && p[|p| - 1] == b;
      OnlyWayIsCovered(x, p);
    }
    if b in cold {
      ColdIsLeftOut(x, cold, b);
    }
  }

  ghost predicate InExactlyOne(formed: seq<Formed>, b: nat) {
    InSome(formed, b) &&
    forall j, k :: 0 <= j < |formed| && 0 <= k < |formed| && b in formed[j].blocks && b in formed[k].blocks ==> j == k
  }

  ghost predicate EveryBlockInOneTrace(x: Input) {
    forall b: nat :: b < |x.g| ==> InExactlyOne(NaiveTraces(x, {}), b)
  }

  lemma NeverInTwo(x: Input, b: nat)
    requires InputOk(x) && InSome(NaiveTraces(x, {}), b)
    ensures InExactlyOne(NaiveTraces(x, {}), b)
  {
    var formed := NaiveTraces(x, {});
    NaiveTracesOk(x, {});
    forall j, k | 0 <= j < |formed| && 0 <= k < |formed| && b in formed[j].blocks && b in formed[k].blocks
      ensures j == k
    {
      assert j < k ==> Disjoint(formed[j].blocks, formed[k].blocks);
      assert k < j ==> Disjoint(formed[k].blocks, formed[j].blocks);
    }
  }

  function WithProbabilities(x: Input, prob: (nat, nat) -> nat): Input {
    x.(profile := x.profile.(prob := prob))
  }

  ghost predicate AllExecuted(x: Input) {
    forall b: nat :: b < |x.g| ==> Reachable(x.g, b) && x.profile.freq(b) > 0
  }

  /** For a profile that decides every block: "every block belongs to exactly one trace" if and only if every block is
      reachable and executed or pulled in. */
  lemma EveryBlockInOneTraceDecided(x: Input, cold: set<nat>)
    requires InputOk(x) && ColdRegion(x, cold)
    requires forall b: nat :: b < |x.g| ==> x.profile.freq(b) > 0 || PulledIn(x, b) || b in cold
    ensures EveryBlockInOneTrace(x) <==>
              forall b: nat :: b < |x.g| ==> Reachable(x.g, b) && (x.profile.freq(b) > 0 || PulledIn(x, b))
  {
    forall b: nat | b < |x.g|
      ensures InExactlyOne(NaiveTraces(x, {}), b) <==>
                Reachable(x.g, b) && (x.profile.freq(b) > 0 || PulledIn(x, b))
    {
      CoveredExactly(x, cold, b);
      if InSome(NaiveTraces(x, {}), b) {
        NeverInTwo(x, b);
      }
    }
  }

  /** Whatever numbers stand for the edge probabilities, every block is in exactly one trace: this holds if and only if
      every block is reachable and has nonzero frequency. For one given profile the condition suffices and is not
      necessary. */
  lemma EveryBlockInOneTraceExactly(x: Input)
    requires InputOk(x)
    ensures (forall prob: (nat, nat) -> nat :: EveryBlockInOneTrace(WithProbabilities(x, prob))) <==> AllExecuted(x)
  {
    if AllExecuted(x) {
      forall prob: (nat, nat) -> nat
        ensures EveryBlockInOneTrace(WithProbabilities(x, prob))
      {
        AllExecutedAllCovered(WithProbabilities(x, prob));
      }
    } else {
      var b: nat :| b < |x.g| && !(Reachable(x.g, b) && x.profile.freq(b) > 0);
      var y := WithProbabilities(x, (p: nat, q: nat) => 0);
      CoveredBlocks(y, b);
      if x.profile.freq(b) == 0 {
        ColdIsLeftOut(y, {b}, b);
      }
      assert EveryBlockInOneTrace(y) ==> b < |y.g| && InExactlyOne(NaiveTraces(y, {}), b);
    }
  }

  lemma AllExecutedAllCovered(x: Input)
    requires InputOk(x) && AllExecuted(x)
    ensures EveryBlockInOneTrace(x)
  {
    forall b: nat | b < |x.g|
      ensures InExactlyOne(NaiveTraces(x, {}), b)
    {
      CoveredBlocks(x, b);
      NeverInTwo(x, b);
    }
  }

  /** A branch that is never taken: block 0 goes to block 1 every time and to block 2 never. */
  function NeverTaken(): Input {
    Input([[1, 2], [], []], [[], [0], [0]],
          Profile((b: nat) => if b < 2 then 100 else 0, (a: nat, b: nat) => if a == 0 && b == 1 then 100 else 0, 60),
          [0, 1, 2], map[0 := 0, 1 := 1, 2 := 2])
  }

  lemma NeverTakenMirror()
    ensures Mirror(NeverTaken().g, NeverTaken().pred)
  {
    var x := NeverTaken();
    forall a: nat, b: nat
      ensures Edge(x.g, a, b) <==> Edge(x.pred, b, a)
    {
      assert Edge(x.g, a, b) <==> a == 0 && (b == 1 || b == 2);
      assert Edge(x.pred, b, a) <==> a == 0 && (b == 1 || b == 2);
    }
  }

  lemma NeverTakenOk()
    ensures InputOk(NeverTaken()) && Reachable(NeverTaken().g, 2)
  {
    ThreeBlocks(NeverTaken().g);
    NeverTakenMirror();
  }

  lemma ThreeBlocks(g: Graph)
    requires g == [[1, 2], [], []]
    ensures forall b: nat :: b in [0, 1, 2] <==> Reachable(g, b)
    ensures Closed(g)
  {
    assert PathTo(g, [0], 0, 0);
    assert PathTo(g, [0, 1], 0, 1);
    assert PathTo(g, [0, 2], 0, 2);
    forall b: nat | Reachable(g, b)
      ensures b in [0, 1, 2]
    {
      ReachableInRange(g, b);
    }
  }

  /** Its block 2 is reachable and in no trace. */
  lemma SomeBlocksAreInNoTrace()
    ensures exists x: Input :: InputOk(x) && Reachable(x.g, 2) && !InSome(NaiveTraces(x, {}), 2)
  {
    var x := NeverTaken();
    NeverTakenOk();
    assert ColdRegion(x, {2});
    ColdIsLeftOut(x, {2}, 2);
  }
}
