/** Reordering the maximal runs of pure instructions between anchors (include/scheduleLegality.hpp). */
module Regions {
  import opened Graphs
  import opened Ir
  import opened Lists
  import opened Semantics
  import opened RegionSwap
  import opened FunctionBodies

  // ----- Specification -----

  /** The schedule restricted to a region, first occurrences only. */
  function Pick(schedule: seq<nat>, region: seq<nat>): seq<nat> {
    if schedule == [] then []
    else
      var rest := Pick(schedule[..|schedule| - 1], region);
      var i := schedule[|schedule| - 1];
      if i in region && i !in rest then rest + [i] else rest
  }

  /** A region the schedule covers takes the schedule's order; any other is left untouched. */
  function Arranged(schedule: seq<nat>, region: seq<nat>): seq<nat> {
    var ordered := Pick(schedule, region);
    if |ordered| == |region| then ordered else region
  }

  function PureRun(info: seq<Instr>, code: seq<nat>): (n: nat)
    ensures n <= |code|
    ensures forall k :: 0 <= k < n ==> IsPure(info, code[k])
    ensures n < |code| ==> !IsPure(info, code[n])
  {
    if code == [] || !IsPure(info, code[0]) then 0 else 1 + PureRun(info, code[1..])
  }

  /** Every region that ends at an anchor is arranged; a run without a closing anchor is left untouched. */
  function Reordered(info: seq<Instr>, schedule: seq<nat>, code: seq<nat>): seq<nat>
    decreases |code|
  {
    var n := PureRun(info, code);
    if n == |code| then code
    else Arranged(schedule, code[..n]) + [code[n]] + Reordered(info, schedule, code[n + 1..])
  }

  /** In the schedule, every instruction of the region comes after the region's definitions it uses. */
  ghost predicate Respects(f: Func, schedule: seq<nat>, region: seq<nat>) {
    forall k: nat, d: nat ::
      k < |schedule| && schedule[k] in region && d in region && Uses(f, schedule[k], d) ==> d in schedule[..k]
  }

  // ----- The arrangement of one region -----

  lemma {:induction false} PickContents(schedule: seq<nat>, region: seq<nat>)
    ensures NoDup(Pick(schedule, region))
    ensures forall x :: x in Pick(schedule, region) <==> x in schedule && x in region
  {
    if schedule != [] {
      var n := |schedule| - 1;
      PickContents(schedule[..n], region);
      assert schedule == schedule[..n] + [schedule[n]];
    }
  }

  lemma {:induction false} PickOrdered(f: Func, schedule: seq<nat>, region: seq<nat>, n: nat)
    requires Respects(f, schedule, region) && n <= |schedule|
    ensures OrderedIn(f, Pick(schedule[..n], region))
  {
    if n > 0 {
      PickOrdered(f, schedule, region, n - 1);
      assert schedule[..n][..n - 1] == schedule[..n - 1];
      PickContents(schedule[..n - 1], region);
      PickContents(schedule[..n], region);
      var rest, i := Pick(schedule[..n - 1], region), schedule[n - 1];
      if i in region && i !in rest {
        var all := Pick(schedule[..n], region);
        assert all == rest + [i];
        forall j: nat, d: nat | j < |all| && d in all && Uses(f, all[j], d)
          ensures d in all[..j]
        {
          if j < |rest| {
            PickFollowsUses(f, schedule, region, n - 1, j, d);
            assert all[..j] == rest[..j];
          } else {
            assert d in schedule[..n - 1];
            assert all[..j] == rest;
          }
        }
      }
    }
  }

  /** A use already picked has all its in-region operands picked before it. */
  lemma {:induction false} PickFollowsUses(f: Func, schedule: seq<nat>, region: seq<nat>, n: nat, j: nat, d: nat)
    requires Respects(f, schedule, region) && n <= |schedule|
    requires j < |Pick(schedule[..n], region)| && d in region && Uses(f, Pick(schedule[..n], region)[j], d)
    ensures d in Pick(schedule[..n], region)[..j]
  {
    if n > 0 {
      assert schedule[..n][..n - 1] == schedule[..n - 1];
      var rest := Pick(schedule[..n - 1], region);
      PickContents(schedule[..n - 1], region);
      if j < |rest| {
        PickFollowsUses(f, schedule, region, n - 1, j, d);
        assert Pick(schedule[..n], region)[..j] == rest[..j];
      } else {
        assert d in schedule[..n - 1];
        assert Pick(schedule[..n], region)[..j] == rest;
      }
    }
  }

  /** The arrangement of a region is a permutation of it. */
  lemma ArrangedPermutes(schedule: seq<nat>, region: seq<nat>)
    requires NoDup(region)
    ensures Permutes(region, Arranged(schedule, region))
  {
    PickContents(schedule, region);
    if |Pick(schedule, region)| == |region| {
      SameElements(Pick(schedule, region), region);
    }
  }

  /** When it differs from the region it defines before it uses. */
  lemma ArrangedOrdered(f: Func, schedule: seq<nat>, region: seq<nat>)
    requires Respects(f, schedule, region) && Arranged(schedule, region) != region
    ensures OrderedIn(f, Arranged(schedule, region))
  {
    PickOrdered(f, schedule, region, |schedule|);
    assert schedule[..|schedule|] == schedule;
  }

  // ----- Meaning: one block after another keeps validity and runs -----

  /** The schedule respects the in-block def-use edges between pure instructions of code. */
  ghost predicate RespectsBlock(f: Func, schedule: seq<nat>, code: seq<nat>) {
    forall k: nat, d: nat :: k < |schedule| && DependsInside(f, code, schedule[k], d) ==> d in schedule[..k]
  }

  ghost predicate DependsInside(f: Func, code: seq<nat>, i: nat, d: nat) {
    i in code && d in code && IsPure(f.info, i) && IsPure(f.info, d) && Uses(f, i, d)
  }

  /** g is valid and every run of it passes through exactly f's configurations. */
  ghost predicate KeepsMeaning(f: Func, g: Func) {
    Valid(g) && forall w: World :: SameStates(f, g, w)
  }

  lemma KeepsRuns(f: Func, g: Func)
    requires KeepsMeaning(f, g)
    ensures forall w: World :: SameRuns(f, g, w)
  {
    forall w: World
      ensures SameRuns(f, g, w)
    {
      SameStatesSameRuns(f, g, w);
    }
  }

  lemma KeepsMeaningTransitive(f: Func, g: Func, h: Func)
    requires KeepsMeaning(f, g) && KeepsMeaning(g, h)
    ensures KeepsMeaning(f, h)
  {
    forall w: World {
      SameStatesTransitive(f, g, h, w);
    }
  }

  function WithBlock(f: Func, b: nat, code: seq<nat>): Func
    requires b < |f.layout|
  {
    f.(layout := f.layout[b := code])
  }

  lemma RegionHasNoDup(f: Func, b: nat, pre: seq<nat>, region: seq<nat>, post: seq<nat>)
    requires WellFormed(f) && b < |f.layout| && f.layout[b] == pre + region + post
    ensures NoDup(region)
  {
    forall i, j | 0 <= i < j < |region|
      ensures region[i] != region[j]
    {
      assert f.layout[b][|pre| + i] == region[i] && f.layout[b][|pre| + j] == region[j];
    }
  }

  lemma RegionKeepsMeaning(f: Func, b: nat, pre: seq<nat>, region: seq<nat>, schedule: seq<nat>, post: seq<nat>)
    requires Valid(f) && b < |f.layout| && f.layout[b] == pre + region + post && AllPure(f.info, region)
    requires Respects(f, schedule, region)
    ensures KeepsMeaning(f, WithBlock(f, b, pre + Arranged(schedule, region) + post))
  {
    var ys := Arranged(schedule, region);
    if ys == region {
      assert f.layout[b := f.layout[b]] == f.layout;
    } else {
      RegionHasNoDup(f, b, pre, region, post);
      ArrangedPermutes(schedule, region);
      ArrangedOrdered(f, schedule, region);
      SwapKeepsValid(f, b, pre, region, ys, post);
      forall w: World {
        SwapKeepsRuns(f, w, b, pre, region, ys, post);
      }
    }
  }

  lemma FirstRegionRespects(f: Func, schedule: seq<nat>, code: seq<nat>)
    requires RespectsBlock(f, schedule, code)
    ensures Respects(f, schedule, code[..PureRun(f.info, code)]) && AllPure(f.info, code[..PureRun(f.info, code)])
    ensures PureRun(f.info, code) < |code| ==> RespectsBlock(f, schedule, code[PureRun(f.info, code) + 1..])
  {
  }

  lemma Reassociate(a: seq<nat>, b: seq<nat>, c: seq<nat>, d: seq<nat>)
    ensures a + b + c + d == a + (b + (c + d)) == a + (b + c + d) == a + b + (c + d)
  {
  }

  /** Arranging the first region of what follows pre. */
  lemma ReorderFirst(f: Func, b: nat, pre: seq<nat>, region: seq<nat>, anchor: nat, rest: seq<nat>, schedule: seq<nat>)
    requires Valid(f) && b < |f.layout| && f.layout[b] == pre + (region + [anchor] + rest)
    requires AllPure(f.info, region) && Respects(f, schedule, region)
    ensures KeepsMeaning(f, WithBlock(f, b, pre + Arranged(schedule, region) + [anchor] + rest))
  {
    Reassociate(pre, region, [anchor], rest);
    RegionKeepsMeaning(f, b, pre, region, schedule, [anchor] + rest);
    Reassociate(pre, Arranged(schedule, region), [anchor], rest);
  }

  /** Reordering the rest of a block whose front is pre. */
  lemma {:induction false} ReorderKeepsMeaningFrom(f: Func, b: nat, pre: seq<nat>, code: seq<nat>, schedule: seq<nat>)
    requires Valid(f) && b < |f.layout| && f.layout[b] == pre + code
    requires RespectsBlock(f, schedule, code)
    ensures KeepsMeaning(f, WithBlock(f, b, pre + Reordered(f.info, schedule, code)))
    decreases |code|, 0
  {
    var n := PureRun(f.info, code);
    if n == |code| {
      assert WithBlock(f, b, pre + code) == f;
    } else {
      var region, anchor, rest := code[..n], code[n], code[n + 1..];
      assert code == region + [anchor] + rest;
      FirstRegionRespects(f, schedule, code);
      ReorderFirst(f, b, pre, region, anchor, rest, schedule);
      var pre' := pre + Arranged(schedule, region) + [anchor];
      var g := WithBlock(f, b, pre' + rest);
      ReorderRest(f, g, b, pre', rest, schedule);
      Reassociate(pre, Arranged(schedule, region), [anchor], Reordered(f.info, schedule, rest));
      KeepsMeaningTransitive(f, g, WithBlock(f, b, pre' + Reordered(f.info, schedule, rest)));
    }
  }

  lemma {:induction false} ReorderRest(f: Func, g: Func, b: nat, pre: seq<nat>, rest: seq<nat>, schedule: seq<nat>)
    requires Valid(g) && b < |f.layout| && g == WithBlock(f, b, pre + rest)
    requires RespectsBlock(f, schedule, rest)
    ensures KeepsMeaning(g, WithBlock(f, b, pre + Reordered(f.info, schedule, rest)))
    decreases |rest|, 1
  {
    forall k: nat, d: nat | k < |schedule| && DependsInside(g, rest, schedule[k], d)
      ensures d in schedule[..k]
    {
      assert DependsInside(f, rest, schedule[k], d);
    }
    ReorderKeepsMeaningFrom(g, b, pre, rest, schedule);
    var code := pre + Reordered(f.info, schedule, rest);
    assert WithBlock(g, b, code) == WithBlock(f, b, code);
  }

  /** Executing the rest of a reordered block, from any state. */
  lemma {:induction false} ReorderKeepsRest(f: Func, w: World, b: nat, pre: seq<nat>, code: seq<nat>,
                                            schedule: seq<nat>, from: Entry, s: State)
    requires Valid(f) && b < |f.layout| && Reachable(f.succ, b) && f.layout[b] == pre + code
    requires RespectsBlock(f, schedule, code)
    ensures Exec(f, w, from, s, Reordered(f.info, schedule, code)) == Exec(f, w, from, s, code)
    decreases |code|
  {
    var n := PureRun(f.info, code);
    if n < |code| {
      var region, anchor, rest := code[..n], code[n], code[n + 1..];
      assert code == region + [anchor] + rest;
      FirstRegionRespects(f, schedule, code);
      Reassociate(pre, region, [anchor], rest);
      SameArranged(f, w, b, pre, region, [anchor] + rest, schedule, from, s);
      ReorderKeepsRest(f, w, b, pre + region + [anchor], rest, schedule, from, Exec(f, w, from, s, region + [anchor]));
      ExecAppend(f, w, from, s, region, [anchor]);
      ExecAppend(f, w, from, s, Arranged(schedule, region), [anchor]);
      ExecAppend(f, w, from, s, region + [anchor], rest);
      ExecAppend(f, w, from, s, Arranged(schedule, region) + [anchor], Reordered(f.info, schedule, rest));
    }
  }

  lemma SameArranged(f: Func, w: World, b: nat, pre: seq<nat>, region: seq<nat>, post: seq<nat>, schedule: seq<nat>,
                     from: Entry, s: State)
    requires Valid(f) && b < |f.layout| && Reachable(f.succ, b) && f.layout[b] == pre + region + post
    requires AllPure(f.info, region) && Respects(f, schedule, region)
    ensures Exec(f, w, from, s, Arranged(schedule, region)) == Exec(f, w, from, s, region)
  {
    if Arranged(schedule, region) != region {
      RegionIsOrdered(f, b, pre, region, post);
      RegionHasNoDup(f, b, pre, region, post);
      ArrangedPermutes(schedule, region);
      ArrangedOrdered(f, schedule, region);
      SameRegion(f, w, from, s, region, Arranged(schedule, region));
    }
  }

  /** Executing a reordered reachable block from any state, whatever regions were left untouched, gives the same trap
      outcome, environment, memory and events. */
  lemma ReorderKeepsBlock(f: Func, w: World, b: nat, schedule: seq<nat>, from: Entry, s: State)
    requires Valid(f) && b < |f.layout| && Reachable(f.succ, b) && RespectsBlock(f, schedule, f.layout[b])
    ensures Exec(f, w, from, s, Reordered(f.info, schedule, f.layout[b])) == Exec(f, w, from, s, f.layout[b])
  {
    NothingBefore(f.layout[b]);
    ReorderKeepsRest(f, w, b, [], f.layout[b], schedule, from, s);
  }

  /** Reordering one block within its regions keeps SSA validity and every configuration of every run. */
  lemma ReorderKeepsMeaning(f: Func, b: nat, schedule: seq<nat>)
    requires Valid(f) && b < |f.layout| && RespectsBlock(f, schedule, f.layout[b])
    ensures KeepsMeaning(f, WithBlock(f, b, Reordered(f.info, schedule, f.layout[b])))
  {
    NothingBefore(f.layout[b]);
    ReorderKeepsMeaningFrom(f, b, [], f.layout[b], schedule);
    NothingBefore(Reordered(f.info, schedule, f.layout[b]));
  }

  lemma NothingBefore(code: seq<nat>)
    ensures [] + code == code
  {
  }

  // ----- What moves where -----

  /** Whatever must not move stands exactly where it stood, and movable instructions stand where movable ones stood. */
  ghost predicate AnchorsFixed(info: seq<Instr>, old_: seq<nat>, new_: seq<nat>) {
    && |old_| == |new_|
    && forall k :: 0 <= k < |old_| ==>
         if IsFixed(info, old_[k]) then new_[k] == old_[k] else !IsFixed(info, new_[k])
  }

  lemma AnchorsFixedAppend(info: seq<Instr>, a: seq<nat>, a': seq<nat>, b: seq<nat>, b': seq<nat>)
    requires AnchorsFixed(info, a, a') && AnchorsFixed(info, b, b')
    ensures AnchorsFixed(info, a + b, a' + b')
  {
  }

  lemma {:induction false} FixedAnchorsAreSame(info: seq<Instr>, old_: seq<nat>, new_: seq<nat>)
    requires AnchorsFixed(info, old_, new_)
    ensures Anchors(info, old_) == Anchors(info, new_)
  {
    if old_ != [] {
      FixedAnchorsAreSame(info, old_[..|old_| - 1], new_[..|new_| - 1]);
    }
  }

  lemma ArrangedFixesAnchors(info: seq<Instr>, schedule: seq<nat>, region: seq<nat>)
    requires NoDup(region) && AllPure(info, region)
    ensures AnchorsFixed(info, region, Arranged(schedule, region))
  {
    ArrangedPermutes(schedule, region);
    var ys := Arranged(schedule, region);
    forall k | 0 <= k < |region|
      ensures !IsFixed(info, region[k]) && !IsFixed(info, ys[k])
    {
      assert region[k] in region && IsPure(info, region[k]);
      assert ys[k] in region && IsPure(info, ys[k]);
    }
  }

  lemma {:induction false} ReorderedFixesAnchors(info: seq<Instr>, schedule: seq<nat>, code: seq<nat>)
    requires NoDup(code)
    ensures AnchorsFixed(info, code, Reordered(info, schedule, code))
    decreases |code|
  {
    var n := PureRun(info, code);
    if n < |code| {
      var region, anchor, rest := code[..n], code[n], code[n + 1..];
      assert code == region + [anchor] + rest;
      ArrangedFixesAnchors(info, schedule, region);
      ReorderedFixesAnchors(info, schedule, rest);
      AnchorsFixedAround(info, region, Arranged(schedule, region), anchor, rest, Reordered(info, schedule, rest));
    }
  }

  lemma AnchorsFixedAround(info: seq<Instr>, a: seq<nat>, a': seq<nat>, anchor: nat, b: seq<nat>, b': seq<nat>)
    requires AnchorsFixed(info, a, a') && AnchorsFixed(info, b, b')
    ensures AnchorsFixed(info, a + [anchor] + b, a' + [anchor] + b')
  {
    AnchorsFixedAppend(info, a, a', [anchor], [anchor]);
    AnchorsFixedAppend(info, a + [anchor], a' + [anchor], b, b');
  }

  lemma InPieces(a: seq<nat>, b: nat, c: seq<nat>, x: nat)
    ensures x in a + [b] + c <==> x in a || x == b || x in c
  {
  }

  lemma {:induction false} ReorderedContents(info: seq<Instr>, schedule: seq<nat>, code: seq<nat>, x: nat)
    requires NoDup(code)
    ensures x in Reordered(info, schedule, code) <==> x in code
    decreases |code|
  {
    var n := PureRun(info, code);
    if n < |code| {
      var region, anchor, rest := code[..n], code[n], code[n + 1..];
      assert code == region + [anchor] + rest;
      InPieces(region, anchor, rest, x);
      ArrangedPermutes(schedule, region);
      ReorderedContents(info, schedule, rest, x);
      InPieces(Arranged(schedule, region), anchor, Reordered(info, schedule, rest), x);
    }
  }

  // ----- The rewrite in place -----

  /** A block front: anchors that close no region, a region, and the anchor that closes it. */
  datatype Segment = Segment(gap: seq<nat>, region: seq<nat>, boundary: nat)

  function SegmentCode(s: Segment): seq<nat> {
    s.gap + s.region + [s.boundary]
  }

  function Flat(segs: seq<Segment>): seq<nat> {
    if segs == [] then [] else SegmentCode(segs[0]) + Flat(segs[1..])
  }

  function ArrangedSegment(schedule: seq<nat>, s: Segment): Segment {
    s.(region := Arranged(schedule, s.region))
  }

  function ArrangedSegments(schedule: seq<nat>, segs: seq<Segment>): seq<Segment> {
    seq(|segs|, k requires 0 <= k < |segs| => ArrangedSegment(schedule, segs[k]))
  }

  ghost predicate NonePure(info: seq<Instr>, xs: seq<nat>) {
    forall x :: x in xs ==> !IsPure(info, x)
  }

  ghost predicate IsSegment(info: seq<Instr>, s: Segment) {
    NonePure(info, s.gap) && AllPure(info, s.region) && !IsPure(info, s.boundary)
  }

  lemma {:induction false} FlatAppend(segs: seq<Segment>, s: Segment)
    ensures Flat(segs + [s]) == Flat(segs) + SegmentCode(s)
  {
    if segs == [] {
      assert (segs + [s])[1..] == [];
    } else {
      assert (segs + [s])[1..] == segs[1..] + [s];
      FlatAppend(segs[1..], s);
    }
  }

  lemma {:induction false} PureRunOf(info: seq<Instr>, xs: seq<nat>, rest: seq<nat>)
    requires AllPure(info, xs) && (rest == [] || !IsPure(info, rest[0]))
    ensures PureRun(info, xs + rest) == |xs|
  {
    if xs != [] {
      assert (xs + rest)[1..] == xs[1..] + rest;
      PureRunOf(info, xs[1..], rest);
    }
  }

  lemma ReorderedAnchor(info: seq<Instr>, schedule: seq<nat>, anchor: nat, rest: seq<nat>)
    requires !IsPure(info, anchor)
    ensures Reordered(info, schedule, [anchor] + rest) == [anchor] + Reordered(info, schedule, rest)
  {
    PickContents(schedule, []);
    assert Arranged(schedule, []) == [];
    assert ([anchor] + rest)[1..] == rest;
  }

  lemma {:induction false} ReorderedSkipsGap(info: seq<Instr>, schedule: seq<nat>, gap: seq<nat>, rest: seq<nat>)
    requires NonePure(info, gap)
    ensures Reordered(info, schedule, gap + rest) == gap + Reordered(info, schedule, rest)
  {
    if gap == [] {
      assert gap + rest == rest;
    } else {
      assert gap == [gap[0]] + gap[1..];
      ReorderedSkipsGap(info, schedule, gap[1..], rest);
      ReorderedAnchor(info, schedule, gap[0], gap[1..] + rest);
      Regroup([gap[0]], gap[1..], rest);
      Regroup([gap[0]], gap[1..], Reordered(info, schedule, rest));
    }
  }

  lemma Regroup(a: seq<nat>, b: seq<nat>, c: seq<nat>)
    ensures a + b + c == a + (b + c)
  {
  }

  lemma RegionParts(region: seq<nat>, boundary: nat, rest: seq<nat>)
    ensures var code := region + ([boundary] + rest);
      code[..|region|] == region && code[|region|] == boundary && code[|region| + 1..] == rest
  {
  }

  lemma ReorderedRegion(info: seq<Instr>, schedule: seq<nat>, region: seq<nat>, boundary: nat, rest: seq<nat>)
    requires AllPure(info, region) && !IsPure(info, boundary)
    ensures Reordered(info, schedule, region + ([boundary] + rest))
         == Arranged(schedule, region) + [boundary] + Reordered(info, schedule, rest)
  {
    PureRunOf(info, region, [boundary] + rest);
    RegionParts(region, boundary, rest);
  }

  lemma ReorderedSegment(info: seq<Instr>, schedule: seq<nat>, s: Segment, rest: seq<nat>)
    requires IsSegment(info, s)
    ensures Reordered(info, schedule, SegmentCode(s) + rest)
         == SegmentCode(ArrangedSegment(schedule, s)) + Reordered(info, schedule, rest)
  {
    Reassociate(s.gap, s.region, [s.boundary], rest);
    ReorderedSkipsGap(info, schedule, s.gap, s.region + ([s.boundary] + rest));
    ReorderedRegion(info, schedule, s.region, s.boundary, rest);
    Reassociate(s.gap, Arranged(schedule, s.region), [s.boundary], Reordered(info, schedule, rest));
  }

  lemma FlatFirst(segs: seq<Segment>, end: seq<nat>)
    requires segs != []
    ensures Flat(segs) + end == SegmentCode(segs[0]) + (Flat(segs[1..]) + end)
  {
  }

  lemma ArrangedFirst(schedule: seq<nat>, segs: seq<Segment>, end: seq<nat>)
    requires segs != []
    ensures Flat(ArrangedSegments(schedule, segs)) + end
         == SegmentCode(ArrangedSegment(schedule, segs[0])) + (Flat(ArrangedSegments(schedule, segs[1..])) + end)
  {
    var arranged := ArrangedSegments(schedule, segs);
    assert arranged[1..] == ArrangedSegments(schedule, segs[1..]);
    FlatFirst(arranged, end);
  }

  lemma {:induction false} ReorderedFlat(info: seq<Instr>, schedule: seq<nat>, segs: seq<Segment>, end: seq<nat>)
    requires forall s :: s in segs ==> IsSegment(info, s)
    requires Reordered(info, schedule, end) == end
    ensures Reordered(info, schedule, Flat(segs) + end) == Flat(ArrangedSegments(schedule, segs)) + end
  {
    if segs == [] {
      assert Flat(segs) + end == end;
    } else {
      FlatFirst(segs, end);
      ArrangedFirst(schedule, segs, end);
      ReorderedFlat(info, schedule, segs[1..], end);
      ReorderedSegment(info, schedule, segs[0], Flat(segs[1..]) + end);
    }
  }

  lemma ReorderedEnd(info: seq<Instr>, schedule: seq<nat>, gap: seq<nat>, tail: seq<nat>)
    requires NonePure(info, gap) && AllPure(info, tail)
    ensures Reordered(info, schedule, gap + tail) == gap + tail
  {
    ReorderedSkipsGap(info, schedule, gap, tail);
    PureRunOf(info, tail, []);
    assert tail + [] == tail;
  }

  /** A block read from the front: its segments, the anchors after the last one, and the run that is still open. */
  datatype Scan = Scan(segs: seq<Segment>, gap: seq<nat>, current: seq<nat>)

  function Advance(info: seq<Instr>, s: Scan, i: nat): Scan {
    if IsPure(info, i) then s.(current := s.current + [i])
    else if s.current == [] then s.(gap := s.gap + [i])
    else Scan(s.segs + [Segment(s.gap, s.current, i)], [], [])
  }

  function ScanOf(info: seq<Instr>, code: seq<nat>): Scan {
    if code == [] then Scan([], [], [])
    else Advance(info, ScanOf(info, code[..|code| - 1]), code[|code| - 1])
  }

  function ScanCode(s: Scan): seq<nat> {
    Flat(s.segs) + (s.gap + s.current)
  }

  /** Regions are non-empty runs of pure instructions, everything else is an anchor. */
  ghost predicate ScanOk(info: seq<Instr>, s: Scan) {
    && (forall g :: g in s.segs ==> IsSegment(info, g) && g.region != [])
    && NonePure(info, s.gap) && AllPure(info, s.current)
  }

  lemma AdvanceKeeps(info: seq<Instr>, s: Scan, i: nat)
    requires ScanOk(info, s)
    ensures ScanOk(info, Advance(info, s, i)) && ScanCode(Advance(info, s, i)) == ScanCode(s) + [i]
  {
    if IsPure(info, i) {
      Reassociate(Flat(s.segs), s.gap, s.current, [i]);
      Regroup(s.gap, s.current, [i]);
    } else if s.current == [] {
      NothingAfter(s.gap);
      NothingAfter(s.gap + [i]);
      Regroup(Flat(s.segs), s.gap, [i]);
    } else {
      FlatAppend(s.segs, Segment(s.gap, s.current, i));
      NothingAfter(Flat(s.segs + [Segment(s.gap, s.current, i)]));
      Regroup(Flat(s.segs), s.gap + s.current, [i]);
    }
  }

  lemma NothingAfter(code: seq<nat>)
    ensures code + [] == code
  {
  }

  /** The scanned pieces are the block: nothing is lost or out of order. */
  lemma {:induction false} ScanSplits(info: seq<Instr>, code: seq<nat>)
    ensures ScanOk(info, ScanOf(info, code)) && ScanCode(ScanOf(info, code)) == code
  {
    if code != [] {
      var n := |code| - 1;
      ScanSplits(info, code[..n]);
      AdvanceKeeps(info, ScanOf(info, code[..n]), code[n]);
      assert code == code[..n] + [code[n]];
    }
  }

  function RegionsOf(s: Scan): seq<seq<nat>> {
    seq(|s.segs|, k requires 0 <= k < |s.segs| => s.segs[k].region) + (if s.current == [] then [] else [s.current])
  }

  function BoundariesOf(s: Scan): seq<Option<nat>> {
    seq(|s.segs|, k requires 0 <= k < |s.segs| => Some(s.segs[k].boundary)) + (if s.current == [] then [] else [None])
  }

  lemma RegionsAre(s: Scan)
    ensures |RegionsOf(s)| == |BoundariesOf(s)| >= |s.segs|
    ensures forall j :: 0 <= j < |s.segs| ==>
              RegionsOf(s)[j] == s.segs[j].region && BoundariesOf(s)[j] == Some(s.segs[j].boundary)
    ensures forall j :: |s.segs| <= j < |RegionsOf(s)| ==> BoundariesOf(s)[j] == None
  {
  }

  /** Splits a block into its regions and the anchors that close them; a run no anchor closes comes last. */
  method CollectRegions(info: seq<Instr>, code: seq<nat>) returns (regions: seq<seq<nat>>, boundaries: seq<Option<nat>>)
    ensures regions == RegionsOf(ScanOf(info, code)) && boundaries == BoundariesOf(ScanOf(info, code))
  {
    regions, boundaries := [], [];
    var current: seq<nat> := [];
    for k := 0 to |code|
      invariant var s := ScanOf(info, code[..k]);
        && current == s.current
        && regions == RegionsOf(s.(current := [])) && boundaries == BoundariesOf(s.(current := []))
    {
      var i := code[k];
      assert code[..k + 1][..k] == code[..k];
      if IsPure(info, i) {
        current := current + [i];
        continue;
      }
      if current != [] {
        regions := regions + [current];
        boundaries := boundaries + [Some(i)];
        current := [];
      }
    }
    assert code[..|code|] == code;
    if current != [] {
      regions := regions + [current];
      boundaries := boundaries + [None];
    }
  }

  /** The schedule's instructions that belong to the region, each once. */
  method OrderRegion(schedule: seq<nat>, region: seq<nat>) returns (ordered: seq<nat>)
    ensures ordered == Pick(schedule, region)
  {
    ordered := [];
    var seen: set<nat> := {};
    for k := 0 to |schedule|
      invariant ordered == Pick(schedule[..k], region)
      invariant forall x :: x in seen <==> x in ordered
    {
      assert schedule[..k + 1][..k] == schedule[..k];
      var i := schedule[k];
      if i in region && i !in seen {
        seen := seen + {i};
        ordered := ordered + [i];
      }
    }
    assert schedule[..|schedule|] == schedule;
  }

  function WithoutAll(code: seq<nat>, xs: seq<nat>): seq<nat> {
    if xs == [] then code else Without(WithoutAll(code, xs[..|xs| - 1]), xs[|xs| - 1])
  }

  lemma {:induction false} WithoutAllContents(code: seq<nat>, xs: seq<nat>, d: nat)
    ensures d in WithoutAll(code, xs) <==> d in code && d !in xs
  {
    if xs != [] {
      var n := |xs| - 1;
      WithoutAllContents(code, xs[..n], d);
      WithoutContents(WithoutAll(code, xs[..n]), xs[n], d);
      assert xs == xs[..n] + [xs[n]];
    }
  }

  /** Moving i from the part still to be moved to just before the boundary. */
  lemma MoveOne(pre: seq<nat>, rest: seq<nat>, done: seq<nat>, boundary: nat, post: seq<nat>, i: nat)
    requires i in rest && i !in pre && i !in done && i != boundary && i !in post && boundary !in post
    ensures InsertBefore(Without(pre + rest + done + [boundary] + post, i), boundary, i)
         == pre + Without(rest, i) + (done + [i]) + [boundary] + post
  {
    WithoutAppend(pre + rest + done + [boundary], post, i);
    WithoutAppend(pre + rest + done, [boundary], i);
    WithoutAppend(pre + rest, done, i);
    WithoutAppend(pre, rest, i);
    WithoutAbsent(pre, i);
    WithoutAbsent(done, i);
    WithoutAbsent([boundary], i);
    WithoutAbsent(post, i);
    InsertBeforeAt(pre + Without(rest, i) + done, boundary, post, i);
    assert pre + Without(rest, i) + done + [i] == pre + Without(rest, i) + (done + [i]);
  }

  /** A block's parts share nothing. */
  ghost predicate Apart(pre: seq<nat>, region: seq<nat>, boundary: nat, post: seq<nat>) {
    && boundary !in region && boundary !in post
    && forall x :: x in region ==> x !in pre && x !in post
  }

  /** The block when the first j instructions of `ordered` have been moved. */
  ghost function Moving(pre: seq<nat>, region: seq<nat>, ordered: seq<nat>, j: nat, boundary: nat, post: seq<nat>)
    : seq<nat>
    requires j <= |ordered|
  {
    pre + WithoutAll(region, ordered[..j]) + ordered[..j] + [boundary] + post
  }

  lemma MoveStep(pre: seq<nat>, region: seq<nat>, ordered: seq<nat>, j: nat, boundary: nat, post: seq<nat>)
    requires j < |ordered| && Permutes(region, ordered) && Apart(pre, region, boundary, post)
    ensures ordered[j] in Moving(pre, region, ordered, j, boundary, post) && ordered[j] != boundary
    ensures boundary in Moving(pre, region, ordered, j, boundary, post)
    ensures InsertBefore(Without(Moving(pre, region, ordered, j, boundary, post), ordered[j]), boundary, ordered[j])
         == Moving(pre, region, ordered, j + 1, boundary, post)
  {
    var i := ordered[j];
    assert i in ordered && i !in ordered[..j];
    WithoutAllContents(region, ordered[..j], i);
    assert ordered[..j + 1] == ordered[..j] + [i] && ordered[..j + 1][..j] == ordered[..j];
    MoveOne(pre, WithoutAll(region, ordered[..j]), ordered[..j], boundary, post, i);
  }

  lemma MoveEnds(pre: seq<nat>, region: seq<nat>, ordered: seq<nat>, boundary: nat, post: seq<nat>)
    requires Permutes(region, ordered)
    ensures Moving(pre, region, ordered, 0, boundary, post) == pre + region + [boundary] + post
    ensures Moving(pre, region, ordered, |ordered|, boundary, post) == pre + ordered + [boundary] + post
  {
    assert pre + region + [] == pre + region;
    assert ordered[..|ordered|] == ordered;
    var left := WithoutAll(region, ordered);
    if left != [] {
      WithoutAllContents(region, ordered, left[0]);
    }
    assert pre + [] == pre;
  }

  /** Moves every instruction of the region before its closing anchor, in the given order. */
  method MoveRegion(fn: FunctionBody, b: nat, ordered: seq<nat>, boundary: nat,
                    ghost pre: seq<nat>, ghost region: seq<nat>, ghost post: seq<nat>)
    requires b < |fn.layout| && fn.layout[b] == pre + region + [boundary] + post
    requires Permutes(region, ordered) && Apart(pre, region, boundary, post)
    modifies fn
    ensures fn.layout == old(fn.layout)[b := pre + ordered + [boundary] + post]
  {
    MoveEnds(pre, region, ordered, boundary, post);
    for j := 0 to |ordered|
      invariant |fn.layout| == |old(fn.layout)|
      invariant fn.layout == old(fn.layout)[b := Moving(pre, region, ordered, j, boundary, post)]
    {
      MoveStep(pre, region, ordered, j, boundary, post);
      fn.MoveBefore(ordered[j], b, b, boundary);
    }
  }

  lemma ApartFromNoDup(pre: seq<nat>, region: seq<nat>, boundary: nat, post: seq<nat>)
    requires NoDup(pre + region + [boundary] + post)
    ensures Apart(pre, region, boundary, post) && NoDup(region)
  {
    var code := pre + region + [boundary] + post;
    assert forall k :: 0 <= k < |pre| ==> code[k] == pre[k];
    assert forall k :: 0 <= k < |region| ==> code[|pre| + k] == region[k];
    assert code[|pre| + |region|] == boundary;
    assert forall k :: 0 <= k < |post| ==> code[|pre| + |region| + 1 + k] == post[k];
  }

  /** One region: left alone when the schedule is incomplete for it or no anchor closes it. */
  method ArrangeRegion(fn: FunctionBody, schedule: seq<nat>, b: nat, region: seq<nat>, boundary: Option<nat>,
                       ghost pre: seq<nat>, ghost post: seq<nat>)
    requires b < |fn.layout| && NoDup(fn.layout[b])
    requires boundary.Some? ==> fn.layout[b] == pre + region + [boundary.value] + post
    modifies fn
    ensures boundary.None? ==> fn.layout == old(fn.layout)
    ensures boundary.Some? ==>
              fn.layout == old(fn.layout)[b := pre + Arranged(schedule, region) + [boundary.value] + post]
    ensures |fn.layout| == |old(fn.layout)| && NoDup(fn.layout[b])
  {
    var ordered := OrderRegion(schedule, region);
    if |ordered| != |region| || boundary.None? {
      return;
    }
    ApartFromNoDup(pre, region, boundary.value, post);
    ArrangedPermutes(schedule, region);
    ghost var tail := [boundary.value] + post;
    assert fn.layout[b] == pre + region + tail;
    SwapNoDup(pre, region, ordered, tail);
    assert pre + ordered + tail == pre + ordered + [boundary.value] + post;
    MoveRegion(fn, b, ordered, boundary.value, pre, region, post);
  }

  lemma ScanReordered(info: seq<Instr>, schedule: seq<nat>, code: seq<nat>)
    ensures var s := ScanOf(info, code);
      && code == Flat(s.segs) + (s.gap + s.current)
      && Reordered(info, schedule, code) == Flat(ArrangedSegments(schedule, s.segs)) + (s.gap + s.current)
  {
    var s := ScanOf(info, code);
    ScanSplits(info, code);
    ReorderedEnd(info, schedule, s.gap, s.current);
    ReorderedFlat(info, schedule, s.segs, s.gap + s.current);
  }

  /** The block when its first r regions have been arranged. */
  ghost function Progress(schedule: seq<nat>, segs: seq<Segment>, r: nat, end: seq<nat>): seq<nat>
    requires r <= |segs|
  {
    Flat(ArrangedSegments(schedule, segs[..r])) + (Flat(segs[r..]) + end)
  }

  lemma ProgressEnds(schedule: seq<nat>, segs: seq<Segment>, end: seq<nat>)
    ensures Progress(schedule, segs, 0, end) == Flat(segs) + end
    ensures Progress(schedule, segs, |segs|, end) == Flat(ArrangedSegments(schedule, segs)) + end
  {
    assert segs[0..] == segs && segs[..|segs|] == segs;
    assert ArrangedSegments(schedule, segs[..0]) == [];
    NothingBefore(Flat(segs) + end);
    assert segs[|segs|..] == [];
    NothingBefore(end);
  }

  lemma ProgressStep(schedule: seq<nat>, segs: seq<Segment>, r: nat, end: seq<nat>)
    requires r < |segs|
    ensures var pre := Flat(ArrangedSegments(schedule, segs[..r])) + segs[r].gap;
      var post := Flat(segs[r + 1..]) + end;
      && Progress(schedule, segs, r, end) == pre + segs[r].region + [segs[r].boundary] + post
      && Progress(schedule, segs, r + 1, end) == pre + Arranged(schedule, segs[r].region) + [segs[r].boundary] + post
  {
    var front := ArrangedSegments(schedule, segs[..r]);
    var s, tail := segs[r], Flat(segs[r + 1..]) + end;
    assert segs[r..][1..] == segs[r + 1..];
    FlatFirst(segs[r..], end);
    Unfold(Flat(front), s, tail);
    assert ArrangedSegments(schedule, segs[..r + 1]) == front + [ArrangedSegment(schedule, s)];
    FlatAppend(front, ArrangedSegment(schedule, s));
    Unfold(Flat(front), ArrangedSegment(schedule, s), tail);
  }

  lemma Unfold(front: seq<nat>, s: Segment, tail: seq<nat>)
    ensures front + (SegmentCode(s) + tail) == front + SegmentCode(s) + tail
         == front + s.gap + s.region + [s.boundary] + tail
  {
  }

  /** The loop over the regions. */
  method ArrangeRegions(fn: FunctionBody, schedule: seq<nat>, b: nat, regions: seq<seq<nat>>,
                        boundaries: seq<Option<nat>>, ghost segs: seq<Segment>, ghost end: seq<nat>)
    requires b < |fn.layout| && NoDup(fn.layout[b]) && fn.layout[b] == Flat(segs) + end
    requires |regions| == |boundaries| >= |segs|
    requires forall j :: 0 <= j < |segs| ==> regions[j] == segs[j].region && boundaries[j] == Some(segs[j].boundary)
    requires forall j :: |segs| <= j < |regions| ==> boundaries[j] == None
    modifies fn
    ensures fn.layout == old(fn.layout)[b := Flat(ArrangedSegments(schedule, segs)) + end]
  {
    ProgressEnds(schedule, segs, end);
    for r := 0 to |regions|
      invariant |fn.layout| == |old(fn.layout)|
      invariant fn.layout == old(fn.layout)[b := Progress(schedule, segs, if r <= |segs| then r else |segs|, end)]
      invariant NoDup(fn.layout[b])
    {
      ghost var pre, post := [], [];
      if r < |segs| {
        pre, post := Flat(ArrangedSegments(schedule, segs[..r])) + segs[r].gap, Flat(segs[r + 1..]) + end;
        ProgressStep(schedule, segs, r, end);
      }
      ArrangeRegion(fn, schedule, b, regions[r], boundaries[r], pre, post);
    }
  }

  /** reorderBlockWithinRegions: every region the schedule covers completely is put in schedule order. */
  method ReorderBlockWithinRegions(fn: FunctionBody, schedule: seq<nat>, b: nat)
    requires b < |fn.layout| && NoDup(fn.layout[b])
    modifies fn
    ensures fn.layout == old(fn.layout)[b := Reordered(fn.info, schedule, old(fn.layout[b]))]
  {
    var regions, boundaries := CollectRegions(fn.info, fn.layout[b]);
    ghost var scan := ScanOf(fn.info, fn.layout[b]);
    ScanReordered(fn.info, schedule, fn.layout[b]);
    RegionsAre(scan);
    ArrangeRegions(fn, schedule, b, regions, boundaries, scan.segs, scan.gap + scan.current);
  }
}
