/** Live values by backward iteration (include/liveness.hpp). A bit vector over the universe is a set of values. */
module Liveness {
  import opened Graphs
  import opened Ir

  datatype BlockLive = BlockLive(live_in: set<Ref>, live_out: set<Ref>, use_: set<Ref>, def_: set<Ref>)

  // ----- Specification -----

  predicate DefinedIn(v: Ref, code: seq<nat>, universe: set<Ref>) {
    v in universe && v.Inst? && v.id in code
  }

  /** Position k of the code uses v and nothing before it in the code defines v. */
  ghost predicate UpwardExposedAt(f: Func, v: Ref, code: seq<nat>, universe: set<Ref>, k: nat) {
    && k < |code| && code[k] < |f.info|
    && v in f.info[code[k]].operands && v in universe && !DefinedIn(v, code[..k], universe)
  }

  ghost predicate UpwardExposed(f: Func, v: Ref, code: seq<nat>, universe: set<Ref>) {
    exists k: nat :: UpwardExposedAt(f, v, code, universe, k)
  }

  /** A path of blocks whose last block uses v before defining it, with no definition of v in an earlier block. */
  ghost predicate LivePath(f: Func, v: Ref, universe: set<Ref>, p: seq<nat>) {
    && IsPath(f.succ, p)
    && (forall k :: 0 <= k < |p| ==> p[k] < |f.layout|)
    && UpwardExposed(f, v, f.layout[p[|p| - 1]], universe)
    && forall k :: 0 <= k < |p| - 1 ==> !DefinedIn(v, f.layout[p[k]], universe)
  }

  /** v is live on entry to b. */
  ghost predicate LiveIn(f: Func, v: Ref, universe: set<Ref>, b: nat) {
    exists p :: LivePath(f, v, universe, p) && p[0] == b
  }

  /** v is live on exit from b: live on entry to a successor. */
  ghost predicate LiveOut(f: Func, v: Ref, universe: set<Ref>, b: nat) {
    exists s: nat :: Edge(f.succ, b, s) && LiveIn(f, v, universe, s)
  }

  ghost predicate LivenessExact(f: Func, universe: set<Ref>, st: seq<BlockLive>) {
    && |st| == |f.layout|
    && forall b: nat, v: Ref :: b < |st| ==>
         && (v in st[b].live_in <==> LiveIn(f, v, universe, b))
         && (v in st[b].live_out <==> LiveOut(f, v, universe, b))
  }

  /** Values live on entry and on exit, block by block, by paths. */
  ghost predicate LiveSetsExact(f: Func, universe: set<Ref>, ins: seq<set<Ref>>, outs: seq<set<Ref>>) {
    && |ins| == |outs| == |f.layout|
    && forall b: nat, v: Ref :: b < |f.layout| ==>
         && (v in ins[b] <==> LiveIn(f, v, universe, b))
         && (v in outs[b] <==> LiveOut(f, v, universe, b))
  }

  lemma LiveSetsAre(f: Func, universe: set<Ref>, st: seq<BlockLive>)
    requires LivenessExact(f, universe, st)
    ensures LiveSetsExact(f, universe, LiveIns(st), LiveOuts(st))
  {
  }

  function LiveIns(st: seq<BlockLive>): seq<set<Ref>> {
    seq(|st|, b requires 0 <= b < |st| => st[b].live_in)
  }

  function LiveOuts(st: seq<BlockLive>): seq<set<Ref>> {
    seq(|st|, b requires 0 <= b < |st| => st[b].live_out)
  }

  // ----- The local sets -----

  ghost predicate ExposedBefore(f: Func, v: Ref, code: seq<nat>, universe: set<Ref>, k: nat) {
    exists j: nat :: j < k && UpwardExposedAt(f, v, code, universe, j)
  }

  lemma ExposedStep(f: Func, code: seq<nat>, universe: set<Ref>, k: nat)
    ensures forall v: Ref :: ExposedBefore(f, v, code, universe, k + 1) <==>
              ExposedBefore(f, v, code, universe, k) || UpwardExposedAt(f, v, code, universe, k)
  {
  }

  /** The operands not defined earlier in the block join the uses. */
  method AddUses(ops: seq<Ref>, universe: set<Ref>, use_: set<Ref>, def_: set<Ref>) returns (use': set<Ref>)
    ensures forall v :: v in use' <==> v in use_ || (v in ops && v in universe && v !in def_)
  {
    use' := use_;
    for k := 0 to |ops|
      invariant forall v :: v in use' <==> v in use_ || (v in ops[..k] && v in universe && v !in def_)
    {
      assert ops[..k + 1] == ops[..k] + [ops[k]];
      if ops[k] in universe && ops[k] !in def_ {
        use' := use' + {ops[k]};
      }
    }
    assert ops[..|ops|] == ops;
  }

  method BlockUseDef(f: Func, code: seq<nat>, universe: set<Ref>) returns (use_: set<Ref>, def_: set<Ref>)
    requires forall i :: i in code ==> i < |f.info|
    ensures forall v: Ref :: v in use_ <==> UpwardExposed(f, v, code, universe)
    ensures forall v: Ref :: v in def_ <==> DefinedIn(v, code, universe)
  {
    use_, def_ := {}, {};
    for k := 0 to |code|
      invariant forall v: Ref :: v in def_ <==> DefinedIn(v, code[..k], universe)
      invariant forall v: Ref :: v in use_ <==> ExposedBefore(f, v, code, universe, k)
    {
      assert code[..k + 1] == code[..k] + [code[k]] && code[k] in code;
      use_ := AddUses(f.info[code[k]].operands, universe, use_, def_);
      assert forall v: Ref :: UpwardExposedAt(f, v, code, universe, k) <==>
                               v in f.info[code[k]].operands && v in universe && v !in def_;
      ExposedStep(f, code, universe, k);
      if Inst(code[k]) in universe {
        def_ := def_ + {Inst(code[k])};
      }
    }
    assert code[..|code|] == code;
    assert forall v: Ref :: ExposedBefore(f, v, code, universe, |code|) <==> UpwardExposed(f, v, code, universe);
  }

  ghost predicate LocalSets(f: Func, universe: set<Ref>, st: seq<BlockLive>) {
    && |st| == |f.layout|
    && forall b: nat, v: Ref :: b < |st| ==>
         && (v in st[b].use_ <==> UpwardExposed(f, v, f.layout[b], universe))
         && (v in st[b].def_ <==> DefinedIn(v, f.layout[b], universe))
  }

  // ----- What the iteration keeps -----

  /** Nothing is marked live that is not. */
  ghost predicate OnlyLive(f: Func, universe: set<Ref>, st: seq<BlockLive>) {
    forall b: nat, v: Ref :: b < |st| && b < |f.layout| ==>
      && (v in st[b].live_in ==> LiveIn(f, v, universe, b))
      && (v in st[b].live_out ==> LiveOut(f, v, universe, b))
  }

  function UnionIn(st: seq<BlockLive>, succs: seq<nat>): set<Ref> {
    if succs == [] then {}
    else
      var s := succs[|succs| - 1];
      UnionIn(st, succs[..|succs| - 1]) + (if s < |st| then st[s].live_in else {})
  }

  lemma {:induction false} UnionInContents(st: seq<BlockLive>, succs: seq<nat>, v: Ref)
    ensures v in UnionIn(st, succs) <==> exists s :: s in succs && s < |st| && v in st[s].live_in
  {
    if succs != [] {
      var front, last := succs[..|succs| - 1], succs[|succs| - 1];
      UnionInContents(st, front, v);
      assert forall s :: s in succs <==> s in front || s == last by {
        assert succs == front + [last];
      }
    }
  }

  function NewIn(bl: BlockLive, newOut: set<Ref>): set<Ref> {
    bl.use_ + (newOut - bl.def_)
  }

  function Recomputed(f: Func, st: seq<BlockLive>, b: nat): BlockLive
    requires b < |st| && b < |f.succ|
  {
    var newOut := UnionIn(st, f.succ[b]);
    st[b].(live_in := NewIn(st[b], newOut), live_out := newOut)
  }

  ghost predicate FixedAt(f: Func, st: seq<BlockLive>, b: nat) {
    b < |st| && b < |f.succ| ==> st[b] == Recomputed(f, st, b)
  }

  /** Recomputing a block can only add values. */
  ghost predicate GrowingAt(f: Func, st: seq<BlockLive>, b: nat) {
    b < |st| && b < |f.succ| ==>
      st[b].live_in <= Recomputed(f, st, b).live_in && st[b].live_out <= Recomputed(f, st, b).live_out
  }

  ghost predicate Iterating(f: Func, universe: set<Ref>, st: seq<BlockLive>) {
    && WellFormed(f) && LocalSets(f, universe, st) && OnlyLive(f, universe, st)
    && forall b: nat :: GrowingAt(f, st, b)
  }

  lemma UseIsLive(f: Func, universe: set<Ref>, b: nat, v: Ref)
    requires WellFormed(f) && b < |f.layout| && UpwardExposed(f, v, f.layout[b], universe)
    ensures LiveIn(f, v, universe, b)
  {
    assert LivePath(f, v, universe, [b]);
  }

  lemma PassedThroughIsLive(f: Func, universe: set<Ref>, b: nat, v: Ref)
    requires WellFormed(f) && b < |f.layout| && LiveOut(f, v, universe, b) && !DefinedIn(v, f.layout[b], universe)
    ensures LiveIn(f, v, universe, b)
  {
    var s: nat :| Edge(f.succ, b, s) && LiveIn(f, v, universe, s);
    var p :| LivePath(f, v, universe, p) && p[0] == s;
    PathConcat(f.succ, [b, s], p);
    assert [b, s] + p[1..] == [b] + p;
    assert LivePath(f, v, universe, [b] + p);
  }

  lemma RecomputedIsLive(f: Func, universe: set<Ref>, st: seq<BlockLive>, b: nat, v: Ref)
    requires Iterating(f, universe, st) && b < |st|
    ensures v in Recomputed(f, st, b).live_out ==> LiveOut(f, v, universe, b)
    ensures v in Recomputed(f, st, b).live_in ==> LiveIn(f, v, universe, b)
  {
    UnionInContents(st, f.succ[b], v);
    if v in UnionIn(st, f.succ[b]) {
      var s :| s in f.succ[b] && s < |st| && v in st[s].live_in;
      assert Edge(f.succ, b, s) && LiveIn(f, v, universe, s);
    }
    if v in Recomputed(f, st, b).live_in {
      if v in st[b].use_ {
        UseIsLive(f, universe, b, v);
      } else {
        PassedThroughIsLive(f, universe, b, v);
      }
    }
  }

  lemma BiggerSetsBiggerUnion(small: seq<BlockLive>, big: seq<BlockLive>, succs: seq<nat>)
    requires |small| == |big| && forall b :: 0 <= b < |small| ==> small[b].live_in <= big[b].live_in
    ensures UnionIn(small, succs) <= UnionIn(big, succs)
  {
  }

  lemma UpdateKeepsGrowing(f: Func, universe: set<Ref>, st: seq<BlockLive>, b: nat, c: nat)
    requires Iterating(f, universe, st) && b < |st|
    ensures GrowingAt(f, st[b := Recomputed(f, st, b)], c)
  {
    assert GrowingAt(f, st, b) && GrowingAt(f, st, c);
    var st' := st[b := Recomputed(f, st, b)];
    if c < |st| {
      BiggerSetsBiggerUnion(st, st', f.succ[c]);
    }
  }

  /** One in-place update keeps the invariant. */
  lemma UpdateKeepsIterating(f: Func, universe: set<Ref>, st: seq<BlockLive>, b: nat)
    requires Iterating(f, universe, st) && b < |st|
    ensures Iterating(f, universe, st[b := Recomputed(f, st, b)])
  {
    var st' := st[b := Recomputed(f, st, b)];
    forall c: nat
      ensures GrowingAt(f, st', c)
    {
      UpdateKeepsGrowing(f, universe, st, b, c);
    }
    forall v: Ref
      ensures v in Recomputed(f, st, b).live_out ==> LiveOut(f, v, universe, b)
      ensures v in Recomputed(f, st, b).live_in ==> LiveIn(f, v, universe, b)
    {
      RecomputedIsLive(f, universe, st, b, v);
    }
  }

  // ----- At the fixed point -----

  /** A solution of the data-flow equations. */
  ghost predicate Solution(f: Func, universe: set<Ref>, st: seq<BlockLive>) {
    LocalSets(f, universe, st) && forall b: nat :: FixedAt(f, st, b)
  }

  lemma {:induction false} LiveIsMarked(f: Func, universe: set<Ref>, st: seq<BlockLive>, v: Ref, p: seq<nat>)
    requires WellFormed(f) && Solution(f, universe, st) && LivePath(f, v, universe, p)
    ensures p[0] < |st| && v in st[p[0]].live_in
    decreases |p|
  {
    var b := p[0];
    assert FixedAt(f, st, b);
    if |p| > 1 {
      assert Edge(f.succ, p[1 - 1], p[1]);
      PathSuffix(f.succ, p, 1);
      assert forall k :: 0 <= k < |p| - 2 ==> p[1..][k] == p[k + 1];
      LiveIsMarked(f, universe, st, v, p[1..]);
      UnionInContents(st, f.succ[b], v);
      assert v in st[b].live_out && v !in st[b].def_;
    }
  }

  /** Every solution contains everything that is live: path liveness is the least solution. */
  lemma SolutionsContainLive(f: Func, universe: set<Ref>, st: seq<BlockLive>, b: nat, v: Ref)
    requires WellFormed(f) && Solution(f, universe, st) && b < |st|
    ensures LiveIn(f, v, universe, b) ==> v in st[b].live_in
    ensures LiveOut(f, v, universe, b) ==> v in st[b].live_out
  {
    if LiveIn(f, v, universe, b) {
      var p :| LivePath(f, v, universe, p) && p[0] == b;
      LiveIsMarked(f, universe, st, v, p);
    }
    if LiveOut(f, v, universe, b) {
      var s: nat :| Edge(f.succ, b, s) && LiveIn(f, v, universe, s);
      var p :| LivePath(f, v, universe, p) && p[0] == s;
      LiveIsMarked(f, universe, st, v, p);
      assert FixedAt(f, st, b);
      UnionInContents(st, f.succ[b], v);
    }
  }

  lemma FixedPointIsExact(f: Func, universe: set<Ref>, st: seq<BlockLive>)
    requires Iterating(f, universe, st) && forall b: nat :: FixedAt(f, st, b)
    ensures LivenessExact(f, universe, st)
  {
    forall b: nat, v: Ref | b < |st|
      ensures v in st[b].live_in <==> LiveIn(f, v, universe, b)
      ensures v in st[b].live_out <==> LiveOut(f, v, universe, b)
    {
      SolutionsContainLive(f, universe, st, b, v);
    }
  }

  // ----- The loops -----

  /** What is not marked yet; it only shrinks. */
  ghost function Unmarked(universe: set<Ref>, st: seq<BlockLive>): set<(nat, bool, Ref)> {
    (set b: nat, v | b < |st| && v in universe && v !in st[b].live_in :: (b, true, v))
    + (set b: nat, v | b < |st| && v in universe && v !in st[b].live_out :: (b, false, v))
  }

  lemma LiveValuesInUniverse(f: Func, universe: set<Ref>, b: nat, v: Ref)
    ensures LiveIn(f, v, universe, b) || LiveOut(f, v, universe, b) ==> v in universe
  {
  }

  /** A recomputation that changes something marks something new. */
  lemma UnmarkedShrinks(f: Func, universe: set<Ref>, st: seq<BlockLive>, b: nat)
    requires Iterating(f, universe, st) && b < |st|
    ensures Unmarked(universe, st[b := Recomputed(f, st, b)]) <= Unmarked(universe, st)
    ensures Recomputed(f, st, b) != st[b] ==> Unmarked(universe, st[b := Recomputed(f, st, b)]) < Unmarked(universe, st)
  {
    var r := Recomputed(f, st, b);
    var st' := st[b := r];
    assert GrowingAt(f, st, b);
    if r != st[b] {
      var v, isIn := SomethingNew(st[b], r);
      RecomputedIsLive(f, universe, st, b, v);
      LiveValuesInUniverse(f, universe, b, v);
      assert (b, isIn, v) in Unmarked(universe, st) && (b, isIn, v) !in Unmarked(universe, st');
    }
  }

  lemma SomethingNew(old_: BlockLive, new_: BlockLive) returns (v: Ref, isIn: bool)
    requires old_.live_in <= new_.live_in && old_.live_out <= new_.live_out && old_ != new_
    requires old_.use_ == new_.use_ && old_.def_ == new_.def_
    ensures if isIn then v in new_.live_in && v !in old_.live_in else v in new_.live_out && v !in old_.live_out
  {
    if old_.live_in != new_.live_in {
      isIn := true;
      v :| v in new_.live_in && v !in old_.live_in;
    } else {
      isIn := false;
      v :| v in new_.live_out && v !in old_.live_out;
    }
  }

  method UnionOfSuccessors(st: seq<BlockLive>, succs: seq<nat>) returns (newOut: set<Ref>)
    requires forall s :: s in succs ==> s < |st|
    ensures newOut == UnionIn(st, succs)
  {
    newOut := {};
    for k := 0 to |succs|
      invariant newOut == UnionIn(st, succs[..k])
    {
      assert succs[..k + 1][..k] == succs[..k] && succs[k] in succs;
      newOut := newOut + st[succs[k]].live_in;
    }
    assert succs[..|succs|] == succs;
  }

  method UpdateBlock(f: Func, universe: set<Ref>, st: seq<BlockLive>, b: nat)
    returns (st': seq<BlockLive>, changed: bool)
    requires Iterating(f, universe, st) && b < |st|
    ensures Iterating(f, universe, st')
    ensures if changed then Unmarked(universe, st') < Unmarked(universe, st) else st' == st && FixedAt(f, st, b)
  {
    assert forall s :: s in f.succ[b] ==> Edge(f.succ, b, s);
    var newOut := UnionOfSuccessors(st, f.succ[b]);
    var newIn := st[b].use_ + (newOut - st[b].def_);
    UpdateKeepsIterating(f, universe, st, b);
    UnmarkedShrinks(f, universe, st, b);
    changed := newIn != st[b].live_in || newOut != st[b].live_out;
    st' := st;
    if changed {
      st' := st[b := st[b].(live_in := newIn, live_out := newOut)];
    }
  }

  /** One pass over the blocks, last to first. */
  method Sweep(f: Func, universe: set<Ref>, st: seq<BlockLive>) returns (st': seq<BlockLive>, changed: bool)
    requires Iterating(f, universe, st)
    ensures Iterating(f, universe, st')
    ensures if changed then Unmarked(universe, st') < Unmarked(universe, st)
            else st' == st && forall b: nat :: FixedAt(f, st, b)
  {
    st', changed := st, false;
    for b := |f.layout| downto 0
      invariant Iterating(f, universe, st')
      invariant if changed then Unmarked(universe, st') < Unmarked(universe, st)
                else st' == st && forall c: nat :: b <= c ==> FixedAt(f, st, c)
    {
      var updated: bool;
      st', updated := UpdateBlock(f, universe, st', b);
      changed := changed || updated;
    }
  }

  method LocalPass(f: Func, universe: set<Ref>) returns (st: seq<BlockLive>)
    requires WellFormed(f)
    ensures LocalSets(f, universe, st)
    ensures forall b :: 0 <= b < |st| ==> st[b].live_in == {} && st[b].live_out == {}
  {
    st := [];
    for b := 0 to |f.layout|
      invariant |st| == b
      invariant forall c :: 0 <= c < b ==> st[c].live_in == {} && st[c].live_out == {}
      invariant forall c: nat, v: Ref :: c < b ==>
                  && (v in st[c].use_ <==> UpwardExposed(f, v, f.layout[c], universe))
                  && (v in st[c].def_ <==> DefinedIn(v, f.layout[c], universe))
    {
      assert forall i :: i in f.layout[b] ==> In(f, b, i);
      var use_, def_ := BlockUseDef(f, f.layout[b], universe);
      st := st + [BlockLive({}, {}, use_, def_)];
    }
  }

  /** The values that get a bit: the arguments, and what the placed instructions compute unless it is void. */
  ghost predicate Tracked(f: Func, argCount: nat, v: Ref) {
    match v
    case Arg(n) => n < argCount
    case Inst(i) => i < |f.info| && !f.info[i].isVoid && exists b: nat :: In(f, b, i)
    case Const(_) => false
  }

  /** Arguments and non-void instructions, in the order of the function. */
  function Universe(f: Func, argCount: nat): (r: set<Ref>)
    ensures forall v :: v in r <==> Tracked(f, argCount, v)
  {
    assert forall b: nat, i: nat :: In(f, b, i) ==> exists k: nat :: k < |f.layout[b]| && f.layout[b][k] == i;
    assert forall b: nat, k: nat :: b < |f.layout| && k < |f.layout[b]| ==> In(f, b, f.layout[b][k]);
    (set a: nat | a < argCount :: Arg(a)) + (set b: nat, k: nat | b < |f.layout| && k < |f.layout[b]|
      && f.layout[b][k] < |f.info| && !f.info[f.layout[b][k]].isVoid :: Inst(f.layout[b][k]))
  }

  /** computeLiveness: the result is exactly path liveness, and it solves the data-flow equations. */
  method ComputeLiveness(f: Func, universe: set<Ref>) returns (st: seq<BlockLive>)
    requires WellFormed(f)
    ensures LivenessExact(f, universe, st) && Solution(f, universe, st)
  {
    st := LocalPass(f, universe);
    forall b: nat
      ensures GrowingAt(f, st, b)
    {
    }
    var changed := true;
    while changed
      invariant Iterating(f, universe, st)
      invariant !changed ==> forall b: nat :: FixedAt(f, st, b)
      decreases Unmarked(universe, st), changed
    {
      st, changed := Sweep(f, universe, st);
    }
    FixedPointIsExact(f, universe, st);
  }
}
