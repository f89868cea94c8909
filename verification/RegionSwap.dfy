/** The elementary in-block move: the pure instructions between two anchors are put in another order that
    still defines every value before it is used. It keeps SSA validity and every run, state for state.
 */
module RegionSwap {
  import opened Graphs
  import opened Ir
  import opened Semantics
  import opened SsaEquations

  /** Within xs, every operand that is itself in xs comes first. */
  ghost predicate OrderedIn(f: Func, xs: seq<nat>) {
    forall j: nat, d: nat :: j < |xs| && d in xs && Uses(f, xs[j], d) ==> d in xs[..j]
  }

  ghost predicate AllPure(info: seq<Instr>, xs: seq<nat>) {
    forall x :: x in xs ==> IsPure(info, x)
  }

  ghost predicate Permutes(xs: seq<nat>, ys: seq<nat>) {
    NoDup(xs) && NoDup(ys) && |xs| == |ys| && forall x :: x in xs <==> x in ys
  }

  // ----- Straight-line pure code computes the solution of its equations -----

  /** e is env extended by a value for every x in xs that solves x's equation. */
  ghost predicate Solves(f: Func, w: World, xs: seq<nat>, env: Env, e: Env) {
    && (forall x: nat :: x in xs && x < |f.info| ==> x in e && Eval(f, w, x, e) == Some(e[x]))
    && (forall d: nat :: d !in xs ==> (d in e <==> d in env) && (d in e ==> e[d] == env[d]))
  }

  lemma LastIsUnused(f: Func, xs: seq<nat>, j: nat)
    requires NoDup(xs) && OrderedIn(f, xs) && j < |xs|
    ensures !Uses(f, xs[j], xs[|xs| - 1])
  {
    assert xs[|xs| - 1] in xs;
  }

  lemma {:induction false} PureCodeSolves(f: Func, w: World, from: Entry, s: State, xs: seq<nat>)
    requires s.Running? && NoDup(xs) && AllPure(f.info, xs) && OrderedIn(f, xs)
    ensures var t := Exec(f, w, from, s, xs);
      && !t.Jumped? && t.mem == s.mem && t.events == s.events
      && (t.Running? ==> Solves(f, w, xs, s.env, t.env))
  {
    if xs != [] {
      var n := |xs| - 1;
      var x := xs[n];
      forall j: nat, d: nat | j < n && d in xs[..n] && Uses(f, xs[..n][j], d)
        ensures d in xs[..n][..j]
      {
        assert d in xs && Uses(f, xs[j], d);
        assert d in xs[..j];
        assert xs[..n][..j] == xs[..j];
      }
      PureCodeSolves(f, w, from, s, xs[..n]);
      var t := Exec(f, w, from, s, xs[..n]);
      assert IsPure(f.info, x);
      if t.Running? && Eval(f, w, x, t.env).Some? {
        var v := Eval(f, w, x, t.env).value;
        forall y: nat | y in xs && y < |f.info|
          ensures y in t.env[x := v] && Eval(f, w, y, t.env[x := v]) == Some(t.env[x := v][y])
        {
          var j :| 0 <= j < |xs| && xs[j] == y;
          LastIsUnused(f, xs, j);
          WriteElsewhere(f, w, y, t.env, x, v);
          if y != x {
            assert y in xs[..n];
          }
        }
      }
    }
  }

  /** `now` is `before` with the values of e for the instructions in `done`. */
  ghost predicate Between(done: seq<nat>, before: Env, e: Env, now: Env) {
    forall d: nat :: (d in now <==> if d in done then d in e else d in before)
      && (d in now ==> now[d] == if d in done then e[d] else before[d])
  }

  lemma BetweenGrows(done: seq<nat>, before: Env, e: Env, now: Env, y: nat)
    requires Between(done, before, e, now) && y in e
    ensures Between(done + [y], before, e, now[y := e[y]])
  {
    forall d: nat
      ensures d in done + [y] <==> d in done || d == y
    {
    }
  }

  /** What the next instruction reads is already as it will be. */
  lemma NextReadsFinal(f: Func, w: World, ys: seq<nat>, j: nat, before: Env, e: Env, now: Env)
    requires j < |ys| && ys[j] < |f.info| && OrderedIn(f, ys) && Solves(f, w, ys, before, e)
    requires Between(ys[..j], before, e, now)
    ensures Eval(f, w, ys[j], now) == Eval(f, w, ys[j], e)
  {
    var y := ys[j];
    forall r | r in f.info[y].operands
      ensures Read(w, now, r) == Read(w, e, r)
    {
      if r.Inst? && r.id in ys {
        assert Uses(f, ys[j], r.id);
        assert r.id in ys[..j];
      }
    }
    ReadAllAgree(w, now, e, f.info[y].operands);
  }

  /** t is s with the values of e for the instructions in `done`. */
  ghost predicate PartlyDone(done: seq<nat>, s: State, e: Env, t: State) {
    s.Running? && t.Running? && t.mem == s.mem && t.events == s.events && Between(done, s.env, e, t.env)
  }

  lemma NextFollows(f: Func, w: World, from: Entry, s: State, ys: seq<nat>, j: nat, e: Env, t: State)
    requires s.Running? && AllPure(f.info, ys) && OrderedIn(f, ys) && j < |ys| && Solves(f, w, ys, s.env, e)
    requires PartlyDone(ys[..j], s, e, t)
    ensures PartlyDone(ys[..j + 1], s, e, Step(f, w, from, t, ys[j]))
  {
    var y := ys[j];
    assert y in ys && IsPure(f.info, y);
    NextReadsFinal(f, w, ys, j, s.env, e, t.env);
    BetweenGrows(ys[..j], s.env, e, t.env, y);
    assert ys[..j + 1] == ys[..j] + [y];
  }

  /** Any other well-ordered arrangement reaches the same solution without trapping. */
  lemma {:induction false} OtherOrderFollows(f: Func, w: World, from: Entry, s: State, ys: seq<nat>, j: nat, e: Env)
    requires s.Running? && AllPure(f.info, ys) && OrderedIn(f, ys) && j <= |ys| && Solves(f, w, ys, s.env, e)
    ensures PartlyDone(ys[..j], s, e, Exec(f, w, from, s, ys[..j]))
  {
    if j > 0 {
      OtherOrderFollows(f, w, from, s, ys, j - 1, e);
      ExecSnoc(f, w, from, s, ys, j - 1);
      NextFollows(f, w, from, s, ys, j - 1, e, Exec(f, w, from, s, ys[..j - 1]));
    }
  }

  lemma SameMap(a: Env, b: Env)
    requires forall d: nat :: (d in a <==> d in b) && (d in a ==> a[d] == b[d])
    ensures a == b
  {
  }

  lemma OneOrderDetermines(f: Func, w: World, from: Entry, s: State, xs: seq<nat>, ys: seq<nat>)
    requires s.Running? && Permutes(xs, ys) && AllPure(f.info, xs) && OrderedIn(f, xs) && OrderedIn(f, ys)
    requires Exec(f, w, from, s, xs).Running?
    ensures Exec(f, w, from, s, ys) == Exec(f, w, from, s, xs)
  {
    PureCodeSolves(f, w, from, s, xs);
    var e := Exec(f, w, from, s, xs).env;
    OtherOrderFollows(f, w, from, s, ys, |ys|, e);
    assert ys[..|ys|] == ys;
    SameMap(Exec(f, w, from, s, ys).env, e);
  }

  /** Two well-ordered arrangements of the same pure code: same traps, same state. */
  lemma SameRegion(f: Func, w: World, from: Entry, s: State, xs: seq<nat>, ys: seq<nat>)
    requires Permutes(xs, ys) && AllPure(f.info, xs) && OrderedIn(f, xs) && OrderedIn(f, ys)
    ensures Exec(f, w, from, s, ys) == Exec(f, w, from, s, xs)
  {
    if !s.Running? {
      ExecStays(f, w, from, s, xs);
      ExecStays(f, w, from, s, ys);
    } else if Exec(f, w, from, s, xs).Running? {
      OneOrderDetermines(f, w, from, s, xs, ys);
    } else if Exec(f, w, from, s, ys).Running? {
      OneOrderDetermines(f, w, from, s, ys, xs);
    } else {
      PureCodeSolves(f, w, from, s, xs);
      PureCodeSolves(f, w, from, s, ys);
    }
  }

  // ----- The swap inside a block -----

  /** Block b of f is pre + xs + post, and ys arranges the pure region xs another way. */
  ghost predicate CanSwap(f: Func, b: nat, pre: seq<nat>, xs: seq<nat>, ys: seq<nat>, post: seq<nat>) {
    && b < |f.layout|
    && f.layout[b] == pre + xs + post
    && Permutes(xs, ys)
    && AllPure(f.info, xs)
    && OrderedIn(f, ys)
  }

  function Swapped(f: Func, b: nat, pre: seq<nat>, ys: seq<nat>, post: seq<nat>): Func
    requires b < |f.layout|
  {
    f.(layout := f.layout[b := pre + ys + post])
  }

  /** In a reachable block of a valid function every region is already well ordered. */
  lemma RegionIsOrdered(f: Func, b: nat, pre: seq<nat>, xs: seq<nat>, post: seq<nat>)
    requires Valid(f) && b < |f.layout| && Reachable(f.succ, b)
    requires f.layout[b] == pre + xs + post && AllPure(f.info, xs)
    ensures OrderedIn(f, xs)
  {
    forall j: nat, d: nat | j < |xs| && d in xs && Uses(f, xs[j], d)
      ensures d in xs[..j]
    {
      var k := |pre| + j;
      assert f.layout[b][k] == xs[j] && xs[j] in xs;
      assert ValidAt(f, b, k);
      assert Available(f, d, b, k);
      var m :| 0 <= m < |xs| && xs[m] == d;
      assert f.layout[b][|pre| + m] == d;
      assert In(f, b, d);
      assert d in f.layout[b][..k];
      var o :| 0 <= o < k && f.layout[b][o] == d;
      assert o == |pre| + m;
      assert xs[..j][m] == d;
    }
  }

  lemma SwapPlaces(f: Func, b: nat, pre: seq<nat>, xs: seq<nat>, ys: seq<nat>, post: seq<nat>, a: nat, d: nat)
    requires CanSwap(f, b, pre, xs, ys, post)
    ensures In(Swapped(f, b, pre, ys, post), a, d) <==> In(f, a, d)
  {
  }

  lemma SwapNoDup(pre: seq<nat>, xs: seq<nat>, ys: seq<nat>, post: seq<nat>)
    requires NoDup(pre + xs + post) && Permutes(xs, ys)
    ensures NoDup(pre + ys + post)
  {
    var old_, new_ := pre + xs + post, pre + ys + post;
    forall i, j | 0 <= i < j < |new_|
      ensures new_[i] != new_[j]
    {
      var i' := SwapIndex(pre, xs, ys, post, i);
      var j' := SwapIndex(pre, xs, ys, post, j);
      assert |pre| <= i && j < |pre| + |ys| ==> ys[i - |pre|] != ys[j - |pre|];
    }
  }

  /** Where the instruction now at position i stood before: outside the region, where it stands now. */
  lemma SwapIndex(pre: seq<nat>, xs: seq<nat>, ys: seq<nat>, post: seq<nat>, i: nat) returns (o: nat)
    requires Permutes(xs, ys) && i < |pre + ys + post|
    ensures o < |pre + xs + post| && (pre + xs + post)[o] == (pre + ys + post)[i]
    ensures if |pre| <= i < |pre| + |ys| then |pre| <= o < |pre| + |xs| else o == i
  {
    if |pre| <= i < |pre| + |ys| {
      assert ys[i - |pre|] in xs;
      var m :| 0 <= m < |xs| && xs[m] == ys[i - |pre|];
      o := |pre| + m;
    } else {
      o := i;
    }
  }

  lemma SwapKeepsWellFormed(f: Func, b: nat, pre: seq<nat>, xs: seq<nat>, ys: seq<nat>, post: seq<nat>)
    requires WellFormed(f) && CanSwap(f, b, pre, xs, ys, post)
    ensures WellFormed(Swapped(f, b, pre, ys, post))
  {
    var g := Swapped(f, b, pre, ys, post);
    forall a: nat, d: nat
      ensures In(g, a, d) <==> In(f, a, d)
    {
      SwapPlaces(f, b, pre, xs, ys, post, a, d);
    }
    SwapNoDup(pre, xs, ys, post);
    var code := g.layout[b];
    assert TerminatorsLast(f, f.layout[b]);
    forall k | 0 <= k < |code| - 1 && code[k] < |f.info|
      ensures !f.info[code[k]].isTerminator
    {
      if |pre| <= k < |pre| + |ys| {
        assert ys[k - |pre|] in xs;
        assert IsPure(f.info, code[k]);
      } else {
        assert code[k] == f.layout[b][k];
      }
    }
  }

  /** What stood before an instruction and dominates it by standing there still does. */
  lemma SwapKeepsAvailable(f: Func, b: nat, pre: seq<nat>, xs: seq<nat>, ys: seq<nat>, post: seq<nat>,
                           d: nat, a: nat, o: nat, k: nat)
    requires CanSwap(f, b, pre, xs, ys, post)
    requires a < |f.layout| && o <= |f.layout[a]| && k <= |Swapped(f, b, pre, ys, post).layout[a]|
    requires d in f.layout[a][..o] ==> d in Swapped(f, b, pre, ys, post).layout[a][..k]
    requires Available(f, d, a, o)
    ensures Available(Swapped(f, b, pre, ys, post), d, a, k)
  {
  }

  /** Prefixes that end outside the region, or at its end, hold the same instructions. */
  lemma SwapPrefix(pre: seq<nat>, xs: seq<nat>, ys: seq<nat>, post: seq<nat>, k: nat, d: nat)
    requires Permutes(xs, ys) && k <= |pre + ys + post| && (k <= |pre| || k >= |pre| + |ys|)
    ensures d in (pre + xs + post)[..k] <==> d in (pre + ys + post)[..k]
  {
    if k <= |pre| {
      assert (pre + xs + post)[..k] == pre[..k] == (pre + ys + post)[..k];
    } else {
      var m := k - |pre| - |ys|;
      assert (pre + xs + post)[..k] == pre + xs + post[..m];
      assert (pre + ys + post)[..k] == pre + ys + post[..m];
    }
  }

  lemma SwapKeepsUses(f: Func, b: nat, pre: seq<nat>, xs: seq<nat>, ys: seq<nat>, post: seq<nat>, k: nat)
    requires Valid(f) && CanSwap(f, b, pre, xs, ys, post) && Reachable(f.succ, b)
    requires k < |Swapped(f, b, pre, ys, post).layout[b]|
    requires Swapped(f, b, pre, ys, post).layout[b][k] < |f.info|
    requires !f.info[Swapped(f, b, pre, ys, post).layout[b][k]].isPhi
    ensures UsesDominated(Swapped(f, b, pre, ys, post), b, k)
  {
    var g := Swapped(f, b, pre, ys, post);
    var i := g.layout[b][k];
    var o := SwapIndex(pre, xs, ys, post, k);
    assert ValidAt(f, b, o);
    forall d: nat | Uses(g, i, d)
      ensures Available(g, d, b, k)
    {
      assert Uses(f, i, d) && Available(f, d, b, o);
      if d in f.layout[b][..o] {
        if |pre| <= k < |pre| + |ys| {
          var j := k - |pre|;
          assert g.layout[b][..k] == pre + ys[..j];
          assert f.layout[b][..o] == pre + xs[..o - |pre|];
          if d !in pre {
            assert d in xs[..o - |pre|];
            assert d in ys && Uses(f, ys[j], d);
          }
        } else {
          SwapPrefix(pre, xs, ys, post, k, d);
        }
      }
      SwapKeepsAvailable(f, b, pre, xs, ys, post, d, b, o, k);
    }
  }

  lemma SwapKeepsPhis(f: Func, b: nat, pre: seq<nat>, xs: seq<nat>, ys: seq<nat>, post: seq<nat>, c: nat, i: nat)
    requires WellFormed(f) && CanSwap(f, b, pre, xs, ys, post) && i < |f.info|
    requires PhiUsesDominated(f, c, i)
    ensures PhiUsesDominated(Swapped(f, b, pre, ys, post), c, i)
  {
    var g := Swapped(f, b, pre, ys, post);
    forall a: nat | Edge(f.succ, a, c) && Reachable(f.succ, a) && a < |f.layout|
      ensures PhiOperand(f.info[i], a).Some?
      ensures PhiOperand(f.info[i], a).value.Inst? ==>
                Available(g, PhiOperand(f.info[i], a).value.id, a, |g.layout[a]|)
    {
      if PhiOperand(f.info[i], a).value.Inst? {
        var d := PhiOperand(f.info[i], a).value.id;
        assert g.layout[a][..|g.layout[a]|] == g.layout[a] && f.layout[a][..|f.layout[a]|] == f.layout[a];
        SwapPlaces(f, b, pre, xs, ys, post, a, d);
        assert In(f, a, d) <==> d in f.layout[a];
        SwapKeepsAvailable(f, b, pre, xs, ys, post, d, a, |f.layout[a]|, |g.layout[a]|);
      }
    }
  }

  lemma SwapKeepsValidAt(f: Func, b: nat, pre: seq<nat>, xs: seq<nat>, ys: seq<nat>, post: seq<nat>, a: nat, k: nat)
    requires Valid(f) && CanSwap(f, b, pre, xs, ys, post)
    ensures ValidAt(Swapped(f, b, pre, ys, post), a, k)
  {
    var g := Swapped(f, b, pre, ys, post);
    if a < |g.layout| && k < |g.layout[a]| && g.layout[a][k] < |g.info| && Reachable(g.succ, a) {
      if a == b {
        var o := SwapIndex(pre, xs, ys, post, k);
        assert ValidAt(f, b, o);
      } else {
        assert ValidAt(f, a, k);
      }
      if g.info[g.layout[a][k]].isPhi {
        SwapKeepsPhis(f, b, pre, xs, ys, post, a, g.layout[a][k]);
      } else if a == b {
        SwapKeepsUses(f, b, pre, xs, ys, post, k);
      } else {
        forall d: nat | Uses(g, g.layout[a][k], d)
          ensures Available(g, d, a, k)
        {
          assert Uses(f, f.layout[a][k], d);
          SwapKeepsAvailable(f, b, pre, xs, ys, post, d, a, k, k);
        }
      }
    }
  }

  /** SSA validity survives the reordering. */
  lemma SwapKeepsValid(f: Func, b: nat, pre: seq<nat>, xs: seq<nat>, ys: seq<nat>, post: seq<nat>)
    requires Valid(f) && CanSwap(f, b, pre, xs, ys, post)
    ensures Valid(Swapped(f, b, pre, ys, post))
  {
    SwapKeepsWellFormed(f, b, pre, xs, ys, post);
    forall a: nat, k: nat
      ensures ValidAt(Swapped(f, b, pre, ys, post), a, k)
    {
      SwapKeepsValidAt(f, b, pre, xs, ys, post, a, k);
    }
  }

  lemma {:induction false} ExecSameInfo(f: Func, g: Func, w: World, from: Entry, s: State, code: seq<nat>)
    requires f.info == g.info
    ensures Exec(f, w, from, s, code) == Exec(g, w, from, s, code)
  {
    if code != [] {
      ExecSameInfo(f, g, w, from, s, code[..|code| - 1]);
    }
  }

  /** Executing the reordered block from any state gives the same trap outcome, environment, memory and events. */
  lemma SwapKeepsBlock(f: Func, w: World, b: nat, pre: seq<nat>, xs: seq<nat>, ys: seq<nat>, post: seq<nat>,
                       from: Entry, s: State)
    requires Valid(f) && CanSwap(f, b, pre, xs, ys, post) && Reachable(f.succ, b)
    ensures Exec(f, w, from, s, pre + ys + post) == Exec(f, w, from, s, pre + xs + post)
  {
    RegionIsOrdered(f, b, pre, xs, post);
    ExecAppend(f, w, from, s, pre + xs, post);
    ExecAppend(f, w, from, s, pre + ys, post);
    ExecAppend(f, w, from, s, pre, xs);
    ExecAppend(f, w, from, s, pre, ys);
    SameRegion(f, w, from, Exec(f, w, from, s, pre), xs, ys);
  }

  lemma SwapKeepsBlockStep(f: Func, w: World, b: nat, pre: seq<nat>, xs: seq<nat>, ys: seq<nat>, post: seq<nat>,
                           c: Config)
    requires Valid(f) && CanSwap(f, b, pre, xs, ys, post)
    requires c.At? && c.block < |f.layout| && Reachable(f.succ, c.block)
    ensures BlockStep(Swapped(f, b, pre, ys, post), w, c) == BlockStep(f, w, c)
  {
    var g := Swapped(f, b, pre, ys, post);
    ExecSameInfo(f, g, w, c.from, Enter(f, w, c), g.layout[c.block]);
    if c.block == b {
      SwapKeepsBlock(f, w, b, pre, xs, ys, post, c.from, Enter(f, w, c));
    }
  }

  lemma {:induction false} SwapKeepsRun(f: Func, w: World, b: nat, pre: seq<nat>, xs: seq<nat>, ys: seq<nat>,
                                        post: seq<nat>, n: nat)
    requires Valid(f) && CanSwap(f, b, pre, xs, ys, post)
    ensures Run(Swapped(f, b, pre, ys, post), w, n) == Run(f, w, n)
  {
    if n > 0 {
      SwapKeepsRun(f, w, b, pre, xs, ys, post, n - 1);
      RunReachable(f, w, n - 1);
      if Run(f, w, n - 1).At? {
        SwapKeepsBlockStep(f, w, b, pre, xs, ys, post, Run(f, w, n - 1));
      }
    }
  }

  lemma SwapKeepsRuns(f: Func, w: World, b: nat, pre: seq<nat>, xs: seq<nat>, ys: seq<nat>, post: seq<nat>)
    requires Valid(f) && CanSwap(f, b, pre, xs, ys, post)
    ensures SameStates(f, Swapped(f, b, pre, ys, post), w)
  {
    forall n: nat
      ensures Run(f, w, n) == Run(Swapped(f, b, pre, ys, post), w, n)
    {
      SwapKeepsRun(f, w, b, pre, xs, ys, post, n);
    }
  }
}
