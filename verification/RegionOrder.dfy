/** What reordering a block within its regions does, said without the algorithm (include/scheduleLegality.hpp): every
    region the schedule covers is sorted by the schedule, every other one and everything fixed is left alone.
 */
module RegionOrder {
  import opened Graphs
  import opened Ir
  import opened Lists
  import opened RegionSwap
  import opened Regions

  /** x comes up in the schedule before y does for the first time. */
  ghost predicate Before(schedule: seq<nat>, x: nat, y: nat) {
    y in schedule && exists m :: 0 <= m < |schedule| && schedule[m] == x && y !in schedule[..m + 1]
  }

  ghost predicate InScheduleOrder(schedule: seq<nat>, xs: seq<nat>) {
    forall p, q :: 0 <= p < q < |xs| ==> Before(schedule, xs[p], xs[q])
  }

  /** From lo on, up to hi, there are only movable instructions, and something fixed or nothing before them. */
  ghost predicate MovableRun(info: seq<Instr>, code: seq<nat>, lo: nat, hi: nat) {
    && lo <= hi <= |code|
    && (lo > 0 ==> IsFixed(info, code[lo - 1]))
    && forall k :: lo <= k < hi ==> !IsFixed(info, code[k])
  }

  /** A whole region: a movable run closed by something fixed. */
  ghost predicate IsRegion(info: seq<Instr>, code: seq<nat>, lo: nat, hi: nat) {
    MovableRun(info, code, lo, hi) && hi < |code| && IsFixed(info, code[hi])
  }

  /** ys is xs sorted by the schedule, if the schedule has all of it, and xs itself if not. */
  ghost predicate SortedIfCovered(schedule: seq<nat>, xs: seq<nat>, ys: seq<nat>) {
    if forall x :: x in xs ==> x in schedule then Permutes(xs, ys) && InScheduleOrder(schedule, ys) else ys == xs
  }

  ghost predicate RegionsSorted(info: seq<Instr>, schedule: seq<nat>, code: seq<nat>, code': seq<nat>)
    requires |code'| == |code|
  {
    forall lo: nat, hi: nat :: IsRegion(info, code, lo, hi) ==> SortedIfCovered(schedule, code[lo..hi], code'[lo..hi])
  }

  ghost predicate TailUntouched(info: seq<Instr>, code: seq<nat>, code': seq<nat>)
    requires |code'| == |code|
  {
    forall lo: nat :: MovableRun(info, code, lo, |code|) ==> code'[lo..] == code[lo..]
  }

  /** code' is code with its covered regions sorted by the schedule, and nothing else changed. */
  ghost predicate IsReordering(info: seq<Instr>, schedule: seq<nat>, code: seq<nat>, code': seq<nat>) {
    && AnchorsFixed(info, code, code')
    && RegionsSorted(info, schedule, code, code')
    && TailUntouched(info, code, code')
  }

  // ----- The reordering is one -----

  lemma {:induction false} PickSorted(schedule: seq<nat>, region: seq<nat>, n: nat)
    requires n <= |schedule|
    ensures InScheduleOrder(schedule, Pick(schedule[..n], region))
  {
    if n > 0 {
      PickSorted(schedule, region, n - 1);
      assert schedule[..n][..n - 1] == schedule[..n - 1];
      var rest, i := Pick(schedule[..n - 1], region), schedule[n - 1];
      PickContents(schedule[..n - 1], region);
      if i in region && i !in rest {
        forall p | 0 <= p < |rest|
          ensures Before(schedule, rest[p], i)
        {
          assert rest[p] in rest;
          var m :| 0 <= m < n - 1 && schedule[..n - 1][m] == rest[p];
          assert i !in schedule[..n - 1];
          assert schedule[..m + 1] <= schedule[..n - 1];
        }
      }
    }
  }

  lemma ArrangedIsSorted(schedule: seq<nat>, region: seq<nat>)
    requires NoDup(region)
    ensures SortedIfCovered(schedule, region, Arranged(schedule, region))
  {
    var ordered := Pick(schedule, region);
    PickContents(schedule, region);
    PickSorted(schedule, region, |schedule|);
    assert schedule[..|schedule|] == schedule;
    if forall x :: x in region ==> x in schedule {
      if |ordered| >= |region| {
        SameElements(ordered, region);
      } else {
        SameElements(region, ordered);
      }
    } else if |ordered| == |region| {
      SameElements(ordered, region);
    }
  }

  /** A region or tail of a block is its first run, or lies after the first fixed instruction. */
  lemma RunIsFirstOrLater(info: seq<Instr>, code: seq<nat>, n: nat, lo: nat, hi: nat)
    requires n < |code| && IsFixed(info, code[n]) && (forall k :: 0 <= k < n ==> !IsFixed(info, code[k]))
    requires MovableRun(info, code, lo, hi)
    ensures lo == 0 || lo > n
    ensures lo == 0 ==> hi <= n
    ensures lo > n ==> MovableRun(info, code[n + 1..], lo - n - 1, hi - n - 1)
  {
  }

  lemma ReorderedIsReordering(info: seq<Instr>, schedule: seq<nat>, code: seq<nat>)
    requires NoDup(code)
    ensures IsReordering(info, schedule, code, Reordered(info, schedule, code))
  {
    ReorderedFixesAnchors(info, schedule, code);
    ReorderedSortsRegions(info, schedule, code);
  }

  lemma {:induction false} ReorderedSortsRegions(info: seq<Instr>, schedule: seq<nat>, code: seq<nat>)
    requires NoDup(code)
    ensures |Reordered(info, schedule, code)| == |code|
    ensures RegionsSorted(info, schedule, code, Reordered(info, schedule, code))
    ensures TailUntouched(info, code, Reordered(info, schedule, code))
    decreases |code|
  {
    var n := PureRun(info, code);
    if n < |code| {
      var region, anchor, rest := code[..n], code[n], code[n + 1..];
      assert code == region + [anchor] + rest;
      ReorderedFixesAnchors(info, schedule, rest);
      ReorderedSortsRegions(info, schedule, rest);
      ArrangedIsSorted(schedule, region);
      ArrangedPermutes(schedule, region);
      AfterFirstRegion(info, schedule, region, anchor, rest, Arranged(schedule, region),
                       Reordered(info, schedule, rest));
    }
  }

  /** A block begins with the movable run `region`, closed by something fixed. */
  ghost predicate BeginsWith(info: seq<Instr>, region: seq<nat>, anchor: nat) {
    IsFixed(info, anchor) && forall k :: 0 <= k < |region| ==> !IsFixed(info, region[k])
  }

  lemma RegionAfterFirst(info: seq<Instr>, schedule: seq<nat>, region: seq<nat>, anchor: nat, rest: seq<nat>,
                         region': seq<nat>, rest': seq<nat>, lo: nat, hi: nat)
    requires BeginsWith(info, region, anchor) && |region'| == |region| && |rest'| == |rest|
    requires SortedIfCovered(schedule, region, region') && RegionsSorted(info, schedule, rest, rest')
    requires IsRegion(info, region + [anchor] + rest, lo, hi)
    ensures SortedIfCovered(schedule, (region + [anchor] + rest)[lo..hi], (region' + [anchor] + rest')[lo..hi])
  {
    var code, n := region + [anchor] + rest, |region|;
    assert code[n] == anchor && code[n + 1..] == rest && forall k :: 0 <= k < n ==> code[k] == region[k];
    RunIsFirstOrLater(info, code, n, lo, hi);
    if lo == 0 {
      assert hi == n && code[0..n] == region && (region' + [anchor] + rest')[0..n] == region';
    } else {
      assert IsRegion(info, rest, lo - n - 1, hi - n - 1);
      SliceAfter(region, anchor, rest, lo, hi);
      SliceAfter(region', anchor, rest', lo, hi);
    }
  }

  lemma TailAfterFirst(info: seq<Instr>, region: seq<nat>, anchor: nat, rest: seq<nat>, region': seq<nat>,
                       rest': seq<nat>, lo: nat)
    requires BeginsWith(info, region, anchor) && |region'| == |region| && |rest'| == |rest|
    requires TailUntouched(info, rest, rest')
    requires var code := region + [anchor] + rest; MovableRun(info, code, lo, |code|)
    ensures (region' + [anchor] + rest')[lo..] == (region + [anchor] + rest)[lo..]
  {
    var code, n := region + [anchor] + rest, |region|;
    assert code[n] == anchor && code[n + 1..] == rest && forall k :: 0 <= k < n ==> code[k] == region[k];
    RunIsFirstOrLater(info, code, n, lo, |code|);
    SliceAfter(region, anchor, rest, lo, |code|);
    SliceAfter(region', anchor, rest', lo, |code|);
    assert rest'[lo - n - 1..] == rest[lo - n - 1..];
  }

  lemma AfterFirstRegion(info: seq<Instr>, schedule: seq<nat>, region: seq<nat>, anchor: nat, rest: seq<nat>,
                         region': seq<nat>, rest': seq<nat>)
    requires BeginsWith(info, region, anchor) && |region'| == |region| && |rest'| == |rest|
    requires SortedIfCovered(schedule, region, region') && RegionsSorted(info, schedule, rest, rest')
    requires TailUntouched(info, rest, rest')
    ensures RegionsSorted(info, schedule, region + [anchor] + rest, region' + [anchor] + rest')
    ensures TailUntouched(info, region + [anchor] + rest, region' + [anchor] + rest')
  {
    forall lo: nat, hi: nat | IsRegion(info, region + [anchor] + rest, lo, hi) {
      RegionAfterFirst(info, schedule, region, anchor, rest, region', rest', lo, hi);
    }
    forall lo: nat | MovableRun(info, region + [anchor] + rest, lo, |region| + 1 + |rest|) {
      TailAfterFirst(info, region, anchor, rest, region', rest', lo);
    }
  }

  lemma SliceAfter(a: seq<nat>, x: nat, b: seq<nat>, lo: nat, hi: nat)
    requires |a| < lo <= hi <= |a| + 1 + |b|
    ensures (a + [x] + b)[lo..hi] == b[lo - |a| - 1..hi - |a| - 1]
  {
  }

  // ----- And the only one -----

  lemma NotBothWays(schedule: seq<nat>, x: nat, y: nat)
    requires Before(schedule, x, y)
    ensures x != y && !Before(schedule, y, x)
  {
    var m :| 0 <= m < |schedule| && schedule[m] == x && y !in schedule[..m + 1];
    assert x in schedule[..m + 1];
  }

  lemma {:induction false} OneOrder(schedule: seq<nat>, xs: seq<nat>, ys: seq<nat>)
    requires Permutes(xs, ys)
    requires InScheduleOrder(schedule, xs) && InScheduleOrder(schedule, ys)
    ensures xs == ys
  {
    if xs != [] {
      assert xs[0] in ys;
      var j :| 0 <= j < |ys| && ys[j] == xs[0];
      assert ys[0] in xs;
      var i :| 0 <= i < |xs| && xs[i] == ys[0];
      if i > 0 && j > 0 {
        NotBothWays(schedule, xs[0], xs[i]);
      }
      forall x: nat
        ensures x in xs[1..] <==> x in ys[1..]
      {
        assert x in xs <==> x == xs[0] || x in xs[1..];
        assert x in ys <==> x == ys[0] || x in ys[1..];
      }
      OneOrder(schedule, xs[1..], ys[1..]);
      assert xs == [xs[0]] + xs[1..] && ys == [ys[0]] + ys[1..];
    }
  }

  /** The movable run around position k. */
  lemma RunAround(info: seq<Instr>, code: seq<nat>, k: nat) returns (lo: nat, hi: nat)
    requires k < |code| && !IsFixed(info, code[k])
    ensures lo <= k < hi && MovableRun(info, code, lo, hi)
    ensures hi == |code| || IsRegion(info, code, lo, hi)
  {
    lo := k;
    while lo > 0 && !IsFixed(info, code[lo - 1])
      invariant lo <= k && forall j :: lo <= j <= k ==> !IsFixed(info, code[j])
    {
      lo := lo - 1;
    }
    hi := k + 1;
    while hi < |code| && !IsFixed(info, code[hi])
      invariant k < hi <= |code| && forall j :: lo <= j < hi ==> !IsFixed(info, code[j])
    {
      hi := hi + 1;
    }
  }

  /** The description leaves no choice: any two reorderings of a block under a schedule are the same. */
  lemma ReorderingIsUnique(info: seq<Instr>, schedule: seq<nat>, code: seq<nat>, a: seq<nat>, b: seq<nat>)
    requires IsReordering(info, schedule, code, a) && IsReordering(info, schedule, code, b)
    ensures a == b
  {
    forall k | 0 <= k < |code|
      ensures a[k] == b[k]
    {
      if !IsFixed(info, code[k]) {
        var lo, hi := RunAround(info, code, k);
        if hi == |code| {
          assert a[lo..][k - lo] == b[lo..][k - lo];
        } else {
          SameSorted(schedule, code[lo..hi], a[lo..hi], b[lo..hi]);
          assert a[lo..hi][k - lo] == b[lo..hi][k - lo];
        }
      }
    }
  }

  lemma SameSorted(schedule: seq<nat>, xs: seq<nat>, ys: seq<nat>, zs: seq<nat>)
    requires SortedIfCovered(schedule, xs, ys) && SortedIfCovered(schedule, xs, zs)
    ensures ys == zs
  {
    if forall x :: x in xs ==> x in schedule {
      OneOrder(schedule, ys, zs);
    }
  }

  /** The reordering of a block is exactly what the description says. */
  lemma ReorderedExactly(info: seq<Instr>, schedule: seq<nat>, code: seq<nat>, code': seq<nat>)
    requires NoDup(code)
    ensures code' == Reordered(info, schedule, code) <==> IsReordering(info, schedule, code, code')
  {
    ReorderedIsReordering(info, schedule, code);
    if IsReordering(info, schedule, code, code') {
      ReorderingIsUnique(info, schedule, code, code', Reordered(info, schedule, code));
    }
  }

  /** Movable instructions with nothing fixed between them, of a region the schedule covers, stand in schedule order. */
  lemma NeighboursInOrder(info: seq<Instr>, schedule: seq<nat>, code: seq<nat>, code': seq<nat>, p: nat, q: nat, r: nat)
    requires IsReordering(info, schedule, code, code')
    requires p < q < r < |code'| && IsFixed(info, code'[r]) && forall k :: p <= k <= q ==> !IsFixed(info, code'[k])
    requires forall x :: x in code && !IsFixed(info, x) ==> x in schedule
    ensures Before(schedule, code'[p], code'[q])
  {
    SameKinds(info, code, code');
    var lo, hi := RunAround(info, code, p);
    assert q < hi <= r;
    SortedRegion(info, schedule, code, code', lo, hi);
    assert code'[lo..hi][p - lo] == code'[p] && code'[lo..hi][q - lo] == code'[q];
  }

  lemma SameKinds(info: seq<Instr>, code: seq<nat>, code': seq<nat>)
    requires AnchorsFixed(info, code, code')
    ensures forall k :: 0 <= k < |code| ==> (IsFixed(info, code[k]) <==> IsFixed(info, code'[k]))
  {
  }

  lemma SortedRegion(info: seq<Instr>, schedule: seq<nat>, code: seq<nat>, code': seq<nat>, lo: nat, hi: nat)
    requires IsReordering(info, schedule, code, code') && IsRegion(info, code, lo, hi)
    requires forall x :: x in code && !IsFixed(info, x) ==> x in schedule
    ensures InScheduleOrder(schedule, code'[lo..hi])
  {
    forall x | x in code[lo..hi]
      ensures x in schedule
    {
      var k :| lo <= k < hi && code[k] == x;
    }
    assert SortedIfCovered(schedule, code[lo..hi], code'[lo..hi]);
  }
}
