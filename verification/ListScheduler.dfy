/** Greedy list scheduling by critical path with a pressure tie-break (include/listScheduler.hpp). */
module ListScheduler {
  import opened Graphs
  import opened Ir
  import opened Lists
  import opened Ddgs
  import opened CriticalPaths
  import opened Pressure

  // ----- Specification: what is emitted, and in which order -----

  /** PHIs and terminators are never put in the ready queue. */
  predicate NeverReady(f: Func, n: nat) {
    n >= |f.info| || f.info[n].isTerminator || f.info[n].isPhi
  }

  /** n is, or depends on, a PHI, a terminator or a cycle. */
  ghost predicate Blocked(f: Func, d: Deps, n: nat) {
    exists m: nat :: Reaches(d.succ, m, n) && (NeverReady(f, m) || OnCycle(d.succ, m))
  }

  ghost predicate Emitted(f: Func, d: Deps, n: nat) {
    n in d.nodes && !Blocked(f, d, n)
  }

  /** Every node comes after all its predecessors. */
  ghost predicate AfterPredecessors(d: Deps, schedule: seq<nat>) {
    forall k: nat, p: nat :: k < |schedule| && Edge(d.pred, schedule[k], p) ==> p in schedule[..k]
  }

  /** A complete list schedule: without repetition, in dependence order, and of exactly the right nodes. */
  ghost predicate IsListSchedule(f: Func, d: Deps, schedule: seq<nat>) {
    && NoDup(schedule)
    && AfterPredecessors(d, schedule)
    && forall n: nat :: n in schedule <==> Emitted(f, d, n)
  }

  function CpOf(cp: seq<nat>, n: nat): nat {
    if n < |cp| then cp[n] else 0
  }

  ghost predicate NonIncreasing(cp: seq<nat>, schedule: seq<nat>) {
    forall j, k :: 0 <= j < k < |schedule| ==> CpOf(cp, schedule[j]) >= CpOf(cp, schedule[k])
  }

  // ----- The ready queue -----

  /** How many predecessors are not scheduled yet. */
  function Unscheduled(preds: seq<nat>, schedule: seq<nat>): nat {
    if preds == [] then 0
    else Unscheduled(preds[..|preds| - 1], schedule) + (if preds[|preds| - 1] in schedule then 0 else 1)
  }

  lemma {:induction false} UnscheduledZero(preds: seq<nat>, schedule: seq<nat>)
    ensures Unscheduled(preds, schedule) == 0 <==> forall p :: p in preds ==> p in schedule
  {
    if preds != [] {
      UnscheduledZero(preds[..|preds| - 1], schedule);
      assert preds == preds[..|preds| - 1] + [preds[|preds| - 1]];
    }
  }

  lemma {:induction false} UnscheduledNone(preds: seq<nat>)
    ensures Unscheduled(preds, []) == |preds|
  {
    if preds != [] {
      UnscheduledNone(preds[..|preds| - 1]);
    }
  }

  /** Scheduling one more node lowers the count of exactly the nodes it precedes, by one. */
  lemma {:induction false} UnscheduledAfter(preds: seq<nat>, schedule: seq<nat>, best: nat)
    requires NoDup(preds) && best !in schedule
    ensures Unscheduled(preds, schedule + [best]) == Unscheduled(preds, schedule) - (if best in preds then 1 else 0)
  {
    if preds != [] {
      var n := |preds| - 1;
      UnscheduledAfter(preds[..n], schedule, best);
      assert preds == preds[..n] + [preds[n]];
    }
  }

  /** Ready: not scheduled, never blocked by kind, and all predecessors scheduled. */
  ghost predicate IsReady(f: Func, d: Deps, schedule: seq<nat>, n: nat) {
    && n in d.nodes && n < |d.pred| && n !in schedule && !NeverReady(f, n)
    && forall p :: p in d.pred[n] ==> p in schedule
  }

  ghost predicate QueueIsReady(f: Func, d: Deps, schedule: seq<nat>, ready: seq<nat>) {
    NoDup(ready) && forall n: nat :: n in ready <==> IsReady(f, d, schedule, n)
  }

  /** Of the first n nodes those that are ready before anything is scheduled. */
  ghost function StartingNodes(f: Func, d: Deps, n: nat): seq<nat>
    requires n <= |d.nodes|
  {
    if n == 0 then []
    else StartingNodes(f, d, n - 1) + if IsReady(f, d, [], d.nodes[n - 1]) then [d.nodes[n - 1]] else []
  }

  /** Of the first k successors of the node scheduled last those that have become ready. */
  ghost function Freed(f: Func, d: Deps, schedule: seq<nat>, succs: seq<nat>, k: nat): seq<nat>
    requires k <= |succs|
  {
    if k == 0 then []
    else Freed(f, d, schedule, succs, k - 1) + if IsReady(f, d, schedule, succs[k - 1]) then [succs[k - 1]] else []
  }

  /** The ready queue, first come first served: the starting nodes, and with every emission what it has freed. */
  ghost function Queue(f: Func, d: Deps, schedule: seq<nat>): seq<nat> {
    if schedule == [] then StartingNodes(f, d, |d.nodes|)
    else
      var n := |schedule| - 1;
      var rest := Without(Queue(f, d, schedule[..n]), schedule[n]);
      if schedule[n] < |d.succ| then rest + Freed(f, d, schedule, d.succ[schedule[n]], |d.succ[schedule[n]]|) else rest
  }

  ghost predicate CountsRight(d: Deps, schedule: seq<nat>, predCount: seq<int>) {
    && |predCount| == |d.pred|
    && forall n :: n in d.nodes ==> n < |d.pred| && predCount[n] == Unscheduled(d.pred[n], schedule)
  }

  /** What the main loop keeps: counts equal unscheduled predecessors, the queue is exactly the ready nodes. */
  ghost predicate Progressing(f: Func, d: Deps, schedule: seq<nat>, ready: seq<nat>, predCount: seq<int>) {
    && NoDup(schedule)
    && AfterPredecessors(d, schedule)
    && (forall n :: n in schedule ==> n in d.nodes && !NeverReady(f, n))
    && QueueIsReady(f, d, schedule, ready) && ready == Queue(f, d, schedule)
    && CountsRight(d, schedule, predCount)
  }

  // ----- When the queue is empty the schedule is complete -----

  /** Everything that reaches a scheduled node was scheduled, so nothing scheduled is blocked. */
  lemma {:induction false} AncestorsScheduled(f: Func, d: Deps, schedule: seq<nat>, p: seq<nat>, k: nat)
    requires DepsOk(d) && AfterPredecessors(d, schedule) && IsPath(d.succ, p)
    requires k < |schedule| && p[|p| - 1] == schedule[k]
    ensures p[0] in schedule[..k + 1] && (|p| > 1 ==> p[0] in schedule[..k])
    decreases |p|
  {
    if |p| > 1 {
      var m := |p| - 2;
      assert Edge(d.succ, p[|p| - 1 - 1], p[|p| - 1]);
      assert Edge(d.pred, schedule[k], p[m]);
      assert p[m] in schedule[..k];
      var j :| 0 <= j < k && schedule[j] == p[m];
      PathPrefix(d.succ, p, m);
      AncestorsScheduled(f, d, schedule, p[..m + 1], j);
      assert schedule[..j + 1] <= schedule[..k];
    }
  }

  lemma ScheduledNotBlocked(f: Func, d: Deps, schedule: seq<nat>, n: nat)
    requires DepsOk(d) && NoDup(schedule) && AfterPredecessors(d, schedule) && n in schedule
    requires forall m :: m in schedule ==> m in d.nodes && !NeverReady(f, m)
    ensures Emitted(f, d, n)
  {
    forall m: nat | Reaches(d.succ, m, n)
      ensures !NeverReady(f, m) && !OnCycle(d.succ, m)
    {
      var p :| PathTo(d.succ, p, m, n);
      var k :| 0 <= k < |schedule| && schedule[k] == n;
      AncestorsScheduled(f, d, schedule, p, k);
      assert m in schedule;
      var j :| 0 <= j < |schedule| && schedule[j] == m;
      forall c | |c| > 1 && PathTo(d.succ, c, m, m)
        ensures false
      {
        AncestorsScheduled(f, d, schedule, c, j);
      }
    }
  }

  /** With nothing ready, an unscheduled node that is not blocked has arbitrarily long paths of such nodes into it. */
  lemma {:induction false} LongBackwardPath(f: Func, d: Deps, schedule: seq<nat>, n: nat, len: nat)
    returns (p: seq<nat>)
    requires DepsOk(d) && n in d.nodes && n !in schedule && !Blocked(f, d, n)
    requires forall m: nat :: !IsReady(f, d, schedule, m)
    ensures IsPath(d.succ, p) && p[|p| - 1] == n && |p| == len + 1
    ensures forall k :: 0 <= k < |p| ==> p[k] in d.nodes && p[k] !in schedule
    decreases len
  {
    if len == 0 {
      p := [n];
    } else {
      assert PathTo(d.succ, [n], n, n);
      assert !IsReady(f, d, schedule, n);
      var m :| m in d.pred[n] && m !in schedule;
      assert Edge(d.pred, n, m) && Edge(d.succ, m, n);
      forall a: nat | Reaches(d.succ, a, m)
        ensures Reaches(d.succ, a, n)
      {
        ReachesStep(d.succ, a, m, n);
      }
      var q := LongBackwardPath(f, d, schedule, m, len - 1);
      PathSnoc(d.succ, q, n);
      p := q + [n];
    }
  }

  lemma StuckIsBlocked(f: Func, d: Deps, schedule: seq<nat>, n: nat)
    requires DepsOk(d) && n in d.nodes && n !in schedule
    requires forall m: nat :: !IsReady(f, d, schedule, m)
    ensures Blocked(f, d, n)
  {
    if !Blocked(f, d, n) {
      var p := LongBackwardPath(f, d, schedule, n, |d.succ|);
      if NoDup(p) {
        Pigeonhole(p, |d.succ|);
      } else {
        var i, j :| 0 <= i < j < |p| && p[i] == p[j];
        assert Closed(d.succ);
        RepeatIsCycle(d.succ, p, i, j);
        PathSuffix(d.succ, p, i);
        assert Reaches(d.succ, p[i], n);
      }
    }
  }

  lemma FinishedIsComplete(f: Func, d: Deps, schedule: seq<nat>, predCount: seq<int>)
    requires DepsOk(d) && Progressing(f, d, schedule, [], predCount)
    ensures IsListSchedule(f, d, schedule)
  {
    forall n: nat
      ensures n in schedule <==> Emitted(f, d, n)
    {
      if n in schedule {
        ScheduledNotBlocked(f, d, schedule, n);
      } else if n in d.nodes {
        forall m: nat
          ensures !IsReady(f, d, schedule, m)
        {
          assert m !in [];
        }
        StuckIsBlocked(f, d, schedule, n);
      }
    }
  }

  // ----- Order -----

  /** The critical paths of a schedule, in order. */
  function Lengths(cp: seq<nat>, schedule: seq<nat>): seq<nat> {
    seq(|schedule|, k requires 0 <= k < |schedule| => CpOf(cp, schedule[k]))
  }

  /** One emission: everything released by best has a shorter critical path than best. */
  lemma ReleasedIsShorter(f: Func, d: Deps, delay: seq<nat>, cp: seq<nat>, schedule: seq<nat>, best: nat, n: nat)
    requires Solved(d, delay, cp) && NoDup(schedule) && AfterPredecessors(d, schedule) && best in schedule
    requires forall m :: m in schedule ==> m in d.nodes && !NeverReady(f, m)
    requires Edge(d.succ, best, n)
    ensures n < |cp| && best < |cp| && cp[n] < cp[best]
  {
    ScheduledNotBlocked(f, d, schedule, best);
    assert PathTo(d.succ, [best], best, best);
    CriticalPathDecreases(d, delay, cp, best, n);
  }

  // ----- The algorithm -----

  /** The parts of the liveness result and the options list scheduling looks at. */
  datatype Options = Options(universe: set<Ref>, liveOut: seq<set<Ref>>, useRegPressure: bool)

  function OutOf(f: Func, o: Options, i: nat): set<Ref> {
    if Home(f, i) < |o.liveOut| then o.liveOut[Home(f, i)] else {}
  }

  function NodeDelta(f: Func, o: Options, live: set<Ref>, n: nat): int {
    if o.useRegPressure && n < |f.info| then Delta(n, f.info[n], o.universe, live, OutOf(f, o, n)) else 0
  }

  /** Longer critical path first, then lower pressure delta. */
  predicate Beats(f: Func, o: Options, cp: seq<nat>, live: set<Ref>, a: nat, b: nat) {
    || CpOf(cp, a) > CpOf(cp, b)
    || (CpOf(cp, a) == CpOf(cp, b) && NodeDelta(f, o, live, a) < NodeDelta(f, o, live, b))
  }

  /** best stands in the queue and beats everything queued before it. */
  ghost predicate FirstInLine(f: Func, o: Options, cp: seq<nat>, live: set<Ref>, queue: seq<nat>, best: nat) {
    exists at :: 0 <= at < |queue| && queue[at] == best &&
                 forall j :: 0 <= j < at ==> Beats(f, o, cp, live, best, queue[j])
  }

  /** pickBest: nothing in the queue beats the result, and it beats everything queued before it. */
  method PickBest(f: Func, o: Options, cp: seq<nat>, live: set<Ref>, ready: seq<nat>) returns (at: nat)
    requires ready != [] && forall n :: n in ready ==> n < |cp| && n < |f.info|
    ensures at < |ready|
    ensures forall j :: 0 <= j < |ready| ==> !Beats(f, o, cp, live, ready[j], ready[at])
    ensures forall j :: 0 <= j < at ==> Beats(f, o, cp, live, ready[at], ready[j])
  {
    at := 0;
    var bestCP: int, bestDelta: int := -1, 0;
    for k := 0 to |ready|
      invariant k == 0 ==> bestCP == -1 && at == 0
      invariant at < |ready| && (k > 0 ==> at < k)
      invariant k > 0 ==> bestCP == CpOf(cp, ready[at]) && bestDelta == NodeDelta(f, o, live, ready[at])
      invariant forall j :: 0 <= j < k ==> !Beats(f, o, cp, live, ready[j], ready[at])
      invariant forall j :: 0 <= j < at ==> Beats(f, o, cp, live, ready[at], ready[j])
    {
      var n := ready[k];
      assert n in ready;
      var delta := 0;
      if o.useRegPressure {
        delta := PressureDelta(n, f.info[n], o.universe, live, OutOf(f, o, n));
      }
      if cp[n] > bestCP {
        bestCP, bestDelta, at := cp[n], delta, k;
      } else if cp[n] == bestCP && delta < bestDelta {
        bestDelta, at := delta, k;
      }
    }
  }

  /** Ready are the ready nodes, but for those still to be released: best's successors from the k-th on. */
  ghost predicate QueueMidway(f: Func, d: Deps, schedule: seq<nat>, ready: seq<nat>, best: nat, k: nat)
    requires best < |d.succ| && k <= |d.succ[best]|
  {
    NoDup(ready) && forall n: nat :: n in ready <==> IsReady(f, d, schedule, n) && n !in d.succ[best][k..]
  }

  /** The nodes still to be released are counted as if best were not scheduled. */
  ghost predicate CountsMidway(d: Deps, schedule: seq<nat>, predCount: seq<int>, best: nat, k: nat)
    requires best < |d.succ| && k <= |d.succ[best]|
  {
    && |predCount| == |d.pred|
    && forall n :: n in d.nodes ==>
         && n < |d.pred|
         && predCount[n] == Unscheduled(d.pred[n], schedule) + (if n in d.succ[best][k..] then 1 else 0)
  }

  /** Midway through releasing the successors of best, from the k-th on. */
  ghost predicate Releasing(f: Func, d: Deps, schedule: seq<nat>, ready: seq<nat>, predCount: seq<int>,
                            best: nat, k: nat)
    requires best < |d.succ| && k <= |d.succ[best]|
  {
    QueueMidway(f, d, schedule, ready, best, k) && CountsMidway(d, schedule, predCount, best, k)
  }

  lemma StartRelease(f: Func, d: Deps, schedule: seq<nat>, ready: seq<nat>, predCount: seq<int>, at: nat)
    requires DepsOk(d) && Progressing(f, d, schedule, ready, predCount) && at < |ready|
    ensures ready[at] < |d.succ|
    ensures Releasing(f, d, schedule + [ready[at]], ready[..at] + ready[at + 1..], predCount, ready[at], 0)
    ensures NoDup(schedule + [ready[at]]) && AfterPredecessors(d, schedule + [ready[at]])
    ensures ready[at] in d.nodes && !NeverReady(f, ready[at])
  {
    var best := ready[at];
    assert best in ready;
    assert IsReady(f, d, schedule, best);
    var schedule' := schedule + [best];
    var rest := ready[..at] + ready[at + 1..];
    assert d.succ[best][0..] == d.succ[best];
    forall n: nat | n in d.nodes
      ensures predCount[n] == Unscheduled(d.pred[n], schedule') + (if n in d.succ[best] then 1 else 0)
    {
      UnscheduledAfter(d.pred[n], schedule, best);
      assert Edge(d.succ, best, n) <==> Edge(d.pred, n, best);
    }
    StartReleaseQueue(f, d, schedule, ready, at);
    forall k: nat, p: nat | k < |schedule'| && Edge(d.pred, schedule'[k], p)
      ensures p in schedule'[..k]
    {
      assert schedule'[..k] == if k < |schedule| then schedule[..k] else schedule;
    }
  }

  lemma StartReleaseQueue(f: Func, d: Deps, schedule: seq<nat>, ready: seq<nat>, at: nat)
    requires DepsOk(d) && QueueIsReady(f, d, schedule, ready) && at < |ready| && ready[at] < |d.succ|
    ensures NoDup(ready[..at] + ready[at + 1..])
    ensures forall n: nat :: n in ready[..at] + ready[at + 1..] <==>
              IsReady(f, d, schedule + [ready[at]], n) && n !in d.succ[ready[at]]
  {
    var best := ready[at];
    assert best in ready;
    forall n: nat
      ensures n in ready[..at] + ready[at + 1..] <==> IsReady(f, d, schedule + [best], n) && n !in d.succ[best]
    {
      assert n in ready[..at] + ready[at + 1..] <==> n in ready && n != best;
      if n < |d.pred| {
        assert Edge(d.succ, best, n) <==> Edge(d.pred, n, best);
      }
    }
  }

  /** What releasing the k-th successor does to the counts and the queue. */
  lemma ReleaseOne(f: Func, d: Deps, schedule: seq<nat>, ready: seq<nat>, predCount: seq<int>, best: nat, k: nat,
                   ready': seq<nat>)
    requires DepsOk(d) && best < |d.succ| && k < |d.succ[best]| && best in schedule
    requires Releasing(f, d, schedule, ready, predCount, best, k)
    requires d.succ[best][k] < |predCount| && d.succ[best][k] !in schedule
    requires ready' == if predCount[d.succ[best][k]] - 1 == 0 && !NeverReady(f, d.succ[best][k])
                       then ready + [d.succ[best][k]] else ready
    ensures ready' == if IsReady(f, d, schedule, d.succ[best][k]) then ready + [d.succ[best][k]] else ready
    ensures Releasing(f, d, schedule, ready', predCount[d.succ[best][k] := predCount[d.succ[best][k]] - 1], best, k + 1)
  {
    RestOfSuccessors(d.succ[best], k);
    var n := d.succ[best][k];
    assert Edge(d.succ, best, n);
    UnscheduledZero(d.pred[n], schedule);
    ReleaseCounts(d, schedule, predCount, best, k);
    ReleaseQueue(f, d, schedule, ready, best, k, ready');
  }

  lemma RestOfSuccessors(succs: seq<nat>, k: nat)
    requires NoDup(succs) && k < |succs|
    ensures forall n: nat :: n in succs[k..] <==> n == succs[k] || n in succs[k + 1..]
    ensures succs[k] !in succs[k + 1..]
  {
    assert succs[k..] == [succs[k]] + succs[k + 1..];
  }

  lemma ReleaseCounts(d: Deps, schedule: seq<nat>, predCount: seq<int>, best: nat, k: nat)
    requires DepsOk(d) && best < |d.succ| && k < |d.succ[best]| && d.succ[best][k] < |predCount|
    requires CountsMidway(d, schedule, predCount, best, k)
    ensures CountsMidway(d, schedule, predCount[d.succ[best][k] := predCount[d.succ[best][k]] - 1], best, k + 1)
  {
    RestOfSuccessors(d.succ[best], k);
  }

  lemma ReleaseQueue(f: Func, d: Deps, schedule: seq<nat>, ready: seq<nat>, best: nat, k: nat, ready': seq<nat>)
    requires DepsOk(d) && best < |d.succ| && k < |d.succ[best]| && QueueMidway(f, d, schedule, ready, best, k)
    requires var n := d.succ[best][k];
      ready' == if IsReady(f, d, schedule, n) then ready + [n] else ready
    ensures QueueMidway(f, d, schedule, ready', best, k + 1)
  {
    RestOfSuccessors(d.succ[best], k);
  }

  /** The loop over best's successors. */
  method ReleaseSuccessors(ddg: Ddg, f: Func, best: nat, ready: seq<nat>, ghost schedule: seq<nat>)
    returns (ready': seq<nat>)
    requires ddg.Valid() && best < |ddg.successors|
    requires schedule != [] && schedule[|schedule| - 1] == best
    requires NoDup(schedule) && AfterPredecessors(ddg.AsDeps(), schedule)
    requires forall m :: m in schedule ==> m in ddg.nodes && !NeverReady(f, m)
    requires Releasing(f, ddg.AsDeps(), schedule, ready, ddg.predCount, best, 0)
    requires ready == Without(Queue(f, ddg.AsDeps(), schedule[..|schedule| - 1]), best)
    modifies ddg`predCount
    ensures ddg.Valid()
    ensures Progressing(f, ddg.AsDeps(), schedule, ready', ddg.predCount)
    ensures forall n :: n in ready' ==> n in ready || n in ddg.successors[best]
  {
    ready' := ready;
    ghost var d := ddg.AsDeps();
    var succs := ddg.successors[best];
    for k := 0 to |succs|
      invariant ddg.Valid() && Releasing(f, d, schedule, ready', ddg.predCount, best, k)
      invariant ready' == ready + Freed(f, d, schedule, succs, k)
    {
      ready' := ReleaseNext(ddg, f, best, k, ready', schedule);
    }
    EndRelease(f, d, schedule, ready, ddg.predCount, best, ready');
  }

  /** With all successors released the counts and the queue are those of the schedule. */
  lemma EndRelease(f: Func, d: Deps, schedule: seq<nat>, ready: seq<nat>, predCount: seq<int>, best: nat,
                   ready': seq<nat>)
    requires best < |d.succ| && schedule != [] && schedule[|schedule| - 1] == best
    requires NoDup(schedule) && AfterPredecessors(d, schedule)
    requires forall m :: m in schedule ==> m in d.nodes && !NeverReady(f, m)
    requires Releasing(f, d, schedule, ready', predCount, best, |d.succ[best]|)
    requires ready == Without(Queue(f, d, schedule[..|schedule| - 1]), best)
    requires ready' == ready + Freed(f, d, schedule, d.succ[best], |d.succ[best]|)
    ensures Progressing(f, d, schedule, ready', predCount)
    ensures forall n :: n in ready' ==> n in ready || n in d.succ[best]
  {
    assert d.succ[best][|d.succ[best]|..] == [];
    FreedAreSuccessors(f, d, schedule, d.succ[best], |d.succ[best]|);
  }

  /** One successor: counted down, and queued when nothing is left to count. */
  method ReleaseNext(ddg: Ddg, f: Func, best: nat, k: nat, ready: seq<nat>, ghost schedule: seq<nat>)
    returns (ready': seq<nat>)
    requires ddg.Valid() && best < |ddg.successors| && k < |ddg.successors[best]|
    requires schedule != [] && schedule[|schedule| - 1] == best
    requires NoDup(schedule) && AfterPredecessors(ddg.AsDeps(), schedule)
    requires Releasing(f, ddg.AsDeps(), schedule, ready, ddg.predCount, best, k)
    modifies ddg`predCount
    ensures ddg.Valid() && Releasing(f, ddg.AsDeps(), schedule, ready', ddg.predCount, best, k + 1)
    ensures ready' == ready + if IsReady(f, ddg.AsDeps(), schedule, ddg.successors[best][k])
                              then [ddg.successors[best][k]] else []
  {
    ghost var d := ddg.AsDeps();
    var succ := ddg.successors[best][k];
    assert Edge(d.succ, best, succ);
    SuccessorNotScheduled(f, d, schedule, best, succ);
    ReleaseOne(f, d, schedule, ready, ddg.predCount, best, k,
               if ddg.predCount[succ] - 1 == 0 && !NeverReady(f, succ) then ready + [succ] else ready);
    ddg.predCount := ddg.predCount[succ := ddg.predCount[succ] - 1];
    ready' := ready;
    if ddg.predCount[succ] == 0 && !NeverReady(f, succ) {
      ready' := ready' + [succ];
    }
  }

  lemma {:induction false} FreedAreSuccessors(f: Func, d: Deps, schedule: seq<nat>, succs: seq<nat>, k: nat)
    requires k <= |succs|
    ensures forall n :: n in Freed(f, d, schedule, succs, k) ==> n in succs
  {
    if k > 0 {
      FreedAreSuccessors(f, d, schedule, succs, k - 1);
    }
  }

  /** A successor of a scheduled node that is released only now was not scheduled before. */
  lemma SuccessorNotScheduled(f: Func, d: Deps, schedule: seq<nat>, best: nat, n: nat)
    requires DepsOk(d) && NoDup(schedule) && AfterPredecessors(d, schedule) && Edge(d.succ, best, n)
    requires schedule != [] && schedule[|schedule| - 1] == best
    ensures n !in schedule
  {
  }

  /** Resets the counts and queues the nodes without predecessors. */
  method StartQueue(ddg: Ddg, f: Func) returns (ready: seq<nat>)
    requires ddg.Valid()
    modifies ddg`predCount
    ensures ddg.Valid() && Progressing(f, ddg.AsDeps(), [], ready, ddg.predCount)
  {
    ResetCounts(ddg);
    ready := QueueLeaves(ddg, f);
    ghost var d := ddg.AsDeps();
    StartingNodesAre(f, d, |d.nodes|);
    assert d.nodes[..|d.nodes|] == d.nodes;
    forall n | n in d.nodes
      ensures n < |d.pred| && ddg.predCount[n] == Unscheduled(d.pred[n], [])
    {
      UnscheduledNone(d.pred[n]);
    }
  }

  ghost predicate AllWaiting(d: Deps, predCount: seq<int>) {
    |predCount| == |d.pred| && forall n :: n in d.nodes ==> n < |d.pred| && predCount[n] == |d.pred[n]|
  }

  method QueueLeaves(ddg: Ddg, f: Func) returns (ready: seq<nat>)
    requires AllWaiting(ddg.AsDeps(), ddg.predCount)
    ensures ready == StartingNodes(f, ddg.AsDeps(), |ddg.nodes|)
  {
    ready := [];
    for k := 0 to |ddg.nodes|
      invariant ready == StartingNodes(f, ddg.AsDeps(), k)
    {
      var node := ddg.nodes[k];
      assert node in ddg.nodes;
      ReadyAtStart(f, ddg.AsDeps(), node);
      if ddg.predCount[node] == 0 && !NeverReady(f, node) {
        ready := ready + [node];
      }
    }
  }

  /** Every node waits for all its predecessors. */
  method ResetCounts(ddg: Ddg)
    requires ddg.Valid()
    modifies ddg`predCount
    ensures ddg.Valid() && AllWaiting(ddg.AsDeps(), ddg.predCount)
  {
    for k := 0 to |ddg.nodes|
      invariant ddg.Valid()
      invariant forall n :: n in ddg.nodes[..k] ==>
                  n < |ddg.predecessors| && ddg.predCount[n] == |ddg.predecessors[n]|
    {
      var node := ddg.nodes[k];
      assert node in ddg.AsDeps().nodes && ddg.nodes[..k + 1] == ddg.nodes[..k] + [node];
      ddg.predCount := ddg.predCount[node := |ddg.predecessors[node]|];
    }
    assert ddg.nodes[..|ddg.nodes|] == ddg.nodes;
  }

  lemma ReadyAtStart(f: Func, d: Deps, n: nat)
    requires n in d.nodes && n < |d.pred|
    ensures IsReady(f, d, [], n) <==> d.pred[n] == [] && !NeverReady(f, n)
  {
    if d.pred[n] != [] {
      assert d.pred[n][0] in d.pred[n];
    }
  }

  lemma {:induction false} StartingNodesAre(f: Func, d: Deps, n: nat)
    requires NoDup(d.nodes) && n <= |d.nodes|
    ensures NoDup(StartingNodes(f, d, n))
    ensures forall m: nat :: m in StartingNodes(f, d, n) <==> m in d.nodes[..n] && IsReady(f, d, [], m)
  {
    if n > 0 {
      StartingNodesAre(f, d, n - 1);
      assert d.nodes[..n] == d.nodes[..n - 1] + [d.nodes[n - 1]];
    }
  }

  ghost function Outs(f: Func, o: Options): nat -> set<Ref> {
    (i: nat) => OutOf(f, o, i)
  }

  /** The live set after the first k emissions. */
  ghost function LiveAt(f: Func, o: Options, live: set<Ref>, schedule: seq<nat>, k: nat): set<Ref>
    requires k <= |schedule|
  {
    AfterAll(f, o.universe, Outs(f, o), live, schedule[..k])
  }

  /** The sizes of the live set before, between and after the emissions. */
  ghost function LiveCounts(f: Func, o: Options, live: set<Ref>, schedule: seq<nat>): seq<nat> {
    var now := [|LiveAt(f, o, live, schedule, |schedule|)|];
    if schedule == [] then now else LiveCounts(f, o, live, schedule[..|schedule| - 1]) + now
  }

  /** One count for every number of emissions. */
  lemma {:induction false} LiveCountsAre(f: Func, o: Options, live: set<Ref>, schedule: seq<nat>, c: nat)
    ensures c in LiveCounts(f, o, live, schedule) <==>
              exists m :: 0 <= m <= |schedule| && c == |LiveAt(f, o, live, schedule, m)|
  {
    if schedule != [] {
      var n := |schedule| - 1;
      LiveCountsAre(f, o, live, schedule[..n], c);
      forall m | 0 <= m <= n
        ensures LiveAt(f, o, live, schedule[..n], m) == LiveAt(f, o, live, schedule, m)
      {
        assert schedule[..n][..m] == schedule[..m];
      }
    }
  }

  /** peak' is the largest of peak and the counts. */
  ghost predicate IsPeak(counts: seq<nat>, peak: nat, peak': nat) {
    && peak <= peak'
    && (forall c :: c in counts ==> c <= peak')
    && (peak' == peak || peak' in counts)
  }

  lemma LiveAtGrows(f: Func, o: Options, live: set<Ref>, schedule: seq<nat>, best: nat)
    requires best < |f.info|
    ensures forall k :: 0 <= k <= |schedule| ==>
              LiveAt(f, o, live, schedule + [best], k) == LiveAt(f, o, live, schedule, k)
    ensures LiveAt(f, o, live, schedule + [best], |schedule| + 1)
         == After(best, f.info[best], o.universe, LiveAt(f, o, live, schedule, |schedule|), OutOf(f, o, best))
  {
    var more := schedule + [best];
    forall k | 0 <= k <= |schedule|
      ensures LiveAt(f, o, live, more, k) == LiveAt(f, o, live, schedule, k)
    {
      assert more[..k] == schedule[..k];
    }
    assert more[..|schedule| + 1] == more && more[..|schedule|] == schedule[..|schedule|] == schedule;
  }

  /** Emits the best ready node and releases its successors. */
  method EmitBest(ddg: Ddg, f: Func, o: Options, live: set<Ref>, ready: seq<nat>, schedule: seq<nat>)
    returns (best: nat, ready': seq<nat>)
    requires ddg.Valid() && |ddg.successors| == |f.info| && ready != []
    requires Progressing(f, ddg.AsDeps(), schedule, ready, ddg.predCount)
    modifies ddg`predCount
    ensures ddg.Valid() && best in ready && best in ddg.nodes && best !in schedule
    ensures forall n :: n in ready ==> !Beats(f, o, ddg.criticalPath, live, n, best)
    ensures FirstInLine(f, o, ddg.criticalPath, live, ready, best)
    ensures Progressing(f, ddg.AsDeps(), schedule + [best], ready', ddg.predCount)
    ensures forall n :: n in ready' ==> n in ready || n in ddg.successors[best]
  {
    forall n | n in ready
      ensures n in ddg.nodes && n < |f.info|
    {
      assert IsReady(f, ddg.AsDeps(), schedule, n);
    }
    var at := PickBest(f, o, ddg.criticalPath, live, ready);
    best := ready[at];
    assert best in ready && IsReady(f, ddg.AsDeps(), schedule, best);
    StartRelease(f, ddg.AsDeps(), schedule, ready, ddg.predCount, at);
    WithoutAt(ready, best, at);
    assert (schedule + [best])[..|schedule|] == schedule;
    ready' := ReleaseSuccessors(ddg, f, best, ready[..at] + ready[at + 1..], schedule + [best]);
  }

  /** What keeps the schedule sorted: nothing ready is longer than what was emitted last. */
  ghost predicate QueueIsShorter(cp: seq<nat>, schedule: seq<nat>, ready: seq<nat>) {
    && NonIncreasing(cp, schedule)
    && forall j, n :: 0 <= j < |schedule| && n in ready ==> CpOf(cp, schedule[j]) >= CpOf(cp, n)
  }

  lemma StaysSorted(f: Func, d: Deps, o: Options, live: set<Ref>, delay: seq<nat>, cp: seq<nat>, schedule: seq<nat>,
                    ready: seq<nat>, best: nat, ready': seq<nat>)
    requires Solved(d, delay, cp) && QueueIsShorter(cp, schedule, ready) && best in ready && best < |d.succ|
    requires forall n :: n in ready ==> !Beats(f, o, cp, live, n, best)
    requires forall n :: n in ready' ==> n in ready || n in d.succ[best]
    requires NoDup(schedule + [best]) && AfterPredecessors(d, schedule + [best])
    requires forall m :: m in schedule + [best] ==> m in d.nodes && !NeverReady(f, m)
    ensures QueueIsShorter(cp, schedule + [best], ready')
  {
    forall n | n in ready'
      ensures CpOf(cp, best) >= CpOf(cp, n)
    {
      if n !in ready {
        assert Edge(d.succ, best, n);
        ReleasedIsShorter(f, d, delay, cp, schedule + [best], best, n);
      }
    }
  }

  ghost function Elements(s: seq<nat>): set<nat> {
    set n | n in s
  }

  /** updateLiveSet for the node just emitted, and the peak statistics. */
  method RecordLive(f: Func, o: Options, ghost live: set<Ref>, ghost schedule: seq<nat>, best: nat, current: set<Ref>,
                    statsOn: bool, ghost peak0: nat, peak: nat)
    returns (current': set<Ref>, peak': nat)
    requires best < |f.info| && current == LiveAt(f, o, live, schedule, |schedule|)
    requires PeakAfter(statsOn, LiveCounts(f, o, live, schedule), peak0, peak)
    ensures current' == LiveAt(f, o, live, schedule + [best], |schedule| + 1)
    ensures PeakAfter(statsOn, LiveCounts(f, o, live, schedule + [best]), peak0, peak')
  {
    LiveAtGrows(f, o, live, schedule, best);
    current' := UpdateLiveSet(best, f.info[best], o.universe, current, OutOf(f, o, best));
    peak' := peak;
    if statsOn && |current'| > peak {
      peak' := |current'|;
    }
    if statsOn {
      CountsGrow(f, o, live, schedule, best);
      PeakGrows(LiveCounts(f, o, live, schedule), |current'|, peak0, peak);
    }
  }

  lemma CountsGrow(f: Func, o: Options, live: set<Ref>, schedule: seq<nat>, best: nat)
    requires best < |f.info|
    ensures LiveCounts(f, o, live, schedule + [best])
         == LiveCounts(f, o, live, schedule) + [|LiveAt(f, o, live, schedule + [best], |schedule| + 1)|]
  {
    assert (schedule + [best])[..|schedule|] == schedule;
  }

  /** What a call of the list scheduler makes of the peak; untouched when statistics are off. */
  ghost predicate PeakAfter(statsOn: bool, counts: seq<nat>, peak: nat, peak': nat) {
    if statsOn then IsPeak(counts, peak, peak') else peak' == peak
  }

  lemma PeakGrows(counts: seq<nat>, count: nat, peak0: nat, peak: nat)
    requires IsPeak(counts, peak0, peak)
    ensures IsPeak(counts + [count], peak0, if count > peak then count else peak)
  {
  }

  /** When the k-th instruction was emitted, no other ready one had a longer critical path, or one as long and a lower
      pressure delta, and of those as good as it, it had come first. */
  ghost predicate Unbeaten(f: Func, d: Deps, o: Options, cp: seq<nat>, live: set<Ref>, schedule: seq<nat>, k: nat)
    requires k < |schedule|
  {
    && (forall n: nat :: IsReady(f, d, schedule[..k], n) ==>
          !Beats(f, o, cp, LiveAt(f, o, live, schedule, k), n, schedule[k]))
    && FirstInLine(f, o, cp, LiveAt(f, o, live, schedule, k), Queue(f, d, schedule[..k]), schedule[k])
  }

  ghost predicate IsGreedy(f: Func, d: Deps, o: Options, cp: seq<nat>, live: set<Ref>, schedule: seq<nat>) {
    forall k :: 0 <= k < |schedule| ==> Unbeaten(f, d, o, cp, live, schedule, k)
  }

  lemma GreedyGrows(f: Func, d: Deps, o: Options, cp: seq<nat>, live: set<Ref>, schedule: seq<nat>, ready: seq<nat>,
                    best: nat)
    requires IsGreedy(f, d, o, cp, live, schedule) && QueueIsReady(f, d, schedule, ready) && best < |f.info|
    requires forall n :: n in ready ==> !Beats(f, o, cp, LiveAt(f, o, live, schedule, |schedule|), n, best)
    requires FirstInLine(f, o, cp, LiveAt(f, o, live, schedule, |schedule|), Queue(f, d, schedule), best)
    ensures IsGreedy(f, d, o, cp, live, schedule + [best])
  {
    var more := schedule + [best];
    LiveAtGrows(f, o, live, schedule, best);
    forall k | 0 <= k < |more|
      ensures Unbeaten(f, d, o, cp, live, more, k)
    {
      assert more[..k] == schedule[..k];
      if k < |schedule| {
        assert Unbeaten(f, d, o, cp, live, schedule, k);
      } else {
        assert schedule[..k] == schedule;
      }
    }
  }

  /** The tie-break: with pressure on, among ready instructions with equally long critical paths the one emitted leaves
      the fewest values live, as long as neither it nor the other names a dying value twice or its own. */
  lemma TieBreakLeavesFewestLive(f: Func, d: Deps, o: Options, cp: seq<nat>, live: set<Ref>, schedule: seq<nat>, k: nat,
                                 n: nat)
    requires IsGreedy(f, d, o, cp, live, schedule) && o.useRegPressure && k < |schedule|
    requires n < |f.info| && schedule[k] < |f.info| && IsReady(f, d, schedule[..k], n)
    requires CpOf(cp, n) == CpOf(cp, schedule[k])
    requires var now := LiveAt(f, o, live, schedule, k);
      && PredictsExactly(f, o, now, n) && PredictsExactly(f, o, now, schedule[k])
    ensures var now, best := LiveAt(f, o, live, schedule, k), schedule[k];
      |After(best, f.info[best], o.universe, now, OutOf(f, o, best))|
      <= |After(n, f.info[n], o.universe, now, OutOf(f, o, n))|
  {
    var now, best := LiveAt(f, o, live, schedule, k), schedule[k];
    assert Unbeaten(f, d, o, cp, live, schedule, k);
    PredictionIsLowerBound(n, f.info[n], o.universe, now, OutOf(f, o, n));
    PredictionIsLowerBound(best, f.info[best], o.universe, now, OutOf(f, o, best));
  }

  ghost predicate PredictsExactly(f: Func, o: Options, live: set<Ref>, n: nat)
    requires n < |f.info|
  {
    Inst(n) !in f.info[n].operands && !DiesTwice(f.info[n].operands, o.universe, live, OutOf(f, o, n))
  }

  /** What the main loop keeps about the order. */
  ghost predicate Ranked(f: Func, d: Deps, o: Options, delay: seq<nat>, cp: seq<nat>, live: set<Ref>,
                         schedule: seq<nat>, ready: seq<nat>) {
    && IsGreedy(f, d, o, cp, live, schedule)
    && (Solved(d, delay, cp) ==> QueueIsShorter(cp, schedule, ready))
  }

  lemma StaysRanked(f: Func, d: Deps, o: Options, delay: seq<nat>, cp: seq<nat>, live: set<Ref>, schedule: seq<nat>,
                    ready: seq<nat>, best: nat, ready': seq<nat>)
    requires Ranked(f, d, o, delay, cp, live, schedule, ready) && QueueIsReady(f, d, schedule, ready)
    requires best in ready && best < |d.succ| == |f.info|
    requires forall n :: n in ready ==> !Beats(f, o, cp, LiveAt(f, o, live, schedule, |schedule|), n, best)
    requires FirstInLine(f, o, cp, LiveAt(f, o, live, schedule, |schedule|), Queue(f, d, schedule), best)
    requires forall n :: n in ready' ==> n in ready || n in d.succ[best]
    requires NoDup(schedule + [best]) && AfterPredecessors(d, schedule + [best])
    requires forall m :: m in schedule + [best] ==> m in d.nodes && !NeverReady(f, m)
    ensures Ranked(f, d, o, delay, cp, live, schedule + [best], ready')
  {
    GreedyGrows(f, d, o, cp, live, schedule, ready, best);
    if Solved(d, delay, cp) {
      StaysSorted(f, d, o, LiveAt(f, o, live, schedule, |schedule|), delay, cp, schedule, ready, best, ready');
    }
  }

  /** What the main loop keeps. */
  ghost predicate Underway(f: Func, d: Deps, o: Options, delay: seq<nat>, cp: seq<nat>, live: set<Ref>,
                           schedule: seq<nat>, ready: seq<nat>, predCount: seq<int>) {
    Progressing(f, d, schedule, ready, predCount) && Ranked(f, d, o, delay, cp, live, schedule, ready)
  }

  /** One turn of the main loop. */
  method EmitNext(ddg: Ddg, f: Func, o: Options, ghost live: set<Ref>, current: set<Ref>, ready: seq<nat>,
                  schedule: seq<nat>, statsOn: bool, ghost peak0: nat, peak: nat)
    returns (best: nat, ready': seq<nat>, current': set<Ref>, peak': nat)
    requires ddg.Valid() && |ddg.successors| == |f.info| && ready != []
    requires Underway(f, ddg.AsDeps(), o, ddg.delay, ddg.criticalPath, live, schedule, ready, ddg.predCount)
    requires current == LiveAt(f, o, live, schedule, |schedule|)
    requires PeakAfter(statsOn, LiveCounts(f, o, live, schedule), peak0, peak)
    modifies ddg`predCount
    ensures ddg.Valid() && best in ddg.nodes && best !in schedule
    ensures Underway(f, ddg.AsDeps(), o, ddg.delay, ddg.criticalPath, live, schedule + [best], ready', ddg.predCount)
    ensures current' == LiveAt(f, o, live, schedule + [best], |schedule| + 1)
    ensures PeakAfter(statsOn, LiveCounts(f, o, live, schedule + [best]), peak0, peak')
  {
    best, ready' := EmitBest(ddg, f, o, current, ready, schedule);
    StaysRanked(f, ddg.AsDeps(), o, ddg.delay, ddg.criticalPath, live, schedule, ready, best, ready');
    current', peak' := RecordLive(f, o, live, schedule, best, current, statsOn, peak0, peak);
  }

  /** listSchedule: greedy at every step, complete, in dependence order, and sorted by critical path. */
  method ListSchedule(ddg: Ddg, f: Func, o: Options, live: set<Ref>, statsOn: bool, peak: nat)
    returns (schedule: seq<nat>, live': set<Ref>, peak': nat)
    requires ddg.Valid() && |ddg.successors| == |f.info|
    modifies ddg`predCount
    ensures ddg.Valid() && IsListSchedule(f, ddg.AsDeps(), schedule)
    ensures CountsRight(ddg.AsDeps(), schedule, ddg.predCount)
    ensures IsGreedy(f, ddg.AsDeps(), o, ddg.criticalPath, live, schedule)
    ensures Solved(ddg.AsDeps(), ddg.delay, ddg.criticalPath) ==> NonIncreasing(ddg.criticalPath, schedule)
    ensures live' == LiveAt(f, o, live, schedule, |schedule|)
    ensures PeakAfter(statsOn, LiveCounts(f, o, live, schedule), peak, peak')
  {
    schedule, live', peak' := [], live, peak;
    if statsOn && |live'| > peak' {
      peak' := |live'|;
    }
    ghost var d := ddg.AsDeps();
    assert LiveAt(f, o, live, [], 0) == live && LiveCounts(f, o, live, []) == [|live|];
    var ready := StartQueue(ddg, f);
    while ready != []
      invariant ddg.Valid() && ddg.AsDeps() == d
      invariant Underway(f, d, o, ddg.delay, ddg.criticalPath, live, schedule, ready, ddg.predCount)
      invariant live' == LiveAt(f, o, live, schedule, |schedule|)
      invariant PeakAfter(statsOn, LiveCounts(f, o, live, schedule), peak, peak')
      decreases Unvisited(d, Elements(schedule))
    {
      var best, ready';
      best, ready', live', peak' := EmitNext(ddg, f, o, live, live', ready, schedule, statsOn, peak, peak');
      Shrinks(d, Elements(schedule), Elements(schedule + [best]), best);
      schedule, ready := schedule + [best], ready';
    }
    FinishedIsComplete(f, d, schedule, ddg.predCount);
  }

  // ----- The tie-break cannot change the critical-path sequence -----

  /** If t's k-th critical path were shorter than s's, the first k + 1 nodes of s would have to fit in t's first k. */
  lemma NotShorterAt(cp: seq<nat>, s: seq<nat>, t: seq<nat>, k: nat)
    requires NoDup(s) && NoDup(t) && NonIncreasing(cp, s) && NonIncreasing(cp, t)
    requires forall n: nat :: n in s ==> n in t
    requires k < |s| && k < |t|
    ensures CpOf(cp, s[k]) <= CpOf(cp, t[k])
  {
    if CpOf(cp, s[k]) > CpOf(cp, t[k]) {
      forall x | x in s[..k + 1]
        ensures x in t[..k]
      {
        var j :| 0 <= j < k + 1 && s[j] == x;
        assert x in s && x in t;
        var m :| 0 <= m < |t| && t[m] == x;
        assert CpOf(cp, s[j]) >= CpOf(cp, s[k]);
        assert m < k;
      }
      SameElements(s[..k + 1], t[..k]);
    }
  }

  /** Any two sorted list schedules of one graph, with or without pressure, have the same critical-path sequence:
      the tie-break only permutes instructions of equal critical path. */
  lemma PressureOnlyBreaksTies(f: Func, d: Deps, cp: seq<nat>, s: seq<nat>, t: seq<nat>)
    requires IsListSchedule(f, d, s) && IsListSchedule(f, d, t)
    requires NonIncreasing(cp, s) && NonIncreasing(cp, t)
    ensures Lengths(cp, s) == Lengths(cp, t)
  {
    assert forall n: nat :: n in s <==> n in t;
    if |s| >= |t| {
      SameElements(s, t);
    } else {
      SameElements(t, s);
    }
    forall k | 0 <= k < |s|
      ensures CpOf(cp, s[k]) == CpOf(cp, t[k])
    {
      NotShorterAt(cp, s, t, k);
      NotShorterAt(cp, t, s, k);
    }
  }
}
