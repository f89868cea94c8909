/** The ready queue of the list scheduler, and why its rules determine the schedule (include/listScheduler.hpp). */
module ReadyQueues {
  import opened Graphs
  import opened Ir
  import opened Lists
  import opened Ddgs
  import opened ListScheduler

  /** A beginning of a list schedule. */
  ghost predicate IsStarted(f: Func, d: Deps, schedule: seq<nat>) {
    && DepsOk(d) && NoDup(schedule) && AfterPredecessors(d, schedule)
    && forall n :: n in schedule ==> n in d.nodes && !NeverReady(f, n)
  }

  // ----- What is in the queue -----

  lemma {:induction false} FreedAre(f: Func, d: Deps, schedule: seq<nat>, succs: seq<nat>, k: nat)
    requires NoDup(succs) && k <= |succs|
    ensures NoDup(Freed(f, d, schedule, succs, k))
    ensures forall n: nat :: n in Freed(f, d, schedule, succs, k) <==> n in succs[..k] && IsReady(f, d, schedule, n)
  {
    if k > 0 {
      FreedAre(f, d, schedule, succs, k - 1);
      assert succs[..k] == succs[..k - 1] + [succs[k - 1]];
    }
  }

  lemma StartedBefore(f: Func, d: Deps, schedule: seq<nat>)
    requires IsStarted(f, d, schedule) && schedule != []
    ensures var n := |schedule| - 1;
      && IsStarted(f, d, schedule[..n]) && schedule[n] !in schedule[..n] && schedule[n] < |d.succ|
      && IsReady(f, d, schedule[..n], schedule[n])
  {
    var n := |schedule| - 1;
    assert schedule[n] in schedule;
    forall k: nat, p: nat | k < n && Edge(d.pred, schedule[k], p)
      ensures p in schedule[..n][..k]
    {
      assert schedule[..n][..k] == schedule[..k];
    }
    forall p | p in d.pred[schedule[n]]
      ensures p in schedule[..n]
    {
      assert Edge(d.pred, schedule[n], p);
    }
  }

  /** After one more emission a node is ready if it was before, or if only the emitted one was missing. */
  lemma ReadyAfter(f: Func, d: Deps, schedule: seq<nat>, best: nat, n: nat)
    requires IsStarted(f, d, schedule) && IsReady(f, d, schedule, best) && best < |d.succ|
    ensures IsReady(f, d, schedule + [best], n) <==>
              (IsReady(f, d, schedule, n) && n != best)
              || (n in d.succ[best] && IsReady(f, d, schedule + [best], n))
    ensures !(IsReady(f, d, schedule, n) && n in d.succ[best])
  {
    assert n in d.succ[best] <==> Edge(d.succ, best, n);
    assert Edge(d.pred, n, best) <==> Edge(d.succ, best, n);
  }

  /** The queue holds exactly the ready nodes, each once. */
  lemma {:induction false} QueueHoldsReady(f: Func, d: Deps, schedule: seq<nat>)
    requires IsStarted(f, d, schedule)
    ensures QueueIsReady(f, d, schedule, Queue(f, d, schedule))
  {
    if schedule == [] {
      StartingNodesAre(f, d, |d.nodes|);
      assert d.nodes[..|d.nodes|] == d.nodes;
    } else {
      var n := |schedule| - 1;
      StartedBefore(f, d, schedule);
      QueueHoldsReady(f, d, schedule[..n]);
      assert schedule == schedule[..n] + [schedule[n]];
      QueueAfterEmission(f, d, schedule[..n], schedule[n]);
    }
  }

  lemma QueueAfterEmission(f: Func, d: Deps, schedule: seq<nat>, best: nat)
    requires IsStarted(f, d, schedule) && IsReady(f, d, schedule, best) && best < |d.succ|
    requires QueueIsReady(f, d, schedule, Queue(f, d, schedule))
    ensures QueueIsReady(f, d, schedule + [best], Queue(f, d, schedule + [best]))
  {
    var all, succs := schedule + [best], d.succ[best];
    var old_, freed := Without(Queue(f, d, schedule), best), Freed(f, d, all, succs, |succs|);
    assert all[..|schedule|] == schedule;
    WithoutNoDup(Queue(f, d, schedule), best);
    FreedAre(f, d, all, succs, |succs|);
    assert succs[..|succs|] == succs;
    forall n: nat
      ensures n in old_ + freed <==> IsReady(f, d, all, n)
      ensures !(n in old_ && n in freed)
    {
      WithoutContents(Queue(f, d, schedule), best, n);
      ReadyAfter(f, d, schedule, best, n);
    }
    JoinedNoDup(old_, freed);
  }

  lemma JoinedNoDup(a: seq<nat>, b: seq<nat>)
    requires NoDup(a) && NoDup(b) && forall n :: n in a ==> n !in b
    ensures NoDup(a + b)
  {
    forall i, j | 0 <= i < j < |a + b|
      ensures (a + b)[i] != (a + b)[j]
    {
      assert i < |a| <= j ==> a[i] in a && b[j - |a|] in b;
    }
  }

  // ----- First come, first served -----

  /** Node n came into the queue with the k-th emission, or was there from the start. */
  ghost predicate EntersAt(d: Deps, schedule: seq<nat>, n: nat, k: nat) {
    && k <= |schedule| && n < |d.pred|
    && (forall p :: p in d.pred[n] ==> p in schedule[..k])
    && (k > 0 ==> schedule[k - 1] in d.pred[n])
  }

  /** a came in before b; of two that came in together the one listed first goes first. */
  ghost predicate CameBefore(d: Deps, schedule: seq<nat>, a: nat, b: nat) {
    forall k, m :: EntersAt(d, schedule, a, k) && EntersAt(d, schedule, b, m) ==>
      k < m || (k == m && StandsBefore(TogetherAt(d, schedule, k), a, b))
  }

  /** The nodes among which those are that come in with the k-th emission, in the order they are looked at. */
  ghost function TogetherAt(d: Deps, schedule: seq<nat>, k: nat): seq<nat> {
    if k == 0 || k > |schedule| then d.nodes
    else if schedule[k - 1] < |d.succ| then d.succ[schedule[k - 1]]
    else []
  }

  ghost predicate IsFifo(d: Deps, schedule: seq<nat>, queue: seq<nat>) {
    forall i, j :: 0 <= i < j < |queue| ==> CameBefore(d, schedule, queue[i], queue[j])
  }

  lemma {:induction false} StartingNodesListed(f: Func, d: Deps, n: nat, i: nat, j: nat)
    requires n <= |d.nodes| && i < j < |StartingNodes(f, d, n)|
    ensures StandsBefore(d.nodes[..n], StartingNodes(f, d, n)[i], StartingNodes(f, d, n)[j])
  {
    var rest := StartingNodes(f, d, n - 1);
    assert d.nodes[..n] == d.nodes[..n - 1] + [d.nodes[n - 1]];
    if j < |rest| {
      StartingNodesListed(f, d, n - 1, i, j);
      var x, y :| 0 <= x < y < n - 1 && d.nodes[..n - 1][x] == rest[i] && d.nodes[..n - 1][y] == rest[j];
      assert d.nodes[..n][x] == rest[i] && d.nodes[..n][y] == rest[j];
    } else {
      StartingFrom(f, d, n - 1, rest[i]);
      var x :| 0 <= x < n - 1 && d.nodes[..n - 1][x] == rest[i];
      assert d.nodes[..n][x] == rest[i] && d.nodes[..n][n - 1] == StartingNodes(f, d, n)[j];
    }
  }

  lemma {:induction false} StartingFrom(f: Func, d: Deps, n: nat, x: nat)
    requires n <= |d.nodes| && x in StartingNodes(f, d, n)
    ensures x in d.nodes[..n]
  {
    assert d.nodes[..n] == d.nodes[..n - 1] + [d.nodes[n - 1]];
    if x in StartingNodes(f, d, n - 1) {
      StartingFrom(f, d, n - 1, x);
    }
  }

  lemma {:induction false} FreedListed(f: Func, d: Deps, schedule: seq<nat>, succs: seq<nat>, k: nat, i: nat, j: nat)
    requires NoDup(succs) && k <= |succs| && i < j < |Freed(f, d, schedule, succs, k)|
    ensures StandsBefore(succs[..k], Freed(f, d, schedule, succs, k)[i], Freed(f, d, schedule, succs, k)[j])
  {
    var rest := Freed(f, d, schedule, succs, k - 1);
    assert succs[..k] == succs[..k - 1] + [succs[k - 1]];
    if j < |rest| {
      FreedListed(f, d, schedule, succs, k - 1, i, j);
      var x, y :| 0 <= x < y < k - 1 && succs[..k - 1][x] == rest[i] && succs[..k - 1][y] == rest[j];
      assert succs[..k][x] == rest[i] && succs[..k][y] == rest[j];
    } else {
      FreedAre(f, d, schedule, succs, k - 1);
      assert rest[i] in succs[..k - 1];
      var x :| 0 <= x < k - 1 && succs[..k - 1][x] == rest[i];
      assert succs[..k][x] == rest[i] && succs[..k][k - 1] == Freed(f, d, schedule, succs, k)[j];
    }
  }

  /** A ready node came in by now; later emissions do not change when. */
  lemma EntersEarlier(f: Func, d: Deps, schedule: seq<nat>, best: nat, n: nat, k: nat)
    requires IsStarted(f, d, schedule) && best !in schedule && IsReady(f, d, schedule, n)
    ensures EntersAt(d, schedule + [best], n, k) ==> k <= |schedule| && EntersAt(d, schedule, n, k)
  {
    if EntersAt(d, schedule + [best], n, k) {
      if k <= |schedule| {
        assert (schedule + [best])[..k] == schedule[..k];
      }
    }
  }

  lemma EntersNow(f: Func, d: Deps, schedule: seq<nat>, best: nat, n: nat, k: nat)
    requires IsStarted(f, d, schedule) && best !in schedule && best < |d.succ| && n in d.succ[best]
    ensures EntersAt(d, schedule + [best], n, k) ==> k == |schedule| + 1
  {
    assert Edge(d.succ, best, n);
    assert Edge(d.pred, n, best);
    if k <= |schedule| {
      assert (schedule + [best])[..k] == schedule[..k];
    }
  }

  lemma SameTogether(d: Deps, schedule: seq<nat>, best: nat, k: nat)
    requires k <= |schedule|
    ensures TogetherAt(d, schedule + [best], k) == TogetherAt(d, schedule, k)
  {
  }

  lemma StillBefore(f: Func, d: Deps, schedule: seq<nat>, best: nat, a: nat, b: nat)
    requires IsStarted(f, d, schedule) && best !in schedule && IsReady(f, d, schedule, a) && IsReady(f, d, schedule, b)
    requires CameBefore(d, schedule, a, b)
    ensures CameBefore(d, schedule + [best], a, b)
  {
    forall k, m | EntersAt(d, schedule + [best], a, k) && EntersAt(d, schedule + [best], b, m)
      ensures k < m || (k == m && StandsBefore(TogetherAt(d, schedule + [best], k), a, b))
    {
      EntersEarlier(f, d, schedule, best, a, k);
      EntersEarlier(f, d, schedule, best, b, m);
      SameTogether(d, schedule, best, k);
    }
  }

  lemma OldBeforeFreed(f: Func, d: Deps, schedule: seq<nat>, best: nat, a: nat, b: nat)
    requires IsStarted(f, d, schedule) && best !in schedule && best < |d.succ|
    requires IsReady(f, d, schedule, a) && b in d.succ[best]
    ensures CameBefore(d, schedule + [best], a, b)
  {
    forall k, m | EntersAt(d, schedule + [best], a, k) && EntersAt(d, schedule + [best], b, m)
      ensures k < m
    {
      EntersEarlier(f, d, schedule, best, a, k);
      EntersNow(f, d, schedule, best, b, m);
    }
  }

  lemma FreedTogether(f: Func, d: Deps, schedule: seq<nat>, best: nat, a: nat, b: nat)
    requires IsStarted(f, d, schedule) && best !in schedule && best < |d.succ|
    requires a in d.succ[best] && b in d.succ[best] && StandsBefore(d.succ[best], a, b)
    ensures CameBefore(d, schedule + [best], a, b)
  {
    forall k, m | EntersAt(d, schedule + [best], a, k) && EntersAt(d, schedule + [best], b, m)
      ensures k == m && StandsBefore(TogetherAt(d, schedule + [best], k), a, b)
    {
      EntersNow(f, d, schedule, best, a, k);
      EntersNow(f, d, schedule, best, b, m);
    }
  }

  /** The queue serves in the order of arrival. */
  lemma {:induction false} QueueIsFifo(f: Func, d: Deps, schedule: seq<nat>)
    requires IsStarted(f, d, schedule)
    ensures IsFifo(d, schedule, Queue(f, d, schedule))
  {
    if schedule == [] {
      var queue := StartingNodes(f, d, |d.nodes|);
      assert d.nodes[..|d.nodes|] == d.nodes;
      forall i, j | 0 <= i < j < |queue|
        ensures CameBefore(d, [], queue[i], queue[j])
      {
        StartingNodesListed(f, d, |d.nodes|, i, j);
      }
    } else {
      var n := |schedule| - 1;
      StartedBefore(f, d, schedule);
      QueueIsFifo(f, d, schedule[..n]);
      QueueHoldsReady(f, d, schedule[..n]);
      assert schedule == schedule[..n] + [schedule[n]];
      FifoAfterEmission(f, d, schedule[..n], schedule[n]);
    }
  }

  /** Two nodes that remain in the queue keep their order. */
  lemma RestIsFifo(f: Func, d: Deps, schedule: seq<nat>, best: nat, queue: seq<nat>)
    requires IsStarted(f, d, schedule) && best !in schedule
    requires (forall n :: n in queue ==> IsReady(f, d, schedule, n)) && IsFifo(d, schedule, queue)
    ensures IsFifo(d, schedule + [best], Without(queue, best))
  {
    var rest := Without(queue, best);
    forall i, j | 0 <= i < j < |rest|
      ensures CameBefore(d, schedule + [best], rest[i], rest[j])
    {
      var p, q := WithoutKeepsOrder(queue, best, i, j);
      StillBefore(f, d, schedule, best, queue[p], queue[q]);
    }
  }

  lemma FreedIsFifo(f: Func, d: Deps, schedule: seq<nat>, best: nat)
    requires IsStarted(f, d, schedule) && best !in schedule && best < |d.succ|
    ensures IsFifo(d, schedule + [best], Freed(f, d, schedule + [best], d.succ[best], |d.succ[best]|))
  {
    var succs := d.succ[best];
    var freed := Freed(f, d, schedule + [best], succs, |succs|);
    assert succs[..|succs|] == succs;
    FreedAre(f, d, schedule + [best], succs, |succs|);
    forall i, j | 0 <= i < j < |freed|
      ensures CameBefore(d, schedule + [best], freed[i], freed[j])
    {
      assert freed[i] in freed && freed[j] in freed;
      FreedListed(f, d, schedule + [best], succs, |succs|, i, j);
      FreedTogether(f, d, schedule, best, freed[i], freed[j]);
    }
  }

  lemma JoinedIsFifo(d: Deps, schedule: seq<nat>, a: seq<nat>, b: seq<nat>)
    requires IsFifo(d, schedule, a) && IsFifo(d, schedule, b)
    requires forall x, y :: x in a && y in b ==> CameBefore(d, schedule, x, y)
    ensures IsFifo(d, schedule, a + b)
  {
    forall i, j | 0 <= i < j < |a + b|
      ensures CameBefore(d, schedule, (a + b)[i], (a + b)[j])
    {
      assert i < |a| <= j ==> a[i] in a && b[j - |a|] in b;
    }
  }

  lemma FifoAfterEmission(f: Func, d: Deps, schedule: seq<nat>, best: nat)
    requires IsStarted(f, d, schedule) && best !in schedule && IsReady(f, d, schedule, best) && best < |d.succ|
    requires QueueIsReady(f, d, schedule, Queue(f, d, schedule)) && IsFifo(d, schedule, Queue(f, d, schedule))
    ensures IsFifo(d, schedule + [best], Queue(f, d, schedule + [best]))
  {
    var all, succs := schedule + [best], d.succ[best];
    var rest, freed := Without(Queue(f, d, schedule), best), Freed(f, d, all, succs, |succs|);
    assert all[..|schedule|] == schedule && succs[..|succs|] == succs;
    RestIsFifo(f, d, schedule, best, Queue(f, d, schedule));
    FreedIsFifo(f, d, schedule, best);
    FreedAre(f, d, all, succs, |succs|);
    forall x, y | x in rest && y in freed
      ensures CameBefore(d, all, x, y)
    {
      WithoutContents(Queue(f, d, schedule), best, x);
      OldBeforeFreed(f, d, schedule, best, x, y);
    }
    JoinedIsFifo(d, all, rest, freed);
  }

  // ----- The rules leave no choice -----

  lemma NextIsReady(f: Func, d: Deps, schedule: seq<nat>, n: nat)
    requires DepsOk(d) && IsListSchedule(f, d, schedule) && n < |schedule|
    ensures IsReady(f, d, schedule[..n], schedule[n])
  {
    var i := schedule[n];
    assert i in schedule;
    assert PathTo(d.succ, [i], i, i);
    forall p | p in d.pred[i]
      ensures p in schedule[..n]
    {
      assert Edge(d.pred, schedule[n], p);
    }
  }

  lemma {:induction false} SameUpTo(f: Func, d: Deps, o: Options, cp: seq<nat>, live: set<Ref>, s: seq<nat>,
                                    t: seq<nat>, n: nat)
    requires DepsOk(d) && IsListSchedule(f, d, s) && IsListSchedule(f, d, t)
    requires IsGreedy(f, d, o, cp, live, s) && IsGreedy(f, d, o, cp, live, t)
    requires n <= |s| && n <= |t|
    ensures s[..n] == t[..n]
  {
    if n > 0 {
      SameUpTo(f, d, o, cp, live, s, t, n - 1);
      NextIsReady(f, d, s, n - 1);
      NextIsReady(f, d, t, n - 1);
      assert Unbeaten(f, d, o, cp, live, s, n - 1) && Unbeaten(f, d, o, cp, live, t, n - 1);
      OneBest(f, o, cp, LiveAt(f, o, live, s, n - 1), Queue(f, d, s[..n - 1]), s[n - 1], t[n - 1]);
      assert s[..n] == s[..n - 1] + [s[n - 1]] && t[..n] == t[..n - 1] + [t[n - 1]];
    }
  }

  lemma OneBest(f: Func, o: Options, cp: seq<nat>, live: set<Ref>, queue: seq<nat>, a: nat, b: nat)
    requires !Beats(f, o, cp, live, a, b) && !Beats(f, o, cp, live, b, a)
    requires FirstInLine(f, o, cp, live, queue, a) && FirstInLine(f, o, cp, live, queue, b)
    ensures a == b
  {
    var i :| 0 <= i < |queue| && queue[i] == a && forall j :: 0 <= j < i ==> Beats(f, o, cp, live, a, queue[j]);
    var k :| 0 <= k < |queue| && queue[k] == b && forall j :: 0 <= j < k ==> Beats(f, o, cp, live, b, queue[j]);
  }

  /** A graph has exactly one greedy list schedule: longest critical path, then lowest pressure, then first come. */
  lemma ScheduleIsUnique(f: Func, d: Deps, o: Options, cp: seq<nat>, live: set<Ref>, s: seq<nat>, t: seq<nat>)
    requires DepsOk(d) && IsListSchedule(f, d, s) && IsListSchedule(f, d, t)
    requires IsGreedy(f, d, o, cp, live, s) && IsGreedy(f, d, o, cp, live, t)
    ensures s == t
  {
    assert forall n: nat :: n in s <==> n in t;
    if |s| >= |t| {
      SameElements(s, t);
    } else {
      SameElements(t, s);
    }
    SameUpTo(f, d, o, cp, live, s, t, |s|);
    assert s[..|s|] == s && t[..|t|] == t;
  }
}
