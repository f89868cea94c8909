/** What a function does when it runs, and when two functions do the same.

    A world fixes the meaning of every instruction, the argument values and the initial memory.
    Values, memories and events are opaque codes. Pure instructions compute from their operands and may
    trap; whatever has an effect reads and changes the memory and emits an event; the terminator picks a
    successor.
    PHIs read the values that held when control left the predecessor.
 */
module Semantics {
  import opened Graphs
  import opened Ir

  datatype Effect = Effect(value: int, mem: int, event: int, continues: bool)
  datatype Branch = Branch(value: int, mem: int, event: int, next: Option<nat>)

  datatype World = World(
    pure: (nat, seq<int>) -> Option<int>,
    effect: (nat, seq<int>, int) -> Effect,
    branch: (nat, seq<int>, int) -> Branch,
    args: nat -> int,
    mem: int)

  type Env = map<nat, int>

  /** The state inside a block. `next` is the index of the chosen successor, None when the function exits. */
  datatype State =
    | Running(env: Env, mem: int, events: seq<int>)
    | Jumped(env: Env, mem: int, events: seq<int>, next: Option<nat>)
    | Trapped(mem: int, events: seq<int>)

  /** Where control came from, with the environment that held on leaving there. */
  datatype Entry = Entry(pred: Option<nat>, env: Env)

  function Read(w: World, env: Env, r: Ref): int {
    match r
    case Inst(d) => if d in env then env[d] else 0
    case Arg(n) => w.args(n)
    case Const(c) => c
  }

  function ReadAll(w: World, env: Env, rs: seq<Ref>): seq<int> {
    seq(|rs|, k requires 0 <= k < |rs| => Read(w, env, rs[k]))
  }

  /** The value pure instruction i would compute from env; None when it traps. */
  function Eval(f: Func, w: World, i: nat, env: Env): Option<int>
    requires i < |f.info|
  {
    w.pure(i, ReadAll(w, env, f.info[i].operands))
  }

  function Step(f: Func, w: World, from: Entry, s: State, i: nat): State {
    if !s.Running? || i >= |f.info| then s
    else
      var instr := f.info[i];
      var vals := ReadAll(w, s.env, instr.operands);
      if instr.isPhi then
        match from.pred
        case None => Trapped(s.mem, s.events)
        case Some(p) =>
          match PhiOperand(instr, p)
          case None => Trapped(s.mem, s.events)
          case Some(r) => Running(s.env[i := Read(w, from.env, r)], s.mem, s.events)
      else if instr.isTerminator then
        var br := w.branch(i, vals, s.mem);
        Jumped(s.env[i := br.value], br.mem, s.events + [br.event], br.next)
      else if HasEffect(instr) then
        var e := w.effect(i, vals, s.mem);
        if e.continues then Running(s.env[i := e.value], e.mem, s.events + [e.event])
        else Trapped(e.mem, s.events + [e.event])
      else
        match w.pure(i, vals)
        case None => Trapped(s.mem, s.events)
        case Some(v) => Running(s.env[i := v], s.mem, s.events)
  }

  /** Executing straight-line code. */
  function Exec(f: Func, w: World, from: Entry, s: State, code: seq<nat>): State {
    if code == [] then s
    else Step(f, w, from, Exec(f, w, from, s, code[..|code| - 1]), code[|code| - 1])
  }

  datatype Config =
    | At(block: nat, from: Entry, mem: int, events: seq<int>, path: seq<nat>)
    | Stopped(trapped: bool, mem: int, events: seq<int>, path: seq<nat>)

  function Enter(f: Func, w: World, c: Config): State
    requires c.At?
  {
    Running(c.from.env, c.mem, c.events)
  }

  function BlockStep(f: Func, w: World, c: Config): Config {
    if !c.At? || c.block >= |f.layout| then c
    else
      match Exec(f, w, c.from, Enter(f, w, c), f.layout[c.block])
      case Jumped(env, mem, events, Some(n)) =>
        if c.block < |f.succ| && n < |f.succ[c.block]| then
          var t := f.succ[c.block][n];
          At(t, Entry(Some(c.block), env), mem, events, c.path + [t])
        else
          Stopped(true, mem, events, c.path)
      case Jumped(env, mem, events, None) => Stopped(false, mem, events, c.path)
      case Running(_, mem, events) => Stopped(true, mem, events, c.path)
      case Trapped(mem, events) => Stopped(true, mem, events, c.path)
  }

  /** The configuration after at most n blocks. */
  function Run(f: Func, w: World, n: nat): Config {
    if n == 0 then At(0, Entry(None, map[]), w.mem, [], [0])
    else BlockStep(f, w, Run(f, w, n - 1))
  }

  /** What can be seen of a run: the block path, the memory, the events, and whether and how it stopped. */
  datatype Observation = Observation(path: seq<nat>, mem: int, events: seq<int>, running: bool, trapped: bool)

  function Observe(c: Config): Observation {
    Observation(c.path, c.mem, c.events, c.At?, c.Stopped? && c.trapped)
  }

  ghost predicate SameRuns(f: Func, g: Func, w: World) {
    forall n: nat :: Observe(Run(f, w, n)) == Observe(Run(g, w, n))
  }

  /** The same configuration after every number of blocks, environments included. */
  ghost predicate SameStates(f: Func, g: Func, w: World) {
    forall n: nat :: Run(f, w, n) == Run(g, w, n)
  }

  lemma SameStatesSameRuns(f: Func, g: Func, w: World)
    requires SameStates(f, g, w)
    ensures SameRuns(f, g, w)
  {
    forall n: nat
      ensures Observe(Run(f, w, n)) == Observe(Run(g, w, n))
    {
      assert Run(f, w, n) == Run(g, w, n);
    }
  }

  lemma SameStatesTransitive(f: Func, g: Func, h: Func, w: World)
    requires SameStates(f, g, w) && SameStates(g, h, w)
    ensures SameStates(f, h, w)
  {
    forall n: nat
      ensures Run(f, w, n) == Run(h, w, n)
    {
      assert Run(f, w, n) == Run(g, w, n);
    }
  }

  lemma SameRunsTransitive(f: Func, g: Func, h: Func, w: World)
    requires SameRuns(f, g, w) && SameRuns(g, h, w)
    ensures SameRuns(f, h, w)
  {
    forall n: nat
      ensures Observe(Run(f, w, n)) == Observe(Run(h, w, n))
    {
      assert Observe(Run(f, w, n)) == Observe(Run(g, w, n));
    }
  }

  lemma {:induction false} ExecAppend(f: Func, w: World, from: Entry, s: State, a: seq<nat>, b: seq<nat>)
    ensures Exec(f, w, from, s, a + b) == Exec(f, w, from, Exec(f, w, from, s, a), b)
    decreases |b|
  {
    if b == [] {
      assert a + b == a;
    } else {
      var n := |b| - 1;
      assert (a + b)[..|a + b| - 1] == a + b[..n];
      assert (a + b)[|a + b| - 1] == b[n];
      ExecAppend(f, w, from, s, a, b[..n]);
    }
  }

  lemma {:induction false} ExecStays(f: Func, w: World, from: Entry, s: State, code: seq<nat>)
    requires !s.Running?
    ensures Exec(f, w, from, s, code) == s
  {
    if code != [] {
      ExecStays(f, w, from, s, code[..|code| - 1]);
    }
  }

  lemma ExecSnoc(f: Func, w: World, from: Entry, s: State, code: seq<nat>, k: nat)
    requires k < |code|
    ensures Exec(f, w, from, s, code[..k + 1]) == Step(f, w, from, Exec(f, w, from, s, code[..k]), code[k])
  {
    assert code[..k + 1][..k] == code[..k];
  }

  lemma ReadAllAgree(w: World, e1: Env, e2: Env, rs: seq<Ref>)
    requires forall r :: r in rs ==> Read(w, e1, r) == Read(w, e2, r)
    ensures ReadAll(w, e1, rs) == ReadAll(w, e2, rs)
  {
    assert forall k :: 0 <= k < |rs| ==> rs[k] in rs;
  }

  /** A run only ever stands in reachable blocks, and its next block is a successor of the last. */
  lemma {:induction false} RunReachable(f: Func, w: World, n: nat)
    requires WellFormed(f)
    ensures Run(f, w, n).At? ==> Reachable(f.succ, Run(f, w, n).block) && Run(f, w, n).block < |f.layout|
    ensures Run(f, w, n).At? ==> CameAlongEdge(f, Run(f, w, n))
  {
    if n == 0 {
      assert PathTo(f.succ, [0], 0, 0);
    } else {
      RunReachable(f, w, n - 1);
      var c, d := Run(f, w, n - 1), Run(f, w, n);
      if c.At? && d.At? {
        assert Edge(f.succ, c.block, d.block);
        ReachesStep(f.succ, 0, c.block, d.block);
      }
    }
  }

  ghost predicate CameAlongEdge(f: Func, c: Config)
    requires c.At?
  {
    match c.from.pred
    case None => c.block == 0 && c.from.env == map[]
    case Some(p) => Edge(f.succ, p, c.block) && Reachable(f.succ, p)
  }
}
