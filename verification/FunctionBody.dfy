/** The function being rewritten, as an object whose blocks are changed in place. */
module FunctionBodies {
  import opened Graphs
  import opened Ir
  import opened Lists

  /** The layout after `I->moveBefore` takes i out of block `home` and puts it before an instruction of block b. */
  function MovedBefore(layout: seq<seq<nat>>, i: nat, home: nat, b: nat, boundary: nat): seq<seq<nat>>
    requires home < |layout| && b < |layout|
  {
    var l := layout[home := Without(layout[home], i)];
    l[b := InsertBefore(l[b], boundary, i)]
  }

  /** Only i moves, out of `home` and to just before the boundary. */
  lemma MovedBeforePlaces(layout: seq<seq<nat>>, i: nat, home: nat, b: nat, boundary: nat)
    requires home < |layout| && b < |layout| && boundary in layout[b] && boundary != i
    ensures var l := MovedBefore(layout, i, home, b, boundary);
      && |l| == |layout|
      && (forall c :: 0 <= c < |l| ==> Without(l[c], i) == Without(layout[c], i))
      && (forall c :: 0 <= c < |l| && c != b ==> (i in l[c] <==> c != home && i in layout[c]))
      && (home == b || i !in layout[b] ==> StandsJustBefore(l[b], i, boundary))
  {
    var l := layout[home := Without(layout[home], i)];
    WithoutContents(layout[home], i, i);
    WithoutContents(layout[home], i, boundary);
    WithoutAbsent(Without(layout[home], i), i);
    InsertedJustBefore(l[b], boundary, i);
  }

  class FunctionBody {
    const info: seq<Instr>
    const succ: Graph
    var layout: seq<seq<nat>>

    function AsFunc(): Func
      reads this
    {
      Func(info, succ, layout)
    }

    constructor (f: Func)
      ensures AsFunc() == f
    {
      info, succ, layout := f.info, f.succ, f.layout;
    }

    /** moveBefore. Every block keeps its other instructions in order, i leaves its block, and it ends up once in
        block b, immediately before the boundary. */
    method MoveBefore(i: nat, home: nat, b: nat, boundary: nat)
      requires home < |layout| && b < |layout|
      requires i in layout[home] && boundary in layout[b] && boundary != i
      modifies this
      ensures layout == MovedBefore(old(layout), i, home, b, boundary)
      ensures |layout| == |old(layout)|
      ensures forall c :: 0 <= c < |layout| ==> Without(layout[c], i) == Without(old(layout)[c], i)
      ensures forall c :: 0 <= c < |layout| && c != b ==> (i in layout[c] <==> c != home && i in old(layout)[c])
      ensures home == b || i !in old(layout)[b] ==> StandsJustBefore(layout[b], i, boundary)
    {
      MovedBeforePlaces(layout, i, home, b, boundary);
      layout := layout[home := Without(layout[home], i)];
      layout := layout[b := InsertBefore(layout[b], boundary, i)];
    }
  }
}
