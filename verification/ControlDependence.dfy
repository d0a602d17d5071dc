/**
 Control dependence inside a loop (buildPDG.cpp): the loop is peeled into a top and a bottom half
 ordered by a depth-first search, and dependences are read off the post-dominator tree of the result.
 */
module ControlDependence {
  import opened DependenceGraph

  type Block = int

  /** The blocks of the loop, and the successors that each block's terminator names. */
  datatype Loop = Loop(blocks: seq<Block>, succ: map<Block, seq<Block>>)

  ghost predicate WellFormed(g: Loop) {
    forall b | b in g.blocks :: b in g.succ
  }

  /** v follows u inside the loop. */
  predicate Follows(g: Loop, u: Block, v: Block) {
    u in g.blocks && u in g.succ && v in g.succ[u] && v in g.blocks
  }

  // ---------------------------------------------------------------- depth-first order

  function Elements(s: seq<Block>): set<Block> {
    set b | b in s
  }

  /** The recursion that led to b: a walk in the loop that ends at b. */
  ghost predicate TrailTo(g: Loop, trail: seq<Block>, b: Block) {
    && trail != [] && trail[|trail| - 1] == b
    && forall k | 0 <= k < |trail| - 1 :: Follows(g, trail[k], trail[k + 1])
  }

  /**
   The recursions nest: whatever block stands in one of them was itself reached by the part of it up to
   that block. So they form a forest, in which the blocks on the way to b are the ancestors of b.
   */
  ghost predicate Nested(above: map<Block, seq<Block>>) {
    forall b, i {:trigger NestedAt(above, b, i)} | b in above && 0 <= i < |above[b]| :: NestedAt(above, b, i)
  }

  ghost predicate NestedAt(above: map<Block, seq<Block>>, b: Block, i: int)
    requires b in above && 0 <= i < |above[b]|
  {
    above[b][i] in above && above[above[b][i]] == above[b][..i + 1]
  }

  /** Among the first `end` blocks to finish, those below u follow on each other without a gap to the end. */
  ghost predicate Grouped(order: seq<Block>, above: map<Block, seq<Block>>, u: Block, end: nat)
    requires end <= |order|
  {
    forall p, q | 0 <= p <= q < end && Under(above, u, order[p]) :: Under(above, u, order[q])
  }

  /** u is b or one of its ancestors. */
  ghost predicate Under(above: map<Block, seq<Block>>, u: Block, b: Block) {
    b in above && u in above[b]
  }

  /** A block finishes right after everything below it. */
  ghost predicate Bracketed(order: seq<Block>, above: map<Block, seq<Block>>, k: nat)
    requires k < |order|
  {
    Grouped(order, above, order[k], k + 1) && forall p | k < p < |order| :: !Under(above, order[k], order[p])
  }

  /** The successors of the k-th block to finish had finished before, except those it was reached from. */
  ghost predicate Judged(g: Loop, order: seq<Block>, above: map<Block, seq<Block>>, k: nat) {
    && k < |order| && order[k] in above
    && forall v | Follows(g, order[k], v) :: v in order[..k] <==> v !in above[order[k]]
  }

  /**
   While the blocks in stack are being visited: order lists the finished ones, above gives for each
   visited block the recursion that led to it, itself included.
   */
  ghost predicate Searching(g: Loop, visited: set<Block>, order: seq<Block>, above: map<Block, seq<Block>>,
                            stack: seq<Block>) {
    && visited == Elements(order) + Elements(stack) && Elements(order) !! Elements(stack)
    && visited <= Elements(g.blocks)
    && NoDuplicates(order) && above.Keys == visited
    && (forall b | b in above :: TrailTo(g, above[b], b)) && Nested(above)
    && (forall i | 0 <= i < |stack| :: above[stack[i]] == stack[..i + 1])
    && (forall i | 0 <= i < |stack| :: Grouped(order, above, stack[i], |order|))
    && (forall k: nat | k < |order| :: Judged(g, order, above, k) && Bracketed(order, above, k))
  }

  lemma VisitBegins(g: Loop, visited: set<Block>, order: seq<Block>, above: map<Block, seq<Block>>, stack: seq<Block>,
                    b: Block)
    requires Searching(g, visited, order, above, stack) && b in g.blocks && b !in visited
    requires stack == [] || Follows(g, stack[|stack| - 1], b)
    ensures Searching(g, visited + {b}, order, above[b := stack + [b]], stack + [b])
  {
    var stack', above' := stack + [b], above[b := stack + [b]];
    assert Elements(stack') == Elements(stack) + {b};
    assert forall x | x in stack :: x in Elements(stack);
    StackGrows(g, above, stack, b);
    BeginNested(above, stack, b);
    assert forall x | x in order :: x in Elements(order);
    BeginGroups(order, above, stack, b);
    BeginJudged(g, order, above, stack, b);
  }

  lemma BeginNested(above: map<Block, seq<Block>>, stack: seq<Block>, b: Block)
    requires Nested(above) && b !in above
    requires var stack', above' := stack + [b], above[b := stack + [b]];
      forall i | 0 <= i < |stack'| :: stack'[i] in above' && above'[stack'[i]] == stack'[..i + 1]
    ensures Nested(above[b := stack + [b]])
  {
    var stack', above' := stack + [b], above[b := stack + [b]];
    forall x, i | x in above' && 0 <= i < |above'[x]| ensures NestedAt(above', x, i) {
      if x == b {
        assert above'[stack'[i]] == stack'[..i + 1];
      } else {
        assert NestedAt(above, x, i);
      }
    }
  }

  lemma BeginJudged(g: Loop, order: seq<Block>, above: map<Block, seq<Block>>, stack: seq<Block>, b: Block)
    requires b !in above && forall x | x in order :: x in above
    requires forall k: nat | k < |order| :: Judged(g, order, above, k)
    ensures var above' := above[b := stack + [b]]; forall k: nat | k < |order| :: Judged(g, order, above', k)
  {
    var above' := above[b := stack + [b]];
    forall k: nat | k < |order| ensures Judged(g, order, above', k) {
      assert Judged(g, order, above, k) && order[k] in order;
    }
  }

  lemma NotAbove(above: map<Block, seq<Block>>, b: Block, x: Block)
    requires Nested(above) && b !in above
    ensures !Under(above, b, x)
  {
    if x in above {
      forall i | 0 <= i < |above[x]| ensures above[x][i] != b {
        assert NestedAt(above, x, i);
      }
    }
  }

  /** A block that is about to be visited is above none of the finished ones. */
  lemma BeginGroups(order: seq<Block>, above: map<Block, seq<Block>>, stack: seq<Block>, b: Block)
    requires Nested(above) && b !in above && forall x | x in order :: x in above
    requires forall i | 0 <= i < |stack| :: Grouped(order, above, stack[i], |order|)
    requires forall k: nat | k < |order| :: Bracketed(order, above, k)
    ensures var stack', above' := stack + [b], above[b := stack + [b]];
      && (forall i | 0 <= i < |stack'| :: Grouped(order, above', stack'[i], |order|))
      && (forall k: nat | k < |order| :: Bracketed(order, above', k))
  {
    var stack', above' := stack + [b], above[b := stack + [b]];
    forall p, u | 0 <= p < |order| ensures Under(above', u, order[p]) <==> Under(above, u, order[p]) {
      assert order[p] in order;
    }
    forall p | 0 <= p < |order| ensures !Under(above, b, order[p]) {
      NotAbove(above, b, order[p]);
    }
    forall i | 0 <= i < |stack'| ensures Grouped(order, above', stack'[i], |order|) {
      if i < |stack| {
        assert Grouped(order, above, stack[i], |order|);
      }
    }
    forall k: nat | k < |order| ensures Bracketed(order, above', k) {
      assert Bracketed(order, above, k);
    }
  }

  lemma StackGrows(g: Loop, above: map<Block, seq<Block>>, stack: seq<Block>, b: Block)
    requires forall x | x in above :: TrailTo(g, above[x], x)
    requires forall i | 0 <= i < |stack| :: stack[i] in above && above[stack[i]] == stack[..i + 1]
    requires b !in above && (stack == [] || Follows(g, stack[|stack| - 1], b))
    ensures TrailTo(g, stack + [b], b)
    ensures var stack', above' := stack + [b], above[b := stack + [b]];
      forall i | 0 <= i < |stack'| :: stack'[i] in above' && above'[stack'[i]] == stack'[..i + 1]
  {
    var stack', above' := stack + [b], above[b := stack + [b]];
    if stack != [] {
      assert above[stack[|stack| - 1]] == stack[..|stack|] == stack;
      assert TrailTo(g, stack, stack[|stack| - 1]);
    }
    forall i | 0 <= i < |stack'| ensures stack'[i] in above' && above'[stack'[i]] == stack'[..i + 1] {
      if i < |stack| {
        assert stack'[i] == stack[i] && stack'[..i + 1] == stack[..i + 1];
      }
    }
  }

  lemma VisitEnds(g: Loop, visited: set<Block>, order: seq<Block>, above: map<Block, seq<Block>>, stack: seq<Block>,
                  b: Block)
    requires Searching(g, visited, order, above, stack + [b]) && b !in stack
    requires forall v | Follows(g, b, v) :: v in visited
    ensures Searching(g, visited, order + [b], above, stack)
  {
    var order', stack' := order + [b], stack + [b];
    assert Elements(stack') == Elements(stack) + {b} && Elements(order') == Elements(order) + {b};
    assert above[stack'[|stack|]] == stack';
    forall i | 0 <= i < |stack| ensures above[stack[i]] == stack[..i + 1] {
      assert stack'[i] == stack[i] && stack'[..i + 1] == stack[..i + 1];
    }
    assert forall x | x in order :: x in Elements(order);
    assert forall x | x in stack' :: x in Elements(stack');
    assert b in stack';
    FinishGroups(order, above, stack, stack', b);
    FinishJudged(g, order, above, stack, b);
  }

  lemma FinishJudged(g: Loop, order: seq<Block>, above: map<Block, seq<Block>>, stack: seq<Block>, b: Block)
    requires b in above && above[b] == stack + [b] && b in stack + [b] && forall x | x in order :: x !in stack + [b]
    requires forall v | Follows(g, b, v) :: v in order || v in stack + [b]
    requires forall k: nat | k < |order| :: Judged(g, order, above, k)
    ensures forall k: nat | k < |order + [b]| :: Judged(g, order + [b], above, k)
  {
    var order' := order + [b];
    forall k: nat | k < |order'| ensures Judged(g, order', above, k) {
      if k < |order| {
        assert Judged(g, order, above, k) && order'[..k] == order[..k];
      } else {
        assert order'[..k] == order;
      }
    }
  }

  lemma FinishGroups(order: seq<Block>, above: map<Block, seq<Block>>, stack: seq<Block>, stack': seq<Block>, b: Block)
    requires (forall x | x in order :: x !in stack') && b in above && above[b] == stack' == stack + [b]
    requires forall i | 0 <= i < |stack'| :: Grouped(order, above, stack'[i], |order|)
    requires forall k: nat | k < |order| :: Bracketed(order, above, k)
    ensures forall i | 0 <= i < |stack| :: Grouped(order + [b], above, stack[i], |order + [b]|)
    ensures forall k: nat | k < |order + [b]| :: Bracketed(order + [b], above, k)
  {
    var order' := order + [b];
    forall i | 0 <= i < |stack| ensures Grouped(order', above, stack[i], |order'|) {
      assert stack'[i] == stack[i] && Grouped(order, above, stack'[i], |order|);
    }
    forall k: nat | k < |order'| ensures Bracketed(order', above, k) {
      if k < |order| {
        assert Bracketed(order, above, k) && order[k] in order;
      } else {
        assert stack'[|stack|] == b && Grouped(order, above, stack'[|stack|], |order|);
      }
    }
  }

  /** What a visit leaves of what was there before. */
  ghost predicate Extends(visited: set<Block>, order: seq<Block>, above: map<Block, seq<Block>>,
                          visited': set<Block>, order': seq<Block>, above': map<Block, seq<Block>>) {
    visited <= visited' && order <= order' && forall b | b in above :: b in above' && above'[b] == above[b]
  }

  class LoopSearch {
    const g: Loop
    var visited: set<Block>
    var order: seq<Block>
    ghost var above: map<Block, seq<Block>>

    constructor (g: Loop)
      ensures this.g == g && visited == {} && order == [] && above == map[]
    {
      this.g := g;
      visited, order, above := {}, [], map[];
    }

    /** dfsVisit; the stack is that of the recursion. */
    method DfsVisit(b: Block, ghost stack: seq<Block>)
      requires WellFormed(g) && Searching(g, visited, order, above, stack) && b in g.blocks && b !in visited
      requires stack == [] || Follows(g, stack[|stack| - 1], b)
      modifies this
      ensures Searching(g, visited, order, above, stack) && b in visited && above[b] == stack + [b]
      ensures Extends(old(visited), old(order), old(above), visited, order, above)
      decreases Elements(g.blocks) - visited
    {
      VisitBegins(g, visited, order, above, stack, b);
      assert b !in Elements(stack);
      ghost var unseen := Elements(g.blocks) - visited;
      visited := visited + {b};
      above := above[b := stack + [b]];
      var i := 0;
      while i < |g.succ[b]|
        invariant 0 <= i <= |g.succ[b]| && b in visited
        invariant Searching(g, visited, order, above, stack + [b]) && above[b] == stack + [b]
        invariant Extends(old(visited), old(order), old(above), visited, order, above)
        invariant forall j | 0 <= j < i :: g.succ[b][j] in g.blocks ==> g.succ[b][j] in visited
      {
        var s := g.succ[b][i];
        if s in g.blocks && s !in visited {
          assert Follows(g, b, s) && (stack + [b])[|stack|] == b;
          assert b in unseen && b !in Elements(g.blocks) - visited;
          DfsVisit(s, stack + [b]);
        }
        i := i + 1;
      }
      VisitEnds(g, visited, order, above, stack, b);
      order := order + [b];
    }

    /** Visit every block of the loop. */
    method Run()
      requires WellFormed(g) && visited == {} && order == [] && above == map[]
      modifies this
      ensures Searched(g, order, above)
    {
      var i := 0;
      while i < |g.blocks|
        invariant 0 <= i <= |g.blocks| && Searching(g, visited, order, above, [])
        invariant forall j | 0 <= j < i :: g.blocks[j] in visited
      {
        if g.blocks[i] !in visited {
          DfsVisit(g.blocks[i], []);
        }
        i := i + 1;
      }
      assert forall b :: b in order <==> b in Elements(order);
      assert forall b | b in visited :: b in Elements(g.blocks);
    }
  }

  /**
   The blocks of the loop in the order in which the visits of a depth-first search ended, with the
   recursions of that search.
   */
  ghost predicate Searched(g: Loop, order: seq<Block>, above: map<Block, seq<Block>>) {
    && NoDuplicates(order) && (forall b :: b in order <==> b in g.blocks)
    && (forall b | b in g.blocks :: b in above && TrailTo(g, above[b], b)) && Nested(above)
    && (forall k: nat | k < |order| :: Judged(g, order, above, k) && Bracketed(order, above, k))
  }

  // ---------------------------------------------------------------- the peeled loop

  /** The blocks of the dummy function; Virtual is the root above the exit in a post-dominator tree, if there is one. */
  datatype Dummy = Top(block: Block) | Bottom(block: Block) | Exit | Virtual

  function Position(order: seq<Block>, b: Block): (k: nat)
    requires b in order
    ensures k < |order| && order[k] == b
  {
    if order[|order| - 1] == b then |order| - 1 else Position(order[..|order| - 1], b)
  }

  /** instnum: the blocks are numbered from the last to finish to the first. */
  function Number(order: seq<Block>, b: Block): nat
    requires b in order
  {
    |order| - 1 - Position(order, b)
  }

  /** A block with a successor outside the loop. */
  predicate Exiting(g: Loop, b: Block) {
    b in g.blocks && b in g.succ && exists v | v in g.succ[b] :: v !in g.blocks
  }

  /** The edges of the dummy function. */
  predicate HalfEdge(g: Loop, order: seq<Block>, d: Dummy, e: Dummy) {
    match (d, e)
    case (Top(u), Top(v)) => Follows(g, u, v) && u in order && v in order && Number(order, v) > Number(order, u)
    case (Top(u), Bottom(v)) => Follows(g, u, v) && u in order && v in order && Number(order, v) <= Number(order, u)
    case (Bottom(u), Bottom(v)) => Follows(g, u, v)
    case (Top(u), Exit) => Exiting(g, u)
    case (Bottom(u), Exit) => Exiting(g, u)
    case _ => false
  }

  lemma PositionUnique(order: seq<Block>, k: nat)
    requires NoDuplicates(order) && k < |order|
    ensures Position(order, order[k]) == k
  {
  }

  /** An edge leaves the top half exactly when its target is an ancestor in the search, or the source itself. */
  lemma LeavesTopExactlyUpwards(g: Loop, order: seq<Block>, above: map<Block, seq<Block>>, u: Block, v: Block)
    requires Searched(g, order, above) && Follows(g, u, v)
    ensures HalfEdge(g, order, Top(u), Bottom(v)) <==> v in above[u]
    ensures HalfEdge(g, order, Top(u), Top(v)) <==> v !in above[u]
  {
    var k := Position(order, u);
    assert Judged(g, order, above, k);
    var p := Position(order, v);
    assert p < k ==> order[..k][p] == v;
    if v in order[..k] {
      var q :| 0 <= q < k && order[..k][q] == v;
      assert q == p;
    }
  }

  ghost predicate IsWalk(g: Loop, w: seq<Block>) {
    w != [] && (forall k | 0 <= k < |w| :: w[k] in g.blocks)
      && forall k | 0 <= k < |w| - 1 :: Follows(g, w[k], w[k + 1])
  }

  ghost predicate IsHalfWalk(g: Loop, order: seq<Block>, d: seq<Dummy>) {
    d != [] && forall k | 0 <= k < |d| - 1 :: HalfEdge(g, order, d[k], d[k + 1])
  }

  /** d goes through the same blocks as w, in the top half first and from some point on in the bottom half. */
  ghost predicate Lifts(w: seq<Block>, d: seq<Dummy>) {
    && |d| == |w| && (forall k | 0 <= k < |d| :: d[k] == Top(w[k]) || d[k] == Bottom(w[k]))
    && (forall k | 0 <= k < |d| - 1 && d[k].Bottom? :: d[k + 1].Bottom?)
  }

  /** Every walk in the loop is a walk of the dummy function that begins at the top and changes halves at most once. */
  lemma {:induction false} EveryWalkLifts(g: Loop, order: seq<Block>, w: seq<Block>) returns (d: seq<Dummy>)
    requires IsWalk(g, w) && forall b :: b in order <==> b in g.blocks
    ensures IsHalfWalk(g, order, d) && Lifts(w, d) && d[0] == Top(w[0])
  {
    var n := |w| - 1;
    if n == 0 {
      d := [Top(w[0])];
    } else {
      var c := EveryWalkLifts(g, order, w[..n]);
      assert Follows(g, w[n - 1], w[n]);
      var next := if c[n - 1].Top? && Number(order, w[n]) > Number(order, w[n - 1]) then Top(w[n]) else Bottom(w[n]);
      d := c + [next];
      forall k | 0 <= k < |d| - 1 ensures HalfEdge(g, order, d[k], d[k + 1]) && (d[k].Bottom? ==> d[k + 1].Bottom?) {
        if k < n - 1 {
          assert d[k] == c[k] && d[k + 1] == c[k + 1];
        }
      }
    }
  }

  /** And every walk of the dummy function between the two halves is a walk in the loop. */
  lemma WalksProject(g: Loop, order: seq<Block>, d: seq<Dummy>, k: nat)
    requires IsHalfWalk(g, order, d) && k < |d| - 1 && (d[k].Top? || d[k].Bottom?)
    requires d[k + 1].Top? || d[k + 1].Bottom?
    ensures Follows(g, d[k].block, d[k + 1].block) && (d[k].Bottom? ==> d[k + 1].Bottom?)
  {
  }

  /** The top half is acyclic. */
  lemma {:induction false} TopHalfAcyclic(g: Loop, order: seq<Block>, d: seq<Dummy>)
    requires IsHalfWalk(g, order, d) && |d| > 1 && forall k | 0 <= k < |d| :: d[k].Top?
    ensures d[0] != d[|d| - 1] && d[0].block in order && d[|d| - 1].block in order
    ensures Number(order, d[0].block) < Number(order, d[|d| - 1].block)
  {
    var n := |d| - 1;
    assert HalfEdge(g, order, d[n - 1], d[n]);
    if n > 1 {
      TopHalfAcyclic(g, order, d[..n]);
    }
  }

  /** The numbers, given out from the end of the order. */
  lemma ElementsFrom(order: seq<Block>, k: nat)
    requires k < |order|
    ensures Elements(order[k..]) == Elements(order[k + 1..]) + {order[k]}
  {
    assert order[k..] == [order[k]] + order[k + 1..];
  }

  method NumberBlocks(order: seq<Block>) returns (num: map<Block, nat>)
    requires NoDuplicates(order)
    ensures num.Keys == Elements(order) && forall b | b in order :: num[b] == Number(order, b)
  {
    num := map[];
    var k := |order|;
    var i: nat := 0;
    while k > 0
      invariant 0 <= k <= |order| && i == |order| - k
      invariant num.Keys == Elements(order[k..])
      invariant forall j | k <= j < |order| :: order[j] in num && num[order[j]] == |order| - 1 - j
    {
      k := k - 1;
      num := num[order[k] := i];
      ElementsFrom(order, k);
      i := i + 1;
    }
    assert order[0..] == order;
    forall b | b in order ensures num[b] == Number(order, b) {
      PositionUnique(order, Position(order, b));
    }
  }

  /** The successors of the dummy of b in one half. */
  ghost predicate CasesOf(g: Loop, order: seq<Block>, d: Dummy, cases: seq<Dummy>) {
    forall e :: e in cases <==> HalfEdge(g, order, d, e)
  }

  /** The switches after the successors in `done` have been looked at. */
  ghost predicate CasesUpTo(g: Loop, order: seq<Block>, d: Dummy, done: seq<Block>, cases: seq<Dummy>) {
    forall e :: e in cases <==> HalfEdge(g, order, d, e) && (e == Exit || e.block in done)
  }

  lemma OneMoreCase(g: Loop, order: seq<Block>, d: Dummy, succs: seq<Block>, i: nat, first: Dummy,
                    cases: seq<Dummy>, cases': seq<Dummy>)
    requires i < |succs| && CasesUpTo(g, order, d, succs[..i], cases)
    requires forall e :: e == first <==> HalfEdge(g, order, d, e) && e != Exit && e.block == succs[i]
    requires cases' == if cases == [] then [first, first] else cases + [first]
    ensures CasesUpTo(g, order, d, succs[..i + 1], cases')
  {
    assert succs[..i + 1] == succs[..i] + [succs[i]];
  }

  lemma NoMoreCase(g: Loop, order: seq<Block>, d: Dummy, succs: seq<Block>, i: nat, cases: seq<Dummy>)
    requires (d.Top? || d.Bottom?) && i < |succs| && succs[i] !in g.blocks
    requires CasesUpTo(g, order, d, succs[..i], cases)
    ensures CasesUpTo(g, order, d, succs[..i + 1], cases)
  {
    assert succs[..i + 1] == succs[..i] + [succs[i]];
  }

  /** The switches of the two dummies of b; the first destination is also the default one. */
  method MakeSwitches(g: Loop, order: seq<Block>, num: map<Block, nat>, b: Block)
    returns (top: seq<Dummy>, bottom: seq<Dummy>)
    requires WellFormed(g) && b in g.blocks && (forall x :: x in order <==> x in g.blocks)
    requires num.Keys == Elements(order) && forall x | x in order :: num[x] == Number(order, x)
    ensures CasesOf(g, order, Top(b), top) && CasesOf(g, order, Bottom(b), bottom)
  {
    assert b in Elements(order);
    top, bottom := [], [];
    if exists v | v in g.succ[b] :: v !in g.blocks {
      top, bottom := [Exit, Exit], [Exit, Exit];
    }
    var i := 0;
    while i < |g.succ[b]|
      invariant 0 <= i <= |g.succ[b]|
      invariant CasesUpTo(g, order, Top(b), g.succ[b][..i], top)
      invariant CasesUpTo(g, order, Bottom(b), g.succ[b][..i], bottom)
    {
      var s := g.succ[b][i];
      ghost var top0, bottom0 := top, bottom;
      if s in g.blocks {
        assert s in Elements(order) && Follows(g, b, s);
        var first := if num[s] <= num[b] then Bottom(s) else Top(s);
        top := if top == [] then [first, first] else top + [first];
        bottom := if bottom == [] then [Bottom(s), Bottom(s)] else bottom + [Bottom(s)];
        OneMoreCase(g, order, Top(b), g.succ[b], i, first, top0, top);
        OneMoreCase(g, order, Bottom(b), g.succ[b], i, Bottom(s), bottom0, bottom);
      } else {
        NoMoreCase(g, order, Top(b), g.succ[b], i, top);
        NoMoreCase(g, order, Bottom(b), g.succ[b], i, bottom);
      }
      i := i + 1;
    }
    assert g.succ[b][..i] == g.succ[b];
  }

  method Peel(g: Loop, order: seq<Block>) returns (dummies: seq<Dummy>, cases: map<Dummy, seq<Dummy>>)
    requires WellFormed(g) && NoDuplicates(order) && forall b :: b in order <==> b in g.blocks
    ensures forall d :: d in dummies <==> (d.Top? || d.Bottom?) && d.block in g.blocks
    ensures forall d | d in dummies :: d in cases && CasesOf(g, order, d, cases[d])
  {
    var num := NumberBlocks(order);
    dummies, cases := [], map[];
    var k := |order|;
    while k > 0
      invariant 0 <= k <= |order|
      invariant forall d :: d in dummies <==> (d.Top? || d.Bottom?) && d.block in order[k..]
      invariant forall d | d in dummies :: d in cases && CasesOf(g, order, d, cases[d])
    {
      k := k - 1;
      var b := order[k];
      assert order[k..] == [b] + order[k + 1..];
      var top, bottom := MakeSwitches(g, order, num, b);
      dummies := dummies + [Top(b), Bottom(b)];
      cases := cases[Top(b) := top][Bottom(b) := bottom];
    }
    assert order[0..] == order;
  }

  // ---------------------------------------------------------------- reading off the tree

  datatype Option<T> = None | Some(value: T)

  /** A post-dominator tree: the immediate post-dominator of each node, and depths that show it is a tree. */
  datatype Tree = Tree(up: Dummy -> Option<Dummy>, depth: Dummy -> nat)

  /** Above the exit there is at most the virtual root. */
  ghost predicate TreeOk(t: Tree) {
    && (forall d :: t.up(d).Some? ==> t.depth(t.up(d).value) < t.depth(d))
    && t.up(Virtual).None? && (t.up(Exit).Some? ==> t.up(Exit).value == Virtual)
  }

  /** d and everything above it. */
  ghost function Ancestors(t: Tree, d: Dummy): set<Dummy>
    requires TreeOk(t)
    decreases t.depth(d)
  {
    {d} + if t.up(d).Some? then Ancestors(t, t.up(d).value) else {}
  }

  /** findNearestCommonDominator */
  ghost predicate IsNearest(t: Tree, a: Dummy, s: Dummy, n: Dummy)
    requires TreeOk(t)
  {
    n in Ancestors(t, a) && n in Ancestors(t, s)
      && forall m | m in Ancestors(t, a) && m in Ancestors(t, s) :: m in Ancestors(t, n)
  }

  lemma {:induction false} AncestorsNest(t: Tree, d: Dummy, n: Dummy)
    requires TreeOk(t) && n in Ancestors(t, d)
    ensures Ancestors(t, n) <= Ancestors(t, d) && (n != d ==> t.depth(n) < t.depth(d))
    decreases t.depth(d)
  {
    if n != d {
      AncestorsNest(t, t.up(d).value, n);
    }
  }

  /** The walk from a successor s of the branching block a up to, and without, the nearest common node or the exit. */
  method MarkDependents(t: Tree, a: Dummy, s: Dummy, n: Dummy) returns (marked: seq<Dummy>)
    requires TreeOk(t) && IsNearest(t, a, s, n)
    ensures forall m :: m in marked <==> m in Ancestors(t, s) && m !in Ancestors(t, a) && m != Exit
  {
    marked := [];
    var cur := s;
    while cur != n && cur != Exit
      invariant n in Ancestors(t, cur) && Ancestors(t, cur) <= Ancestors(t, s)
      invariant forall m :: m in Ancestors(t, s) <==> m in marked || m in Ancestors(t, cur)
      invariant forall m | m in marked :: m !in Ancestors(t, a) && m != Exit && m in Ancestors(t, s)
      decreases t.depth(cur)
    {
      StrictlyBelow(t, a, s, n, cur);
      marked := marked + [cur];
      cur := t.up(cur).value;
    }
    AncestorsNest(t, a, n);
    if cur == Exit && cur != n {
      assert forall m | m in Ancestors(t, Exit) :: m == Exit || m == Virtual;
    }
  }

  /** Below the nearest common node nothing is common. */
  lemma StrictlyBelow(t: Tree, a: Dummy, s: Dummy, n: Dummy, cur: Dummy)
    requires TreeOk(t) && IsNearest(t, a, s, n) && cur in Ancestors(t, s) && n in Ancestors(t, cur) && cur != n
    ensures cur !in Ancestors(t, a) && t.up(cur).Some? && n in Ancestors(t, t.up(cur).value)
    ensures Ancestors(t, t.up(cur).value) <= Ancestors(t, s)
  {
    AncestorsNest(t, cur, n);
    AncestorsNest(t, s, cur);
    AncestorsNest(t, s, t.up(cur).value);
    if cur in Ancestors(t, a) {
      AncestorsNest(t, n, cur);
    }
  }

  /** Walking up from anywhere, the virtual root comes last. */
  lemma {:induction false} VirtualIsLast(t: Tree, s: Dummy, n: Dummy)
    requires TreeOk(t) && Virtual in Ancestors(t, s) && n in Ancestors(t, s)
    ensures Virtual in Ancestors(t, n)
    decreases t.depth(s)
  {
    if n != s && s != Virtual {
      VirtualIsLast(t, t.up(s).value, n);
    }
  }

  /** d branches to s, and m is s or post-dominates it, but not d. */
  ghost predicate Witness(t: Tree, d: Dummy, s: Dummy, m: Dummy)
    requires TreeOk(t)
  {
    m in Ancestors(t, s) && m !in Ancestors(t, d) && m != Exit
  }

  /** The instructions of the blocks: their terminators, and all of them in order. */
  datatype Code = Code(terminator: Block -> Instr, body: Block -> seq<Instr>)

  /** e makes an instruction of the block of m depend on the branch at the end of the block of d. */
  ghost predicate Because(t: Tree, code: Code, d: Dummy, s: Dummy, m: Dummy, e: Edge)
    requires TreeOk(t)
  {
    && Witness(t, d, s, m) && (m.Top? || m.Bottom?) && (d.Top? || d.Bottom?)
    && Among(e, code.terminator(d.block), code.body(m.block))
  }

  /** The control edges from u to these instructions. */
  ghost predicate Among(e: Edge, u: Instr, body: seq<Instr>) {
    e.u == u && e.v in body && e.dtype == CONTROL
  }

  lemma OneMoreAmong(all: seq<Edge>, before: seq<Edge>, after: seq<Edge>, u: Instr, body: seq<Instr>, k: nat)
    requires k < |body| && after == WithEdge(before, Edge(u, body[k], CONTROL))
    requires forall e :: e in before <==> e in all || Among(e, u, body[..k])
    ensures forall e :: e in after <==> e in all || Among(e, u, body[..k + 1])
  {
    assert body[..k + 1] == body[..k] + [body[k]];
    forall e ensures e in after <==> e in before || e == Edge(u, body[k], CONTROL) {
    }
    forall e ensures Among(e, u, body[..k + 1]) <==> Among(e, u, body[..k]) || e == Edge(u, body[k], CONTROL) {
    }
  }

  method AddForBlock(graph: Pdg, u: Instr, body: seq<Instr>)
    requires graph.Valid()
    modifies graph
    ensures graph.Valid()
    ensures forall e :: e in graph.allEdges <==> e in old(graph.allEdges) || Among(e, u, body)
  {
    var k := 0;
    while k < |body|
      invariant 0 <= k <= |body| && graph.Valid()
      invariant forall e :: e in graph.allEdges <==> e in old(graph.allEdges) || Among(e, u, body[..k])
    {
      ghost var before := graph.allEdges;
      graph.AddEdge(u, body[k], CONTROL);
      OneMoreAmong(old(graph.allEdges), before, graph.allEdges, u, body, k);
      k := k + 1;
    }
    assert body[..k] == body;
  }

  /** e is the edge from u to an instruction of the block of m. */
  ghost predicate Into(code: Code, u: Instr, m: Dummy, e: Edge) {
    (m.Top? || m.Bottom?) && Among(e, u, code.body(m.block))
  }

  method AddForMarked(graph: Pdg, code: Code, u: Instr, marked: seq<Dummy>)
    requires graph.Valid() && forall m | m in marked :: m.Top? || m.Bottom?
    modifies graph
    ensures graph.Valid()
    ensures forall e ::
            e in graph.allEdges <==> e in old(graph.allEdges) || exists m :: m in marked && Into(code, u, m, e)
  {
    var k := 0;
    while k < |marked|
      invariant 0 <= k <= |marked| && graph.Valid()
      invariant forall e ::
                e in graph.allEdges <==> e in old(graph.allEdges) || exists m :: m in marked[..k] && Into(code, u, m, e)
    {
      assert marked[k] in marked;
      assert marked[..k + 1] == marked[..k] + [marked[k]];
      ghost var before := graph.allEdges;
      AddForBlock(graph, u, code.body(marked[k].block));
      assert forall e :: e in graph.allEdges <==> e in before || Into(code, u, marked[k], e);
      assert marked[k] in marked[..k + 1];
      k := k + 1;
    }
    assert marked[..k] == marked;
  }

  /** One edge of the dummy function, from d to s; n is their nearest common post-dominator. */
  method AddForEdge(graph: Pdg, t: Tree, code: Code, d: Dummy, s: Dummy, n: Dummy)
    requires graph.Valid() && TreeOk(t) && IsNearest(t, d, s, n) && (d.Top? || d.Bottom?)
    modifies graph
    ensures graph.Valid()
    ensures forall e :: e in graph.allEdges <==> e in old(graph.allEdges) || exists m :: Because(t, code, d, s, m, e)
  {
    var marked := MarkDependents(t, d, s, n);
    forall m | m in marked ensures m.Top? || m.Bottom? {
      if m == Virtual {
        VirtualIsLast(t, s, n);
        AncestorsNest(t, d, n);
      }
    }
    AddForMarked(graph, code, code.terminator(d.block), marked);
    assert forall m, e :: Because(t, code, d, s, m, e) <==> m in marked && Into(code, code.terminator(d.block), m, e);
  }

  ghost predicate ForSome(t: Tree, code: Code, d: Dummy, succs: seq<Dummy>, e: Edge)
    requires TreeOk(t)
  {
    exists s, m :: s in succs && Because(t, code, d, s, m, e)
  }

  ghost predicate ForSomeDummy(t: Tree, code: Code, dummies: seq<Dummy>, cases: map<Dummy, seq<Dummy>>, e: Edge)
    requires TreeOk(t) && forall d | d in dummies :: d in cases
  {
    exists d :: d in dummies && ForSome(t, code, d, cases[d], e)
  }

  lemma OneMoreSuccessor(t: Tree, code: Code, d: Dummy, succs: seq<Dummy>, k: nat, e: Edge)
    requires TreeOk(t) && k < |succs|
    ensures ForSome(t, code, d, succs[..k + 1], e) <==>
            ForSome(t, code, d, succs[..k], e) || exists m :: Because(t, code, d, succs[k], m, e)
  {
    assert succs[..k + 1] == succs[..k] + [succs[k]];
    assert succs[k] in succs[..k + 1];
    forall s | s in succs[..k] ensures s in succs[..k + 1] {
    }
  }

  lemma OneMoreDummy(t: Tree, code: Code, dummies: seq<Dummy>, cases: map<Dummy, seq<Dummy>>, k: nat, e: Edge)
    requires TreeOk(t) && k < |dummies| && forall d | d in dummies :: d in cases
    ensures dummies[k] in cases
    ensures ForSomeDummy(t, code, dummies[..k + 1], cases, e) <==>
            ForSomeDummy(t, code, dummies[..k], cases, e) || ForSome(t, code, dummies[k], cases[dummies[k]], e)
  {
    assert dummies[..k + 1] == dummies[..k] + [dummies[k]];
    assert dummies[k] in dummies && dummies[k] in dummies[..k + 1];
    forall d | d in dummies[..k] ensures d in dummies[..k + 1] {
    }
  }

  /**
   The control dependences: an instruction of v depends on the branch of u exactly if some copy of u
   branches to some s that a copy of v post-dominates or is, while it does not post-dominate that copy of u.
   */
  method AddControlEdges(graph: Pdg, t: Tree, code: Code, dummies: seq<Dummy>, cases: map<Dummy, seq<Dummy>>,
                         nearest: (Dummy, Dummy) -> Dummy)
    requires graph.Valid() && TreeOk(t) && forall d | d in dummies :: (d.Top? || d.Bottom?) && d in cases
    requires forall d, s :: d in dummies && s in cases[d] ==> IsNearest(t, d, s, nearest(d, s))
    modifies graph
    ensures graph.Valid()
    ensures forall e :: e in graph.allEdges <==>
              e in old(graph.allEdges) || ForSomeDummy(t, code, dummies, cases, e)
  {
    var k := 0;
    while k < |dummies|
      invariant 0 <= k <= |dummies| && graph.Valid()
      invariant forall e :: e in graph.allEdges <==>
                  e in old(graph.allEdges) || ForSomeDummy(t, code, dummies[..k], cases, e)
    {
      assert dummies[k] in dummies;
      forall e {
        OneMoreDummy(t, code, dummies, cases, k, e);
      }
      AddForDummy(graph, t, code, dummies[k], cases[dummies[k]], nearest);
      k := k + 1;
    }
    assert dummies[..k] == dummies;
  }

  method AddForDummy(graph: Pdg, t: Tree, code: Code, d: Dummy, succs: seq<Dummy>, nearest: (Dummy, Dummy) -> Dummy)
    requires graph.Valid() && TreeOk(t) && (d.Top? || d.Bottom?)
    requires forall s | s in succs :: IsNearest(t, d, s, nearest(d, s))
    modifies graph
    ensures graph.Valid()
    ensures forall e :: e in graph.allEdges <==> e in old(graph.allEdges) || ForSome(t, code, d, succs, e)
  {
    var k := 0;
    while k < |succs|
      invariant 0 <= k <= |succs| && graph.Valid()
      invariant forall e :: e in graph.allEdges <==>
                  e in old(graph.allEdges) || ForSome(t, code, d, succs[..k], e)
    {
      assert succs[k] in succs;
      forall e {
        OneMoreSuccessor(t, code, d, succs, k, e);
      }
      AddForEdge(graph, t, code, d, succs[k], nearest(d, succs[k]));
      k := k + 1;
    }
    assert succs[..k] == succs;
  }

  // ---------------------------------------------------------------- post-dominance

  ghost predicate IsDummy(g: Loop, d: Dummy) {
    d == Exit || ((d.Top? || d.Bottom?) && d.block in g.blocks)
  }

  ghost predicate ExitWalk(g: Loop, order: seq<Block>, w: seq<Dummy>, d: Dummy) {
    IsHalfWalk(g, order, w) && w[0] == d && w[|w| - 1] == Exit
  }

  /** Every walk from d to the exit passes through m. */
  ghost predicate PostDominates(g: Loop, order: seq<Block>, m: Dummy, d: Dummy) {
    forall w | ExitWalk(g, order, w, d) :: m in w
  }

  /** t is the post-dominator tree of the dummy function. */
  ghost predicate PostDominatorTree(t: Tree, g: Loop, order: seq<Block>)
    requires TreeOk(t)
  {
    && (forall d, m | IsDummy(g, d) && m in Ancestors(t, d) :: m == Virtual || IsDummy(g, m))
    && (forall d, m | IsDummy(g, d) && IsDummy(g, m) :: m in Ancestors(t, d) <==> PostDominates(g, order, m, d))
  }

  /**
   Control dependence as usually defined: d can branch to an s that m post-dominates, while m does not
   post-dominate d. Here d and m are copies of blocks, and e the edge between their instructions.
   */
  ghost predicate ControlDependent(g: Loop, order: seq<Block>, code: Code, e: Edge) {
    exists d, s, m :: HalfEdge(g, order, d, s) && DependsAt(g, order, code, d, s, m, e)
  }

  ghost predicate DependsAt(g: Loop, order: seq<Block>, code: Code, d: Dummy, s: Dummy, m: Dummy, e: Edge) {
    && (m.Top? || m.Bottom?) && (d.Top? || d.Bottom?) && IsDummy(g, m)
    && PostDominates(g, order, m, s) && !PostDominates(g, order, m, d)
    && Among(e, code.terminator(d.block), code.body(m.block))
  }

  lemma WalkIsControlDependence(t: Tree, g: Loop, order: seq<Block>, code: Code, d: Dummy, s: Dummy, m: Dummy, e: Edge)
    requires TreeOk(t) && PostDominatorTree(t, g, order) && HalfEdge(g, order, d, s)
    ensures Because(t, code, d, s, m, e) <==> DependsAt(g, order, code, d, s, m, e)
  {
    assert IsDummy(g, d) && IsDummy(g, s);
  }

  /** The tree of a loop of one block that branches back to itself and out of the loop. */
  lemma OneBlockTree() returns (g: Loop, t: Tree)
    ensures g == Loop([1], map[1 := [1, 2]]) && TreeOk(t) && PostDominatorTree(t, g, [1])
  {
    g := Loop([1], map[1 := [1, 2]]);
    t := Tree(d => if d == Top(1) || d == Bottom(1) then Some(Exit) else None,
              d => if d == Top(1) || d == Bottom(1) then 1 else 0);
    assert Exiting(g, 1) by {
      assert g.succ[1][1] == 2 && 2 in g.succ[1] && 2 !in g.blocks;
    }
    forall d, m | IsDummy(g, d) && IsDummy(g, m)
      ensures m in Ancestors(t, d) <==> PostDominates(g, [1], m, d)
    {
      if d == Exit {
        assert ExitWalk(g, [1], [Exit], Exit);
      } else {
        assert ExitWalk(g, [1], [d, Exit], d);
      }
    }
  }

  /**
   The whole of the control dependence part of buildPDG. The construction of the post-dominator tree
   and its nearest common nodes are parameters.
   */
  method ControlDependences(graph: Pdg, g: Loop, code: Code, treeOf: map<Dummy, seq<Dummy>> -> Tree,
                            nearestOf: (Tree, Dummy, Dummy) -> Dummy)
    returns (order: seq<Block>, ghost above: map<Block, seq<Block>>, t: Tree)
    requires graph.Valid() && WellFormed(g)
    requires forall c :: TreeOk(treeOf(c))
    requires forall c, d, s :: d in c && s in c[d] ==> IsNearest(treeOf(c), d, s, nearestOf(treeOf(c), d, s))
    modifies graph
    ensures graph.Valid() && Searched(g, order, above) && TreeOk(t) && exists c :: t == treeOf(c)
    ensures forall e :: e in graph.allEdges <==>
              e in old(graph.allEdges) || exists d, s, m :: HalfEdge(g, order, d, s) && Because(t, code, d, s, m, e)
    ensures PostDominatorTree(t, g, order) ==>
              forall e :: e in graph.allEdges <==> e in old(graph.allEdges) || ControlDependent(g, order, code, e)
  {
    var search := new LoopSearch(g);
    search.Run();
    order, above := search.order, search.above;
    var dummies, cases := Peel(g, order);
    t := treeOf(cases);
    AddControlEdges(graph, t, code, dummies, cases, (d, s) => nearestOf(t, d, s));
    forall d, s ensures d in dummies && s in cases[d] <==> HalfEdge(g, order, d, s) {
      assert d in dummies ==> CasesOf(g, order, d, cases[d]);
    }
    if PostDominatorTree(t, g, order) {
      forall d, s, m, e | HalfEdge(g, order, d, s)
        ensures Because(t, code, d, s, m, e) <==> DependsAt(g, order, code, d, s, m, e)
      {
        WalkIsControlDependence(t, g, order, code, d, s, m, e);
      }
    }
  }
}
