/** Paths and reachability in a finite directed graph given by its set of edges. */
module Paths {

  type Node = int
  type Arcs = set<(Node, Node)>

  ghost predicate IsPath(arcs: Arcs, p: seq<Node>) {
    && |p| > 0
    && forall i | 0 <= i < |p| - 1 :: (p[i], p[i + 1]) in arcs
  }

  ghost predicate PathFromTo(arcs: Arcs, p: seq<Node>, u: Node, v: Node) {
    IsPath(arcs, p) && p[0] == u && p[|p| - 1] == v
  }

  ghost predicate Reaches(arcs: Arcs, u: Node, v: Node) {
    exists p :: PathFromTo(arcs, p, u, v)
  }

  ghost predicate SameComponent(arcs: Arcs, u: Node, v: Node) {
    Reaches(arcs, u, v) && Reaches(arcs, v, u)
  }

  lemma ReachesSelf(arcs: Arcs, u: Node)
    ensures Reaches(arcs, u, u)
  {
    assert PathFromTo(arcs, [u], u, u);
  }

  lemma ReachesTransitively(arcs: Arcs, u: Node, v: Node, w: Node)
    requires Reaches(arcs, u, v) && Reaches(arcs, v, w)
    ensures Reaches(arcs, u, w)
  {
    var p :| PathFromTo(arcs, p, u, v);
    var q :| PathFromTo(arcs, q, v, w);
    var r := p + q[1..];
    forall i | 0 <= i < |r| - 1
      ensures (r[i], r[i + 1]) in arcs
    {
      if i >= |p| - 1 {
        assert r[i] == q[i - (|p| - 1)] && r[i + 1] == q[i + 1 - (|p| - 1)];
      }
    }
    assert PathFromTo(arcs, r, u, w);
  }

  lemma ReachesByArc(arcs: Arcs, u: Node, v: Node)
    requires (u, v) in arcs
    ensures Reaches(arcs, u, v)
  {
    assert PathFromTo(arcs, [u, v], u, v);
  }

  /** A set closed under successors holds everything reachable from its members. */
  lemma {:induction false} ClosedForwards(arcs: Arcs, s: set<Node>, p: seq<Node>)
    requires forall u, v :: (u, v) in arcs && u in s ==> v in s
    requires IsPath(arcs, p) && p[0] in s
    ensures p[|p| - 1] in s
  {
    if |p| > 1 {
      assert (p[0], p[1]) in arcs;
      ClosedForwards(arcs, s, p[1..]);
    }
  }
}
