/** The program dependence graph and the only operation that grows it (pipeline.cpp). */
module DependenceGraph {
  import opened Paths

  type Instr = Node

  datatype DType = REG | DTRUE | DANTI | DOUT | DSYN | CONTROL | CONTROL_LC

  datatype Edge = Edge(u: Instr, v: Instr, dtype: DType)

  type EdgeTable = map<Instr, seq<Edge>>

  /** A missing entry reads as an empty vector. */
  function Row(table: EdgeTable, i: Instr): seq<Edge> {
    if i in table then table[i] else []
  }

  function Flip(e: Edge): Edge {
    Edge(e.v, e.u, e.dtype)
  }

  /** The edges leaving i, in the order they were added. */
  function Leaving(all: seq<Edge>, i: Instr): seq<Edge> {
    if all == [] then []
    else
      var e := all[|all| - 1];
      Leaving(all[..|all| - 1], i) + if e.u == i then [e] else []
  }

  /** The edges entering i, flipped, in the order they were added. */
  function Entering(all: seq<Edge>, i: Instr): seq<Edge> {
    if all == [] then []
    else
      var e := all[|all| - 1];
      Entering(all[..|all| - 1], i) + if e.v == i then [Flip(e)] else []
  }

  function WithEdge(all: seq<Edge>, e: Edge): seq<Edge> {
    if e in all then all else all + [e]
  }

  ghost predicate NoDuplicates<T>(s: seq<T>) {
    forall i, j | 0 <= i < j < |s| :: s[i] != s[j]
  }

  function ArcsOf(all: seq<Edge>): Arcs {
    set e | e in all :: (e.u, e.v)
  }

  /** The three tables describe the same edges, in the same relative order, each edge once. */
  ghost predicate InStep(pdg: EdgeTable, rev: EdgeTable, all: seq<Edge>) {
    && NoDuplicates(all)
    && (forall i: Instr :: Row(pdg, i) == Leaving(all, i))
    && (forall i: Instr :: Row(rev, i) == Entering(all, i))
  }

  lemma {:induction false} LeavingMembers(all: seq<Edge>, i: Instr, e: Edge)
    ensures e in Leaving(all, i) <==> e in all && e.u == i
  {
    if all != [] {
      LeavingMembers(all[..|all| - 1], i, e);
      assert all == all[..|all| - 1] + [all[|all| - 1]];
    }
  }

  lemma {:induction false} EnteringMembers(all: seq<Edge>, i: Instr, e: Edge)
    ensures e in Entering(all, i) <==> Flip(e) in all && e.u == i
  {
    if all != [] {
      EnteringMembers(all[..|all| - 1], i, e);
      assert all == all[..|all| - 1] + [all[|all| - 1]];
      assert Flip(Flip(e)) == e;
      assert Flip(Flip(all[|all| - 1])) == all[|all| - 1];
    }
  }

  /** Walking pdg forwards and walking rev backwards follow the same arcs. */
  lemma TablesFollowArcs(pdg: EdgeTable, rev: EdgeTable, all: seq<Edge>, i: Instr, j: Instr)
    requires InStep(pdg, rev, all)
    ensures (exists e :: e in Row(pdg, i) && e.v == j) <==> (i, j) in ArcsOf(all)
    ensures (exists e :: e in Row(rev, j) && e.v == i) <==> (i, j) in ArcsOf(all)
  {
    if e :| e in Row(pdg, i) && e.v == j {
      LeavingMembers(all, i, e);
      assert (e.u, e.v) in ArcsOf(all);
    }
    if e :| e in Row(rev, j) && e.v == i {
      EnteringMembers(all, j, e);
      assert (Flip(e).u, Flip(e).v) in ArcsOf(all);
    }
    if (i, j) in ArcsOf(all) {
      var e :| e in all && (e.u, e.v) == (i, j);
      LeavingMembers(all, i, e);
      assert e in Row(pdg, i) && e.v == j;
      assert Flip(Flip(e)) == e;
      EnteringMembers(all, j, Flip(e));
      assert Flip(e) in Row(rev, j) && Flip(e).v == i;
    }
  }

  lemma LeavingAppend(all: seq<Edge>, e: Edge, i: Instr)
    ensures Leaving(all + [e], i) == Leaving(all, i) + if e.u == i then [e] else []
    ensures Entering(all + [e], i) == Entering(all, i) + if e.v == i then [Flip(e)] else []
  {
    assert (all + [e])[..|all + [e]| - 1] == all;
  }

  lemma AddingKeepsStep(pdg: EdgeTable, rev: EdgeTable, all: seq<Edge>, e: Edge)
    requires InStep(pdg, rev, all)
    ensures e in Row(pdg, e.u) <==> e in all
    ensures e !in all ==> InStep(pdg[e.u := Row(pdg, e.u) + [e]], rev[e.v := Row(rev, e.v) + [Flip(e)]], all + [e])
  {
    LeavingMembers(all, e.u, e);
    assert Row(pdg, e.u) == Leaving(all, e.u);
    forall i: Instr
      ensures Row(pdg[e.u := Row(pdg, e.u) + [e]], i) == Leaving(all + [e], i)
      ensures Row(rev[e.v := Row(rev, e.v) + [Flip(e)]], i) == Entering(all + [e], i)
    {
      assert Row(pdg, i) == Leaving(all, i) && Row(rev, i) == Entering(all, i);
      LeavingAppend(all, e, i);
      AddedRow(pdg, e.u, e, i);
      AddedRow(rev, e.v, Flip(e), i);
    }
  }

  lemma AddedRow(table: EdgeTable, u: Instr, e: Edge, i: Instr)
    ensures Row(table[u := Row(table, u) + [e]], i) == Row(table, i) + if u == i then [e] else []
  {
  }

  class Pdg {
    var pdg: EdgeTable
    var rev: EdgeTable
    var allEdges: seq<Edge>

    ghost predicate Valid()
      reads this
    {
      InStep(pdg, rev, allEdges)
    }

    constructor ()
      ensures Valid() && allEdges == []
    {
      pdg, rev, allEdges := map[], map[], [];
    }

    /** Adds the edge to all three tables, unless the same edge is there already. */
    method AddEdge(u: Instr, v: Instr, dtype: DType)
      requires Valid()
      modifies this
      ensures Valid()
      ensures allEdges == WithEdge(old(allEdges), Edge(u, v, dtype))
    {
      var e := Edge(u, v, dtype);
      AddingKeepsStep(pdg, rev, allEdges, e);
      if e !in Row(pdg, u) {
        pdg := pdg[u := Row(pdg, u) + [e]];
        allEdges := allEdges + [e];
        rev := rev[v := Row(rev, v) + [Flip(e)]];
      }
    }
  }
}
