/**
 Strongly connected components by two depth-first passes, and the graph of components
 that the second pass builds on the way (buildSCC.cpp).
 */
module StronglyConnected {
  import opened Paths
  import opened DependenceGraph

  // ---------------------------------------------------------------- forward pass

  /**
   What the finishing order promises while the forward pass runs: the successors of a finished
   node have been seen, and a successor that is not finished before list[k] reaches list[k].
   */
  ghost predicate WellOrdered(arcs: Arcs, used: set<Instr>, list: seq<Instr>) {
    && NoDuplicates(list)
    && (forall x | x in list :: x in used)
    && (forall i, w | 0 <= i < |list| && (list[i], w) in arcs :: w in used)
    && (forall i, k, w | 0 <= i <= k < |list| && (list[i], w) in arcs ::
          w in list[..k] || Reaches(arcs, w, list[k]))
  }

  /** Every node on the stack reaches x. */
  ghost predicate AllReach(arcs: Arcs, used: set<Instr>, list: seq<Instr>, x: Instr) {
    forall g | g in used && g !in list :: Reaches(arcs, g, x)
  }

  /** A stretch of the forward pass: more nodes are seen and finished, the same ones are on the stack. */
  ghost predicate Explored(used: set<Instr>, list: seq<Instr>, used': set<Instr>, list': seq<Instr>) {
    && used <= used' && list <= list'
    && forall x :: x in used' && x !in list' <==> x in used && x !in list
  }

  lemma VisitingKeepsOrder(arcs: Arcs, used: set<Instr>, list: seq<Instr>, x: Instr)
    requires WellOrdered(arcs, used, list) && AllReach(arcs, used, list, x) && x !in used
    ensures WellOrdered(arcs, used + {x}, list) && AllReach(arcs, used + {x}, list, x) && Reaches(arcs, x, x)
  {
    ReachesSelf(arcs, x);
  }

  /** Finishing a node that every unfinished node reaches, all of whose successors have been seen. */
  lemma FinishingKeepsOrder(arcs: Arcs, used: set<Instr>, list: seq<Instr>, x: Instr)
    requires WellOrdered(arcs, used, list)
    requires x in used && x !in list
    requires AllReach(arcs, used, list, x)
    requires forall w | (x, w) in arcs :: w in used
    ensures WellOrdered(arcs, used, list + [x])
  {
    var list' := list + [x];
    forall i, k, w | 0 <= i <= k < |list'| && (list'[i], w) in arcs
      ensures w in list'[..k] || Reaches(arcs, w, list'[k])
    {
      if k < |list| {
        assert list'[..k] == list[..k];
        assert (list[i], w) in arcs;
      } else {
        assert list'[..k] == list;
        assert w in used;
      }
    }
  }

  /**
   On any path through finished nodes, the one that finished last reaches the start of the path.
   */
  lemma {:induction false} LastFinishedReachesStart(arcs: Arcs, used: set<Instr>, list: seq<Instr>, p: seq<Instr>)
    returns (m: nat)
    requires WellOrdered(arcs, used, list)
    requires IsPath(arcs, p) && forall x | x in p :: x in list
    ensures m < |list| && list[m] in p
    ensures forall x | x in p :: x in list[..m + 1]
    ensures Reaches(arcs, list[m], p[0])
  {
    var y := p[|p| - 1];
    assert y in p && y in list;
    var j: nat :| j < |list| && list[j] == y;
    if |p| == 1 {
      ReachesSelf(arcs, y);
      m := j;
    } else {
      var q := p[..|p| - 1];
      assert p == q + [y];
      m := LastFinishedReachesStart(arcs, used, list, q);
      if m < j {
        var x := q[|q| - 1];
        assert (x, y) in arcs by { assert (p[|p| - 2], p[|p| - 1]) in arcs; }
        assert x in q && x in list[..m + 1];
        var i: nat :| i < m + 1 && list[i] == x;
        assert y !in list[..m];
        assert (list[i], y) in arcs;
        assert Reaches(arcs, y, list[m]);
        ReachesTransitively(arcs, y, list[m], p[0]);
        forall z | z in p
          ensures z in list[..j + 1]
        {
          if z in q {
            assert z in list[..m + 1];
            assert list[..m + 1] <= list[..j + 1];
          }
        }
        m := j;
      } else {
        assert y == list[..m + 1][j];
      }
    }
  }

  // ---------------------------------------------------------------- reverse pass

  /** No arc enters the finished nodes from elsewhere. */
  ghost predicate SelfContained(arcs: Arcs, list: seq<Instr>) {
    forall w, x | (w, x) in arcs && x in list :: w in list
  }

  ghost predicate ClosedBackwards(arcs: Arcs, s: set<Instr>) {
    forall w, x | (w, x) in arcs && x in s :: w in s
  }

  lemma {:induction false} PathStaysInBackwardsClosed(arcs: Arcs, s: set<Instr>, p: seq<Instr>)
    requires ClosedBackwards(arcs, s) && IsPath(arcs, p) && p[|p| - 1] in s
    ensures forall x | x in p :: x in s
  {
    if |p| > 1 {
      var q := p[..|p| - 1];
      assert p == q + [p[|p| - 1]];
      var w, z := p[|p| - 2], p[|p| - 2 + 1];
      assert (w, z) in arcs && w in s;
      PathStaysInBackwardsClosed(arcs, s, q);
    }
  }

  ghost predicate UnionOfComponents(arcs: Arcs, s: set<Instr>) {
    forall x, y | x in s && SameComponent(arcs, x, y) :: y in s
  }

  /**
   The heart of the algorithm. Take the finished node list[i] after everything finished later has
   been collected into whole components. What the reverse visit adds is exactly its component.
   */
  lemma ReverseVisitIsComponent(arcs: Arcs, fwd: set<Instr>, list: seq<Instr>, i: nat, before: set<Instr>,
                                after: set<Instr>)
    requires WellOrdered(arcs, fwd, list) && SelfContained(arcs, list)
    requires i < |list| && list[i] !in before && list[i] in after
    requires before <= after && UnionOfComponents(arcs, before)
    requires forall k | i < k < |list| :: list[k] in before
    requires ClosedBackwards(arcs, after)
    requires forall x | x in after - before :: Reaches(arcs, x, list[i])
    ensures forall y :: y in after - before <==> SameComponent(arcs, list[i], y)
    ensures UnionOfComponents(arcs, after)
  {
    var x := list[i];
    forall y | y in after - before
      ensures SameComponent(arcs, x, y)
    {
      var p :| PathFromTo(arcs, p, y, x);
      var s := set z | z in list;
      PathStaysInBackwardsClosed(arcs, s, p);
      var m := LastFinishedReachesStart(arcs, fwd, list, p);
      assert x in p && x in list[..m + 1];
      var j: nat :| j < m + 1 && list[..m + 1][j] == x;
      assert list[j] == list[i];
      assert i <= m;
      if m > i {
        var t: nat :| t < |p| && p[t] == list[m];
        assert PathFromTo(arcs, p[..t + 1], y, list[m]);
        assert SameComponent(arcs, list[m], y);
        assert false;
      }
    }
    forall y | SameComponent(arcs, x, y)
      ensures y in after - before
    {
      var p :| PathFromTo(arcs, p, y, x);
      PathStaysInBackwardsClosed(arcs, after, p);
      if y in before { assert SameComponent(arcs, y, x); }
    }
    forall z, y | z in after && SameComponent(arcs, z, y)
      ensures y in after
    {
      if z !in before {
        assert SameComponent(arcs, x, z);
        ReachesTransitively(arcs, x, z, y);
        ReachesTransitively(arcs, y, z, x);
        assert SameComponent(arcs, x, y);
      }
    }
  }

  type Numbering = map<Instr, nat>

  ghost predicate SameNumberMeansSameComponent(arcs: Arcs, sccId: Numbering) {
    forall x, y | x in sccId && y in sccId :: sccId[x] == sccId[y] <==> SameComponent(arcs, x, y)
  }

  /** One more component, with a number of its own, keeps the numbering right. */
  lemma NewComponentKeepsNumbering(arcs: Arcs, before: Numbering, after: Numbering, x: Instr, c: nat)
    requires SameNumberMeansSameComponent(arcs, before)
    requires UnionOfComponents(arcs, before.Keys)
    requires before.Keys <= after.Keys && forall y | y in before :: after[y] == before[y] < c
    requires forall y | y in after && y !in before :: after[y] == c
    requires forall y :: y in after.Keys - before.Keys <==> SameComponent(arcs, x, y)
    ensures SameNumberMeansSameComponent(arcs, after)
  {
    forall y, z | y in after && z in after
      ensures after[y] == after[z] <==> SameComponent(arcs, y, z)
    {
      if y !in before && z !in before {
        assert y in after.Keys - before.Keys && z in after.Keys - before.Keys;
        assert SameComponent(arcs, x, y) && SameComponent(arcs, x, z);
        ReachesTransitively(arcs, y, x, z);
        ReachesTransitively(arcs, z, x, y);
      } else if y in before && z in before {
      } else {
        assert after[y] != after[z];
        if SameComponent(arcs, y, z) {
          assert SameComponent(arcs, z, y);
          assert false;
        }
      }
    }
  }

  // ---------------------------------------------------------------- component graph

  type Dag = set<(nat, nat)>
  type Adjacency = map<nat, seq<nat>>

  function Neighbours(table: Adjacency, k: nat): seq<nat> {
    if k in table then table[k] else []
  }

  /** The two adjacency tables and the lookup table hold the same pairs, each once. */
  ghost predicate TablesAgree(dag: Dag, dependents: Adjacency, parents: Adjacency) {
    && (forall a: nat, b: nat :: (a, b) in dag <==> b in Neighbours(dependents, a))
    && (forall a: nat, b: nat :: (a, b) in dag <==> a in Neighbours(parents, b))
    && (forall a: nat :: NoDuplicates(Neighbours(dependents, a)))
    && (forall b: nat :: NoDuplicates(Neighbours(parents, b)))
  }

  ghost predicate JoinsComponents(arcs: Arcs, sccId: Numbering, a: nat, b: nat) {
    exists w, x :: (w, x) in arcs && w in sccId && x in sccId && sccId[w] == a && sccId[x] == b
  }

  /** As above, except that a target still on the stack counts as a member of component c. */
  ghost predicate JoinsBuilding(arcs: Arcs, used: set<Instr>, sccId: Numbering, a: nat, b: nat, c: nat) {
    exists w, x :: (w, x) in arcs && w in sccId && sccId[w] == a && x in used &&
                   b == if x in sccId then sccId[x] else c
  }

  /** Every recorded pair goes up, and stands for a dependence unless it leaves component 0. */
  ghost predicate PairsGoUp(arcs: Arcs, used: set<Instr>, sccId: Numbering, dag: Dag, c: nat) {
    forall a, b | (a, b) in dag :: a < b <= c && (a == 0 || JoinsBuilding(arcs, used, sccId, a, b, c))
  }

  /** Every dependence between two numbered components is recorded. */
  ghost predicate CrossingsRecorded(arcs: Arcs, sccId: Numbering, dag: Dag) {
    forall w, x | (w, x) in arcs && w in sccId && x in sccId && sccId[w] != sccId[x] ::
      (sccId[w], sccId[x]) in dag
  }

  lemma RecordKeepsTables(dag: Dag, dependents: Adjacency, parents: Adjacency, a: nat, b: nat)
    requires TablesAgree(dag, dependents, parents) && (a, b) !in dag
    ensures TablesAgree(dag + {(a, b)}, dependents[a := Neighbours(dependents, a) + [b]],
                        parents[b := Neighbours(parents, b) + [a]])
  {
    var dependents' := dependents[a := Neighbours(dependents, a) + [b]];
    var parents' := parents[b := Neighbours(parents, b) + [a]];
    assert b !in Neighbours(dependents, a) && a !in Neighbours(parents, b);
    forall c: nat ensures NoDuplicates(Neighbours(dependents', c)) {
      assert NoDuplicates(Neighbours(dependents, c));
    }
    forall c: nat ensures NoDuplicates(Neighbours(parents', c)) {
      assert NoDuplicates(Neighbours(parents, c));
    }
  }

  // ---------------------------------------------------------------- the lists of members

  /** Each numbered instruction stands in exactly one list, once: the list of its number. */
  ghost predicate ListsMatch(sccId: Numbering, lists: seq<seq<Instr>>) {
    && (forall x | x in sccId :: sccId[x] < |lists|)
    && (forall k, x | 0 <= k < |lists| :: x in lists[k] <==> x in sccId && sccId[x] == k)
    && (forall k | 0 <= k < |lists| :: NoDuplicates(lists[k]))
  }

  /** Every arc into a numbered node comes from a seen node; below number c, from a node numbered no higher. */
  ghost predicate NumberedDownTo(arcs: Arcs, used: set<Instr>, sccId: Numbering, c: nat) {
    forall w, x | (w, x) in arcs && x in sccId ::
      && w in used
      && (w in sccId ==> sccId[w] <= c)
      && (sccId[x] < c ==> w in sccId && sccId[w] <= sccId[x])
  }

  /** Every component number has a member in the forward list that all its members reach. */
  ghost predicate Rooted(arcs: Arcs, list: seq<Instr>, sccId: Numbering, r: Instr, c: nat) {
    && r in list && r in sccId && sccId[r] == c
    && forall x | x in sccId && sccId[x] == c :: Reaches(arcs, x, r)
  }

  ghost predicate HasRoot(arcs: Arcs, list: seq<Instr>, sccId: Numbering, c: nat) {
    exists r :: Rooted(arcs, list, sccId, r, c)
  }

  /** An arc from outside the forward list makes two unconnected instructions share a number. */
  lemma ForeignSourceBreaksNumbering(arcs: Arcs, list: seq<Instr>, sccId: Numbering)
    requires ClosedBackwards(arcs, sccId.Keys) && forall x | x in list :: x in sccId
    requires forall x | x in sccId :: HasRoot(arcs, list, sccId, sccId[x])
    requires forall u, v | (u, v) in arcs && u in list :: v in list
    requires !SelfContained(arcs, list)
    ensures !SameNumberMeansSameComponent(arcs, sccId)
  {
    var w, x :| (w, x) in arcs && x in list && w !in list;
    assert w in sccId;
    assert HasRoot(arcs, list, sccId, sccId[w]);
    var r :| Rooted(arcs, list, sccId, r, sccId[w]);
    if SameNumberMeansSameComponent(arcs, sccId) {
      assert sccId[r] == sccId[w];
      var p :| PathFromTo(arcs, p, r, w);
      var s := set z | z in list;
      ClosedForwards(arcs, s, p);
      assert false;
    }
  }

  /** What holds between any two steps of the reverse pass, component number c being under construction. */
  ghost predicate Building(arcs: Arcs, used: set<Instr>, sccId: Numbering, lists: seq<seq<Instr>>, dag: Dag, c: nat) {
    && sccId.Keys <= used && |lists| == c + 1
    && ListsMatch(sccId, lists)
    && NumberedDownTo(arcs, used, sccId, c)
    && PairsGoUp(arcs, used, sccId, dag, c)
    && CrossingsRecorded(arcs, sccId, dag)
  }

  lemma SeeingKeepsBuilding(arcs: Arcs, used: set<Instr>, sccId: Numbering, lists: seq<seq<Instr>>, dag: Dag, c: nat,
                            i: Instr)
    requires Building(arcs, used, sccId, lists, dag, c)
    ensures Building(arcs, used + {i}, sccId, lists, dag, c)
  {
    forall a, b | (a, b) in dag && a != 0
      ensures JoinsBuilding(arcs, used + {i}, sccId, a, b, c)
    {
      assert JoinsBuilding(arcs, used, sccId, a, b, c);
    }
  }

  lemma RecordingKeepsBuilding(arcs: Arcs, used: set<Instr>, sccId: Numbering, lists: seq<seq<Instr>>, dag: Dag, c: nat,
                               next: Instr, i: Instr, u: nat)
    requires Building(arcs, used, sccId, lists, dag, c)
    requires (next, i) in arcs && i in used && i !in sccId
    requires u == (if next in sccId then sccId[next] else 0) && u != c
    ensures Building(arcs, used, sccId, lists, dag + {(u, c)}, c)
  {
    assert next in sccId ==> JoinsBuilding(arcs, used, sccId, sccId[next], c, c);
  }

  lemma NumberingKeepsBuilding(arcs: Arcs, used: set<Instr>, sccId: Numbering, lists: seq<seq<Instr>>, dag: Dag, c: nat,
                               i: Instr)
    requires Building(arcs, used, sccId, lists, dag, c)
    requires i in used && i !in sccId
    requires forall w | (w, i) in arcs :: Seen(used, sccId, dag, c, w)
    ensures Building(arcs, used, sccId[i := c], lists[c := lists[c] + [i]], dag, c)
  {
    forall a, b | (a, b) in dag && a != 0
      ensures JoinsBuilding(arcs, used, sccId[i := c], a, b, c)
    {
      assert JoinsBuilding(arcs, used, sccId, a, b, c);
      var w, x :| (w, x) in arcs && w in sccId && sccId[w] == a && x in used &&
                  b == if x in sccId then sccId[x] else c;
      assert w in sccId[i := c] && sccId[i := c][w] == a;
    }
  }

  /** A stretch of the reverse pass: numbers stay, new nodes get number c, the same nodes are on the stack. */
  ghost predicate Advanced(used: set<Instr>, sccId: Numbering, used': set<Instr>, sccId': Numbering, c: nat) {
    && used <= used'
    && (forall x | x in sccId :: x in sccId' && sccId'[x] == sccId[x])
    && (forall x | x in sccId' && x !in sccId :: x !in used && sccId'[x] == c)
    && (forall x :: x in used' && x !in sccId' <==> x in used && x !in sccId)
  }

  lemma SeenStays(used: set<Instr>, sccId: Numbering, dag: Dag, used': set<Instr>, sccId': Numbering, dag': Dag, c: nat,
                  w: Instr)
    requires Seen(used, sccId, dag, c, w)
    requires Advanced(used, sccId, used', sccId', c) && dag <= dag'
    ensures Seen(used', sccId', dag', c, w)
  {
  }

  ghost predicate AllSeen(used: set<Instr>, sccId: Numbering, dag: Dag, c: nat, row: seq<Edge>) {
    forall e | e in row :: Seen(used, sccId, dag, c, e.v)
  }

  lemma AllSeenStays(used: set<Instr>, sccId: Numbering, dag: Dag, used': set<Instr>, sccId': Numbering, dag': Dag,
                     c: nat, row: seq<Edge>)
    requires AllSeen(used, sccId, dag, c, row) && Advanced(used, sccId, used', sccId', c) && dag <= dag'
    ensures AllSeen(used', sccId', dag', c, row)
  {
    forall e | e in row ensures Seen(used', sccId', dag', c, e.v) {
      SeenStays(used, sccId, dag, used', sccId', dag', c, e.v);
    }
  }

  lemma AllSeenOneMore(used: set<Instr>, sccId: Numbering, dag: Dag, c: nat, row: seq<Edge>, j: nat)
    requires j < |row| && AllSeen(used, sccId, dag, c, row[..j]) && Seen(used, sccId, dag, c, row[j].v)
    ensures AllSeen(used, sccId, dag, c, row[..j + 1])
  {
    assert row[..j + 1] == row[..j] + [row[j]];
  }

  lemma AdvancedKeepsAllNumbered(used: set<Instr>, sccId: Numbering, used': set<Instr>, sccId': Numbering, c: nat)
    requires Advanced(used, sccId, used', sccId', c) && used == sccId.Keys && sccId'.Keys <= used'
    ensures used' == sccId'.Keys
  {
    forall x | x in used'
      ensures x in sccId'.Keys
    {
      assert x in used' && x !in sccId' <==> x in used && x !in sccId;
    }
  }

  /** A predecessor of a node of component c that has been dealt with. */
  ghost predicate Seen(used: set<Instr>, sccId: Numbering, dag: Dag, c: nat, w: Instr) {
    && w in used && (w in sccId && sccId[w] != c ==> (sccId[w], c) in dag)
    && (w !in sccId && c > 0 ==> (0, c) in dag)
  }

  // ---------------------------------------------------------------- pairs that leave component 0

  /** w stands before x in the list. */
  ghost predicate Before(list: seq<Instr>, w: Instr, x: Instr) {
    exists p, q :: 0 <= p < q < |list| && list[p] == w && list[q] == x
  }

  /** Where no pair (0, k) is recorded, the members of k stand in its list in the order of their dependences. */
  ghost predicate InOrder(arcs: Arcs, sccId: Numbering, lists: seq<seq<Instr>>, dag: Dag) {
    forall w, x | (w, x) in arcs && x in sccId && 0 < sccId[x] < |lists| && (0, sccId[x]) !in dag ::
      w in sccId && (sccId[w] == sccId[x] ==> Before(lists[sccId[x]], w, x))
  }

  /** The component of a node that has been visited; c is the one under construction. */
  ghost function ComponentOf(sccId: Numbering, c: nat, x: Instr): nat {
    if x in sccId then sccId[x] else c
  }

  /** A dependence between visited members of component b that closes a cycle. */
  ghost predicate CycleAt(arcs: Arcs, used: set<Instr>, sccId: Numbering, b: nat, c: nat) {
    exists w, x ::
      ClosesCycle(arcs, w, x) && w in used && x in used && ComponentOf(sccId, c, w) == b == ComponentOf(sccId, c, x)
  }

  ghost predicate ClosesCycle(arcs: Arcs, w: Instr, x: Instr) {
    (w, x) in arcs && Reaches(arcs, x, w)
  }

  /** A pair (0, b) is recorded only for a dependence of b on component 0, or for a cycle in b. */
  ghost predicate ZeroJustified(arcs: Arcs, used: set<Instr>, sccId: Numbering, dag: Dag, c: nat) {
    forall b | (0, b) in dag :: JoinsBuilding(arcs, used, sccId, 0, b, c) || CycleAt(arcs, used, sccId, b, c)
  }

  ghost predicate Traced(arcs: Arcs, used: set<Instr>, sccId: Numbering, lists: seq<seq<Instr>>, dag: Dag, c: nat) {
    InOrder(arcs, sccId, lists, dag) && ZeroJustified(arcs, used, sccId, dag, c)
  }

  /** More nodes visited, or the visited ones numbered c, justify no less. */
  lemma JustifiedStays(arcs: Arcs, used: set<Instr>, sccId: Numbering, used': set<Instr>, sccId': Numbering, dag: Dag,
                       c: nat)
    requires ZeroJustified(arcs, used, sccId, dag, c) && used <= used'
    requires forall x | x in used || x in sccId :: ComponentOf(sccId', c, x) == ComponentOf(sccId, c, x)
    requires forall x | x in sccId :: x in sccId'
    ensures ZeroJustified(arcs, used', sccId', dag, c)
  {
    forall b | (0, b) in dag ensures JoinsBuilding(arcs, used', sccId', 0, b, c) || CycleAt(arcs, used', sccId', b, c) {
      if JoinsBuilding(arcs, used, sccId, 0, b, c) {
        var w, x :| (w, x) in arcs && w in sccId && sccId[w] == 0 && x in used
          && b == if x in sccId then sccId[x] else c;
        assert ComponentOf(sccId', c, w) == 0 && ComponentOf(sccId', c, x) == b;
      } else {
        var w, x :| ClosesCycle(arcs, w, x) && w in used && x in used
          && ComponentOf(sccId, c, w) == b == ComponentOf(sccId, c, x);
        assert ClosesCycle(arcs, w, x) && ComponentOf(sccId', c, w) == b;
      }
    }
  }

  lemma RecordingKeepsTraced(arcs: Arcs, used: set<Instr>, sccId: Numbering, lists: seq<seq<Instr>>, dag: Dag, c: nat,
                             next: Instr, i: Instr, u: nat)
    requires Traced(arcs, used, sccId, lists, dag, c)
    requires (next, i) in arcs && i in used && i !in sccId && next in used
    requires u == (if next in sccId then sccId[next] else 0) && (next !in sccId ==> Reaches(arcs, i, next))
    ensures Traced(arcs, used, sccId, lists, dag + {(u, c)}, c)
  {
    if next in sccId {
      assert JoinsBuilding(arcs, used, sccId, sccId[next], c, c);
    } else {
      assert ClosesCycle(arcs, next, i) && ComponentOf(sccId, c, next) == c == ComponentOf(sccId, c, i);
    }
  }

  lemma RecordingKeepsBoth(arcs: Arcs, used: set<Instr>, sccId: Numbering, lists: seq<seq<Instr>>, dag: Dag, c: nat,
                           next: Instr, i: Instr, u: nat)
    requires Building(arcs, used, sccId, lists, dag, c) && Traced(arcs, used, sccId, lists, dag, c)
    requires (next, i) in arcs && i in used && i !in sccId && next in used && u != c
    requires u == (if next in sccId then sccId[next] else 0) && (next in sccId || Reaches(arcs, i, next))
    ensures var dag' := dag + {(u, c)};
            && Building(arcs, used, sccId, lists, dag', c) && Traced(arcs, used, sccId, lists, dag', c)
            && Seen(used, sccId, dag', c, next)
  {
    RecordingKeepsBuilding(arcs, used, sccId, lists, dag, c, next, i, u);
    RecordingKeepsTraced(arcs, used, sccId, lists, dag, c, next, i, u);
  }

  lemma NumberingKeepsTraced(arcs: Arcs, used: set<Instr>, sccId: Numbering, lists: seq<seq<Instr>>, dag: Dag, c: nat,
                             i: Instr)
    requires Traced(arcs, used, sccId, lists, dag, c) && ListsMatch(sccId, lists) && |lists| == c + 1
    requires i in used && i !in sccId && forall w | (w, i) in arcs :: Seen(used, sccId, dag, c, w)
    ensures Traced(arcs, used, sccId[i := c], lists[c := lists[c] + [i]], dag, c)
  {
    var sccId', lists' := sccId[i := c], lists[c := lists[c] + [i]];
    JustifiedStays(arcs, used, sccId, used, sccId', dag, c);
    forall w, x | (w, x) in arcs && x in sccId' && 0 < sccId'[x] < |lists'| && (0, sccId'[x]) !in dag
      ensures w in sccId' && (sccId'[w] == sccId'[x] ==> Before(lists'[sccId'[x]], w, x))
    {
      if x == i {
        assert Seen(used, sccId, dag, c, w);
        if w in sccId && sccId[w] == c {
          var p :| 0 <= p < |lists[c]| && lists[c][p] == w;
          assert lists'[c][p] == w && lists'[c][|lists[c]|] == x;
        }
      } else if sccId'[w] == sccId'[x] {
        assert w in sccId && Before(lists[sccId[x]], w, x);
        var p, q :| 0 <= p < q < |lists[sccId[x]]| && lists[sccId[x]][p] == w && lists[sccId[x]][q] == x;
        assert lists'[sccId[x]][p] == w && lists'[sccId[x]][q] == x;
      }
    }
  }

  /** Between two components. */
  ghost predicate ZeroTraced(arcs: Arcs, sccId: Numbering, lists: seq<seq<Instr>>, dag: Dag) {
    && InOrder(arcs, sccId, lists, dag)
    && forall b | (0, b) in dag :: JoinsComponents(arcs, sccId, 0, b) || CycleIn(arcs, sccId, b)
  }

  /** Component b has a dependence that closes a cycle. */
  ghost predicate CycleIn(arcs: Arcs, sccId: Numbering, b: nat) {
    exists w, x :: ClosesCycle(arcs, w, x) && w in sccId && x in sccId && sccId[w] == b == sccId[x]
  }

  lemma OpeningTraced(arcs: Arcs, sccId: Numbering, lists: seq<seq<Instr>>, dag: Dag, c: nat)
    requires ZeroTraced(arcs, sccId, lists, dag) && ListsMatch(sccId, lists)
    ensures Traced(arcs, sccId.Keys, sccId, lists + [[]], dag, c)
  {
    forall b | (0, b) in dag
      ensures JoinsBuilding(arcs, sccId.Keys, sccId, 0, b, c) || CycleAt(arcs, sccId.Keys, sccId, b, c)
    {
      if JoinsComponents(arcs, sccId, 0, b) {
        var w, x :| (w, x) in arcs && w in sccId && x in sccId && sccId[w] == 0 && sccId[x] == b;
      } else {
        var w, x :| ClosesCycle(arcs, w, x) && w in sccId && x in sccId && sccId[w] == b == sccId[x];
        assert ComponentOf(sccId, c, w) == b == ComponentOf(sccId, c, x);
      }
    }
  }

  lemma ClosingTraced(arcs: Arcs, sccId: Numbering, lists: seq<seq<Instr>>, dag: Dag, c: nat)
    requires Traced(arcs, sccId.Keys, sccId, lists, dag, c)
    ensures ZeroTraced(arcs, sccId, lists, dag)
  {
    forall b | (0, b) in dag
      ensures JoinsComponents(arcs, sccId, 0, b) || CycleIn(arcs, sccId, b)
    {
      if CycleAt(arcs, sccId.Keys, sccId, b, c) {
        var w, x :| ClosesCycle(arcs, w, x) && w in sccId && x in sccId
          && ComponentOf(sccId, c, w) == b == ComponentOf(sccId, c, x);
      }
    }
  }

  /** Along a path within one component without a pair (0, c), positions in its list go up. */
  lemma {:induction false} PathInOrder(arcs: Arcs, sccId: Numbering, lists: seq<seq<Instr>>, dag: Dag, n: nat, c: nat,
                                       p: seq<Instr>)
    requires Settled(arcs, sccId, lists, dag, n) && InOrder(arcs, sccId, lists, dag) && 0 < c < n && (0, c) !in dag
    requires IsPath(arcs, p) && p[|p| - 1] in sccId && sccId[p[|p| - 1]] == c && (p[0] in sccId ==> sccId[p[0]] == c)
    ensures p[0] in sccId && (p[0] == p[|p| - 1] || Before(lists[c], p[0], p[|p| - 1]))
  {
    var k := |p| - 1;
    if k > 0 {
      PathNumbers(arcs, sccId, lists, dag, n, p);
      assert (p[k - 1], p[k]) in arcs;
      PathInOrder(arcs, sccId, lists, dag, n, c, p[..k]);
      assert Before(lists[c], p[k - 1], p[k]);
      BeforeChains(lists[c], p[0], p[k - 1], p[k]);
    }
  }

  lemma ArcNumbers(arcs: Arcs, sccId: Numbering, lists: seq<seq<Instr>>, dag: Dag, n: nat, w: Instr, x: Instr)
    requires Settled(arcs, sccId, lists, dag, n) && (w, x) in arcs && x in sccId
    ensures w in sccId && sccId[w] <= sccId[x]
  {
  }

  lemma {:induction false} PathNumbers(arcs: Arcs, sccId: Numbering, lists: seq<seq<Instr>>, dag: Dag, n: nat,
                                       p: seq<Instr>)
    requires Settled(arcs, sccId, lists, dag, n) && IsPath(arcs, p) && p[|p| - 1] in sccId
    ensures p[0] in sccId
    ensures forall k | 0 <= k < |p| :: p[k] in sccId && sccId[p[0]] <= sccId[p[k]] <= sccId[p[|p| - 1]]
  {
    var k := |p| - 1;
    if k > 0 {
      ArcNumbers(arcs, sccId, lists, dag, n, p[k - 1], p[k]);
      PathNumbers(arcs, sccId, lists, dag, n, p[..k]);
    }
  }

  lemma BeforeChains(list: seq<Instr>, x: Instr, y: Instr, z: Instr)
    requires NoDuplicates(list) && (x == y || Before(list, x, y)) && Before(list, y, z)
    ensures Before(list, x, z)
  {
  }

  lemma NotBoth(list: seq<Instr>, w: Instr, x: Instr)
    requires NoDuplicates(list) && Before(list, w, x)
    ensures w != x && !Before(list, x, w)
  {
  }

  /**
   Exactly which pairs leave component 0: (0, c) is recorded if and only if some member of c depends
   on component 0, or some dependence in c closes a cycle.
   */
  ghost predicate ZeroExact(arcs: Arcs, sccId: Numbering, dag: Dag, n: nat) {
    forall c | 0 < c < n :: (0, c) in dag <==> JoinsComponents(arcs, sccId, 0, c) || CycleIn(arcs, sccId, c)
  }

  lemma TracedIsExact(arcs: Arcs, sccId: Numbering, lists: seq<seq<Instr>>, dag: Dag, n: nat)
    requires Settled(arcs, sccId, lists, dag, n) && ZeroTraced(arcs, sccId, lists, dag)
    ensures ZeroExact(arcs, sccId, dag, n)
  {
    forall c: nat | 0 < c < n && CycleIn(arcs, sccId, c) ensures (0, c) in dag {
      var w, x :| ClosesCycle(arcs, w, x) && w in sccId && x in sccId && sccId[w] == c == sccId[x];
      var p :| PathFromTo(arcs, p, x, w);
      if (0, c) !in dag {
        NotBoth(lists[c], w, x);
        PathInOrder(arcs, sccId, lists, dag, n, c, p);
      }
    }
  }

  /** Component c has a dependence inside itself. */
  ghost predicate ArcIn(arcs: Arcs, sccId: Numbering, c: nat) {
    exists w, x :: (w, x) in arcs && w in sccId && x in sccId && sccId[w] == c == sccId[x]
  }

  /** Where equal numbers mean mutual reachability, any dependence inside a component closes a cycle. */
  lemma ZeroPairsOfComponents(arcs: Arcs, sccId: Numbering, dag: Dag, n: nat, c: nat)
    requires SameNumberMeansSameComponent(arcs, sccId) && ZeroExact(arcs, sccId, dag, n) && 0 < c < n
    ensures (0, c) in dag <==> JoinsComponents(arcs, sccId, 0, c) || ArcIn(arcs, sccId, c)
  {
    if ArcIn(arcs, sccId, c) {
      var w, x :| (w, x) in arcs && w in sccId && x in sccId && sccId[w] == c == sccId[x];
      assert SameComponent(arcs, w, x);
      assert ClosesCycle(arcs, w, x);
    }
    if CycleIn(arcs, sccId, c) {
      var w, x :| ClosesCycle(arcs, w, x) && w in sccId && x in sccId && sccId[w] == c == sccId[x];
      assert (w, x) in arcs;
    }
  }

  /** The reverse pass between two components: everything seen is numbered, below c. */
  ghost predicate Settled(arcs: Arcs, sccId: Numbering, lists: seq<seq<Instr>>, dag: Dag, c: nat) {
    && |lists| == c
    && ListsMatch(sccId, lists)
    && (forall w, x | (w, x) in arcs && x in sccId :: w in sccId && sccId[w] <= sccId[x])
    && (forall a, b | (a, b) in dag :: a < b < c && (a == 0 || JoinsComponents(arcs, sccId, a, b)))
    && CrossingsRecorded(arcs, sccId, dag)
  }

  lemma OpeningComponent(arcs: Arcs, sccId: Numbering, lists: seq<seq<Instr>>, dag: Dag, c: nat)
    requires Settled(arcs, sccId, lists, dag, c)
    ensures Building(arcs, sccId.Keys, sccId, lists + [[]], dag, c)
  {
    forall a, b | (a, b) in dag && a != 0
      ensures JoinsBuilding(arcs, sccId.Keys, sccId, a, b, c)
    {
      assert JoinsComponents(arcs, sccId, a, b);
    }
  }

  lemma ClosingComponent(arcs: Arcs, sccId: Numbering, lists: seq<seq<Instr>>, dag: Dag, c: nat)
    requires Building(arcs, sccId.Keys, sccId, lists, dag, c)
    ensures Settled(arcs, sccId, lists, dag, c + 1)
  {
    forall a, b | (a, b) in dag && a != 0
      ensures JoinsComponents(arcs, sccId, a, b)
    {
      assert JoinsBuilding(arcs, sccId.Keys, sccId, a, b, c);
    }
  }

  ghost predicate AllRooted(arcs: Arcs, list: seq<Instr>, sccId: Numbering, c: nat) {
    forall k: nat | k < c :: HasRoot(arcs, list, sccId, k)
  }

  lemma NewComponentIsRooted(arcs: Arcs, list: seq<Instr>, before: Numbering, after: Numbering, x: Instr, c: nat)
    requires AllRooted(arcs, list, before, c)
    requires forall y | y in before :: y in after && after[y] == before[y] < c
    requires forall y | y in after && y !in before :: after[y] == c && Reaches(arcs, y, x)
    requires x in list && x in after && x !in before
    ensures AllRooted(arcs, list, after, c + 1)
  {
    forall k: nat | k < c + 1
      ensures HasRoot(arcs, list, after, k)
    {
      if k < c {
        assert HasRoot(arcs, list, before, k);
        var r :| Rooted(arcs, list, before, r, k);
        assert Rooted(arcs, list, after, r, k);
      } else {
        assert Rooted(arcs, list, after, x, c);
      }
    }
  }

  /** The verdict on a finished numbering: right exactly when no arc comes from outside. */
  ghost predicate RightWhenSelfContained(arcs: Arcs, list: seq<Instr>, sccId: Numbering) {
    SelfContained(arcs, list) ==>
      && SameNumberMeansSameComponent(arcs, sccId)
      && UnionOfComponents(arcs, sccId.Keys)
  }

  /** The reverse pass after the nodes from list[k] on have been dealt with. */
  ghost predicate Collected(arcs: Arcs, list: seq<Instr>, sccId: Numbering, c: nat, k: nat) {
    && (forall j | k <= j < |list| :: list[j] in sccId)
    && AllRooted(arcs, list, sccId, c)
    && RightWhenSelfContained(arcs, list, sccId)
  }

  lemma CollectingKeepsCollected(arcs: Arcs, fwd: set<Instr>, list: seq<Instr>, before: Numbering, after: Numbering,
                                 c: nat, k: nat)
    requires WellOrdered(arcs, fwd, list) && k < |list|
    requires Collected(arcs, list, before, c, k + 1)
    requires Advanced(before.Keys, before, after.Keys, after, c)
    requires forall x | x in before :: before[x] < c
    requires ClosedBackwards(arcs, after.Keys)
    requires list[k] !in before && list[k] in after
    requires forall x | x in after.Keys - before.Keys :: Reaches(arcs, x, list[k])
    ensures Collected(arcs, list, after, c + 1, k)
  {
    forall y | y in after && y !in before
      ensures Reaches(arcs, y, list[k])
    {
      assert y in after.Keys - before.Keys;
    }
    NewComponentIsRooted(arcs, list, before, after, list[k], c);
    if SelfContained(arcs, list) {
      ReverseVisitIsComponent(arcs, fwd, list, k, before.Keys, after.Keys);
      NewComponentKeepsNumbering(arcs, before, after, list[k], c);
    }
  }

  lemma JudgeNumbering(arcs: Arcs, list: seq<Instr>, insts: seq<Instr>, sccId: Numbering)
    requires forall x :: x in list <==> x in insts
    requires forall a | a in arcs :: a.1 in insts
    requires ClosedBackwards(arcs, sccId.Keys) && forall x | x in list :: x in sccId
    requires forall x | x in sccId :: HasRoot(arcs, list, sccId, sccId[x])
    requires RightWhenSelfContained(arcs, list, sccId)
    ensures forall x | x in insts :: x in sccId
    ensures SameNumberMeansSameComponent(arcs, sccId) <==> forall a | a in arcs :: a.0 in insts
  {
    if forall a | a in arcs :: a.0 in insts {
      forall w, x | (w, x) in arcs && x in list ensures w in list {
        assert (w, x).0 in insts;
      }
    } else {
      var a :| a in arcs && a.0 !in insts;
      var w, x := a.0, a.1;
      assert (w, x) in arcs && x in insts;
      assert x in list && w !in list;
      forall u, v | (u, v) in arcs && u in list ensures v in list {
        assert (u, v).1 in insts;
      }
      ForeignSourceBreaksNumbering(arcs, list, sccId);
    }
  }

  ghost function Ends(arcs: Arcs): set<Instr> {
    (set a | a in arcs :: a.0) + (set a | a in arcs :: a.1)
  }

  lemma EndsOfArcs(arcs: Arcs)
    ensures forall a | a in arcs :: a.0 in Ends(arcs) && a.1 in Ends(arcs)
  {
  }

  lemma TablesFollowAllArcs(pdg: EdgeTable, rev: EdgeTable, all: seq<Edge>)
    requires InStep(pdg, rev, all)
    ensures forall i: Instr, j: Instr :: (exists e :: e in Row(pdg, i) && e.v == j) <==> (i, j) in ArcsOf(all)
    ensures forall i: Instr, j: Instr :: (exists e :: e in Row(rev, j) && e.v == i) <==> (i, j) in ArcsOf(all)
  {
    forall i: Instr, j: Instr
      ensures (exists e :: e in Row(pdg, i) && e.v == j) <==> (i, j) in ArcsOf(all)
      ensures (exists e :: e in Row(rev, j) && e.v == i) <==> (i, j) in ArcsOf(all)
    {
      TablesFollowArcs(pdg, rev, all, i, j);
    }
  }

  class SccFinder {
    const pdg: EdgeTable
    const rev: EdgeTable
    ghost const arcs: Arcs
    ghost const nodes: set<Instr>

    var used: set<Instr>
    var list: seq<Instr>
    var sccNum: nat
    var sccId: Numbering
    var instInSCC: seq<seq<Instr>>
    var sccDependents: Adjacency
    var sccParents: Adjacency
    var dagAdded: Dag

    /** The tables passed in walk the arcs forwards and backwards, and nodes bounds the graph. */
    ghost predicate GraphGiven() {
      && (forall i: Instr, j: Instr :: (exists e :: e in Row(pdg, i) && e.v == j) <==> (i, j) in arcs)
      && (forall i: Instr, j: Instr :: (exists e :: e in Row(rev, j) && e.v == i) <==> (i, j) in arcs)
      && (forall a | a in arcs :: a.0 in nodes && a.1 in nodes)
    }

    constructor (pdg: EdgeTable, rev: EdgeTable, ghost all: seq<Edge>, ghost insts: seq<Instr>)
      requires InStep(pdg, rev, all)
      ensures GraphGiven() && arcs == ArcsOf(all) && this.pdg == pdg && this.rev == rev
      ensures forall i | i in insts :: i in nodes
      ensures list == [] && sccId == map[] && sccDependents == map[] && sccParents == map[]
    {
      this.pdg, this.rev := pdg, rev;
      arcs := ArcsOf(all);
      nodes := (set i | i in insts) + Ends(ArcsOf(all));
      used, list, sccNum, sccId, instInSCC := {}, [], 0, map[], [];
      sccDependents, sccParents, dagAdded := map[], map[], {};
      TablesFollowAllArcs(pdg, rev, all);
      EndsOfArcs(ArcsOf(all));
    }

    method DfsForward(i: Instr)
      requires GraphGiven() && i in nodes && i !in used && used <= nodes
      requires WellOrdered(arcs, used, list)
      requires AllReach(arcs, used, list, i)
      modifies `used, `list
      ensures WellOrdered(arcs, used, list)
      ensures used <= nodes && i in list
      ensures Explored(old(used), old(list), used, list)
      ensures forall x | x in used - old(used) :: Reaches(arcs, i, x)
      decreases nodes - used, 0
    {
      VisitingKeepsOrder(arcs, used, list, i);
      used := used + {i};
      var row, j := Row(pdg, i), 0;
      while j < |row|
        invariant 0 <= j <= |row|
        invariant WellOrdered(arcs, used, list) && used <= nodes
        invariant AllReach(arcs, used, list, i)
        invariant Explored(old(used) + {i}, old(list), used, list)
        invariant forall x | x in used - old(used) :: Reaches(arcs, i, x)
        invariant forall k | 0 <= k < j :: row[k].v in used
      {
        assert row[j] in Row(pdg, i);
        assert (i, row[j].v) in arcs;
        VisitSuccessor(i, row[j].v);
        j := j + 1;
      }
      FinishingKeepsOrder(arcs, used, list, i);
      list := list + [i];
    }

    /** The body of the loop in DfsForward, for one successor of i. */
    method VisitSuccessor(i: Instr, next: Instr)
      requires GraphGiven() && used <= nodes && i in used && i !in list && (i, next) in arcs
      requires WellOrdered(arcs, used, list)
      requires AllReach(arcs, used, list, i)
      modifies `used, `list
      ensures WellOrdered(arcs, used, list) && AllReach(arcs, used, list, i)
      ensures used <= nodes && next in used
      ensures Explored(old(used), old(list), used, list)
      ensures forall x | x in used - old(used) :: Reaches(arcs, i, x)
      decreases nodes - used, 1
    {
      if next !in used {
        ReachesByArc(arcs, i, next);
        forall g | g in used && g !in list ensures Reaches(arcs, g, next) {
          ReachesTransitively(arcs, g, i, next);
        }
        DfsForward(next);
        forall x | x in used - old(used) ensures Reaches(arcs, i, x) {
          ReachesTransitively(arcs, i, next, x);
        }
      }
    }

    ghost predicate ReverseInv()
      reads this
    {
      && used <= nodes && sccNum + 1 == |instInSCC|
      && Building(arcs, used, sccId, instInSCC, dagAdded, sccNum)
      && Traced(arcs, used, sccId, instInSCC, dagAdded, sccNum)
      && TablesAgree(dagAdded, sccDependents, sccParents)
    }

    /** The nodes on the stack are reachable from i. */
    ghost predicate StackAbove(i: Instr)
      reads this
    {
      forall g | g in used && g !in sccId :: Reaches(arcs, i, g)
    }

    method DfsReverse(i: Instr)
      requires GraphGiven() && i in nodes && i !in used && ReverseInv() && StackAbove(i)
      modifies `used, `sccId, `instInSCC, `sccDependents, `sccParents, `dagAdded
      ensures ReverseInv() && i in used && old(dagAdded) <= dagAdded
      ensures Advanced(old(used), old(sccId), used, sccId, sccNum)
      ensures forall x | x in used - old(used) :: Reaches(arcs, x, i)
      decreases nodes - used, 0
    {
      StartNode(i);
      VisitPredecessors(i, Row(rev, i));
      forall w | (w, i) in arcs ensures Seen(used, sccId, dagAdded, sccNum, w) {
        var e :| e in Row(rev, i) && e.v == w;
      }
      NumberNode(i);
    }

    /** The loop in DfsReverse. */
    method VisitPredecessors(i: Instr, row: seq<Edge>)
      requires GraphGiven() && ReverseInv() && StackAbove(i) && i in used && i !in sccId
      requires forall e | e in row :: (e.v, i) in arcs
      modifies `used, `sccId, `instInSCC, `sccDependents, `sccParents, `dagAdded
      ensures ReverseInv() && old(dagAdded) <= dagAdded
      ensures Advanced(old(used), old(sccId), used, sccId, sccNum)
      ensures forall e | e in row :: Seen(used, sccId, dagAdded, sccNum, e.v)
      ensures forall x | x in used - old(used) :: Reaches(arcs, x, i)
      decreases nodes - used, 2
    {
      var j := 0;
      while j < |row|
        invariant 0 <= j <= |row|
        invariant ReverseInv() && StackAbove(i) && old(dagAdded) <= dagAdded
        invariant Advanced(old(used), old(sccId), used, sccId, sccNum)
        invariant forall x | x in used - old(used) :: Reaches(arcs, x, i)
        invariant AllSeen(used, sccId, dagAdded, sccNum, row[..j])
      {
        assert row[j] in row;
        ghost var used0, sccId0, dag0 := used, sccId, dagAdded;
        VisitPredecessor(row[j].v, i);
        AllSeenStays(used0, sccId0, dag0, used, sccId, dagAdded, sccNum, row[..j]);
        AllSeenOneMore(used, sccId, dagAdded, sccNum, row, j);
        j := j + 1;
      }
      assert row[..j] == row;
    }

    method StartNode(i: Instr)
      requires i in nodes && i !in used && ReverseInv() && StackAbove(i)
      modifies `used
      ensures used == old(used) + {i} && ReverseInv() && StackAbove(i) && Reaches(arcs, i, i)
    {
      SeeingKeepsBuilding(arcs, used, sccId, instInSCC, dagAdded, sccNum, i);
      JustifiedStays(arcs, used, sccId, used + {i}, sccId, dagAdded, sccNum);
      used := used + {i};
      ReachesSelf(arcs, i);
    }

    method NumberNode(i: Instr)
      requires ReverseInv() && i in used && i !in sccId
      requires forall w | (w, i) in arcs :: Seen(used, sccId, dagAdded, sccNum, w)
      modifies `sccId, `instInSCC
      ensures ReverseInv()
      ensures sccId == old(sccId)[i := sccNum]
    {
      NumberingKeepsBuilding(arcs, used, sccId, instInSCC, dagAdded, sccNum, i);
      NumberingKeepsTraced(arcs, used, sccId, instInSCC, dagAdded, sccNum, i);
      sccId := sccId[i := sccNum];
      instInSCC := instInSCC[sccNum := instInSCC[sccNum] + [i]];
    }

    /** The body of the loop in DfsReverse, for one predecessor of i. */
    method VisitPredecessor(next: Instr, i: Instr)
      requires GraphGiven() && ReverseInv() && StackAbove(i) && i in used && i !in sccId && (next, i) in arcs
      modifies `used, `sccId, `instInSCC, `sccDependents, `sccParents, `dagAdded
      ensures ReverseInv() && StackAbove(i) && old(dagAdded) <= dagAdded
      ensures Advanced(old(used), old(sccId), used, sccId, sccNum)
      ensures Seen(used, sccId, dagAdded, sccNum, next)
      ensures forall x | x in used - old(used) :: Reaches(arcs, x, i)
      decreases nodes - used, 1
    {
      if next !in used {
        ReachesByArc(arcs, next, i);
        forall g | g in used && g !in sccId ensures Reaches(arcs, next, g) {
          ReachesTransitively(arcs, next, i, g);
        }
        DfsReverse(next);
        forall x | x in used - old(used) ensures Reaches(arcs, x, i) {
          ReachesTransitively(arcs, x, next, i);
        }
      } else {
        RecordPair(next, i);
      }
    }

    /** The predecessor has been visited before; one without a number reads as component 0. */
    method RecordPair(next: Instr, i: Instr)
      requires ReverseInv() && StackAbove(i) && i in used && i !in sccId && (next, i) in arcs && next in used
      modifies `sccDependents, `sccParents, `dagAdded
      ensures ReverseInv() && old(dagAdded) <= dagAdded && Seen(used, sccId, dagAdded, sccNum, next)
    {
      assert next in sccId || Reaches(arcs, i, next);
      var u := if next in sccId then sccId[next] else 0;
      if u != sccNum && (u, sccNum) !in dagAdded {
        RecordingKeepsBoth(arcs, used, sccId, instInSCC, dagAdded, sccNum, next, i, u);
        RecordKeepsTables(dagAdded, sccDependents, sccParents, u, sccNum);
        sccDependents := sccDependents[u := Neighbours(sccDependents, u) + [sccNum]];
        sccParents := sccParents[sccNum := Neighbours(sccParents, sccNum) + [u]];
        dagAdded := dagAdded + {(u, sccNum)};
      }
    }

    /** The forward pass over the instructions of the loop, in block order. */
    method ForwardPass(insts: seq<Instr>)
      requires GraphGiven() && list == []
      requires forall i | i in insts :: i in nodes
      requires forall a | a in arcs :: a.1 in insts
      modifies `used, `list
      ensures WellOrdered(arcs, used, list)
      ensures forall x :: x in list <==> x in insts
    {
      used := {};
      var k := 0;
      while k < |insts|
        invariant 0 <= k <= |insts|
        invariant WellOrdered(arcs, used, list) && used <= nodes
        invariant forall x :: x in used <==> x in list
        invariant forall x | x in insts[..k] :: x in list
        invariant forall x | x in list :: x in insts
      {
        ghost var before := used;
        if insts[k] !in used {
          DfsForward(insts[k]);
          forall x | x in list ensures x in insts {
            if x !in before {
              assert Reaches(arcs, insts[k], x);
              var p :| PathFromTo(arcs, p, insts[k], x);
              var s := set z | z in insts;
              ClosedForwards(arcs, s, p);
            }
          }
        }
        assert insts[..k + 1] == insts[..k] + [insts[k]];
        k := k + 1;
      }
      assert insts[..|insts|] == insts;
    }

    /** Opens component sccNum, collects everything unseen that reaches i, and closes it. */
    method CollectComponent(i: Instr)
      requires GraphGiven() && i in nodes && i !in used && used <= nodes
      requires used == sccId.Keys && Settled(arcs, sccId, instInSCC, dagAdded, sccNum)
      requires ZeroTraced(arcs, sccId, instInSCC, dagAdded)
      requires TablesAgree(dagAdded, sccDependents, sccParents)
      modifies `used, `sccId, `instInSCC, `sccNum, `sccDependents, `sccParents, `dagAdded
      ensures used <= nodes && i in used && sccNum == old(sccNum) + 1
      ensures used == sccId.Keys && Settled(arcs, sccId, instInSCC, dagAdded, sccNum)
      ensures ZeroTraced(arcs, sccId, instInSCC, dagAdded)
      ensures TablesAgree(dagAdded, sccDependents, sccParents)
      ensures Advanced(old(used), old(sccId), used, sccId, old(sccNum))
      ensures forall x | x in used - old(used) :: Reaches(arcs, x, i)
    {
      ghost var before, numbered := used, sccId;
      OpeningComponent(arcs, sccId, instInSCC, dagAdded, sccNum);
      OpeningTraced(arcs, sccId, instInSCC, dagAdded, sccNum);
      instInSCC := instInSCC + [[]];
      DfsReverse(i);
      AdvancedKeepsAllNumbered(before, numbered, used, sccId, sccNum);
      ClosingComponent(arcs, sccId, instInSCC, dagAdded, sccNum);
      ClosingTraced(arcs, sccId, instInSCC, dagAdded, sccNum);
      sccNum := sccNum + 1;
    }

    /** The body of the loop over the forward list, from its end. */
    method TakeNode(k: nat, ghost fwd: set<Instr>)
      requires GraphGiven() && WellOrdered(arcs, fwd, list) && k < |list| && (forall x | x in list :: x in nodes)
      requires used <= nodes && used == sccId.Keys
      requires Settled(arcs, sccId, instInSCC, dagAdded, sccNum) && ZeroTraced(arcs, sccId, instInSCC, dagAdded)
      requires TablesAgree(dagAdded, sccDependents, sccParents)
      requires Collected(arcs, list, sccId, sccNum, k + 1)
      modifies `used, `sccId, `instInSCC, `sccNum, `sccDependents, `sccParents, `dagAdded
      ensures used <= nodes && used == sccId.Keys
      ensures Settled(arcs, sccId, instInSCC, dagAdded, sccNum) && ZeroTraced(arcs, sccId, instInSCC, dagAdded)
      ensures TablesAgree(dagAdded, sccDependents, sccParents)
      ensures Collected(arcs, list, sccId, sccNum, k)
    {
      var i := list[k];
      assert i in list;
      if i !in used {
        ghost var before := sccId;
        CollectComponent(i);
        CollectingKeepsCollected(arcs, fwd, list, before, sccId, sccNum - 1, k);
      }
    }

    /** The reverse pass, from the last node to finish. */
    method ReversePass(ghost fwd: set<Instr>)
      requires GraphGiven() && WellOrdered(arcs, fwd, list) && forall x | x in list :: x in nodes
      requires sccId == map[] && sccDependents == map[] && sccParents == map[]
      modifies `used, `sccId, `instInSCC, `sccNum, `sccDependents, `sccParents, `dagAdded
      ensures used == sccId.Keys <= nodes
      ensures Settled(arcs, sccId, instInSCC, dagAdded, sccNum) && ZeroTraced(arcs, sccId, instInSCC, dagAdded)
      ensures TablesAgree(dagAdded, sccDependents, sccParents)
      ensures Collected(arcs, list, sccId, sccNum, 0)
    {
      used, dagAdded, sccNum, instInSCC := {}, {}, 0, [];
      var k := |list|;
      while k > 0
        invariant 0 <= k <= |list|
        invariant used <= nodes && used == sccId.Keys
        invariant Settled(arcs, sccId, instInSCC, dagAdded, sccNum) && ZeroTraced(arcs, sccId, instInSCC, dagAdded)
        invariant TablesAgree(dagAdded, sccDependents, sccParents)
        invariant Collected(arcs, list, sccId, sccNum, k)
      {
        k := k - 1;
        TakeNode(k, fwd);
      }
    }

    method FindScc(insts: seq<Instr>)
      requires GraphGiven() && list == [] && sccId == map[] && sccDependents == map[] && sccParents == map[]
      requires forall i | i in insts :: i in nodes
      requires forall a | a in arcs :: a.1 in insts
      modifies this
      ensures sccId.Keys <= nodes && forall i | i in insts :: i in sccId
      ensures Settled(arcs, sccId, instInSCC, dagAdded, sccNum)
      ensures ZeroExact(arcs, sccId, dagAdded, sccNum)
      ensures TablesAgree(dagAdded, sccDependents, sccParents)
      ensures EveryNumberUsed(instInSCC) && LeadInto(arcs, sccId.Keys, insts)
      ensures SameNumberMeansSameComponent(arcs, sccId) <==> forall a | a in arcs :: a.0 in insts
    {
      ForwardPass(insts);
      ReversePass(used);
      RootedMeansUsed(arcs, list, sccId, instInSCC, dagAdded, sccNum);
      SameLeadInto(arcs, sccId.Keys, list, insts);
      JudgeNumbering(arcs, list, insts, sccId);
      TracedIsExact(arcs, sccId, instInSCC, dagAdded, sccNum);
    }
  }

  ghost predicate LeadsInto(arcs: Arcs, x: Instr, list: seq<Instr>) {
    exists r :: r in list && Reaches(arcs, x, r)
  }

  /** Nothing is here but what leads to a node of the list. */
  ghost predicate LeadInto(arcs: Arcs, found: set<Instr>, list: seq<Instr>) {
    forall x {:trigger LeadsInto(arcs, x, list)} | x in found :: LeadsInto(arcs, x, list)
  }

  lemma SameLeadInto(arcs: Arcs, found: set<Instr>, a: seq<Instr>, b: seq<Instr>)
    requires LeadInto(arcs, found, a) && forall x :: x in a <==> x in b
    ensures LeadInto(arcs, found, b)
  {
    forall x | x in found ensures LeadsInto(arcs, x, b) {
      assert LeadsInto(arcs, x, a);
      var r :| r in a && Reaches(arcs, x, r);
      assert r in b;
    }
  }

  /** No component is empty, so that there are as many components as numbers. */
  ghost predicate EveryNumberUsed(lists: seq<seq<Instr>>) {
    forall k | 0 <= k < |lists| :: lists[k] != []
  }

  lemma RootedMeansUsed(arcs: Arcs, list: seq<Instr>, sccId: Numbering, lists: seq<seq<Instr>>, dag: Dag, c: nat)
    requires Settled(arcs, sccId, lists, dag, c) && AllRooted(arcs, list, sccId, c)
    ensures EveryNumberUsed(lists) && LeadInto(arcs, sccId.Keys, list)
  {
    forall x | x in sccId.Keys ensures LeadsInto(arcs, x, list) {
      assert HasRoot(arcs, list, sccId, sccId[x]);
    }
    forall k: nat | k < c ensures lists[k] != [] {
      assert HasRoot(arcs, list, sccId, k);
      var r :| Rooted(arcs, list, sccId, r, k);
      assert r in lists[k];
    }
  }

  lemma OneDoesNotReachTwo()
    ensures !SameComponent({(2, 1)}, 1, 2)
  {
    var arcs: Arcs := {(2, 1)};
    if Reaches(arcs, 1, 2) {
      var p :| PathFromTo(arcs, p, 1, 2);
      ClosedForwards(arcs, {1}, p);
    }
  }

  /**
   On a table with the one edge from 2 to 1, where 1 is the only instruction that is looked at first,
   FindScc numbers 1 and 2 alike, although 1 does not reach 2.
   */
  method ForeignSourceExample(finder: SccFinder)
    requires finder.GraphGiven() && finder.arcs == {(2, 1)} && finder.nodes == {1, 2}
    requires finder.list == [] && finder.sccId == map[] && finder.sccDependents == map[] && finder.sccParents == map[]
    modifies finder
    ensures 1 in finder.sccId && 2 in finder.sccId && finder.sccId[1] == finder.sccId[2]
    ensures !SameComponent(finder.arcs, 1, 2)
  {
    ghost var a := (2, 1);
    assert a in finder.arcs && a.0 !in [1];
    OneDoesNotReachTwo();
    ReachesSelf(finder.arcs, 1);
    ReachesSelf(finder.arcs, 2);
    finder.FindScc([1]);
  }

  /** 1 leads to 2, and 2 to the cycle of 3 and 4. */
  const CHAIN: Arcs := {(1, 2), (2, 3), (3, 4), (4, 3)}

  /**
   On these dependences FindScc records the pair from component 0, which is that of 1, to the component
   of 3 and 4, although no dependence joins the two.
   */
  method SpuriousPairExample(finder: SccFinder)
    requires finder.GraphGiven() && finder.arcs == CHAIN && finder.nodes == {1, 2, 3, 4}
    requires finder.list == [] && finder.sccId == map[] && finder.sccDependents == map[] && finder.sccParents == map[]
    modifies finder
    ensures 3 in finder.sccId && (0, finder.sccId[3]) in finder.dagAdded
    ensures !JoinsComponents(CHAIN, finder.sccId, 0, finder.sccId[3])
  {
    var insts := ChainInstructions(finder);
    finder.FindScc(insts);
    ChainNumbered(finder.sccId, finder.instInSCC, finder.dagAdded, finder.sccNum);
  }

  method ChainInstructions(finder: SccFinder) returns (insts: seq<Instr>)
    requires finder.arcs == CHAIN && finder.nodes == {1, 2, 3, 4}
    ensures 1 in insts && 2 in insts && 3 in insts && 4 in insts && forall i | i in insts :: i in finder.nodes
    ensures forall a | a in finder.arcs :: a.0 in insts && a.1 in insts
  {
    insts := [1, 2, 3, 4];
    ChainEnds(insts, finder.nodes);
  }

  lemma ChainEnds(insts: seq<Instr>, nodes: set<Instr>)
    requires insts == [1, 2, 3, 4] && nodes == {1, 2, 3, 4}
    ensures forall i :: i in insts <==> i in nodes
    ensures forall a | a in CHAIN :: a.0 in insts && a.1 in insts
  {
  }

  lemma ChainNumbered(sccId: Numbering, lists: seq<seq<Instr>>, dag: Dag, n: nat)
    requires Settled(CHAIN, sccId, lists, dag, n) && ZeroExact(CHAIN, sccId, dag, n)
    requires SameNumberMeansSameComponent(CHAIN, sccId) && 1 in sccId && 2 in sccId && 3 in sccId && 4 in sccId
    ensures (0, sccId[3]) in dag && !JoinsComponents(CHAIN, sccId, 0, sccId[3])
  {
    assert (1, 2) in CHAIN && (2, 3) in CHAIN && (3, 4) in CHAIN && (4, 3) in CHAIN;
    NoWayBack({2, 3, 4}, 2, 1);
    NoWayBack({3, 4}, 3, 2);
    ReachesByArc(CHAIN, 3, 4);
    ReachesByArc(CHAIN, 4, 3);
    assert SameComponent(CHAIN, 3, 4) && ClosesCycle(CHAIN, 3, 4);
    assert 0 <= sccId[1] < sccId[2] < sccId[3] == sccId[4];
    assert CycleIn(CHAIN, sccId, sccId[3]);
  }

  lemma NoWayBack(closed: set<Instr>, x: Instr, y: Instr)
    requires forall u, v | (u, v) in CHAIN && u in closed :: v in closed
    requires x in closed && y !in closed
    ensures !SameComponent(CHAIN, x, y)
  {
    if Reaches(CHAIN, x, y) {
      var p :| PathFromTo(CHAIN, p, x, y);
      ClosedForwards(CHAIN, closed, p);
    }
  }
}
