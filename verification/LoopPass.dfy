/** The passes in the order runOnLoop runs them, and what they guarantee together (pipeline.cpp). */
module LoopPass {
  import C = ControlDependence
  import D = DataDependence
  import opened Paths
  import opened DependenceGraph
  import opened StronglyConnected
  import opened ThreadPartition
  import opened Pipeline
  import opened Synchronization

  datatype Outcome =
    | Unchanged
    | Split(thread: Threads, edges: seq<Edge>, code: seq<Code>, wires: seq<Wire>)

  /** The body of stage t: its own instructions, and the branches copied into it. */
  function StageBody(insts: seq<Instr>, thread: Threads, t: nat, copied: set<Instr>): (code: Code)
    ensures forall k | 0 <= k < |code| :: code[k].Inst?
  {
    if insts == [] then []
    else
      var i := insts[|insts| - 1];
      StageBody(insts[..|insts| - 1], thread, t, copied) +
      if (i in thread && thread[i] == t) || i in copied then [Inst(i)] else []
  }

  /** Stage t has i for its own or as a copied branch. */
  predicate Held(thread: Threads, t: nat, copied: set<Instr>, i: Instr) {
    (i in thread && thread[i] == t) || i in copied
  }

  ghost predicate StandsBefore(insts: seq<Instr>, x: Instr, y: Instr) {
    exists p, q :: 0 <= p < q < |insts| && insts[p] == x && insts[q] == y
  }

  /** The stage has what it holds as often as the loop has it, nothing else, and in the order of the loop. */
  ghost predicate StageHolds(insts: seq<Instr>, thread: Threads, t: nat, copied: set<Instr>, body: seq<Instr>) {
    && (forall i :: multiset(body)[i] == if Held(thread, t, copied, i) then multiset(insts)[i] else 0)
    && (forall j, k | 0 <= j < k < |body| :: StandsBefore(insts, body[j], body[k]))
  }

  lemma {:induction false} StageBodyHolds(insts: seq<Instr>, thread: Threads, t: nat, copied: set<Instr>)
    ensures StageHolds(insts, thread, t, copied, Instructions(StageBody(insts, thread, t, copied)))
  {
    if insts != [] {
      var front, i := insts[..|insts| - 1], insts[|insts| - 1];
      var code := StageBody(front, thread, t, copied);
      var body := Instructions(code);
      StageBodyHolds(front, thread, t, copied);
      assert insts == front + [i];
      if Held(thread, t, copied, i) {
        OneItemMore(code, Inst(i));
        BodyGrows(front, thread, t, copied, body, i);
      } else {
        assert code + [] == code;
        StillInOrder(front, i, body);
      }
    }
  }

  lemma StillInOrder(front: seq<Instr>, i: Instr, body: seq<Instr>)
    requires forall j, k | 0 <= j < k < |body| :: StandsBefore(front, body[j], body[k])
    ensures forall j, k | 0 <= j < k < |body| :: StandsBefore(front + [i], body[j], body[k])
  {
    forall j, k | 0 <= j < k < |body| ensures StandsBefore(front + [i], body[j], body[k]) {
      var p, q :| 0 <= p < q < |front| && front[p] == body[j] && front[q] == body[k];
      assert (front + [i])[p] == body[j] && (front + [i])[q] == body[k];
    }
  }

  lemma BodyGrows(front: seq<Instr>, thread: Threads, t: nat, copied: set<Instr>, body: seq<Instr>, i: Instr)
    requires StageHolds(front, thread, t, copied, body) && Held(thread, t, copied, i)
    ensures StageHolds(front + [i], thread, t, copied, body + [i])
  {
    var insts, body' := front + [i], body + [i];
    StillInOrder(front, i, body);
    forall j, k | 0 <= j < k < |body'| ensures StandsBefore(insts, body'[j], body'[k]) {
      if k < |body| {
        assert StandsBefore(insts, body[j], body[k]);
      } else {
        assert body[j] in multiset(body) && body[j] in multiset(front);
        var p :| 0 <= p < |front| && front[p] == body[j];
        assert insts[p] == body'[j] && insts[|front|] == i;
      }
    }
  }

  lemma HeldInBody(insts: seq<Instr>, thread: Threads, t: nat, copied: set<Instr>, code: Code, i: Instr)
    requires StageHolds(insts, thread, t, copied, Instructions(code))
    ensures Inst(i) in code <==> i in insts && Held(thread, t, copied, i)
  {
    InstructionsMember(code, i);
    assert i in Instructions(code) <==> multiset(Instructions(code))[i] > 0;
    assert i in insts <==> multiset(insts)[i] > 0;
  }

  /** The thread of every numbered instruction, as getInstAssigned looks it up. */
  function ThreadsOf(sccId: Numbering, owner: seq<int>): (thread: Threads)
    requires forall i | i in sccId :: sccId[i] < |owner| && owner[sccId[i]] >= 0
    ensures thread.Keys == sccId.Keys
  {
    map i | i in sccId :: owner[sccId[i]] as nat
  }

  /** A channel made for the dependence e and read by stage t, with both sites in place. */
  ghost predicate HasChannel(code: seq<Code>, wires: seq<Wire>, e: Edge, from: nat, to: nat, c: nat) {
    && c < |wires| && wires[c] == Wire(from, to) && from < to < |code|
    && WrittenAfter(code[from], e.u, c) && ReadBefore(code[to], e.v, c)
  }

  /** Every dependence goes to the same or a later stage. */
  ghost predicate FlowsForward(edges: seq<Edge>, thread: Threads) {
    forall e | e in edges :: e.u in thread && e.v in thread && thread[e.u] <= thread[e.v]
  }

  ghost predicate Crosses(insts: seq<Instr>, branches: set<Instr>, thread: Threads, e: Edge) {
    && e.u in insts && e.v in insts && e.u !in branches && e.u in thread && e.v in thread
    && thread[e.u] != thread[e.v]
  }

  /** A dependence by position, not on a branch, and a stage after that of its source which has its target. */
  ghost predicate Needed(insts: seq<Instr>, branches: set<Instr>, edges: seq<Edge>, thread: Threads,
                         copied: seq<set<Instr>>, r: Request) {
    && r.edge < |edges| && edges[r.edge].u !in branches
    && edges[r.edge].u in insts && edges[r.edge].u in thread && thread[edges[r.edge].u] < r.reader < |copied|
    && edges[r.edge].v in insts && Held(thread, r.reader, copied[r.reader], edges[r.edge].v)
  }

  /** Exactly what is needed has a channel, each a channel of its own, and there are no other channels. */
  ghost predicate Connected(insts: seq<Instr>, branches: set<Instr>, edges: seq<Edge>, thread: Threads,
                            copied: seq<set<Instr>>, code: seq<Code>, wires: seq<Wire>,
                            channelOf: map<Request, nat>) {
    && (forall r :: r in channelOf <==> Needed(insts, branches, edges, thread, copied, r))
    && (forall r | r in channelOf ::
          && r.edge < |edges| && edges[r.edge].u in thread
          && HasChannel(code, wires, edges[r.edge], thread[edges[r.edge].u], r.reader, channelOf[r]))
    && (forall r, q | r in channelOf && q in channelOf && r != q :: channelOf[r] != channelOf[q])
    && (forall c: nat | c < |wires| :: c in channelOf.Values)
  }

  /** In particular every crossing dependence has one to the owner of its target. */
  lemma CrossingConnected(insts: seq<Instr>, branches: set<Instr>, edges: seq<Edge>, thread: Threads,
                          copied: seq<set<Instr>>, code: seq<Code>, wires: seq<Wire>, channelOf: map<Request, nat>,
                          k: nat)
    requires Connected(insts, branches, edges, thread, copied, code, wires, channelOf) && FlowsForward(edges, thread)
    requires k < |edges| && Crosses(insts, branches, thread, edges[k]) && thread[edges[k].v] < |copied|
    ensures thread[edges[k].u] < thread[edges[k].v] && Request(k, thread[edges[k].v]) in channelOf
  {
    assert edges[k] in edges;
    assert Needed(insts, branches, edges, thread, copied, Request(k, thread[edges[k].v]));
  }

  ghost function IndexOf(requests: seq<Request>, r: Request): (c: nat)
    requires r in requests
    ensures c < |requests| && requests[c] == r
  {
    var c :| 0 <= c < |requests| && requests[c] == r;
    c
  }

  /** Each request has the channel of the same number. */
  ghost function ChannelOf(requests: seq<Request>): map<Request, nat> {
    map r | r in requests :: IndexOf(requests, r)
  }

  lemma WantedIsNeeded(insts: seq<Instr>, branches: set<Instr>, edges: seq<Edge>, thread: Threads,
                       copied: seq<set<Instr>>, bodies: seq<Code>, r: Request)
    requires |bodies| == |copied|
    requires forall t | 0 <= t < |bodies| :: StageHolds(insts, thread, t, copied[t], Instructions(bodies[t]))
    ensures Wanted(bodies, edges, thread, branches, r) <==> Needed(insts, branches, edges, thread, copied, r)
  {
    if r.edge < |edges| && edges[r.edge].u in thread && thread[edges[r.edge].u] < r.reader < |bodies| {
      var t := thread[edges[r.edge].u];
      HeldInBody(insts, thread, t, copied[t], bodies[t], edges[r.edge].u);
      HeldInBody(insts, thread, r.reader, copied[r.reader], bodies[r.reader], edges[r.edge].v);
    }
  }

  lemma ServingConnects(insts: seq<Instr>, branches: set<Instr>, edges: seq<Edge>, thread: Threads,
                        copied: seq<set<Instr>>, bodies: seq<Code>, code: seq<Code>, wires: seq<Wire>,
                        requests: seq<Request>)
    requires |bodies| == |copied| == |code|
    requires forall t | 0 <= t < |bodies| :: StageHolds(insts, thread, t, copied[t], Instructions(bodies[t]))
    requires Served(bodies, edges, thread, branches, requests, |edges|, 0)
    requires WiresMatch(edges, thread, requests, wires, |code|)
    requires SitesPlaced(code, edges, requests, wires)
    ensures Connected(insts, branches, edges, thread, copied, code, wires, ChannelOf(requests))
  {
    var channelOf := ChannelOf(requests);
    forall r ensures r in channelOf <==> Needed(insts, branches, edges, thread, copied, r) {
      WantedIsNeeded(insts, branches, edges, thread, copied, bodies, r);
      assert r in requests <==> Wanted(bodies, edges, thread, branches, r) && Earlier(r, Request(|edges|, 0));
    }
    forall r | r in channelOf
      ensures r.edge < |edges| && edges[r.edge].u in thread
      ensures HasChannel(code, wires, edges[r.edge], thread[edges[r.edge].u], r.reader, channelOf[r])
    {
      InPlace(branches, edges, thread, bodies, code, wires, requests, IndexOf(requests, r));
    }
    EachItsOwn(requests);
  }

  lemma InPlace(branches: set<Instr>, edges: seq<Edge>, thread: Threads, bodies: seq<Code>, code: seq<Code>,
                wires: seq<Wire>, requests: seq<Request>, c: nat)
    requires Served(bodies, edges, thread, branches, requests, |edges|, 0) && c < |requests| && |bodies| == |code|
    requires WiresMatch(edges, thread, requests, wires, |code|)
    requires SitesPlaced(code, edges, requests, wires)
    ensures var r := requests[c];
            && r.edge < |edges| && edges[r.edge].u in thread
            && HasChannel(code, wires, edges[r.edge], thread[edges[r.edge].u], r.reader, c)
  {
    assert requests[c] in requests;
  }

  lemma EachItsOwn(requests: seq<Request>)
    requires forall i, j | 0 <= i < j < |requests| :: Earlier(requests[i], requests[j])
    ensures forall c: nat | c < |requests| :: c in ChannelOf(requests).Values
  {
    forall c: nat | c < |requests| ensures c in ChannelOf(requests).Values {
      OwnIndex(requests, c);
      assert requests[c] in ChannelOf(requests);
    }
  }

  /** No request occurs twice, so that its number is its position. */
  lemma OwnIndex(requests: seq<Request>, c: nat)
    requires c < |requests| && forall i, j | 0 <= i < j < |requests| :: Earlier(requests[i], requests[j])
    ensures IndexOf(requests, requests[c]) == c
  {
    var i := IndexOf(requests, requests[c]);
    assert i < c ==> Earlier(requests[i], requests[c]);
    assert c < i ==> Earlier(requests[c], requests[i]);
  }

  lemma OneMoreEdge(deps: seq<Edge>, k: nat, before: seq<Edge>, after: seq<Edge>)
    requires k < |deps| && after == WithEdge(before, deps[k])
    requires forall e :: e in before <==> e in deps[..k]
    ensures forall e :: e in after <==> e in deps[..k + 1]
  {
    assert deps[..k + 1] == deps[..k] + [deps[k]];
  }

  /** The dependence graph of the edges that the analyses report. */
  method BuildGraph(deps: seq<Edge>) returns (graph: Pdg)
    ensures graph.Valid() && forall e :: e in graph.allEdges <==> e in deps
  {
    graph := new Pdg();
    var k := 0;
    while k < |deps|
      invariant 0 <= k <= |deps| && graph.Valid()
      invariant fresh(graph)
      invariant forall e :: e in graph.allEdges <==> e in deps[..k]
    {
      ghost var before := graph.allEdges;
      graph.AddEdge(deps[k].u, deps[k].v, deps[k].dtype);
      OneMoreEdge(deps, k, before, graph.allEdges);
      k := k + 1;
    }
    assert deps[..|deps|] == deps;
  }

  lemma EdgesFlowForward(edges: seq<Edge>, insts: seq<Instr>, sccId: Numbering, lists: seq<seq<Instr>>, dag: Dag,
                         n: nat, owner: seq<int>)
    requires Settled(ArcsOf(edges), sccId, lists, dag, n) && |owner| == n
    requires forall v | 0 <= v < n :: owner[v] >= 0
    requires forall a, b | (a, b) in dag :: owner[a] <= owner[b]
    requires forall i | i in insts :: i in sccId
    requires forall e | e in edges :: e.v in insts
    ensures FlowsForward(edges, ThreadsOf(sccId, owner))
  {
    forall e | e in edges
      ensures e.u in sccId && e.v in sccId && owner[sccId[e.u]] <= owner[sccId[e.v]]
    {
      assert (e.u, e.v) in ArcsOf(edges);
      assert e.v in insts;
      if sccId[e.u] != sccId[e.v] {
        assert (sccId[e.u], sccId[e.v]) in dag;
      }
    }
  }

  /** There are instructions, and they all depend on each other. */
  ghost predicate OneComponent(insts: seq<Instr>, edges: seq<Edge>) {
    insts != [] && forall i, j | i in insts && j in insts :: SameComponent(ArcsOf(edges), i, j)
  }

  ghost predicate SourcesInside(insts: seq<Instr>, edges: seq<Edge>) {
    forall e | e in edges :: e.u in insts
  }

  lemma SameArcs(a: seq<Edge>, b: seq<Edge>)
    requires forall e :: e in a <==> e in b
    ensures ArcsOf(a) == ArcsOf(b)
  {
  }

  /** Whatever reaches the loop belongs to it. */
  lemma ReachesFromInside(arcs: Arcs, insts: seq<Instr>, x: Instr)
    requires (forall a | a in arcs :: a.0 in insts) && LeadsInto(arcs, x, insts)
    ensures x in insts
  {
    var r :| r in insts && Reaches(arcs, x, r);
    var p :| PathFromTo(arcs, p, x, r);
    if |p| > 1 {
      assert (p[0], p[1]) in arcs;
    }
  }

  lemma SomeMember(insts: seq<Instr>, arcs: Arcs, sccId: Numbering, lists: seq<seq<Instr>>, dag: Dag, k: nat)
    returns (x: Instr)
    requires Settled(arcs, sccId, lists, dag, |lists|) && EveryNumberUsed(lists) && k < |lists|
    requires LeadInto(arcs, sccId.Keys, insts) && forall a | a in arcs :: a.0 in insts
    ensures x in insts && x in sccId && sccId[x] == k
  {
    x := lists[k][0];
    assert x in lists[k];
    assert LeadsInto(arcs, x, insts);
    ReachesFromInside(arcs, insts, x);
  }

  /** There is one number exactly if all instructions depend on each other. */
  lemma OneNumber(insts: seq<Instr>, edges: seq<Edge>, sccId: Numbering, lists: seq<seq<Instr>>, dag: Dag)
    requires Settled(ArcsOf(edges), sccId, lists, dag, |lists|) && forall i | i in insts :: i in sccId
    requires EveryNumberUsed(lists) && LeadInto(ArcsOf(edges), sccId.Keys, insts)
    requires SourcesInside(insts, edges) && SameNumberMeansSameComponent(ArcsOf(edges), sccId)
    ensures |lists| == 1 <==> OneComponent(insts, edges)
  {
    if |lists| == 1 {
      var x := SomeMember(insts, ArcsOf(edges), sccId, lists, dag, 0);
      forall i, j | i in insts && j in insts ensures SameComponent(ArcsOf(edges), i, j) {
        assert sccId[i] == 0 && sccId[j] == 0;
      }
    }
    if OneComponent(insts, edges) {
      var i := insts[0];
      assert i in insts && i in sccId && sccId[i] < |lists|;
      var first := SomeMember(insts, ArcsOf(edges), sccId, lists, dag, 0);
      var last := SomeMember(insts, ArcsOf(edges), sccId, lists, dag, |lists| - 1);
      assert SameComponent(ArcsOf(edges), first, last);
    }
  }

  /** Stages cost about the same; largest bounds say by which component one may be over the average. */
  ghost predicate StagesBalanced(insts: seq<Instr>, sccId: Numbering, thread: Threads, cost: Instr -> nat,
                                 threads: nat, average: nat)
    requires threads > 0
  {
    && (forall t: nat | t < threads - 1 :: AtMostOneOver(insts, sccId, thread, cost, t, average))
    && CostOf(insts, thread, cost, threads - 1) <= average + threads - 1
    && forall s: nat, x | x in insts && x in thread && s < thread[x] :: CostOf(insts, thread, cost, s) >= average
  }

  /** Stage t costs no more than the average and one component. */
  ghost predicate AtMostOneOver(insts: seq<Instr>, sccId: Numbering, thread: Threads, cost: Instr -> nat, t: nat,
                                average: nat)
  {
    exists k: nat :: OverBy(insts, sccId, thread, cost, t, average, k)
  }

  ghost predicate OverBy(insts: seq<Instr>, sccId: Numbering, thread: Threads, cost: Instr -> nat, t: nat,
                         average: nat, k: nat)
  {
    CostOf(insts, thread, cost, t) <= average + CostOf(insts, sccId, cost, k)
  }

  lemma OverByLargest(insts: seq<Instr>, sccId: Numbering, thread: Threads, cost: Instr -> nat,
                      latency: seq<nat>, t: nat, average: nat)
    requires Latencies(insts, sccId, cost, latency)
    requires CostOf(insts, thread, cost, t) <= average + LargestOf(latency)
    ensures AtMostOneOver(insts, sccId, thread, cost, t, average)
  {
    assert OverBy(insts, sccId, thread, cost, t, average, WhereLargest(latency));
  }

  lemma ScheduleIsBalanced(insts: seq<Instr>, sccId: Numbering, thread: Threads, cost: Instr -> nat,
                           latency: seq<nat>, owner: seq<int>, threads: nat, average: nat)
    requires threads > 0 && |latency| == |owner| && (forall i | i in insts :: i in sccId && i in thread)
    requires forall i | i in insts :: sccId[i] < |owner| && owner[sccId[i]] == thread[i] < threads
    requires Latencies(insts, sccId, cost, latency)
    requires CostsBalanced(insts, StageOf(insts, sccId, owner), cost, LargestOf(latency), owner, threads,
                           average)
    ensures StagesBalanced(insts, sccId, thread, cost, threads, average)
  {
    var stage := StageOf(insts, sccId, owner);
    forall t: nat | t < threads - 1 ensures AtMostOneOver(insts, sccId, thread, cost, t, average) {
      SameCost(insts, stage, thread, cost, t);
      OverByLargest(insts, sccId, thread, cost, latency, t, average);
    }
    SameCost(insts, stage, thread, cost, threads - 1);
    forall s: nat, x | x in insts && x in thread && s < thread[x]
      ensures CostOf(insts, thread, cost, s) >= average
    {
      SameCost(insts, stage, thread, cost, s);
      assert OwnsSomething(owner, thread[x]);
    }
  }

  ghost function WhereLargest(latency: seq<nat>): (k: nat)
    ensures (latency == [] && LargestOf(latency) == 0) || (k < |latency| && latency[k] == LargestOf(latency))
  {
    if latency == [] then 0
    else
      LargestIsLargest(latency, 0);
      var k :| 0 <= k < |latency| && latency[k] == LargestOf(latency);
      k
  }

  /** Component numbers and then stages: the stage of every instruction, unless there is only one component. */
  method AssignStages(insts: seq<Instr>, graph: Pdg, cost: Instr -> nat, threads: nat)
    returns (sccNum: nat, thread: Threads, ghost sccId: Numbering)
    requires graph.Valid() && threads > 0
    requires forall e | e in graph.allEdges :: e.v in insts
    ensures sccNum != 1 ==>
              && FlowsForward(graph.allEdges, thread)
              && forall i | i in insts :: i in thread && thread[i] < threads
    ensures sccNum != 1 ==>
              StagesBalanced(insts, sccId, thread, cost, threads, Average(Cost(insts, cost), threads))
    ensures SourcesInside(insts, graph.allEdges) ==> (sccNum == 1 <==> OneComponent(insts, graph.allEdges))
    ensures SourcesInside(insts, graph.allEdges) ==> SameNumberMeansSameComponent(ArcsOf(graph.allEdges), sccId)
  {
    var finder := new SccFinder(graph.pdg, graph.rev, graph.allEdges, insts);
    forall a | a in finder.arcs ensures a.1 in insts {
      var e :| e in graph.allEdges && (e.u, e.v) == a;
    }
    finder.FindScc(insts);
    sccNum, thread, sccId := finder.sccNum, map[], finder.sccId;
    if SourcesInside(insts, graph.allEdges) {
      OneNumber(insts, graph.allEdges, finder.sccId, finder.instInSCC, finder.dagAdded);
    }
    if sccNum == 1 {
      return;
    }
    var scheduler := new Scheduler(threads, sccNum, finder.sccDependents, finder.sccParents, finder.dagAdded);
    var _ := scheduler.Partition(insts, finder.sccId, cost);
    thread := ThreadsOf(finder.sccId, scheduler.assignedTo);
    EdgesFlowForward(graph.allEdges, insts, finder.sccId, finder.instInSCC, finder.dagAdded, sccNum,
                     scheduler.assignedTo);
    ScheduleIsBalanced(insts, sccId, thread, cost, scheduler.sccLatency, scheduler.assignedTo, threads,
                       Average(Cost(insts, cost), threads));
  }

  /**
   The blocks of the loop hold its instructions, and what stands above one of its dummy blocks in a
   post-dominator tree is another one.
   */
  ghost predicate BlocksAgree(f: D.Facts, g: C.Loop, code: C.Code, treeOf: map<C.Dummy, seq<C.Dummy>> -> C.Tree) {
    && (forall b | b in g.blocks :: code.terminator(b) in f.insts)
    && (forall b, i | b in g.blocks && i in code.body(b) :: i in f.insts)
    && (forall c :: C.TreeOk(treeOf(c)))
    && (forall c, d, m :: C.IsDummy(g, d) && m in C.Ancestors(treeOf(c), d) ==> m == C.Virtual || C.IsDummy(g, m))
  }

  /**
   buildPDG and findSCC: all dependences begin and end in the loop, so two instructions get the same
   number exactly when each depends on the other.
   */
  method NumberLoop(f: D.Facts, g: C.Loop, code: C.Code, treeOf: map<C.Dummy, seq<C.Dummy>> -> C.Tree,
                    nearestOf: (C.Tree, C.Dummy, C.Dummy) -> C.Dummy)
    returns (graph: Pdg, finder: SccFinder)
    requires D.WellFormed(f) && C.WellFormed(g) && BlocksAgree(f, g, code, treeOf)
    requires forall c, d, s :: d in c && s in c[d] ==> C.IsNearest(treeOf(c), d, s, nearestOf(treeOf(c), d, s))
    ensures graph.Valid() && forall e | e in graph.allEdges :: e.u in f.insts && e.v in f.insts
    ensures finder.arcs == ArcsOf(graph.allEdges) && forall i | i in f.insts :: i in finder.sccId
    ensures SameNumberMeansSameComponent(finder.arcs, finder.sccId)
    ensures Settled(finder.arcs, finder.sccId, finder.instInSCC, finder.dagAdded, finder.sccNum)
    ensures ZeroExact(finder.arcs, finder.sccId, finder.dagAdded, finder.sccNum)
  {
    graph := new Pdg();
    D.AddDataEdges(graph, f);
    ghost var data := graph.allEdges;
    var order, above, t := C.ControlDependences(graph, g, code, treeOf, nearestOf);
    forall e | e in graph.allEdges ensures e.u in f.insts && e.v in f.insts {
      if e !in data {
        var d, s, m :| C.HalfEdge(g, order, d, s) && C.Because(t, code, d, s, m, e);
        EndsInLoop(f, g, code, treeOf, order, t, d, s, m, e);
      }
    }
    finder := new SccFinder(graph.pdg, graph.rev, graph.allEdges, f.insts);
    ArcsWithin(graph.allEdges, f.insts);
    finder.FindScc(f.insts);
  }

  lemma EndsInLoop(f: D.Facts, g: C.Loop, code: C.Code, treeOf: map<C.Dummy, seq<C.Dummy>> -> C.Tree,
                   order: seq<C.Block>, t: C.Tree, d: C.Dummy, s: C.Dummy, m: C.Dummy, e: Edge)
    requires BlocksAgree(f, g, code, treeOf) && C.TreeOk(t) && exists c :: t == treeOf(c)
    requires C.HalfEdge(g, order, d, s) && C.Because(t, code, d, s, m, e)
    ensures e.u in f.insts && e.v in f.insts
  {
    assert C.IsDummy(g, d) && C.IsDummy(g, s);
    var c :| t == treeOf(c);
    assert m in C.Ancestors(treeOf(c), s) && C.IsDummy(g, m);
    assert m.block in g.blocks && e.v in code.body(m.block);
  }

  lemma ArcsWithin(edges: seq<Edge>, insts: seq<Instr>)
    requires forall e | e in edges :: e.u in insts && e.v in insts
    ensures forall a | a in ArcsOf(edges) :: a.0 in insts && a.1 in insts
  {
  }

  /**
   The whole pass on the instructions of a loop. copied[t] are the branches that loop splitting
   repeats in stage t.
   */
  method RunOnLoop(insts: seq<Instr>, deps: seq<Edge>, cost: Instr -> nat, branches: set<Instr>,
                   threads: nat, copied: seq<set<Instr>>)
    returns (outcome: Outcome, ghost sccId: Numbering)
    requires threads > 0 && |copied| == threads
    requires forall e | e in deps :: e.v in insts
    ensures outcome.Split? ==>
              && (forall e :: e in outcome.edges <==> e in deps)
              && FlowsForward(outcome.edges, outcome.thread)
              && forall i | i in insts :: i in outcome.thread && outcome.thread[i] < threads
    ensures outcome.Split? ==>
              StagesBalanced(insts, sccId, outcome.thread, cost, threads, Average(Cost(insts, cost), threads))
    ensures outcome.Split? ==>
              && |outcome.code| == threads && WellWired(outcome.code, outcome.wires)
              && (forall t | 0 <= t < threads ::
                    StageHolds(insts, outcome.thread, t, copied[t], Instructions(outcome.code[t])))
              && exists channelOf ::
                 Connected(insts, branches, outcome.edges, outcome.thread, copied, outcome.code, outcome.wires,
                           channelOf)
    ensures SourcesInside(insts, deps) ==> (outcome.Unchanged? <==> OneComponent(insts, deps))
    ensures SourcesInside(insts, deps) ==> SameNumberMeansSameComponent(ArcsOf(deps), sccId)
  {
    var graph := BuildGraph(deps);
    var edges := graph.allEdges;
    SameArcs(edges, deps);
    var sccNum, thread;
    sccNum, thread, sccId := AssignStages(insts, graph, cost, threads);
    if sccNum == 1 {
      return Unchanged, sccId;
    }
    var bodies := seq(threads, t requires 0 <= t < threads => StageBody(insts, thread, t, copied[t]));
    var sync := new Synchronizer(bodies);
    sync.InsertSynchronization(edges, thread, branches);
    forall t | 0 <= t < threads ensures StageHolds(insts, thread, t, copied[t], Instructions(bodies[t])) {
      StageBodyHolds(insts, thread, t, copied[t]);
    }
    ServingConnects(insts, branches, edges, thread, copied, bodies, sync.code, sync.wires, sync.requests);
    ghost var channelOf := ChannelOf(sync.requests);
    outcome := Split(thread, edges, sync.code, sync.wires);
  }

  /**
   The stages that the pass produces never deadlock and always compute the same thing: every run
   can be completed, and all complete runs end alike, whatever the schedule and the queue capacity.
   */
  lemma SplitLoopRuns<L, V>(code: seq<Code>, wires: seq<Wire>, machine: Machine<L, V>, iterations: nat, capacity: nat,
                            schedule: seq<nat>)
    returns (full: seq<nat>)
    requires WellWired(code, wires) && capacity >= 1
    requires Run(Config(code, wires, machine, iterations), capacity, schedule).Reached?
    ensures var cfg := Config(code, wires, machine, iterations);
            && schedule <= full && Run(cfg, capacity, full).Reached?
            && AllFinished(cfg, Run(cfg, capacity, full).state)
            && forall capacity', other | Run(cfg, capacity', other).Reached?
               && AllFinished(cfg, Run(cfg, capacity', other).state) ::
                 Run(cfg, capacity', other).state == Run(cfg, capacity, full).state
  {
    var cfg := Config(code, wires, machine, iterations);
    full := EveryRunCompletes(cfg, capacity, schedule);
    forall capacity', other | Run(cfg, capacity', other).Reached? && AllFinished(cfg, Run(cfg, capacity', other).state)
      ensures Run(cfg, capacity', other).state == Run(cfg, capacity, full).state
    {
      CompleteRunsAreEqual(cfg, capacity', other, capacity, full);
    }
  }
}
