/** Assignment of the components to pipeline stages under a latency budget (threadPartition.cpp). */
module ThreadPartition {
  import opened DependenceGraph
  import opened StronglyConnected

  /** An entry of the candidate queue; a higher latency is popped first. */
  datatype QNode = QNode(u: nat, latency: nat)

  /** The mark of a component that no thread owns yet. */
  const UNASSIGNED: int := -2

  type Queue = multiset<QNode>

  // ---------------------------------------------------------------- sums

  function Sum(s: seq<nat>): nat {
    if s == [] then 0 else Sum(s[..|s| - 1]) + s[|s| - 1]
  }

  /** Total latency of the components that thread t owns. */
  function Load(latency: seq<nat>, owner: seq<int>, t: int): nat
    requires |latency| == |owner|
  {
    if latency == [] then 0
    else
      var last := |latency| - 1;
      Load(latency[..last], owner[..last], t) + if owner[last] == t then latency[last] else 0
  }

  lemma {:induction false} SumUpdate(s: seq<nat>, i: nat, x: nat)
    requires i < |s|
    ensures Sum(s[i := x]) == Sum(s) - s[i] + x
  {
    var last := |s| - 1;
    if i < last {
      SumUpdate(s[..last], i, x);
      assert s[i := x][..last] == s[..last][i := x];
    } else {
      assert s[i := x][..last] == s[..last];
    }
  }

  lemma {:induction false} LoadUpdate(latency: seq<nat>, owner: seq<int>, v: nat, t: int, other: int)
    requires |latency| == |owner| && v < |owner| && owner[v] != other
    ensures Load(latency, owner[v := t], other) == Load(latency, owner, other) + if t == other then latency[v] else 0
  {
    var last := |latency| - 1;
    if v < last {
      LoadUpdate(latency[..last], owner[..last], v, t, other);
      assert owner[v := t][..last] == owner[..last][v := t];
    } else {
      assert owner[v := t][..last] == owner[..last];
    }
  }

  lemma {:induction false} LoadOfNobody(latency: seq<nat>, owner: seq<int>, t: int)
    requires |latency| == |owner| && forall v | 0 <= v < |owner| :: owner[v] != t
    ensures Load(latency, owner, t) == 0
  {
    if latency != [] {
      var last := |latency| - 1;
      LoadOfNobody(latency[..last], owner[..last], t);
    }
  }

  /** The loads of the threads and of the unassigned components make up the whole. */
  lemma {:induction false} LoadsAddUp(latency: seq<nat>, owner: seq<int>, loads: seq<nat>)
    requires |latency| == |owner|
    requires forall v | 0 <= v < |owner| :: 0 <= owner[v] < |loads|
    requires forall t | 0 <= t < |loads| :: loads[t] == Load(latency, owner, t)
    ensures Sum(loads) == Sum(latency)
  {
    if latency == [] {
      ZeroSum(loads);
    } else {
      var last := |latency| - 1;
      var t, x := owner[last], latency[last];
      var rest := loads[t := loads[t] - x];
      LoadsAddUp(latency[..last], owner[..last], rest);
      SumUpdate(loads, t, loads[t] - x);
    }
  }

  lemma {:induction false} ZeroSum(s: seq<nat>)
    requires forall i | 0 <= i < |s| :: s[i] == 0
    ensures Sum(s) == 0
  {
    if s != [] { ZeroSum(s[..|s| - 1]); }
  }

  lemma {:induction false} SumAtLeast(s: seq<nat>, each: nat)
    requires forall i | 0 <= i < |s| :: s[i] >= each
    ensures Sum(s) >= |s| * each
  {
    if s != [] {
      var last := |s| - 1;
      SumAtLeast(s[..last], each);
      assert |s| * each == last * each + each;
    }
  }

  // ---------------------------------------------------------------- the queue

  ghost predicate Ready(parents: Adjacency, owner: seq<int>, v: nat)
    requires v < |owner|
  {
    owner[v] == UNASSIGNED && forall p | p in Neighbours(parents, v) :: p < |owner| && owner[p] >= 0
  }

  ghost predicate EntriesHonest(latency: seq<nat>, queue: Queue) {
    forall q | q in queue :: q.u < |latency| && q.latency == latency[q.u]
  }

  /** The queue holds every component whose parents are all owned and that is not owned itself, once. */
  ghost predicate HoldsReady(latency: seq<nat>, parents: Adjacency, owner: seq<int>, queue: Queue, except: seq<nat>)
    requires |latency| == |owner|
  {
    && EntriesHonest(latency, queue)
    && forall v: nat | v < |latency| ::
         queue[QNode(v, latency[v])] == if Ready(parents, owner, v) && v !in except then 1 else 0
  }

  ghost predicate GoesUp(dag: Dag, n: nat) {
    forall a, b | (a, b) in dag :: a < b < n
  }

  /** What is owned is owned by threads 0..i, and a component is owned no earlier than its parents. */
  ghost predicate Monotone(dag: Dag, owner: seq<int>, i: int) {
    && (forall v | 0 <= v < |owner| :: owner[v] == UNASSIGNED || 0 <= owner[v] <= i)
    && (forall a, b | (a, b) in dag && 0 <= a < |owner| && 0 <= b < |owner| && owner[b] >= 0 ::
          0 <= owner[a] <= owner[b])
  }

  /** With arcs going up, an empty queue means that everything is owned. */
  lemma {:induction false} EmptyQueueMeansDone(latency: seq<nat>, dag: Dag, dependents: Adjacency, parents: Adjacency,
                                               owner: seq<int>, v: nat)
    requires |latency| == |owner| && v < |owner|
    requires TablesAgree(dag, dependents, parents) && GoesUp(dag, |owner|)
    requires forall u | 0 <= u < |owner| :: owner[u] == UNASSIGNED || owner[u] >= 0
    requires HoldsReady(latency, parents, owner, multiset{}, [])
    ensures owner[v] >= 0
  {
    forall p | p in Neighbours(parents, v)
      ensures p < |owner| && owner[p] >= 0
    {
      assert (p, v) in dag;
      EmptyQueueMeansDone(latency, dag, dependents, parents, owner, p);
    }
    assert multiset{}[QNode(v, latency[v])] == 0;
  }

  lemma OwningTop(latency: seq<nat>, dag: Dag, dependents: Adjacency, parents: Adjacency, owner: seq<int>,
                  queue: Queue, top: QNode, i: nat)
    requires |latency| == |owner| && TablesAgree(dag, dependents, parents) && GoesUp(dag, |owner|)
    requires HoldsReady(latency, parents, owner, queue, []) && top in queue
    requires Monotone(dag, owner, i)
    ensures top == QNode(top.u, latency[top.u]) && owner[top.u] == UNASSIGNED
    ensures HoldsReady(latency, parents, owner[top.u := i], queue - multiset{top}, Neighbours(dependents, top.u))
    ensures Monotone(dag, owner[top.u := i], i)
  {
    var owner', queue', deps := owner[top.u := i], queue - multiset{top}, Neighbours(dependents, top.u);
    assert top == QNode(top.u, latency[top.u]);
    assert queue[top] == 1;
    assert Ready(parents, owner, top.u);
    forall v: nat | v < |latency|
      ensures queue'[QNode(v, latency[v])] == if Ready(parents, owner', v) && v !in deps then 1 else 0
    {
      ReadyAfter(dag, dependents, parents, owner, top.u, i, v);
    }
    forall a | (a, top.u) in dag ensures a < |owner| ==> owner[a] >= 0 {
      assert a in Neighbours(parents, top.u);
    }
    OwningKeepsMonotone(dag, owner, top.u, i);
  }

  /** Assigning u makes nothing ready but what depends on it. */
  lemma ReadyAfter(dag: Dag, dependents: Adjacency, parents: Adjacency, owner: seq<int>, u: nat, i: nat, v: nat)
    requires TablesAgree(dag, dependents, parents) && GoesUp(dag, |owner|) && u < |owner| && v < |owner|
    requires Ready(parents, owner, u)
    ensures Ready(parents, owner[u := i], v) && v !in Neighbours(dependents, u) <==> Ready(parents, owner, v) && v != u
  {
    assert v in Neighbours(dependents, u) <==> (u, v) in dag;
    assert u in Neighbours(parents, v) <==> (u, v) in dag;
  }

  lemma OwningKeepsMonotone(dag: Dag, owner: seq<int>, u: nat, i: nat)
    requires Monotone(dag, owner, i) && GoesUp(dag, |owner|) && u < |owner| && owner[u] == UNASSIGNED
    requires forall a | (a, u) in dag :: a < |owner| ==> owner[a] >= 0
    ensures Monotone(dag, owner[u := i], i)
  {
  }

  lemma ReleasingOne(latency: seq<nat>, parents: Adjacency, owner: seq<int>, queue: Queue, deps: seq<nat>, j: nat)
    requires |latency| == |owner| && NoDuplicates(deps) && j < |deps| && deps[j] < |latency|
    requires HoldsReady(latency, parents, owner, queue, deps[j..])
    ensures HoldsReady(latency, parents, owner,
                       if Ready(parents, owner, deps[j]) then queue + multiset{QNode(deps[j], latency[deps[j]])}
                         else queue,
                       deps[j + 1..])
  {
    var v := deps[j];
    assert deps[j..] == [v] + deps[j + 1..];
    assert v !in deps[j + 1..];
  }

  lemma SomeTop(queue: Queue) returns (top: QNode)
    requires queue != multiset{}
    ensures top in queue && forall q | q in queue :: q.latency <= top.latency
    decreases |queue|
  {
    top :| top in queue;
    if exists q :: q in queue && q.latency > top.latency {
      var q0 :| q0 in queue && q0.latency > top.latency;
      var rest := queue[top := 0];
      assert q0 in rest;
      assert |rest| < |queue|;
      top := SomeTop(rest);
      assert q0.latency <= top.latency;
    }
  }

  // ---------------------------------------------------------------- totals

  /** What a list of instructions costs; CostOfOne and CostJoins say all there is to know about it. */
  function Cost(insts: seq<Instr>, cost: Instr -> nat): nat
  {
    if insts == [] then 0 else Cost(insts[..|insts| - 1], cost) + cost(insts[|insts| - 1])
  }

  lemma CostOfOne(x: Instr, cost: Instr -> nat)
    ensures Cost([x], cost) == cost(x)
  {
    assert [x][..0] == [];
  }

  lemma {:induction false} CostJoins(a: seq<Instr>, b: seq<Instr>, cost: Instr -> nat)
    ensures Cost(a + b, cost) == Cost(a, cost) + Cost(b, cost)
  {
    if b == [] {
      assert a + b == a;
    } else {
      assert (a + b)[..|a + b| - 1] == a + b[..|b| - 1];
      CostJoins(a, b[..|b| - 1], cost);
    }
  }

  /** The instructions that `of` sends to k, in order. */
  function Those(insts: seq<Instr>, of: map<Instr, nat>, k: nat): seq<Instr> {
    if insts == [] then []
    else
      var x := insts[|insts| - 1];
      Those(insts[..|insts| - 1], of, k) + if x in of && of[x] == k then [x] else []
  }

  /** Those are all there are, as often as they occur. */
  lemma {:induction false} ThoseCount(insts: seq<Instr>, of: map<Instr, nat>, k: nat, x: Instr)
    ensures multiset(Those(insts, of, k))[x] == if x in of && of[x] == k then multiset(insts)[x] else 0
  {
    if insts != [] {
      var front := insts[..|insts| - 1];
      ThoseCount(front, of, k, x);
      assert insts == front + [insts[|insts| - 1]];
    }
  }

  /** The stage of each instruction. */
  function StageOf(insts: seq<Instr>, sccId: Numbering, owner: seq<int>): map<Instr, nat>
    requires forall x | x in insts :: x in sccId && sccId[x] < |owner| && owner[sccId[x]] >= 0
  {
    map x | x in insts :: owner[sccId[x]] as nat
  }

  /** What the instructions that `of` sends to k cost. */
  function CostOf(insts: seq<Instr>, of: map<Instr, nat>, cost: Instr -> nat, k: nat): nat {
    if insts == [] then 0
    else
      var x := insts[|insts| - 1];
      CostOf(insts[..|insts| - 1], of, cost, k) + if x in of && of[x] == k then cost(x) else 0
  }

  lemma {:induction false} CostOfThose(insts: seq<Instr>, of: map<Instr, nat>, cost: Instr -> nat, k: nat)
    ensures CostOf(insts, of, cost, k) == Cost(Those(insts, of, k), cost)
  {
    if insts != [] {
      var front, x := insts[..|insts| - 1], insts[|insts| - 1];
      CostOfThose(front, of, cost, k);
      CostOfOne(x, cost);
      CostJoins(Those(front, of, k), [x], cost);
      assert Those(front, of, k) + [] == Those(front, of, k);
    }
  }

  lemma {:induction false} SameCost(insts: seq<Instr>, of: map<Instr, nat>, of': map<Instr, nat>, cost: Instr -> nat,
                                    k: nat)
    requires forall x | x in insts :: x in of && x in of' && of[x] == of'[x]
    ensures CostOf(insts, of, cost, k) == CostOf(insts, of', cost, k)
  {
    if insts != [] {
      SameCost(insts[..|insts| - 1], of, of', cost, k);
    }
  }

  /** One more instruction adds its cost to its component and to the stage of that. */
  lemma OneMoreCost(front: seq<Instr>, x: Instr, of: map<Instr, nat>, cost: Instr -> nat, k: nat)
    requires x in of
    ensures CostOf(front + [x], of, cost, k) == CostOf(front, of, cost, k) + if of[x] == k then cost(x) else 0
  {
    assert (front + [x])[..|front|] == front;
  }

  lemma LatenciesGrow(front: seq<Instr>, x: Instr, sccId: Numbering, cost: Instr -> nat, latency: seq<nat>)
    requires x in sccId && sccId[x] < |latency|
    ensures Latencies(front, sccId, cost, latency) <==>
            Latencies(front + [x], sccId, cost, latency[sccId[x] := latency[sccId[x]] + cost(x)])
  {
    var k := sccId[x];
    var latency' := latency[k := latency[k] + cost(x)];
    forall j: nat | j < |latency|
      ensures latency[j] == CostOf(front, sccId, cost, j) <==>
              latency'[j] == CostOf(front + [x], sccId, cost, j)
    {
      OneMoreCost(front, x, sccId, cost, j);
    }
  }

  lemma LatencyAtLeast(front: seq<Instr>, x: Instr, sccId: Numbering, cost: Instr -> nat, latency: seq<nat>)
    requires x in sccId && sccId[x] < |latency|
    requires Latencies(front + [x], sccId, cost, latency)
    ensures latency[sccId[x]] >= cost(x)
  {
    OneMoreCost(front, x, sccId, cost, sccId[x]);
  }

  lemma LatencyStep(insts: seq<Instr>, i: nat, sccId: Numbering, cost: Instr -> nat, latency: seq<nat>)
    requires i < |insts| && insts[i] in sccId && sccId[insts[i]] < |latency|
    requires Latencies(insts[..i], sccId, cost, latency) && Sum(latency) == Cost(insts[..i], cost)
    ensures var k, more := sccId[insts[i]], cost(insts[i]);
            var latency' := latency[k := latency[k] + more];
            && Latencies(insts[..i + 1], sccId, cost, latency')
            && Sum(latency') == Cost(insts[..i + 1], cost) == Sum(latency) + more
  {
    var x := insts[i];
    assert insts[..i + 1] == insts[..i] + [x];
    CostJoins(insts[..i], [x], cost);
    CostOfOne(x, cost);
    LatenciesGrow(insts[..i], x, sccId, cost, latency);
    SumUpdate(latency, sccId[x], latency[sccId[x]] + cost(x));
  }

  lemma {:induction false} LoadRaise(latency: seq<nat>, owner: seq<int>, k: nat, more: nat, t: int)
    requires |latency| == |owner| && k < |owner|
    ensures Load(latency[k := latency[k] + more], owner, t) ==
            Load(latency, owner, t) + if owner[k] == t then more else 0
  {
    var last := |latency| - 1;
    var raised := latency[k := latency[k] + more];
    if k < last {
      LoadRaise(latency[..last], owner[..last], k, more, t);
      assert raised[..last] == latency[..last][k := latency[k] + more];
    } else {
      assert raised[..last] == latency[..last];
    }
  }

  lemma {:induction false} LoadOfNothing(latency: seq<nat>, owner: seq<int>, t: int)
    requires |latency| == |owner| && forall k | 0 <= k < |latency| :: latency[k] == 0
    ensures Load(latency, owner, t) == 0
  {
    if latency != [] {
      LoadOfNothing(latency[..|latency| - 1], owner[..|latency| - 1], t);
    }
  }

  /** The latencies of the components are the costs of their instructions. */
  ghost predicate Latencies(insts: seq<Instr>, sccId: Numbering, cost: Instr -> nat, latency: seq<nat>)
  {
    forall k | 0 <= k < |latency| :: latency[k] == CostOf(insts, sccId, cost, k)
  }

  /** What the components of a stage add up to is what its instructions cost. */
  lemma {:induction false} StageCosts(insts: seq<Instr>, sccId: Numbering, cost: Instr -> nat, owner: seq<int>,
                                      latency: seq<nat>, t: nat)
    requires |latency| == |owner|
    requires forall x | x in insts :: x in sccId && sccId[x] < |owner| && owner[sccId[x]] >= 0
    requires Latencies(insts, sccId, cost, latency)
    ensures Load(latency, owner, t) == CostOf(insts, StageOf(insts, sccId, owner), cost, t)
  {
    if insts == [] {
      LoadOfNothing(latency, owner, t);
    } else {
      var front, x := insts[..|insts| - 1], insts[|insts| - 1];
      assert insts == front + [x];
      var k := sccId[x];
      LatencyAtLeast(front, x, sccId, cost, latency);
      var less := latency[k := latency[k] - cost(x)];
      assert less[k := less[k] + cost(x)] == latency;
      LatenciesGrow(front, x, sccId, cost, less);
      StageCosts(front, sccId, cost, owner, less, t);
      LoadRaise(less, owner, k, cost(x), t);
      var stage := StageOf(insts, sccId, owner);
      SameCost(front, StageOf(front, sccId, owner), stage, cost, t);
      OneMoreCost(front, x, stage, cost, t);
    }
  }

  // ---------------------------------------------------------------- outcome

  function Average(total: nat, n: nat): nat
    requires n > 0
  {
    total / n
  }

  function LargestOf(s: seq<nat>): nat {
    if s == [] then 0
    else
      var rest := LargestOf(s[..|s| - 1]);
      if s[|s| - 1] > rest then s[|s| - 1] else rest
  }

  lemma {:induction false} LargestIsLargest(s: seq<nat>, i: nat)
    requires i < |s|
    ensures s[i] <= LargestOf(s) && LargestOf(s) in s
  {
    if i < |s| - 1 {
      LargestIsLargest(s[..|s| - 1], i);
    } else if |s| > 1 {
      LargestIsLargest(s[..|s| - 1], 0);
    }
  }

  ghost predicate OwnsSomething(owner: seq<int>, t: int) {
    exists v :: 0 <= v < |owner| && owner[v] == t
  }

  /** Threads that own something form a prefix. */
  ghost predicate BusyPrefix(owner: seq<int>, threads: nat) {
    forall s, t | 0 <= s < t < threads && OwnsSomething(owner, t) :: OwnsSomething(owner, s)
  }

  /**
   No stage but the last exceeds the average by more than one component; the last exceeds it by less than
   the stage count. A stage that is followed by a busy one reaches the average.
   */
  ghost predicate Balanced(latency: seq<nat>, owner: seq<int>, threads: nat)
    requires |latency| == |owner| && threads > 0
  {
    var average := Sum(latency) / threads;
    && (forall t | 0 <= t < threads - 1 :: Load(latency, owner, t) <= average + LargestOf(latency))
    && Load(latency, owner, threads - 1) <= average + threads - 1
    && forall s, t | 0 <= s < t < threads && OwnsSomething(owner, t) :: Load(latency, owner, s) >= average
  }

  /** The same of the instructions in each stage and what they cost. */
  ghost predicate CostsBalanced(insts: seq<Instr>, stage: map<Instr, nat>, cost: Instr -> nat, largest: nat,
                                owner: seq<int>, threads: nat, average: nat)
    requires threads > 0
  {
    && (forall t | 0 <= t < threads - 1 :: CostOf(insts, stage, cost, t) <= average + largest)
    && CostOf(insts, stage, cost, threads - 1) <= average + threads - 1
    && forall s, t | 0 <= s < t < threads && OwnsSomething(owner, t) :: CostOf(insts, stage, cost, s) >= average
  }

  lemma BalancedMeansCosts(insts: seq<Instr>, sccId: Numbering, cost: Instr -> nat, owner: seq<int>,
                           latency: seq<nat>, threads: nat)
    requires |latency| == |owner| && threads > 0 && Balanced(latency, owner, threads)
    requires forall x | x in insts :: x in sccId && sccId[x] < |owner| && owner[sccId[x]] >= 0
    requires Latencies(insts, sccId, cost, latency) && Sum(latency) == Cost(insts, cost)
    ensures CostsBalanced(insts, StageOf(insts, sccId, owner), cost, LargestOf(latency), owner, threads,
                          Average(Cost(insts, cost), threads))
  {
    forall t: nat | t < threads
      ensures Load(latency, owner, t) == CostOf(insts, StageOf(insts, sccId, owner), cost, t)
    {
      StageCosts(insts, sccId, cost, owner, latency, t);
    }
  }

  /** b is not served before a if a has the higher latency and could have been served in the stage of b. */
  ghost predicate InTurn(latency: seq<nat>, dag: Dag, owner: seq<int>, a: nat, b: nat)
    requires a < |owner| == |latency| && b < |owner|
  {
    owner[b] >= 0 && latency[a] > latency[b]
    && (forall p: nat | (p, a) in dag :: p < |owner| && 0 <= owner[p] < owner[b]) ==>
      0 <= owner[a] <= owner[b]
  }

  /** Higher latencies are served first. */
  ghost predicate Greedy(latency: seq<nat>, dag: Dag, owner: seq<int>)
    requires |owner| == |latency|
  {
    forall a: nat, b: nat {:trigger InTurn(latency, dag, owner, a, b)} | a < |owner| && b < |owner| ::
      InTurn(latency, dag, owner, a, b)
  }

  lemma OwningStaysGreedy(latency: seq<nat>, dag: Dag, dependents: Adjacency, parents: Adjacency, owner: seq<int>,
                          queue: Queue, top: QNode, i: nat)
    requires |latency| == |owner| && TablesAgree(dag, dependents, parents) && GoesUp(dag, |owner|)
    requires HoldsReady(latency, parents, owner, queue, []) && top in queue
    requires forall q | q in queue :: q.latency <= top.latency
    requires Monotone(dag, owner, i) && Greedy(latency, dag, owner)
    requires owner[top.u] == UNASSIGNED
    ensures Greedy(latency, dag, owner[top.u := i])
  {
    var u, owner' := top.u, owner[top.u := i];
    forall a: nat, b: nat | a < |owner| && b < |owner| ensures InTurn(latency, dag, owner', a, b) {
      assert InTurn(latency, dag, owner, a, b);
      if owner'[b] >= 0 && latency[a] > latency[b] && forall p: nat | (p, a) in dag :: 0 <= owner'[p] < owner'[b] {
        assert forall p: nat | (p, a) in dag :: p != u && owner'[p] == owner[p];
        ReadyIsQueued(latency, dag, dependents, parents, owner, queue, a);
        assert b == u ==> QNode(a, latency[a]) !in queue;
      }
    }
  }

  lemma ReadyIsQueued(latency: seq<nat>, dag: Dag, dependents: Adjacency, parents: Adjacency, owner: seq<int>,
                      queue: Queue, a: nat)
    requires |latency| == |owner| && TablesAgree(dag, dependents, parents) && GoesUp(dag, |owner|)
    requires HoldsReady(latency, parents, owner, queue, []) && a < |owner|
    ensures owner[a] == UNASSIGNED && (forall p: nat | (p, a) in dag :: owner[p] >= 0) ==>
              QNode(a, latency[a]) in queue
  {
    if owner[a] == UNASSIGNED && forall p: nat | (p, a) in dag :: owner[p] >= 0 {
      forall p | p in Neighbours(parents, a) ensures p < |owner| && owner[p] >= 0 {
        assert (p, a) in dag;
      }
      assert Ready(parents, owner, a);
    }
  }

  /** State between two threads: threads below i have closed, each having reached the average or emptied the queue. */
  ghost predicate ThreadsClosed(latency: seq<nat>, owner: seq<int>, loads: seq<nat>, queue: Queue, average: nat, i: nat)
    requires |latency| == |owner|
  {
    && i <= |loads|
    && (forall t | 0 <= t < |loads| :: loads[t] == Load(latency, owner, t))
    && (forall t | i <= t :: !OwnsSomething(owner, t))
    && (forall t | 0 <= t < i && t < |loads| - 1 :: loads[t] <= average + LargestOf(latency))
    && (queue != multiset{} ==> forall t | 0 <= t < i :: loads[t] >= average && OwnsSomething(owner, t))
    && BusyPrefix(owner, |loads|) && FullBefore(owner, loads, average)
  }

  /** A thread followed by a busy one has reached the average. */
  ghost predicate FullBefore(owner: seq<int>, loads: seq<nat>, average: nat) {
    forall s, t | 0 <= s < t < |loads| && OwnsSomething(owner, t) :: loads[s] >= average
  }

  /** State while thread i takes components. */
  ghost predicate ThreadOpen(latency: seq<nat>, owner: seq<int>, loads: seq<nat>, queue: Queue, average: nat, i: nat)
    requires |latency| == |owner|
  {
    && i < |loads|
    && (forall t | 0 <= t < |loads| :: loads[t] == Load(latency, owner, t))
    && (forall t | i < t :: !OwnsSomething(owner, t))
    && (forall t | 0 <= t <= i && t < |loads| - 1 :: loads[t] <= average + LargestOf(latency))
    && (queue != multiset{} || OwnsSomething(owner, i) ==>
          forall t | 0 <= t < i :: loads[t] >= average && OwnsSomething(owner, t))
    && BusyPrefix(owner, |loads|) && FullBefore(owner, loads, average)
  }

  lemma OpeningThread(latency: seq<nat>, owner: seq<int>, loads: seq<nat>, queue: Queue, average: nat, i: nat)
    requires |latency| == |owner| && i < |loads|
    requires ThreadsClosed(latency, owner, loads, queue, average, i)
    ensures ThreadOpen(latency, owner, loads, queue, average, i) && loads[i] == 0
  {
    forall v | 0 <= v < |owner| ensures owner[v] != i {
      if owner[v] == i { assert OwnsSomething(owner, i); }
    }
    LoadOfNobody(latency, owner, i);
  }

  ghost function Unowned(owner: seq<int>): set<int> {
    set v | 0 <= v < |owner| && owner[v] == UNASSIGNED
  }

  lemma OwningShrinks(owner: seq<int>, u: nat, t: nat)
    requires u < |owner| && owner[u] == UNASSIGNED
    ensures Unowned(owner[u := t]) < Unowned(owner)
  {
    assert u in Unowned(owner) && u !in Unowned(owner[u := t]);
  }

  lemma OwningKeepsOpen(latency: seq<nat>, owner: seq<int>, loads: seq<nat>, queue: Queue, average: nat, i: nat,
                        u: nat, queue': Queue)
    requires |latency| == |owner| && u < |owner| && owner[u] == UNASSIGNED && queue != multiset{}
    requires ThreadOpen(latency, owner, loads, queue, average, i)
    requires loads[i] == 0 || loads[i] < average || i == |loads| - 1
    ensures ThreadOpen(latency, owner[u := i], loads[i := loads[i] + latency[u]], queue', average, i)
    ensures OwnsSomething(owner[u := i], i)
  {
    var owner', loads' := owner[u := i], loads[i := loads[i] + latency[u]];
    LargestIsLargest(latency, u);
    assert owner'[u] == i;
    forall t | 0 <= t < |loads|
      ensures loads'[t] == Load(latency, owner', t)
    {
      LoadUpdate(latency, owner, u, i, t);
    }
    forall t | OwnsSomething(owner', t) && t != i
      ensures OwnsSomething(owner, t)
    {
      var v :| 0 <= v < |owner'| && owner'[v] == t;
      assert owner[v] == t;
    }
    forall t | OwnsSomething(owner, t) && t >= 0
      ensures OwnsSomething(owner', t)
    {
      var v :| 0 <= v < |owner| && owner[v] == t;
      assert owner'[v] == t;
    }
  }

  lemma DivisionBounds(total: nat, n: nat)
    requires n > 0
    ensures 0 <= total / n && total < n * (total / n) + n
    ensures (n - 1) * (total / n) == n * (total / n) - total / n
  {
  }

  lemma LastLoad(loads: seq<nat>)
    requires |loads| > 0
    requires forall t | 0 <= t < |loads| - 1 :: loads[t] >= Sum(loads) / |loads|
    ensures loads[|loads| - 1] <= Sum(loads) / |loads| + |loads| - 1
  {
    var n := |loads|;
    var average := Sum(loads) / n;
    DivisionBounds(Sum(loads), n);
    SumAtLeast(loads[..n - 1], average);
  }

  /** After the last thread nothing is left over, and the budget holds. */
  lemma ClosingAllThreads(latency: seq<nat>, dag: Dag, dependents: Adjacency, parents: Adjacency, owner: seq<int>,
                          loads: seq<nat>)
    requires |latency| == |owner| && |loads| > 0
    requires TablesAgree(dag, dependents, parents) && GoesUp(dag, |owner|)
    requires Monotone(dag, owner, |loads| - 1)
    requires HoldsReady(latency, parents, owner, multiset{}, [])
    requires forall t | 0 <= t < |loads| :: loads[t] == Load(latency, owner, t)
    requires forall t | 0 <= t < |loads| - 1 :: loads[t] <= Sum(latency) / |loads| + LargestOf(latency)
    requires FullBefore(owner, loads, Sum(latency) / |loads|)
    ensures forall v | 0 <= v < |owner| :: 0 <= owner[v] < |loads|
    ensures Sum(loads) == Sum(latency)
    ensures Balanced(latency, owner, |loads|)
  {
    forall v | 0 <= v < |owner| ensures owner[v] >= 0 {
      EmptyQueueMeansDone(latency, dag, dependents, parents, owner, v);
    }
    LoadsAddUp(latency, owner, loads);
    if OwnsSomething(owner, |loads| - 1) {
      LastLoad(loads);
    } else {
      forall v | 0 <= v < |owner| ensures owner[v] != |loads| - 1 {
        if owner[v] == |loads| - 1 { assert OwnsSomething(owner, |loads| - 1); }
      }
      LoadOfNobody(latency, owner, |loads| - 1);
      DivisionBounds(Sum(latency), |loads|);
    }
  }

  lemma NothingOwnedYet(latency: seq<nat>, dag: Dag, owner: seq<int>, loads: seq<nat>, queue: Queue, average: nat)
    requires |latency| == |owner| && |loads| > 0
    requires forall v | 0 <= v < |owner| :: owner[v] == UNASSIGNED
    requires forall t | 0 <= t < |loads| :: loads[t] == 0
    ensures Monotone(dag, owner, -1)
    ensures ThreadsClosed(latency, owner, loads, queue, average, 0)
  {
    forall t | 0 <= t < |loads| ensures loads[t] == Load(latency, owner, t) {
      LoadOfNobody(latency, owner, t);
    }
  }

  lemma ClosingThread(latency: seq<nat>, owner: seq<int>, loads: seq<nat>, queue: Queue, average: nat, i: nat)
    requires |latency| == |owner| && i < |loads|
    requires ThreadOpen(latency, owner, loads, queue, average, i)
    requires queue == multiset{} || (i < |loads| - 1 && loads[i] >= average && OwnsSomething(owner, i))
    ensures ThreadsClosed(latency, owner, loads, queue, average, i + 1)
    ensures i == |loads| - 1 ==> queue == multiset{}
  {
  }

  /** The parts list exactly the components of their threads, in ascending order. */
  ghost predicate PartsMatch(owner: seq<int>, part: seq<seq<nat>>) {
    && (forall t, v: nat | 0 <= t < |part| :: v in part[t] <==> v < |owner| && owner[v] == t)
    && (forall t, j, k | 0 <= t < |part| && 0 <= j < k < |part[t]| :: part[t][j] < part[t][k])
  }

  lemma InPart(owner: seq<int>, part: seq<seq<nat>>, t: nat, v: nat)
    requires PartsMatch(owner, part) && t < |part|
    ensures v in part[t] <==> v < |owner| && owner[v] == t
  {
  }

  lemma PartsFormPrefix(owner: seq<int>, part: seq<seq<nat>>)
    requires BusyPrefix(owner, |part|)
    requires PartsMatch(owner, part)
    ensures forall s, t | 0 <= s < t < |part| && part[t] != [] :: part[s] != []
  {
    forall s, t | 0 <= s < t < |part| && part[t] != []
      ensures part[s] != []
    {
      InPart(owner, part, t, part[t][0]);
      assert OwnsSomething(owner, t);
      assert OwnsSomething(owner, s);
      var w: nat :| w < |owner| && owner[w] == s;
      InPart(owner, part, s, w);
    }
  }

  class Scheduler {
    /** The number of pipeline stages; MAX_THREAD in the original, five unless it is edited. */
    const threads: nat
    const sccNum: nat
    const sccDependents: Adjacency
    const sccParents: Adjacency
    ghost const dag: Dag

    var sccLatency: seq<nat>
    var assignedTo: seq<int>
    var part: seq<seq<nat>>

    ghost predicate Given() {
      threads > 0 && TablesAgree(dag, sccDependents, sccParents) && GoesUp(dag, sccNum)
    }

    constructor (threads: nat, sccNum: nat, sccDependents: Adjacency, sccParents: Adjacency, ghost dag: Dag)
      requires threads > 0 && TablesAgree(dag, sccDependents, sccParents) && GoesUp(dag, sccNum)
      ensures Given() && this.threads == threads && this.sccNum == sccNum && this.dag == dag
    {
      this.threads, this.sccNum, this.dag := threads, sccNum, dag;
      this.sccDependents, this.sccParents := sccDependents, sccParents;
      sccLatency, assignedTo, part := [], [], [];
    }

    method TotalLatencies(insts: seq<Instr>, sccId: Numbering, cost: Instr -> nat) returns (totalLatency: nat)
      requires forall x | x in insts :: x in sccId && sccId[x] < sccNum
      modifies `sccLatency
      ensures |sccLatency| == sccNum && totalLatency == Sum(sccLatency) == Cost(insts, cost)
      ensures Latencies(insts, sccId, cost, sccLatency)
    {
      totalLatency := 0;
      sccLatency := seq(sccNum, _ => 0);
      ZeroSum(sccLatency);
      var i := 0;
      while i < |insts|
        invariant 0 <= i <= |insts| && |sccLatency| == sccNum
        invariant totalLatency == Sum(sccLatency) == Cost(insts[..i], cost)
        invariant Latencies(insts[..i], sccId, cost, sccLatency)
      {
        var x := insts[i];
        assert x in insts;
        LatencyStep(insts, i, sccId, cost, sccLatency);
        sccLatency := sccLatency[sccId[x] := sccLatency[sccId[x]] + cost(x)];
        totalLatency := totalLatency + cost(x);
        i := i + 1;
      }
      assert insts[..|insts|] == insts;
    }

    method InitialQueue() returns (queue: Queue)
      requires Given() && |assignedTo| == |sccLatency| == sccNum
      requires forall v | 0 <= v < sccNum :: assignedTo[v] == UNASSIGNED
      ensures HoldsReady(sccLatency, sccParents, assignedTo, queue, [])
    {
      queue := multiset{};
      var scc := 0;
      while scc < sccNum
        invariant 0 <= scc <= sccNum
        invariant EntriesHonest(sccLatency, queue)
        invariant forall v: nat | v < sccNum ::
          queue[QNode(v, sccLatency[v])] == if Neighbours(sccParents, v) == [] && v < scc then 1 else 0
      {
        if Neighbours(sccParents, scc) == [] {
          queue := queue + multiset{QNode(scc, sccLatency[scc])};
        }
        scc := scc + 1;
      }
      forall v: nat | v < sccNum
        ensures Ready(sccParents, assignedTo, v) <==> Neighbours(sccParents, v) == []
      {
        if Neighbours(sccParents, v) != [] {
          var p := Neighbours(sccParents, v)[0];
          assert p in Neighbours(sccParents, v) && (p, v) in dag;
          assert assignedTo[p] == UNASSIGNED;
        }
      }
    }

    method CanSchedule(v: nat) returns (can: bool)
      requires Given() && |assignedTo| == sccNum && v < sccNum && assignedTo[v] == UNASSIGNED
      ensures can <==> Ready(sccParents, assignedTo, v)
    {
      var pars, k := Neighbours(sccParents, v), 0;
      can := true;
      while k < |pars|
        invariant 0 <= k <= |pars| && can
        invariant forall m | 0 <= m < k :: pars[m] < sccNum && assignedTo[pars[m]] >= 0
      {
        assert pars[k] in pars && (pars[k], v) in dag;
        if assignedTo[pars[k]] < 0 {
          return false;
        }
        k := k + 1;
      }
    }

    /** Queues the children of a component just owned that have become ready. */
    method ReleaseChildren(u: nat, queue: Queue) returns (queue': Queue)
      requires Given() && |assignedTo| == |sccLatency| == sccNum
      requires HoldsReady(sccLatency, sccParents, assignedTo, queue, Neighbours(sccDependents, u))
      requires forall v | 0 <= v < sccNum :: assignedTo[v] == UNASSIGNED || assignedTo[v] >= 0
      ensures HoldsReady(sccLatency, sccParents, assignedTo, queue', [])
    {
      var deps, j := Neighbours(sccDependents, u), 0;
      queue' := queue;
      assert deps[0..] == deps;
      while j < |deps|
        invariant 0 <= j <= |deps|
        invariant HoldsReady(sccLatency, sccParents, assignedTo, queue', deps[j..])
      {
        var v := deps[j];
        assert v in deps && (u, v) in dag;
        ReleasingOne(sccLatency, sccParents, assignedTo, queue', deps, j);
        if assignedTo[v] == UNASSIGNED {
          var can := CanSchedule(v);
          if can {
            queue' := queue' + multiset{QNode(v, sccLatency[v])};
          }
        }
        j := j + 1;
      }
      assert deps[|deps|..] == [];
    }

    /** Pops candidates into thread i until its budget is met; the last thread takes all that is left. */
    method ScheduleThread(i: nat, queue: Queue, average: nat, loads: seq<nat>) returns (queue': Queue, loads': seq<nat>)
      requires Given() && |assignedTo| == |sccLatency| == sccNum && i < threads == |loads|
      requires HoldsReady(sccLatency, sccParents, assignedTo, queue, [])
      requires Monotone(dag, assignedTo, i)
      requires ThreadsClosed(sccLatency, assignedTo, loads, queue, average, i) && Greedy(sccLatency, dag, assignedTo)
      modifies `assignedTo
      ensures |assignedTo| == sccNum && |loads'| == threads
      ensures HoldsReady(sccLatency, sccParents, assignedTo, queue', [])
      ensures Monotone(dag, assignedTo, i)
      ensures ThreadsClosed(sccLatency, assignedTo, loads', queue', average, i + 1)
      ensures Greedy(sccLatency, dag, assignedTo) && (i == threads - 1 ==> queue' == multiset{})
    {
      queue', loads' := queue, loads;
      OpeningThread(sccLatency, assignedTo, loads, queue, average, i);
      while queue' != multiset{}
        invariant |assignedTo| == sccNum && |loads'| == threads
        invariant HoldsReady(sccLatency, sccParents, assignedTo, queue', [])
        invariant Monotone(dag, assignedTo, i)
        invariant ThreadOpen(sccLatency, assignedTo, loads', queue', average, i) && Greedy(sccLatency, dag, assignedTo)
        invariant loads'[i] == 0 || loads'[i] < average || i == threads - 1
        decreases Unowned(assignedTo)
      {
        ghost var before := assignedTo;
        ghost var u;
        queue', loads', u := TakeTop(i, queue', average, loads');
        OwningShrinks(before, u, i);
        if loads'[i] >= average && i != threads - 1 {
          break;
        }
      }
      ClosingThread(sccLatency, assignedTo, loads', queue', average, i);
    }

    /** Gives the candidate of highest latency to thread i and queues the children it releases. */
    method TakeTop(i: nat, queue: Queue, average: nat, loads: seq<nat>)
      returns (queue': Queue, loads': seq<nat>, ghost u: nat)
      requires Given() && |assignedTo| == |sccLatency| == sccNum && i < threads == |loads|
      requires HoldsReady(sccLatency, sccParents, assignedTo, queue, []) && queue != multiset{}
      requires Monotone(dag, assignedTo, i)
      requires ThreadOpen(sccLatency, assignedTo, loads, queue, average, i) && Greedy(sccLatency, dag, assignedTo)
      requires loads[i] == 0 || loads[i] < average || i == threads - 1
      modifies `assignedTo
      ensures u < sccNum && old(assignedTo)[u] == UNASSIGNED && assignedTo == old(assignedTo)[u := i]
      ensures |loads'| == threads && OwnsSomething(assignedTo, i)
      ensures HoldsReady(sccLatency, sccParents, assignedTo, queue', [])
      ensures Monotone(dag, assignedTo, i)
      ensures ThreadOpen(sccLatency, assignedTo, loads', queue', average, i) && Greedy(sccLatency, dag, assignedTo)
    {
      var top := Top(queue);
      OwningTop(sccLatency, dag, sccDependents, sccParents, assignedTo, queue, top, i);
      OwningStaysGreedy(sccLatency, dag, sccDependents, sccParents, assignedTo, queue, top, i);
      u := top.u;
      assignedTo := assignedTo[top.u := i];
      loads' := loads[i := loads[i] + top.latency];
      queue' := ReleaseChildren(top.u, queue - multiset{top});
      OwningKeepsOpen(sccLatency, old(assignedTo), loads, queue, average, i, u, queue');
    }

    /** One with the largest latency; the order among equals is open. */
    method Top(queue: Queue) returns (top: QNode)
      requires queue != multiset{}
      ensures top in queue && forall q | q in queue :: q.latency <= top.latency
    {
      ghost var _ := SomeTop(queue);
      top :| top in queue && forall q | q in queue :: q.latency <= top.latency;
    }

    /** Lists the components of each thread in ascending order; a component without a thread is an error. */
    method FillParts() returns (errors: seq<nat>)
      requires |assignedTo| == sccNum
      modifies `part
      ensures |part| == threads
      ensures forall v: nat :: v in errors <==> v < sccNum && !(0 <= assignedTo[v] < threads)
      ensures (forall v | 0 <= v < sccNum :: 0 <= assignedTo[v] < threads) ==> errors == []
      ensures PartsMatch(assignedTo, part)
    {
      part, errors := seq(threads, _ => []), [];
      var i := 0;
      while i < sccNum
        invariant 0 <= i <= sccNum && |part| == threads
        invariant forall v: nat :: v in errors <==> v < i && !(0 <= assignedTo[v] < threads)
        invariant (forall v | 0 <= v < sccNum :: 0 <= assignedTo[v] < threads) ==> errors == []
        invariant forall t, v: nat | 0 <= t < threads :: v in part[t] <==> v < i && assignedTo[v] == t
        invariant forall t, j | 0 <= t < threads && 0 <= j < |part[t]| :: part[t][j] < i
        invariant forall t, j, k | 0 <= t < threads && 0 <= j < k < |part[t]| :: part[t][j] < part[t][k]
      {
        if assignedTo[i] < 0 || assignedTo[i] >= threads {
          errors := errors + [i];
        } else {
          part := part[assignedTo[i] := part[assignedTo[i]] + [i]];
        }
        i := i + 1;
      }
    }

    method Partition(insts: seq<Instr>, sccId: Numbering, cost: Instr -> nat) returns (errors: seq<nat>)
      requires Given()
      requires forall x | x in insts :: x in sccId && sccId[x] < sccNum
      modifies this
      // The error call is unreachable, and every component ends in exactly one part.
      ensures errors == []
      ensures |assignedTo| == sccNum && |part| == threads
      ensures forall v | 0 <= v < sccNum :: 0 <= assignedTo[v] < threads
      ensures PartsMatch(assignedTo, part)
      // Stages never run against the component graph.
      ensures forall a, b | (a, b) in dag :: assignedTo[a] <= assignedTo[b]
      // Load: what the instructions of each component and of each stage cost.
      ensures |sccLatency| == sccNum && Latencies(insts, sccId, cost, sccLatency)
      ensures CostsBalanced(insts, StageOf(insts, sccId, assignedTo), cost, LargestOf(sccLatency), assignedTo, threads,
                            Average(Cost(insts, cost), threads))
      // Order.
      ensures Greedy(sccLatency, dag, assignedTo)
      ensures forall s, t | 0 <= s < t < threads && part[t] != [] :: part[s] != []
    {
      var totalLatency := TotalLatencies(insts, sccId, cost);
      var averLatency := totalLatency / threads;
      AssignThreads(averLatency);
      ghost var owner, latency, edges := assignedTo, sccLatency, dag;
      BalancedMeansCosts(insts, sccId, cost, owner, latency, threads);
      errors := FillParts();
      PartsFormPrefix(owner, part);
      assert assignedTo == owner && sccLatency == latency && dag == edges;
    }

    method AssignThreads(averLatency: nat)
      requires Given() && |sccLatency| == sccNum && averLatency == Sum(sccLatency) / threads
      modifies `assignedTo
      ensures |assignedTo| == sccNum
      ensures forall v | 0 <= v < sccNum :: 0 <= assignedTo[v] < threads
      ensures forall a, b | (a, b) in dag :: assignedTo[a] <= assignedTo[b]
      ensures Balanced(sccLatency, assignedTo, threads) && BusyPrefix(assignedTo, threads)
      ensures Greedy(sccLatency, dag, assignedTo)
    {
      assignedTo := seq(sccNum, _ => UNASSIGNED);
      var loads: seq<nat> := seq(threads, _ => 0);
      var queue := InitialQueue();
      NothingOwnedYet(sccLatency, dag, assignedTo, loads, queue, averLatency);
      var i := 0;
      while i < threads
        invariant 0 <= i <= threads == |loads| && |assignedTo| == sccNum
        invariant HoldsReady(sccLatency, sccParents, assignedTo, queue, [])
        invariant Monotone(dag, assignedTo, i - 1)
        invariant ThreadsClosed(sccLatency, assignedTo, loads, queue, averLatency, i)
        invariant Greedy(sccLatency, dag, assignedTo) && (i == threads ==> queue == multiset{})
      {
        queue, loads := ScheduleThread(i, queue, averLatency, loads);
        i := i + 1;
      }
      ClosingAllThreads(sccLatency, dag, sccDependents, sccParents, assignedTo, loads);
    }
  }
}
