/** One channel for every dependence that crosses to a later stage (CodeTransformation.cpp). */
module Synchronization {
  import opened DependenceGraph
  import opened Pipeline

  type Code = seq<Item>

  function InsertAt(code: Code, q: nat, item: Item): Code
    requires q <= |code|
  {
    code[..q] + [item] + code[q..]
  }

  /** Channel c is written right after u: only other writes stand between. */
  ghost predicate WrittenAfter(code: Code, u: Instr, c: nat) {
    exists k, j :: 0 <= k < j < |code| && code[k] == Inst(u) && code[j] == Produce(c) &&
                   forall m | k < m < j :: code[m].Produce?
  }

  /** Channel c is read right before v: only other reads stand between. */
  ghost predicate ReadBefore(code: Code, v: Instr, c: nat) {
    exists j, k :: 0 <= j < k < |code| && code[j] == Consume(c) && code[k] == Inst(v) &&
                   forall m | j < m < k :: code[m].Consume?
  }

  /** The instructions of a stage, in order. */
  function Instructions(code: Code): seq<Instr> {
    if code == [] then []
    else Instructions(code[..|code| - 1]) + if code[|code| - 1].Inst? then [code[|code| - 1].i] else []
  }

  lemma OneItemMore(code: Code, item: Item)
    ensures Instructions(code + [item]) == Instructions(code) + if item.Inst? then [item.i] else []
  {
    assert (code + [item])[..|code + [item]| - 1] == code;
  }

  lemma {:induction false} SiteIsNoInstruction(a: Code, item: Item, b: Code)
    requires !item.Inst?
    ensures Instructions(a + [item] + b) == Instructions(a + b)
  {
    if b == [] {
      assert a + b == a && a + [item] + b == a + [item];
      OneItemMore(a, item);
    } else {
      var front, last := b[..|b| - 1], b[|b| - 1];
      SiteIsNoInstruction(a, item, front);
      assert a + b == (a + front) + [last] && a + [item] + b == (a + [item] + front) + [last];
      OneItemMore(a + front, last);
      OneItemMore(a + [item] + front, last);
    }
  }

  lemma {:induction false} InstructionsMember(code: Code, i: Instr)
    ensures i in Instructions(code) <==> Inst(i) in code
  {
    if code != [] {
      InstructionsMember(code[..|code| - 1], i);
      assert code == code[..|code| - 1] + [code[|code| - 1]];
    }
  }

  lemma InsertKeepsInstructions(code: Code, q: nat, item: Item)
    requires q <= |code| && !item.Inst?
    ensures Instructions(InsertAt(code, q, item)) == Instructions(code)
  {
    SiteIsNoInstruction(code[..q], item, code[q..]);
    assert code[..q] + code[q..] == code;
  }

  lemma InsertCounts(code: Code, q: nat, item: Item)
    requires q <= |code|
    ensures multiset(InsertAt(code, q, item)) == multiset(code) + multiset{item}
  {
    assert code == code[..q] + code[q..];
  }

  /** Later writes after an instruction, and reads before one, do not come between u and its writes. */
  lemma InsertKeepsWritten(code: Code, q: nat, item: Item, u: Instr, c: nat)
    requires q <= |code| && WrittenAfter(code, u, c)
    requires item.Produce? || (q < |code| && code[q].Inst?)
    ensures WrittenAfter(InsertAt(code, q, item), u, c)
  {
    var k, j :| 0 <= k < j < |code| && code[k] == Inst(u) && code[j] == Produce(c) &&
                forall m | k < m < j :: code[m].Produce?;
    var code' := InsertAt(code, q, item);
    var k', j' := if q <= k then k + 1 else k, if q <= j then j + 1 else j;
    assert code'[k'] == Inst(u) && code'[j'] == Produce(c);
    forall m | k' < m < j' ensures code'[m].Produce? {
      assert m < q ==> code'[m] == code[m];
      assert m > q ==> code'[m] == code[m - 1];
    }
  }

  lemma InsertKeepsRead(code: Code, q: nat, item: Item, v: Instr, c: nat)
    requires q <= |code| && ReadBefore(code, v, c)
    requires item.Consume? || (0 < q && code[q - 1].Inst?)
    ensures ReadBefore(InsertAt(code, q, item), v, c)
  {
    var j, k :| 0 <= j < k < |code| && code[j] == Consume(c) && code[k] == Inst(v) &&
                forall m | j < m < k :: code[m].Consume?;
    var code' := InsertAt(code, q, item);
    var k', j' := if q <= k then k + 1 else k, if q <= j then j + 1 else j;
    assert code'[k'] == Inst(v) && code'[j'] == Consume(c);
    forall m | j' < m < k' ensures code'[m].Consume? {
      assert m < q ==> code'[m] == code[m];
      assert m > q ==> code'[m] == code[m - 1];
    }
  }

  // ---------------------------------------------------------------- which pairs get a channel

  /** What a channel was made for: a dependence, by position, and the stage that reads. */
  datatype Request = Request(edge: nat, reader: nat)

  type Threads = map<Instr, nat>

  /** The condition under which insertSynchronization makes a channel. */
  ghost predicate Wanted(code: seq<Code>, edges: seq<Edge>, thread: Threads, branches: set<Instr>, r: Request) {
    && r.edge < |edges| && edges[r.edge].u in thread
    && thread[edges[r.edge].u] < r.reader < |code|
    && Inst(edges[r.edge].u) in code[thread[edges[r.edge].u]]
    && Inst(edges[r.edge].v) in code[r.reader]
    && edges[r.edge].u !in branches
  }

  predicate Earlier(a: Request, b: Request) {
    a.edge < b.edge || (a.edge == b.edge && a.reader < b.reader)
  }

  /** The requests below a position of the double loop, in order: exactly those wanted, none twice. */
  ghost predicate Served(code: seq<Code>, edges: seq<Edge>, thread: Threads, branches: set<Instr>,
                         requests: seq<Request>, edge: nat, reader: nat) {
    && (forall r :: r in requests <==> Wanted(code, edges, thread, branches, r) && Earlier(r, Request(edge, reader)))
    && (forall i, j | 0 <= i < j < |requests| :: Earlier(requests[i], requests[j]))
  }

  ghost predicate WiresMatch(edges: seq<Edge>, thread: Threads, requests: seq<Request>, wires: seq<Wire>, stages: nat) {
    && |wires| == |requests|
    && forall c | 0 <= c < |requests| ::
         var r := requests[c];
         && r.edge < |edges| && edges[r.edge].u in thread
         && wires[c] == Wire(thread[edges[r.edge].u], r.reader)
         && wires[c].from < wires[c].to < stages
  }

  /** Both sites of every channel made so far stand next to the instructions they serve. */
  ghost predicate SitesPlaced(code: seq<Code>, edges: seq<Edge>, requests: seq<Request>, wires: seq<Wire>) {
    && |wires| == |requests|
    && forall c | 0 <= c < |requests| ::
         var r := requests[c];
         && r.edge < |edges| && wires[c].from < |code| && wires[c].to < |code|
         && WrittenAfter(code[wires[c].from], edges[r.edge].u, c)
         && ReadBefore(code[wires[c].to], edges[r.edge].v, c)
  }

  /** The code of each stage is the original one plus sites. */
  ghost predicate SameInstructions(original: seq<Code>, code: seq<Code>) {
    && |code| == |original|
    && forall t | 0 <= t < |code| :: Instructions(code[t]) == Instructions(original[t])
  }

  function WithSites(code: seq<Code>, u: nat, p: nat, v: nat, q: nat, c: nat): seq<Code>
    requires u < v < |code| && p < |code[u]| && q < |code[v]|
  {
    code[u := InsertAt(code[u], p + 1, Produce(c))][v := InsertAt(code[v], q, Consume(c))]
  }

  lemma SitesKeepInstructions(original: seq<Code>, code: seq<Code>, u: nat, p: nat, v: nat, q: nat, c: nat)
    requires SameInstructions(original, code)
    requires u < v < |code| && p < |code[u]| && q < |code[v]|
    ensures SameInstructions(original, WithSites(code, u, p, v, q, c))
  {
    InsertKeepsInstructions(code[u], p + 1, Produce(c));
    InsertKeepsInstructions(code[v], q, Consume(c));
  }

  lemma SitesCount(code: seq<Code>, u: nat, p: nat, v: nat, q: nat, c: nat, t: nat, item: Item)
    requires u < v < |code| && p < |code[u]| && q < |code[v]| && t < |code|
    ensures multiset(WithSites(code, u, p, v, q, c)[t])[item] ==
            multiset(code[t])[item] + (if t == u && item == Produce(c) then 1 else 0)
                                    + (if t == v && item == Consume(c) then 1 else 0)
  {
    InsertCounts(code[u], p + 1, Produce(c));
    InsertCounts(code[v], q, Consume(c));
  }

  lemma SitesKeepWiring(code: seq<Code>, wires: seq<Wire>, u: nat, p: nat, v: nat, q: nat)
    requires WellWired(code, wires)
    requires u < v < |code| && p < |code[u]| && q < |code[v]|
    ensures WellWired(WithSites(code, u, p, v, q, |wires|), wires + [Wire(u, v)])
  {
    var code', wires' := WithSites(code, u, p, v, q, |wires|), wires + [Wire(u, v)];
    forall t, c | 0 <= t < |code'| && 0 <= c < |wires'|
      ensures RunsOnce(code'[t], Produce(c), wires'[c].from == t) && RunsOnce(code'[t], Consume(c), wires'[c].to == t)
    {
      SitesRunOnce(code, wires, u, p, v, q, t, c);
    }
    KnownItems(code, wires, u, p, v, q);
  }

  lemma SitesRunOnce(code: seq<Code>, wires: seq<Wire>, u: nat, p: nat, v: nat, q: nat, t: nat, c: nat)
    requires WellWired(code, wires) && t < |code| && c <= |wires|
    requires u < v < |code| && p < |code[u]| && q < |code[v]|
    ensures var at := (wires + [Wire(u, v)])[c];
            && RunsOnce(WithSites(code, u, p, v, q, |wires|)[t], Produce(c), at.from == t)
            && RunsOnce(WithSites(code, u, p, v, q, |wires|)[t], Consume(c), at.to == t)
  {
    SitesCount(code, u, p, v, q, |wires|, t, Produce(c));
    SitesCount(code, u, p, v, q, |wires|, t, Consume(c));
    if c < |wires| {
      assert RunsOnce(code[t], Produce(c), wires[c].from == t) && RunsOnce(code[t], Consume(c), wires[c].to == t);
    } else {
      FreshSites(code, wires, t);
    }
  }

  lemma FreshSites(code: seq<Code>, wires: seq<Wire>, t: nat)
    requires WellWired(code, wires) && t < |code|
    ensures multiset(code[t])[Produce(|wires|)] == 0 && multiset(code[t])[Consume(|wires|)] == 0
  {
    assert forall k | 0 <= k < |code[t]| :: code[t][k] != Produce(|wires|) && code[t][k] != Consume(|wires|);
    assert Produce(|wires|) !in code[t] && Consume(|wires|) !in code[t];
  }

  lemma KnownItems(code: seq<Code>, wires: seq<Wire>, u: nat, p: nat, v: nat, q: nat)
    requires WellWired(code, wires)
    requires u < v < |code| && p < |code[u]| && q < |code[v]|
    ensures var code' := WithSites(code, u, p, v, q, |wires|);
            forall t, k | 0 <= t < |code'| && 0 <= k < |code'[t]| && !code'[t][k].Inst? ::
              code'[t][k].channel <= |wires|
  {
    var code': seq<Code> := WithSites(code, u, p, v, q, |wires|);
    forall t, k | 0 <= t < |code'| && 0 <= k < |code'[t]| && !code'[t][k].Inst?
      ensures code'[t][k].channel <= |wires|
    {
      KnownItem(code, wires, u, p, v, q, t, k);
    }
  }

  lemma KnownItem(code: seq<Code>, wires: seq<Wire>, u: nat, p: nat, v: nat, q: nat, t: nat, k: nat)
    requires WellWired(code, wires)
    requires u < v < |code| && p < |code[u]| && q < |code[v]|
    requires t < |code| && k < |WithSites(code, u, p, v, q, |wires|)[t]|
    ensures var item := WithSites(code, u, p, v, q, |wires|)[t][k];
            item.Inst? || item.channel <= |wires|
  {
    var at := if t == u then p + 1 else if t == v then q else |code[t]|;
    var item := WithSites(code, u, p, v, q, |wires|)[t][k];
    if k < at {
      assert item == code[t][k];
    } else if k > at {
      assert item == code[t][k - 1];
    }
  }

  lemma SitesKeepPlaces(code: seq<Code>, edges: seq<Edge>, requests: seq<Request>, wires: seq<Wire>,
                        r: Request, u: nat, p: nat, v: nat, q: nat)
    requires SitesPlaced(code, edges, requests, wires) && r.edge < |edges|
    requires u < v < |code| && p < |code[u]| && q < |code[v]|
    requires code[u][p] == Inst(edges[r.edge].u) && code[v][q] == Inst(edges[r.edge].v)
    ensures SitesPlaced(WithSites(code, u, p, v, q, |wires|), edges, requests + [r], wires + [Wire(u, v)])
  {
    var n := |wires|;
    var code', wires', requests' := WithSites(code, u, p, v, q, n), wires + [Wire(u, v)], requests + [r];
    forall c | 0 <= c < |requests'|
      ensures WrittenAfter(code'[wires'[c].from], edges[requests'[c].edge].u, c)
      ensures ReadBefore(code'[wires'[c].to], edges[requests'[c].edge].v, c)
    {
      if c < n {
        var w := wires[c];
        if w.from == u { InsertKeepsWritten(code[u], p + 1, Produce(n), edges[requests[c].edge].u, c); }
        if w.from == v { InsertKeepsWritten(code[v], q, Consume(n), edges[requests[c].edge].u, c); }
        if w.to == u { InsertKeepsRead(code[u], p + 1, Produce(n), edges[requests[c].edge].v, c); }
        if w.to == v { InsertKeepsRead(code[v], q, Consume(n), edges[requests[c].edge].v, c); }
      } else {
        assert code'[u][p] == Inst(edges[r.edge].u) && code'[u][p + 1] == Produce(n);
        assert code'[v][q] == Consume(n) && code'[v][q + 1] == Inst(edges[r.edge].v);
      }
    }
  }

  lemma WiresMatchOneMore(edges: seq<Edge>, thread: Threads, requests: seq<Request>, wires: seq<Wire>, stages: nat,
                          r: Request)
    requires WiresMatch(edges, thread, requests, wires, stages)
    requires r.edge < |edges| && edges[r.edge].u in thread && thread[edges[r.edge].u] < r.reader < stages
    ensures WiresMatch(edges, thread, requests + [r], wires + [Wire(thread[edges[r.edge].u], r.reader)], stages)
  {
  }

  lemma SameMembers(original: seq<Code>, code: seq<Code>, t: nat, i: Instr)
    requires SameInstructions(original, code) && t < |code|
    ensures Inst(i) in code[t] <==> Inst(i) in original[t]
  {
    InstructionsMember(code[t], i);
    InstructionsMember(original[t], i);
  }

  lemma OneLater(r: Request, edge: nat, reader: nat)
    ensures Earlier(r, Request(edge, reader + 1)) <==> Earlier(r, Request(edge, reader)) || r == Request(edge, reader)
  {
  }

  /** Looking at one pair, and serving it if it is wanted. */
  lemma ServingOne(code: seq<Code>, edges: seq<Edge>, thread: Threads, branches: set<Instr>,
                   requests: seq<Request>, edge: nat, reader: nat, requests': seq<Request>)
    requires Served(code, edges, thread, branches, requests, edge, reader)
    requires var now := Request(edge, reader);
             requests' == if Wanted(code, edges, thread, branches, now) then requests + [now] else requests
    ensures Served(code, edges, thread, branches, requests', edge, reader + 1)
  {
    forall r
      ensures r in requests' <==> Wanted(code, edges, thread, branches, r) && Earlier(r, Request(edge, reader + 1))
    {
      OneLater(r, edge, reader);
      assert r in requests <==> Wanted(code, edges, thread, branches, r) && Earlier(r, Request(edge, reader));
    }
    StillOrdered(requests, Request(edge, reader));
  }

  lemma StillOrdered(requests: seq<Request>, now: Request)
    requires forall i, j | 0 <= i < j < |requests| :: Earlier(requests[i], requests[j])
    requires forall r | r in requests :: Earlier(r, now)
    ensures var requests' := requests + [now];
            forall i, j | 0 <= i < j < |requests'| :: Earlier(requests'[i], requests'[j])
  {
  }

  /** No pair of this edge lies beyond the readers looked at. */
  lemma MovingOn(code: seq<Code>, edges: seq<Edge>, thread: Threads, branches: set<Instr>,
                 requests: seq<Request>, edge: nat, reader: nat, edge': nat, reader': nat)
    requires Served(code, edges, thread, branches, requests, edge, reader)
    requires forall r | Wanted(code, edges, thread, branches, r) ::
               Earlier(r, Request(edge, reader)) <==> Earlier(r, Request(edge', reader'))
    ensures Served(code, edges, thread, branches, requests, edge', reader')
  {
  }

  class Synchronizer {
    /** The code of each stage; the instructions in it are the entries of instMap. */
    var code: seq<Code>
    var wires: seq<Wire>
    ghost var requests: seq<Request>

    constructor (code: seq<Code>)
      ensures this.code == code
    {
      this.code, wires, requests := code, [], [];
    }

    method FindInst(t: nat, i: Instr) returns (k: nat)
      requires t < |code| && Inst(i) in code[t]
      ensures k < |code[t]| && code[t][k] == Inst(i)
    {
      k := 0;
      while code[t][k] != Inst(i)
        invariant k < |code[t]| && Inst(i) !in code[t][..k]
        decreases |code[t]| - k
      {
        assert code[t] == code[t][..k + 1] + code[t][k + 1..];
        k := k + 1;
      }
    }

    method InsertSynchronization(edges: seq<Edge>, thread: Threads, branches: set<Instr>)
      requires forall e | e in edges :: e.u in thread
      requires forall t, k | 0 <= t < |code| && 0 <= k < |code[t]| :: code[t][k].Inst?
      modifies this
      ensures SameInstructions(old(code), code)
      ensures Served(old(code), edges, thread, branches, requests, |edges|, 0)
      ensures WiresMatch(edges, thread, requests, wires, |code|)
      ensures SitesPlaced(code, edges, requests, wires)
      ensures WellWired(code, wires)
    {
      wires, requests := [], [];
      var i := 0;
      while i < |edges|
        invariant 0 <= i <= |edges|
        invariant SameInstructions(old(code), code)
        invariant Served(old(code), edges, thread, branches, requests, i, 0)
        invariant WiresMatch(edges, thread, requests, wires, |code|)
        invariant SitesPlaced(code, edges, requests, wires)
        invariant WellWired(code, wires)
      {
        var e := edges[i];
        assert e in edges;
        var utr := thread[e.u];
        var vtr := utr + 1;
        MovingOn(old(code), edges, thread, branches, requests, i, 0, i, vtr);
        while vtr < |code|
          invariant utr < vtr
          invariant SameInstructions(old(code), code)
          invariant Served(old(code), edges, thread, branches, requests, i, vtr)
          invariant WiresMatch(edges, thread, requests, wires, |code|)
          invariant SitesPlaced(code, edges, requests, wires)
          invariant WellWired(code, wires)
          decreases |code| - vtr
        {
          SameMembers(old(code), code, utr, e.u);
          SameMembers(old(code), code, vtr, e.v);
          ghost var before := requests;
          if Inst(e.u) in code[utr] && Inst(e.v) in code[vtr] && e.u !in branches {
            MakeChannel(edges, thread, Request(i, vtr), utr, vtr, old(code));
          }
          ServingOne(old(code), edges, thread, branches, before, i, vtr, requests);
          vtr := vtr + 1;
        }
        MovingOn(old(code), edges, thread, branches, requests, i, vtr, i + 1, 0);
        i := i + 1;
      }
    }

    /** insertProduce and insertConsume for one channel. */
    method MakeChannel(edges: seq<Edge>, thread: Threads, r: Request, utr: nat, vtr: nat, ghost original: seq<Code>)
      requires r.edge < |edges| && edges[r.edge].u in thread && thread[edges[r.edge].u] == utr && r.reader == vtr
      requires utr < vtr < |code| && Inst(edges[r.edge].u) in code[utr] && Inst(edges[r.edge].v) in code[vtr]
      requires SameInstructions(original, code)
      requires WiresMatch(edges, thread, requests, wires, |code|)
      requires SitesPlaced(code, edges, requests, wires)
      requires WellWired(code, wires)
      modifies this
      ensures SameInstructions(original, code)
      ensures requests == old(requests) + [r]
      ensures WiresMatch(edges, thread, requests, wires, |code|)
      ensures SitesPlaced(code, edges, requests, wires)
      ensures WellWired(code, wires)
    {
      var p := FindInst(utr, edges[r.edge].u);
      var q := FindInst(vtr, edges[r.edge].v);
      SitesKeepInstructions(original, code, utr, p, vtr, q, |wires|);
      SitesKeepWiring(code, wires, utr, p, vtr, q);
      SitesKeepPlaces(code, edges, requests, wires, r, utr, p, vtr, q);
      WiresMatchOneMore(edges, thread, requests, wires, |code|, r);
      code := WithSites(code, utr, p, vtr, q, |wires|);
      wires := wires + [Wire(utr, vtr)];
      requests := requests + [r];
    }
  }
}
