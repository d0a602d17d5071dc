/**
 Data dependences inside a loop (buildPDG.cpp): register uses, and what the memory dependence
 analysis answers for each instruction.
 */
module DataDependence {
  import opened DependenceGraph

  type Block = int

  datatype Option<T> = None | Some(value: T)

  /** An answer of getDependency, with that of the non-local query it may call for. */
  datatype MemDep =
    | Def(dep: Instr)
    | Clobber(dep: Instr)
    | NonLocal(deps: seq<Option<Instr>>)
    | Unknown

  /** The instructions of the loop, and what LLVM says about them. */
  datatype Facts = Facts(
    insts: seq<Instr>,
    block: Instr -> Block,
    users: Instr -> seq<Instr>,
    touchesMemory: Instr -> bool,
    load: Instr -> bool,
    store: Instr -> bool,
    alloca: Instr -> bool,
    memDep: Instr -> MemDep)

  /**
   A loop is made of whole blocks, and Def and Clobber answers come from the block of the instruction
   that was asked about; anything farther away is a non-local answer.
   */
  ghost predicate WellFormed(f: Facts) {
    && (forall i, j | i in f.insts && f.block(i) == f.block(j) :: j in f.insts)
    && (forall i | i in f.insts ::
          match f.memDep(i)
          case Def(dep) => f.block(dep) == f.block(i)
          case Clobber(dep) => f.block(dep) == f.block(i)
          case NonLocal(_) => true
          case Unknown => true)
  }

  /** The memory dependences of i. */
  predicate MemoryEdge(f: Facts, i: Instr, e: Edge) {
    e.v == i && f.touchesMemory(i) &&
    match f.memDep(i)
    case Def(dep) =>
      && e.u == dep
      && (|| (f.load(i) && (f.store(dep) || f.alloca(dep)) && e.dtype == DTRUE)
          || (f.store(i) && f.load(dep) && e.dtype == DANTI)
          || (f.store(i) && (f.store(dep) || f.alloca(dep)) && e.dtype == DOUT))
    case Clobber(dep) => e.u == dep && e.dtype == DANTI
    case NonLocal(deps) => NonLocalEdge(f, i, deps, e)
    case Unknown => false
  }

  predicate RegisterEdge(f: Facts, i: Instr, e: Edge) {
    e.u == i && e.v in f.users(i) && e.v in f.insts && e.dtype == REG
  }

  /** Every data dependence begins and ends in the loop. */
  lemma SourcesInLoop(f: Facts, i: Instr, e: Edge)
    requires WellFormed(f) && i in f.insts && (MemoryEdge(f, i, e) || RegisterEdge(f, i, e))
    ensures e.u in f.insts && e.v in f.insts
  {
  }

  /** What an instruction does to the memory that it depends on or is depended on for. */
  datatype Access = Reads | Writes | Neither

  /** As the earlier of two instructions; an allocation counts as the first write. */
  function Earlier(f: Facts, i: Instr): Access {
    if f.load(i) then Reads else if f.store(i) || f.alloca(i) then Writes else Neither
  }

  function Later(f: Facts, i: Instr): Access {
    if f.load(i) then Reads else if f.store(i) then Writes else Neither
  }

  /** Read after write is a true dependence, write after read an anti dependence, write after write one of output. */
  function Hazard(earlier: Access, later: Access): Option<DType> {
    match (earlier, later)
    case (Writes, Reads) => Some(DTRUE)
    case (Reads, Writes) => Some(DANTI)
    case (Writes, Writes) => Some(DOUT)
    case _ => None
  }

  /** An instruction is a load, a store, an allocation, or none of them. */
  predicate OneKind(f: Facts, i: Instr) {
    !(f.load(i) && f.store(i)) && !(f.load(i) && f.alloca(i)) && !(f.store(i) && f.alloca(i))
  }

  /** A Def answer makes exactly the edge of its hazard, from the earlier instruction to the later one. */
  lemma DefIsHazard(f: Facts, i: Instr, dep: Instr, e: Edge)
    requires OneKind(f, i) && OneKind(f, dep) && f.touchesMemory(i) && f.memDep(i) == Def(dep)
    ensures MemoryEdge(f, i, e) <==> e.u == dep && e.v == i && Hazard(Earlier(f, dep), Later(f, i)) == Some(e.dtype)
  {
  }

  /** All other answers that name an instruction of the loop make it an anti dependence of the one that asked. */
  lemma OtherAnswers(f: Facts, i: Instr, e: Edge)
    requires f.touchesMemory(i) && !f.memDep(i).Def?
    ensures MemoryEdge(f, i, e) <==>
            && e.v == i && e.dtype == DANTI
            && match f.memDep(i)
               case Clobber(dep) => e.u == dep
               case NonLocal(deps) => Some(e.u) in deps && e.u in f.insts
               case _ => false
  {
  }

  method AddIf(graph: Pdg, cond: bool, u: Instr, v: Instr, dtype: DType)
    requires graph.Valid()
    modifies graph
    ensures graph.Valid()
    ensures forall e :: e in graph.allEdges <==> e in old(graph.allEdges) || (cond && e == Edge(u, v, dtype))
  {
    if cond {
      graph.AddEdge(u, v, dtype);
    }
  }

  lemma OneMoreUser(all: seq<Edge>, before: seq<Edge>, after: seq<Edge>, f: Facts, i: Instr, users: seq<Instr>, k: nat)
    requires k < |users| && users == f.users(i)
    requires forall e :: e in before <==> e in all || (RegisterEdge(f, i, e) && e.v in users[..k])
    requires forall e :: e in after <==> e in before || (users[k] in f.insts && e == Edge(i, users[k], REG))
    ensures forall e :: e in after <==> e in all || (RegisterEdge(f, i, e) && e.v in users[..k + 1])
  {
    assert users[..k + 1] == users[..k] + [users[k]];
    assert users[k] in users;
  }

  method AddRegisterEdges(graph: Pdg, f: Facts, i: Instr)
    requires graph.Valid()
    modifies graph
    ensures graph.Valid()
    ensures forall e :: e in graph.allEdges <==> e in old(graph.allEdges) || RegisterEdge(f, i, e)
  {
    var users, k := f.users(i), 0;
    while k < |users|
      invariant 0 <= k <= |users| && graph.Valid()
      invariant forall e :: e in graph.allEdges <==>
                  e in old(graph.allEdges) || (RegisterEdge(f, i, e) && e.v in users[..k])
    {
      ghost var before := graph.allEdges;
      AddIf(graph, users[k] in f.insts, i, users[k], REG);
      OneMoreUser(old(graph.allEdges), before, graph.allEdges, f, i, users, k);
      k := k + 1;
    }
    assert users[..k] == users;
  }

  predicate NonLocalEdge(f: Facts, i: Instr, deps: seq<Option<Instr>>, e: Edge) {
    e.v == i && Some(e.u) in deps && e.u in f.insts && e.dtype == DANTI
  }

  method AddNonLocalEdges(graph: Pdg, f: Facts, i: Instr, deps: seq<Option<Instr>>)
    requires graph.Valid()
    modifies graph
    ensures graph.Valid()
    ensures forall e :: e in graph.allEdges <==> e in old(graph.allEdges) || NonLocalEdge(f, i, deps, e)
  {
    var k := 0;
    while k < |deps|
      invariant 0 <= k <= |deps| && graph.Valid()
      invariant forall e :: e in graph.allEdges <==> e in old(graph.allEdges) || NonLocalEdge(f, i, deps[..k], e)
    {
      if deps[k].Some? {
        AddIf(graph, deps[k].value in f.insts, deps[k].value, i, DANTI);
      }
      assert deps[..k + 1] == deps[..k] + [deps[k]];
      k := k + 1;
    }
    assert deps[..k] == deps;
  }

  method AddMemoryEdges(graph: Pdg, f: Facts, i: Instr)
    requires graph.Valid()
    modifies graph
    ensures graph.Valid()
    ensures forall e :: e in graph.allEdges <==> e in old(graph.allEdges) || MemoryEdge(f, i, e)
  {
    if !f.touchesMemory(i) {
      return;
    }
    match f.memDep(i)
    case Def(dep) =>
      AddIf(graph, f.load(i) && f.store(dep), dep, i, DTRUE);
      AddIf(graph, f.load(i) && f.alloca(dep), dep, i, DTRUE);
      AddIf(graph, f.store(i) && f.load(dep), dep, i, DANTI);
      AddIf(graph, f.store(i) && f.store(dep), dep, i, DOUT);
      AddIf(graph, f.store(i) && f.alloca(dep), dep, i, DOUT);
    case Clobber(dep) =>
      AddIf(graph, true, dep, i, DANTI);
    case NonLocal(deps) =>
      AddNonLocalEdges(graph, f, i, deps);
    case Unknown =>
  }

  ghost predicate DataEdge(f: Facts, insts: seq<Instr>, e: Edge) {
    exists i :: i in insts && (MemoryEdge(f, i, e) || RegisterEdge(f, i, e))
  }

  lemma OneMoreInst(f: Facts, all: seq<Edge>, before: seq<Edge>, mid: seq<Edge>, after: seq<Edge>, k: nat)
    requires k < |f.insts|
    requires forall e :: e in before <==> e in all || DataEdge(f, f.insts[..k], e)
    requires forall e :: e in mid <==> e in before || RegisterEdge(f, f.insts[k], e)
    requires forall e :: e in after <==> e in mid || MemoryEdge(f, f.insts[k], e)
    ensures forall e :: e in after <==> e in all || DataEdge(f, f.insts[..k + 1], e)
  {
    forall e ensures e in after <==> e in all || DataEdge(f, f.insts[..k + 1], e) {
      MoreDataEdges(f, k, e);
    }
  }

  lemma MoreDataEdges(f: Facts, k: nat, e: Edge)
    requires k < |f.insts|
    ensures DataEdge(f, f.insts[..k + 1], e) <==>
            DataEdge(f, f.insts[..k], e) || MemoryEdge(f, f.insts[k], e) || RegisterEdge(f, f.insts[k], e)
  {
    assert f.insts[..k + 1] == f.insts[..k] + [f.insts[k]];
    if i :| i in f.insts[..k] && (MemoryEdge(f, i, e) || RegisterEdge(f, i, e)) {
      assert i in f.insts[..k + 1];
    }
    assert f.insts[k] in f.insts[..k + 1];
  }

  /** The data dependences of all instructions of the loop; they begin and end in the loop. */
  method AddDataEdges(graph: Pdg, f: Facts)
    requires WellFormed(f) && graph.Valid()
    modifies graph
    ensures graph.Valid()
    ensures forall e :: e in graph.allEdges <==> e in old(graph.allEdges) || DataEdge(f, f.insts, e)
    ensures forall e | e in graph.allEdges && e !in old(graph.allEdges) :: e.u in f.insts && e.v in f.insts
  {
    var k := 0;
    while k < |f.insts|
      invariant 0 <= k <= |f.insts| && graph.Valid()
      invariant forall e :: e in graph.allEdges <==> e in old(graph.allEdges) || DataEdge(f, f.insts[..k], e)
    {
      ghost var before := graph.allEdges;
      AddRegisterEdges(graph, f, f.insts[k]);
      ghost var mid := graph.allEdges;
      AddMemoryEdges(graph, f, f.insts[k]);
      OneMoreInst(f, old(graph.allEdges), before, mid, graph.allEdges, k);
      k := k + 1;
    }
    assert f.insts[..k] == f.insts;
    forall e | e in graph.allEdges && e !in old(graph.allEdges) ensures e.u in f.insts && e.v in f.insts {
      var i :| i in f.insts && (MemoryEdge(f, i, e) || RegisterEdge(f, i, e));
      SourcesInLoop(f, i, e);
    }
  }
}
