/**
 Any course of the first pass of a parallel prefix computation is possible
 (include/oneapi/tbb/parallel_scan.h): wherever ranges are split, and whichever right halves are stolen,
 some run does just that. Its second pass is needed exactly if something was stolen.
 */
module ScanPlans {
  import opened Folds
  import opened ParallelScan

  /**
   How a range is gone through: undivided; in two halves with the right one following on the left one;
   or in two halves with the right one stolen. Only an unstolen left half can be followed on.
   */
  datatype Plan =
    | Undivided
    | InOrder(mid: nat, left: Plan)
    | Stolen(mid: nat, left: Plan, right: Plan)

  predicate Suits(plan: Plan, lo: nat, hi: nat) {
    match plan
    case Undivided => lo < hi
    case InOrder(mid, left) => lo < mid < hi && Suits(left, lo, mid) && !left.Stolen?
    case Stolen(mid, left, right) => lo < mid < hi && Suits(left, lo, mid) && Suits(right, mid, hi)
  }

  function Thefts(plan: Plan): nat {
    match plan
    case Undivided => 0
    case InOrder(_, left) => Thefts(left)
    case Stolen(_, left, right) => Thefts(left) + Thefts(right) + 1
  }

  /** How many calls of the first pass have the final tag: those with nothing stolen to their left. */
  function FinalCalls(plan: Plan, final: bool): nat {
    if !final then 0
    else
      match plan
      case Undivided => 1
      case InOrder(_, left) => FinalCalls(left, true) + 1
      case Stolen(_, left, _) => FinalCalls(left, true)
  }

  lemma {:induction false} NothingStolen(plan: Plan, lo: nat, hi: nat)
    requires Suits(plan, lo, hi) && !plan.Stolen?
    ensures Thefts(plan) == 0
  {
    if plan.InOrder? {
      NothingStolen(plan.left, lo, plan.mid);
    }
  }

  // ---------------------------------------------------------------- stretches of the first pass

  datatype Snap<V> = Snap(scan: Scan, bodies: Bodies<V>, log: seq<FinalRun<V>>)

  ghost predicate Goes<V(!new)>(m: Monoid<V>, data: seq<V>, a: Snap<V>, b: Snap<V>) {
    a.log <= b.log && Step1(m, data, a.scan, a.bodies, b.scan, b.bodies, b.log[|a.log|..])
  }

  ghost predicate GoesAt<V(!new)>(m: Monoid<V>, data: seq<V>, trace: seq<Snap<V>>, k: nat)
    requires k < |trace| - 1
  {
    Goes(m, data, trace[k], trace[k + 1])
  }

  ghost predicate Stretch<V(!new)>(m: Monoid<V>, data: seq<V>, trace: seq<Snap<V>>) {
    trace != [] && forall k: nat {:trigger GoesAt(m, data, trace, k)} | k < |trace| - 1 :: GoesAt(m, data, trace, k)
  }

  function Last<V>(trace: seq<Snap<V>>): Snap<V>
    requires trace != []
  {
    trace[|trace| - 1]
  }

  lemma Joined<V(!new)>(m: Monoid<V>, data: seq<V>, a: seq<Snap<V>>, b: seq<Snap<V>>)
    requires Stretch(m, data, a) && Stretch(m, data, b) && Last(a) == b[0]
    ensures Stretch(m, data, a + b[1..]) && (a + b[1..])[0] == a[0] && Last(a + b[1..]) == Last(b)
  {
    var c := a + b[1..];
    forall k: nat | k < |c| - 1 ensures GoesAt(m, data, c, k) {
      if k < |a| - 1 {
        assert GoesAt(m, data, a, k);
      } else {
        assert GoesAt(m, data, b, k - (|a| - 1));
      }
    }
  }

  /** The stretch a goes on with a step to b. */
  lemma Further<V(!new)>(m: Monoid<V>, data: seq<V>, a: seq<Snap<V>>, b: Snap<V>) returns (c: seq<Snap<V>>)
    requires Stretch(m, data, a) && Goes(m, data, Last(a), b)
    ensures Stretch(m, data, c) && c[0] == a[0] && Last(c) == b
  {
    c := a + [b];
    forall k: nat | k < |c| - 1 ensures GoesAt(m, data, c, k) {
      assert k < |a| - 1 ==> GoesAt(m, data, a, k);
    }
  }

  /** A step that makes no call. */
  lemma Quietly<V(!new)>(m: Monoid<V>, data: seq<V>, a: seq<Snap<V>>, scan: Scan, bodies: Bodies<V>)
    returns (c: seq<Snap<V>>)
    requires Stretch(m, data, a) && Step1(m, data, Last(a).scan, Last(a).bodies, scan, bodies, [])
    ensures Stretch(m, data, c) && c[0] == a[0] && Last(c) == Snap(scan, bodies, Last(a).log)
  {
    var log := Last(a).log;
    assert log[|log|..] == [];
    c := Further(m, data, a, Snap(scan, bodies, log));
  }

  lemma InLeft<V(!new)>(m: Monoid<V>, data: seq<V>, t: Scan, part: seq<Snap<V>>) returns (trace: seq<Snap<V>>)
    requires t.Node? && Stretch(m, data, part) && t.left == part[0].scan
    ensures Stretch(m, data, trace) && trace[0] == Snap(t, part[0].bodies, part[0].log)
    ensures Last(trace) == Snap(t.(left := Last(part).scan), Last(part).bodies, Last(part).log)
  {
    trace := seq(|part|, k requires 0 <= k < |part| => Snap(t.(left := part[k].scan), part[k].bodies, part[k].log));
    forall k: nat | k < |trace| - 1 ensures GoesAt(m, data, trace, k) {
      assert GoesAt(m, data, part, k);
    }
  }

  lemma InRight<V(!new)>(m: Monoid<V>, data: seq<V>, t: Scan, part: seq<Snap<V>>) returns (trace: seq<Snap<V>>)
    requires t.Node? && Stretch(m, data, part) && t.right == part[0].scan
    ensures Stretch(m, data, trace) && trace[0] == Snap(t, part[0].bodies, part[0].log)
    ensures Last(trace) == Snap(t.(right := Last(part).scan), Last(part).bodies, Last(part).log)
  {
    trace := seq(|part|, k requires 0 <= k < |part| => Snap(t.(right := part[k].scan), part[k].bodies, part[k].log));
    forall k: nat | k < |trace| - 1 ensures GoesAt(m, data, trace, k) {
      assert GoesAt(m, data, part, k);
    }
  }

  // ---------------------------------------------------------------- carrying out a plan

  /** What a task leaves behind that has gone through its range by this plan. */
  ghost predicate Leaves<V>(plan: Plan, t: Scan, s: Bodies<V>, log: seq<FinalRun<V>>, end: Snap<V>)
    requires t.Start?
  {
    && end.scan.Done? && end.scan.lo == t.lo && end.scan.hi == t.hi && !end.scan.counted
    && (end.scan.ret.SumNode? <==> Thefts(plan) > 0)
    && (if t.wantsSum then
          && end.scan.slot.Some? && end.scan.slot.value in end.bodies
          && (!plan.Stolen? ==> end.scan.slot == Some(t.body))
        else end.scan.slot.None?)
    && s.Keys <= end.bodies.Keys && |end.bodies.Keys| == |s.Keys| + Thefts(plan)
    && |end.log| == |log| + FinalCalls(plan, t.final)
  }

  ghost predicate CarriesOut<V(!new)>(m: Monoid<V>, data: seq<V>, plan: Plan, t: Scan, s: Bodies<V>,
                                      log: seq<FinalRun<V>>, trace: seq<Snap<V>>)
    requires t.Start?
  {
    Stretch(m, data, trace) && trace[0] == Snap(t, s, log) && Leaves(plan, t, s, log, Last(trace))
  }

  lemma RunUndivided<V(!new)>(m: Monoid<V>, data: seq<V>, t: Scan, s: Bodies<V>, log: seq<FinalRun<V>>)
    returns (trace: seq<Snap<V>>)
    requires t.Start? && t.mode != Fresh && t.lo < t.hi <= |data| && t.body in s
    ensures CarriesOut(m, data, Undivided, t, s, log, trace) && Last(trace).scan.ret.Null?
  {
    var call := if t.final then [FinalRun(t.lo, t.hi, s[t.body])] else [];
    var s' := if t.final || t.wantsSum then s[t.body := m.op(s[t.body], Fold(m, data[t.lo..t.hi]))] else s;
    assert s'.Keys == s.Keys;
    var t' := Done(t.lo, t.hi, Null, if t.wantsSum then Some(t.body) else None, false);
    assert (log + call)[|log|..] == call;
    assert RunsLeaf(m, data, t, s, t', s', call);
    var start := [Snap(t, s, log)];
    trace := Further(m, data, start, Snap(t', s', log + call));
  }

  lemma {:induction false} PlanRuns<V(!new)>(m: Monoid<V>, data: seq<V>, plan: Plan, t: Scan, s: Bodies<V>,
                                              log: seq<FinalRun<V>>) returns (trace: seq<Snap<V>>)
    requires t.Start? && t.mode == Free && Suits(plan, t.lo, t.hi) && t.hi <= |data| && t.body in s
    ensures CarriesOut(m, data, plan, t, s, log, trace)
    decreases plan
  {
    match plan {
      case Undivided => trace := RunUndivided(m, data, t, s, log);
      case InOrder(mid, left) =>
        var l := PlanRuns(m, data, left, LeftHalf(t, mid), s, log);
        trace := RunInOrder(m, data, t, mid, left, s, log, l);
      case Stolen(mid, left, right) =>
        var z := NewName(s.Keys);
        var s1 := s[z := m.id];
        assert s1.Keys == s.Keys + {z};
        var l := PlanRuns(m, data, left, LeftHalf(t, mid), s1, log);
        var r := PlanRuns(m, data, right, StolenHalf(t, mid, z), Last(l).bodies, Last(l).log);
        trace := RunStolen(m, data, t, mid, left, right, z, s, log, l, r);
    }
  }

  function LeftHalf(t: Scan, mid: nat): Scan
    requires t.Start?
  {
    Start(t.lo, mid, t.body, t.final, true, Free)
  }

  function StolenHalf(t: Scan, mid: nat, z: BodyId): Scan
    requires t.Start?
  {
    Start(mid, t.hi, z, false, t.wantsSum, Free)
  }

  function SplitNode(t: Scan, mid: nat): Scan
    requires t.Start?
  {
    Node(t.lo, mid, t.hi, t.final, t.wantsSum, None, 2, LeftHalf(t, mid),
         Start(mid, t.hi, t.body, t.final, t.wantsSum, Fresh))
  }

  lemma RunSplit<V(!new)>(m: Monoid<V>, data: seq<V>, t: Scan, mid: nat, s: Bodies<V>, log: seq<FinalRun<V>>)
    returns (trace: seq<Snap<V>>)
    requires t.Start? && t.mode == Free && t.lo < mid < t.hi
    ensures Stretch(m, data, trace) && trace[0] == Snap(t, s, log) && Last(trace) == Snap(SplitNode(t, mid), s, log)
  {
    trace := [Snap(t, s, log)];
    assert Splits(t, s, SplitNode(t, mid), s, []);
    trace := Quietly(m, data, trace, SplitNode(t, mid), s);
  }

  /** Both halves are done: they are counted, and the node finishes. */
  lemma RunFinish<V(!new)>(m: Monoid<V>, data: seq<V>, t: Scan, s: Bodies<V>, log: seq<FinalRun<V>>)
    returns (trace: seq<Snap<V>>)
    requires t.Node? && t.refs == 2 && t.left.Done? && t.right.Done? && !t.left.counted && !t.right.counted
    requires t.left.slot.Some? && t.left.slot.value in s
    requires t.zombie.Some? && t.wantsSum ==> t.right.slot.Some? && t.right.slot.value in s
    ensures Stretch(m, data, trace) && trace[0] == Snap(t, s, log) && Last(trace).log == log
    ensures Last(trace).bodies.Keys == s.Keys && Last(trace).scan.Done?
    ensures var d := Last(trace).scan;
            && d.lo == t.lo && d.hi == t.hi && !d.counted && d.slot == t.right.slot
            && (d.ret.SumNode? <==> t.zombie.Some? || !t.right.ret.Null?)
  {
    trace := [Snap(t, s, log)];
    var t1 := t.(refs := 1, left := t.left.(counted := true));
    trace := Quietly(m, data, trace, t1, s);
    var t2 := t1.(refs := 0, right := t1.right.(counted := true));
    trace := Quietly(m, data, trace, t2, s);
    var s' := if t.zombie.Some? && t.wantsSum
              then s[t.right.slot.value := m.op(s[t.left.slot.value], s[t.right.slot.value])] else s;
    var d := Done(t.lo, t.hi,
                  if t.zombie.Some? || !t.right.ret.Null? then
                    SumNode(t.lo, t.mid, t.hi, t.left.slot.value, t.leftFinal && t.left.ret.Null?, t.left.ret,
                            t.right.ret)
                  else Null,
                  t.right.slot, false);
    assert Finishes(m, t2, s, d, s', []);
    trace := Quietly(m, data, trace, d, s');
  }

  lemma RunInOrder<V(!new)>(m: Monoid<V>, data: seq<V>, t: Scan, mid: nat, left: Plan, s: Bodies<V>,
                            log: seq<FinalRun<V>>, l: seq<Snap<V>>) returns (trace: seq<Snap<V>>)
    requires t.Start? && t.mode == Free && Suits(InOrder(mid, left), t.lo, t.hi) && t.hi <= |data| && t.body in s
    requires CarriesOut(m, data, left, LeftHalf(t, mid), s, log, l)
    ensures CarriesOut(m, data, InOrder(mid, left), t, s, log, trace)
  {
    NothingStolen(left, t.lo, mid);
    trace := RunSplit(m, data, t, mid, s, log);
    var a := InLeft(m, data, SplitNode(t, mid), l);
    Joined(m, data, trace, a);
    trace := trace + a[1..];
    var t1, s1 := Last(trace).scan, Last(trace).bodies;
    var t2 := t1.(right := t1.right.(mode := Whole));
    assert BeginsRight(m, t1, s1, t2, s1, []);
    trace := Quietly(m, data, trace, t2, s1);
    var r := RunUndivided(m, data, t2.right, s1, Last(trace).log);
    var b := InRight(m, data, t2, r);
    Joined(m, data, trace, b);
    trace := trace + b[1..];
    var c := RunFinish(m, data, Last(trace).scan, Last(trace).bodies, Last(trace).log);
    Joined(m, data, trace, c);
    trace := trace + c[1..];
  }

  lemma RunStolen<V(!new)>(m: Monoid<V>, data: seq<V>, t: Scan, mid: nat, left: Plan, right: Plan, z: BodyId,
                           s: Bodies<V>, log: seq<FinalRun<V>>, l: seq<Snap<V>>, r: seq<Snap<V>>)
    returns (trace: seq<Snap<V>>)
    requires t.Start? && t.mode == Free && Suits(Stolen(mid, left, right), t.lo, t.hi) && t.hi <= |data|
    requires t.body in s && z !in s
    requires CarriesOut(m, data, left, LeftHalf(t, mid), s[z := m.id], log, l)
    requires CarriesOut(m, data, right, StolenHalf(t, mid, z), Last(l).bodies, Last(l).log, r)
    ensures CarriesOut(m, data, Stolen(mid, left, right), t, s, log, trace)
  {
    var s1 := s[z := m.id];
    assert s1.Keys == s.Keys + {z};
    trace := RunSplit(m, data, t, mid, s, log);
    var t0 := SplitNode(t, mid);
    var t1 := t0.(zombie := Some(z), right := StolenHalf(t, mid, z));
    assert CountsAsStolen(m, t0, s, t1, s1);
    trace := Quietly(m, data, trace, t1, s1);
    var a := InLeft(m, data, t1, l);
    Joined(m, data, trace, a);
    trace := trace + a[1..];
    var b := InRight(m, data, Last(trace).scan, r);
    Joined(m, data, trace, b);
    trace := trace + b[1..];
    var c := RunFinish(m, data, Last(trace).scan, Last(trace).bodies, Last(trace).log);
    Joined(m, data, trace, c);
    trace := trace + c[1..];
  }

  // ---------------------------------------------------------------- whole runs

  /**
   Every plan is carried out by the first pass of some complete run: it has a body for each theft besides
   the caller's, makes these final calls, and hands over to a second pass exactly if there was a theft.
   */
  lemma EveryPlanHappens<V(!new)>(m: Monoid<V>, data: seq<V>, start: V, plan: Plan)
    returns (run: seq<State<V>>, k: nat)
    requires Lawful(m) && Suits(plan, 0, |data|)
    ensures IsRun(m, data, start, run) && run[|run| - 1].End? && k < |run| - 1 && run[k].First?
    ensures run[k].scan.Done? && |run[k].bodies.Keys| == 1 + Thefts(plan)
    ensures |run[k].log| == FinalCalls(plan, true) && (run[k + 1].Then? <==> Thefts(plan) > 0)
  {
    var s: Bodies<V> := map[0 := m.op(start, m.id)];
    assert s.Keys == {0};
    var trace := PlanRuns(m, data, plan, Start(0, |data|, 0, true, false, Free), s, []);
    var front :=
      seq(|trace|, j requires 0 <= j < |trace| => First(trace[j].scan, trace[j].bodies, trace[j].log, start));
    EndsDone(m, data, trace);
    forall j: nat | j < |front| - 1 ensures Next(m, data, front[j], front[j + 1]) {
      assert GoesAt(m, data, trace, j);
    }
    assert IsRun(m, data, start, front);
    run := EveryRunCompletes(m, data, start, front);
    k := |front| - 1;
    assert run[k] == front[k] && Next(m, data, run[k], run[k + 1]);
  }

  /** A finished task makes no step, so that it is the last of its stretch. */
  lemma EndsDone<V(!new)>(m: Monoid<V>, data: seq<V>, trace: seq<Snap<V>>)
    requires Stretch(m, data, trace)
    ensures forall j: nat | j < |trace| - 1 :: !trace[j].scan.Done?
  {
    forall j: nat | j < |trace| - 1 ensures !trace[j].scan.Done? {
      assert GoesAt(m, data, trace, j);
    }
  }
}
