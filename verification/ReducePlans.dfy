/**
 Any division of the work is possible in a reduction (include/oneapi/tbb/parallel_reduce.h): wherever
 ranges are to be split, and whichever right halves are to begin before the left ones are done, some run
 does just that. It needs a body more for each half that begins early, and for nothing else.
 */
module ReducePlans {
  import opened Folds
  import opened ParallelReduce

  /** How a range is to be worked off: in one piece, or in two halves. */
  datatype Plan =
    | Whole
    | Halves(mid: nat, early: bool, left: Plan, right: Plan)

  predicate Suits(plan: Plan, lo: nat, hi: nat) {
    match plan
    case Whole => lo < hi
    case Halves(mid, _, left, right) => lo < mid < hi && Suits(left, lo, mid) && Suits(right, mid, hi)
  }

  /** How many right halves begin before their left halves are done. */
  function Early(plan: Plan): nat {
    match plan
    case Whole => 0
    case Halves(_, early, left, right) => Early(left) + Early(right) + if early then 1 else 0
  }

  // ---------------------------------------------------------------- stretches of runs

  ghost predicate StepAt<V(!new)>(m: Monoid<V>, data: seq<V>, trace: seq<State<V>>, k: nat)
    requires k < |trace| - 1
  {
    Step(m, data, trace[k].tree, trace[k].bodies, trace[k + 1].tree, trace[k + 1].bodies)
  }

  ghost predicate Stretch<V(!new)>(m: Monoid<V>, data: seq<V>, trace: seq<State<V>>) {
    trace != [] && forall k: nat {:trigger StepAt(m, data, trace, k)} | k < |trace| - 1 :: StepAt(m, data, trace, k)
  }

  function Last<V>(trace: seq<State<V>>): State<V>
    requires trace != []
  {
    trace[|trace| - 1]
  }

  lemma Then<V(!new)>(m: Monoid<V>, data: seq<V>, a: seq<State<V>>, b: seq<State<V>>)
    requires Stretch(m, data, a) && Stretch(m, data, b) && Last(a) == b[0]
    ensures Stretch(m, data, a + b[1..]) && (a + b[1..])[0] == a[0] && Last(a + b[1..]) == Last(b)
  {
    var c := a + b[1..];
    forall k: nat | k < |c| - 1 ensures StepAt(m, data, c, k) {
      if k < |a| - 1 {
        assert StepAt(m, data, a, k);
      } else {
        assert StepAt(m, data, b, k - (|a| - 1));
      }
    }
  }

  lemma OneStep<V(!new)>(m: Monoid<V>, data: seq<V>, a: State<V>, b: State<V>) returns (trace: seq<State<V>>)
    requires Step(m, data, a.tree, a.bodies, b.tree, b.bodies)
    ensures Stretch(m, data, trace) && trace[0] == a && Last(trace) == b
  {
    trace := [a, b];
    assert StepAt(m, data, trace, 0);
  }

  /** What happens in a subtree happens in the tree. */
  lemma InLeft<V(!new)>(m: Monoid<V>, data: seq<V>, t: Tree, part: seq<State<V>>) returns (trace: seq<State<V>>)
    requires t.Joint? && Stretch(m, data, part) && t.left == part[0].tree
    ensures Stretch(m, data, trace) && trace[0] == State(t, part[0].bodies)
    ensures Last(trace) == State(t.(left := Last(part).tree), Last(part).bodies)
  {
    trace := seq(|part|, k requires 0 <= k < |part| => State(t.(left := part[k].tree), part[k].bodies));
    forall k: nat | k < |trace| - 1 ensures StepAt(m, data, trace, k) {
      assert StepAt(m, data, part, k);
    }
  }

  lemma InRight<V(!new)>(m: Monoid<V>, data: seq<V>, t: Tree, part: seq<State<V>>) returns (trace: seq<State<V>>)
    requires t.Joint? && Stretch(m, data, part) && t.right == part[0].tree
    ensures Stretch(m, data, trace) && trace[0] == State(t, part[0].bodies)
    ensures Last(trace) == State(t.(right := Last(part).tree), Last(part).bodies)
  {
    trace := seq(|part|, k requires 0 <= k < |part| => State(t.(right := part[k].tree), part[k].bodies));
    forall k: nat | k < |trace| - 1 ensures StepAt(m, data, trace, k) {
      assert StepAt(m, data, part, k);
    }
  }

  // ---------------------------------------------------------------- carrying out a plan

  /** A task carries out the plan, starting from the bodies s. */
  ghost predicate CarriesOut<V(!new)>(m: Monoid<V>, data: seq<V>, plan: Plan, lo: nat, hi: nat, body: BodyId,
                                      s: Bodies<V>, trace: seq<State<V>>) {
    && Stretch(m, data, trace) && trace[0] == State(Task(lo, hi, body, true), s) && Last(trace).tree == Released
    && s.Keys <= Last(trace).bodies.Keys && |Last(trace).bodies.Keys| == |s.Keys| + Early(plan)
  }

  lemma {:induction false} PlanRuns<V(!new)>(m: Monoid<V>, data: seq<V>, plan: Plan, lo: nat, hi: nat, body: BodyId,
                                              s: Bodies<V>) returns (trace: seq<State<V>>)
    requires Suits(plan, lo, hi) && hi <= |data| && body in s
    ensures CarriesOut(m, data, plan, lo, hi, body, s, trace)
    decreases plan
  {
    match plan {
      case Whole => trace := RunWhole(m, data, lo, hi, body, s);
      case Halves(mid, early, left, right) =>
        var t := Joint(2, body, None, Task(lo, mid, body, true), Task(mid, hi, body, false));
        trace := OneStep(m, data, State(Task(lo, hi, body, true), s), State(t, s));
        if early {
          var z := NewName(s.Keys);
          var s1 := s[z := m.id];
          assert s1.Keys == s.Keys + {z};
          var l := PlanRuns(m, data, left, lo, mid, body, s1);
          var r := PlanRuns(m, data, right, mid, hi, z, Last(l).bodies);
          var rest := RunEarly(m, data, t, s, z, left, right, l, r);
          Then(m, data, trace, rest);
          trace := trace + rest[1..];
        } else {
          var l := PlanRuns(m, data, left, lo, mid, body, s);
          var r := PlanRuns(m, data, right, mid, hi, body, Last(l).bodies);
          var rest := RunInOrder(m, data, t, s, left, right, l, r);
          Then(m, data, trace, rest);
          trace := trace + rest[1..];
        }
    }
  }

  lemma RunWhole<V(!new)>(m: Monoid<V>, data: seq<V>, lo: nat, hi: nat, body: BodyId, s: Bodies<V>)
    returns (trace: seq<State<V>>)
    requires lo < hi <= |data| && body in s
    ensures CarriesOut(m, data, Whole, lo, hi, body, s, trace)
  {
    var t, s' := Task(lo, hi, body, true), s[body := m.op(s[body], Fold(m, data[lo..hi]))];
    assert s'.Keys == s.Keys;
    assert RunsBody(m, data, t, s, t.(lo := hi), s');
    trace := OneStep(m, data, State(t, s), State(t.(lo := hi), s'));
    var done := OneStep(m, data, State(t.(lo := hi), s'), State(Released, s'));
    Then(m, data, trace, done);
    trace := trace + done[1..];
  }

  /** The left half is done and no longer counted. */
  lemma LeftGone<V(!new)>(m: Monoid<V>, data: seq<V>, t: Tree, l: seq<State<V>>) returns (trace: seq<State<V>>)
    requires t.Joint? && Stretch(m, data, l) && t.left == l[0].tree && Last(l).tree == Released
    ensures Stretch(m, data, trace) && trace[0] == State(t, l[0].bodies)
    ensures Last(trace) == State(t.(refs := t.refs - 1, left := Gone), Last(l).bodies)
  {
    trace := InLeft(m, data, t, l);
    var gone := OneStep(m, data, Last(trace), State(t.(refs := t.refs - 1, left := Gone), Last(l).bodies));
    Then(m, data, trace, gone);
    trace := trace + gone[1..];
  }

  /** The right half too, and the node joins its bodies. */
  lemma RightGone<V(!new)>(m: Monoid<V>, data: seq<V>, t: Tree, r: seq<State<V>>) returns (trace: seq<State<V>>)
    requires t.Joint? && t.refs == 1 && Stretch(m, data, r) && t.right == r[0].tree && Last(r).tree == Released
    requires t.leftBody in Last(r).bodies && (t.zombie.Some? ==> t.zombie.value in Last(r).bodies)
    ensures Stretch(m, data, trace) && trace[0] == State(t, r[0].bodies)
    ensures Last(trace).tree == Released && Last(trace).bodies.Keys == Last(r).bodies.Keys
  {
    trace := InRight(m, data, t, r);
    var s := Last(r).bodies;
    var t1 := t.(refs := 0, right := Gone);
    var gone := OneStep(m, data, Last(trace), State(t1, s));
    Then(m, data, trace, gone);
    trace := trace + gone[1..];
    var s' := if t.zombie.Some? then s[t.leftBody := m.op(s[t.leftBody], s[t.zombie.value])] else s;
    assert Joins(m, t1, s, Released, s');
    var join := OneStep(m, data, State(t1, s), State(Released, s'));
    Then(m, data, trace, join);
    trace := trace + join[1..];
  }

  lemma RunEarly<V(!new)>(m: Monoid<V>, data: seq<V>, t: Tree, s: Bodies<V>, z: BodyId, left: Plan, right: Plan,
                          l: seq<State<V>>, r: seq<State<V>>)
    returns (trace: seq<State<V>>)
    requires t.Joint? && t.refs == 2 && t.zombie.None? && t.left.Task? && t.right.Task? && t.left.started
    requires t.leftBody == t.left.body == t.right.body && !t.right.started && t.leftBody in s && z !in s
    requires CarriesOut(m, data, left, t.left.lo, t.left.hi, t.left.body, s[z := m.id], l)
    requires CarriesOut(m, data, right, t.right.lo, t.right.hi, z, Last(l).bodies, r)
    ensures Stretch(m, data, trace) && trace[0] == State(t, s) && Last(trace).tree == Released
    ensures s.Keys <= Last(trace).bodies.Keys
    ensures |Last(trace).bodies.Keys| == |s.Keys| + Early(left) + Early(right) + 1
  {
    var s1 := s[z := m.id];
    assert s1.Keys == s.Keys + {z};
    var t1 := t.(zombie := Some(z), right := t.right.(body := z, started := true));
    assert StartsRight(m, t, s, t1, s1);
    trace := OneStep(m, data, State(t, s), State(t1, s1));
    var a := LeftGone(m, data, t1, l);
    Then(m, data, trace, a);
    trace := trace + a[1..];
    var b := RightGone(m, data, Last(a).tree, r);
    Then(m, data, trace, b);
    trace := trace + b[1..];
  }

  lemma RunInOrder<V(!new)>(m: Monoid<V>, data: seq<V>, t: Tree, s: Bodies<V>, left: Plan, right: Plan,
                            l: seq<State<V>>, r: seq<State<V>>)
    returns (trace: seq<State<V>>)
    requires t.Joint? && t.refs == 2 && t.zombie.None? && t.left.Task? && t.right.Task? && t.left.started
    requires t.leftBody == t.left.body == t.right.body && !t.right.started && t.leftBody in s
    requires CarriesOut(m, data, left, t.left.lo, t.left.hi, t.left.body, s, l)
    requires CarriesOut(m, data, right, t.right.lo, t.right.hi, t.right.body, Last(l).bodies, r)
    ensures Stretch(m, data, trace) && trace[0] == State(t, s) && Last(trace).tree == Released
    ensures s.Keys <= Last(trace).bodies.Keys
    ensures |Last(trace).bodies.Keys| == |s.Keys| + Early(left) + Early(right)
  {
    trace := LeftGone(m, data, t, l);
    var t1, s1 := Last(trace).tree, Last(l).bodies;
    var t2 := t1.(right := t1.right.(started := true));
    assert StartsRight(m, t1, s1, t2, s1);
    var a := OneStep(m, data, State(t1, s1), State(t2, s1));
    Then(m, data, trace, a);
    trace := trace + a[1..];
    var b := RightGone(m, data, t2, r);
    Then(m, data, trace, b);
    trace := trace + b[1..];
  }

  /** Every plan is carried out by some complete run, with a body for each half that begins early, and the caller's. */
  lemma EveryPlanHappens<V(!new)>(m: Monoid<V>, data: seq<V>, start: V, plan: Plan) returns (run: seq<State<V>>)
    requires Suits(plan, 0, |data|)
    ensures IsRun(m, data, start, run) && run[|run| - 1].tree.Released?
    ensures |run[|run| - 1].bodies.Keys| == 1 + Early(plan)
  {
    var s: Bodies<V> := map[0 := start];
    assert s.Keys == {0};
    run := PlanRuns(m, data, plan, 0, |data|, 0, s);
    forall k: nat | k < |run| - 1
      ensures Step(m, data, run[k].tree, run[k].bodies, run[k + 1].tree, run[k + 1].bodies)
    {
      assert StepAt(m, data, run, k);
    }
  }
}
