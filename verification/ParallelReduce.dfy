/**
 Reduction over a range that is split on demand (include/oneapi/tbb/parallel_reduce.h, with
 fold_tree of partitioner.h). Tasks and joint nodes form a tree; a step changes one place in it.
 */
module ParallelReduce {
  import opened Folds

  type BodyId = nat

  /** The accumulators, by identity. */
  type Bodies<V> = map<BodyId, V>

  datatype Option<T> = None | Some(value: T)

  datatype Tree =
    /** start_reduce with its remaining range; a right child has not started until it has chosen its body. */
    | Task(lo: nat, hi: nat, body: BodyId, started: bool)
    /** reduction_tree_node; refs is m_ref_count. */
    | Joint(refs: int, leftBody: BodyId, zombie: Option<BodyId>, left: Tree, right: Tree)
    /** Finalized or joined; its parent's count still includes it. */
    | Released
    /** No longer counted by the parent. */
    | Gone

  function Counted(t: Tree): int {
    if t.Gone? then 0 else 1
  }

  /** The identities of the bodies that right children have split off. */
  ghost function Zombies(t: Tree): set<BodyId> {
    if t.Joint? then
      Zombies(t.left) + Zombies(t.right) + (if t.zombie.Some? then {t.zombie.value} else {})
    else {}
  }

  /** The tree t accumulates into body b, and every split-off body has one owner. */
  ghost predicate WellFormed(t: Tree, b: BodyId) {
    match t
    case Task(lo, hi, body, _) => lo <= hi && body == b
    case Joint(refs, leftBody, zombie, left, right) =>
      && leftBody == b && refs == Counted(left) + Counted(right)
      && WellFormed(left, b) && !(left.Task? && !left.started)
      && b !in Zombies(t) && Zombies(left) !! Zombies(right)
      && (match zombie
          case None =>
            // The right child still waits to be run, or found the left one finished and took over its body.
            WellFormed(right, b) && ((right.Task? && !right.started) || left.Gone?)
          case Some(z) =>
            WellFormed(right, z) && !(right.Task? && !right.started) && z !in Zombies(left) + Zombies(right))
    case Released => true
    case Gone => true
  }

  /** One step of some thread at some place in the tree. Body b accumulates the tree t. */
  ghost predicate Step<V(!new)>(m: Monoid<V>, data: seq<V>, t: Tree, s: Bodies<V>, t': Tree, s': Bodies<V>) {
    match t
    case Task(lo, hi, body, started) =>
      started &&
      (RunsBody(m, data, t, s, t', s') || OffersWork(t, s, t', s') || (lo == hi && t' == Released && s' == s))
    case Joint(refs, leftBody, zombie, left, right) =>
      || (t'.Joint? && t' == t.(left := t'.left) && Step(m, data, left, s, t'.left, s'))
      || (t'.Joint? && t' == t.(right := t'.right) && Step(m, data, right, s, t'.right, s'))
      || (left.Released? && t' == t.(refs := refs - 1, left := Gone) && s' == s)
      || (right.Released? && t' == t.(refs := refs - 1, right := Gone) && s' == s)
      || StartsRight(m, t, s, t', s')
      || Joins(m, t, s, t', s')
    case Released => false
    case Gone => false
  }

  /** my_body applied to the next chunk of the range, from the left. */
  ghost predicate RunsBody<V>(m: Monoid<V>, data: seq<V>, t: Tree, s: Bodies<V>, t': Tree, s': Bodies<V>)
    requires t.Task?
  {
    exists mid: nat :: t.lo < mid <= t.hi <= |data| && t' == t.(lo := mid) && t.body in s &&
      s' == s[t.body := m.op(s[t.body], Fold(m, data[t.lo..mid]))]
  }

  /** offer_work_impl: the rightmost piece goes to a new right child, both under a new joint node. */
  ghost predicate OffersWork<V>(t: Tree, s: Bodies<V>, t': Tree, s': Bodies<V>)
    requires t.Task?
  {
    exists mid: nat :: t.lo < mid < t.hi && s' == s &&
      t' == Joint(2, t.body, None, Task(t.lo, mid, t.body, true), Task(mid, t.hi, t.body, false))
  }

  /** The beginning of execute in a right child: a body of its own while the count is 2, the left one otherwise. */
  ghost predicate StartsRight<V>(m: Monoid<V>, t: Tree, s: Bodies<V>, t': Tree, s': Bodies<V>)
    requires t.Joint?
  {
    && t.right.Task? && !t.right.started
    && if t.refs == 2 then
         exists z: BodyId :: z !in s && s' == s[z := m.id] &&
           t' == t.(zombie := Some(z), right := t.right.(body := z, started := true))
       else s' == s && t' == t.(right := t.right.(started := true))
  }

  /** fold_tree at a node whose count has dropped to 0. */
  ghost predicate Joins<V>(m: Monoid<V>, t: Tree, s: Bodies<V>, t': Tree, s': Bodies<V>)
    requires t.Joint?
  {
    && t.refs == 0 && t' == Released
    && match t.zombie
       case None => s' == s
       case Some(z) => t.leftBody in s && z in s && s' == s[t.leftBody := m.op(s[t.leftBody], s[z])]
  }

  /** What a body that holds acc will hold once the tree is done. */
  ghost function Promise<V>(m: Monoid<V>, data: seq<V>, t: Tree, acc: V, s: Bodies<V>): V {
    match t
    case Task(lo, hi, _, _) => if lo <= hi <= |data| then m.op(acc, Fold(m, data[lo..hi])) else acc
    case Joint(_, _, None, left, right) => Promise(m, data, right, Promise(m, data, left, acc, s), s)
    case Joint(_, _, Some(z), left, right) =>
      m.op(Promise(m, data, left, acc, s), Promise(m, data, right, if z in s then s[z] else acc, s))
    case Released => acc
    case Gone => acc
  }

  /** Every task lies within the data. */
  ghost predicate InData(t: Tree, n: nat) {
    match t
    case Task(lo, hi, _, _) => lo <= hi <= n
    case Joint(_, _, _, left, right) => InData(left, n) && InData(right, n)
    case Released => true
    case Gone => true
  }

  /** The promise depends only on the accumulator and on the split-off bodies. */
  lemma {:induction false} PromiseFrame<V>(m: Monoid<V>, data: seq<V>, t: Tree, acc: V, s: Bodies<V>, s': Bodies<V>)
    requires Zombies(t) <= s.Keys && Zombies(t) <= s'.Keys
    requires forall z | z in Zombies(t) :: s[z] == s'[z]
    ensures Promise(m, data, t, acc, s) == Promise(m, data, t, acc, s')
  {
    if t.Joint? {
      PromiseFrame(m, data, t.left, acc, s, s');
      match t.zombie
      case None => PromiseFrame(m, data, t.right, Promise(m, data, t.left, acc, s), s, s');
      case Some(z) => PromiseFrame(m, data, t.right, s[z], s, s');
    }
  }

  /** From t to t' the tree stays well formed, touches only its own bodies, and keeps the promise. */
  ghost predicate Keeps<V>(m: Monoid<V>, data: seq<V>, t: Tree, b: BodyId, s: Bodies<V>, t': Tree, s': Bodies<V>)
    requires b in s
  {
    && WellFormed(t', b) && InData(t', |data|) && !(t'.Task? && !t'.started) && !t'.Gone?
    && b in s' && Zombies(t') <= s'.Keys && s.Keys <= s'.Keys
    && (forall x | x in s && x != b && x !in Zombies(t) :: s'[x] == s[x])
    && (forall z | z in Zombies(t') :: z in Zombies(t) || z !in s)
    && Promise(m, data, t', s'[b], s') == Promise(m, data, t, s[b], s)
  }

  lemma {:induction false} StepKeepsPromise<V(!new)>(m: Monoid<V>, data: seq<V>, t: Tree, b: BodyId, s: Bodies<V>,
                                                     t': Tree, s': Bodies<V>)
    requires Lawful(m) && Step(m, data, t, s, t', s')
    requires WellFormed(t, b) && InData(t, |data|) && b in s && Zombies(t) <= s.Keys
    ensures Keeps(m, data, t, b, s, t', s')
  {
    match t
    case Task(lo, hi, body, started) =>
      TaskStepKeepsPromise(m, data, t, b, s, t', s');
    case Joint(refs, leftBody, zombie, left, right) =>
      if t'.Joint? && t' == t.(left := t'.left) && Step(m, data, left, s, t'.left, s') {
        StepKeepsPromise(m, data, left, b, s, t'.left, s');
        LeftMoveKeepsPromise(m, data, t, b, s, t'.left, s');
      } else if t'.Joint? && t' == t.(right := t'.right) && Step(m, data, right, s, t'.right, s') {
        StepKeepsPromise(m, data, right, if zombie.Some? then zombie.value else b, s, t'.right, s');
        RightMoveKeepsPromise(m, data, t, b, s, t'.right, s');
      } else if StartsRight(m, t, s, t', s') {
        StartKeepsPromise(m, data, t, b, s, t', s');
      } else {
        CountKeepsPromise(m, data, t, b, s, t', s');
      }
    case Released =>
    case Gone =>
  }

  lemma LeftMoveKeepsPromise<V(!new)>(m: Monoid<V>, data: seq<V>, t: Tree, b: BodyId, s: Bodies<V>, l: Tree,
                                      s': Bodies<V>)
    requires t.Joint? && WellFormed(t, b) && InData(t, |data|) && b in s && Zombies(t) <= s.Keys
    requires Keeps(m, data, t.left, b, s, l, s') && !t.left.Gone?
    ensures Keeps(m, data, t, b, s, t.(left := l), s')
  {
    match t.zombie
    case Some(z) => PromiseFrame(m, data, t.right, s[z], s, s');
    case None => PromiseFrame(m, data, t.right, Promise(m, data, t.left, s[b], s), s, s');
  }

  lemma RightMoveKeepsPromise<V(!new)>(m: Monoid<V>, data: seq<V>, t: Tree, b: BodyId, s: Bodies<V>, r: Tree,
                                       s': Bodies<V>)
    requires t.Joint? && WellFormed(t, b) && InData(t, |data|) && b in s && Zombies(t) <= s.Keys
    requires !(t.right.Task? && !t.right.started) && !t.right.Gone?
    requires Keeps(m, data, t.right, if t.zombie.Some? then t.zombie.value else b, s, r, s')
    ensures Keeps(m, data, t, b, s, t.(right := r), s')
  {
    if t.zombie.Some? {
      PromiseFrame(m, data, t.left, s[b], s, s');
    }
  }

  /** The count drops, or the node is joined once it is 0. */
  lemma CountKeepsPromise<V(!new)>(m: Monoid<V>, data: seq<V>, t: Tree, b: BodyId, s: Bodies<V>, t': Tree,
                                   s': Bodies<V>)
    requires t.Joint? && WellFormed(t, b) && InData(t, |data|) && b in s && Zombies(t) <= s.Keys
    requires || (t.left.Released? && t' == t.(refs := t.refs - 1, left := Gone) && s' == s)
             || (t.right.Released? && t' == t.(refs := t.refs - 1, right := Gone) && s' == s)
             || Joins(m, t, s, t', s')
    ensures Keeps(m, data, t, b, s, t', s')
  {
    if t.left.Released? && t' == t.(refs := t.refs - 1, left := Gone) && s' == s {
    } else if t.right.Released? && t' == t.(refs := t.refs - 1, right := Gone) && s' == s {
    } else {
      assert t.left.Gone? && t.right.Gone?;
    }
  }

  lemma TaskStepKeepsPromise<V(!new)>(m: Monoid<V>, data: seq<V>, t: Tree, b: BodyId, s: Bodies<V>, t': Tree,
                                      s': Bodies<V>)
    requires t.Task? && Lawful(m) && Step(m, data, t, s, t', s')
    requires WellFormed(t, b) && InData(t, |data|) && b in s
    ensures Keeps(m, data, t, b, s, t', s')
  {
    if RunsBody(m, data, t, s, t', s') {
      var mid: nat :| t.lo < mid <= t.hi <= |data| && t' == t.(lo := mid) && t.body in s &&
                      s' == s[t.body := m.op(s[t.body], Fold(m, data[t.lo..mid]))];
      FoldAfter(m, data, s[b], t.lo, mid, t.hi);
      RunKeepsPromise(m, data, t, b, s, t', s', mid);
    } else if OffersWork(t, s, t', s') {
      var mid: nat :| t.lo < mid < t.hi && s' == s &&
                      t' == Joint(2, t.body, None, Task(t.lo, mid, t.body, true), Task(mid, t.hi, t.body, false));
      FoldAfter(m, data, s[b], t.lo, mid, t.hi);
      OfferKeepsPromise(m, data, t, b, s, t', mid);
    } else {
      assert data[t.lo..t.hi] == [];
    }
  }

  lemma FoldAfter<V(!new)>(m: Monoid<V>, data: seq<V>, acc: V, lo: nat, mid: nat, hi: nat)
    requires Lawful(m) && lo <= mid <= hi <= |data|
    ensures m.op(m.op(acc, Fold(m, data[lo..mid])), Fold(m, data[mid..hi])) == m.op(acc, Fold(m, data[lo..hi]))
  {
    FoldSplit(m, data, lo, mid, hi);
  }

  lemma RunKeepsPromise<V(!new)>(m: Monoid<V>, data: seq<V>, t: Tree, b: BodyId, s: Bodies<V>, t': Tree, s': Bodies<V>,
                                 mid: nat)
    requires t.Task? && t.started && WellFormed(t, b) && InData(t, |data|) && b in s
    requires t.lo < mid <= t.hi <= |data| && t' == t.(lo := mid) && s' == s[b := m.op(s[b], Fold(m, data[t.lo..mid]))]
    requires m.op(m.op(s[b], Fold(m, data[t.lo..mid])), Fold(m, data[mid..t.hi])) ==
             m.op(s[b], Fold(m, data[t.lo..t.hi]))
    ensures Keeps(m, data, t, b, s, t', s')
  {
  }

  lemma OfferKeepsPromise<V(!new)>(m: Monoid<V>, data: seq<V>, t: Tree, b: BodyId, s: Bodies<V>, t': Tree, mid: nat)
    requires t.Task? && t.started && WellFormed(t, b) && InData(t, |data|) && b in s && t.lo < mid < t.hi
    requires t' == Joint(2, b, None, Task(t.lo, mid, b, true), Task(mid, t.hi, b, false))
    requires m.op(m.op(s[b], Fold(m, data[t.lo..mid])), Fold(m, data[mid..t.hi])) ==
             m.op(s[b], Fold(m, data[t.lo..t.hi]))
    ensures Keeps(m, data, t, b, s, t', s)
  {
  }

  lemma StartKeepsPromise<V(!new)>(m: Monoid<V>, data: seq<V>, t: Tree, b: BodyId, s: Bodies<V>, t': Tree,
                                   s': Bodies<V>)
    requires t.Joint? && Lawful(m) && StartsRight(m, t, s, t', s')
    requires WellFormed(t, b) && InData(t, |data|) && b in s && Zombies(t) <= s.Keys
    ensures Keeps(m, data, t, b, s, t', s')
  {
    if t.refs == 2 {
      PromiseFrame(m, data, t.left, s[b], s, s');
    }
  }

  // ---------------------------------------------------------------- whole runs

  datatype State<V> = State(tree: Tree, bodies: Bodies<V>)

  /** start_reduce::run on the whole of a nonempty range; body 0 is the caller's. */
  ghost predicate Starts<V>(data: seq<V>, start: V, st: State<V>) {
    data != [] && st == State(Task(0, |data|, 0, true), map[0 := start])
  }

  ghost predicate IsRun<V(!new)>(m: Monoid<V>, data: seq<V>, start: V, run: seq<State<V>>) {
    && |run| > 0 && Starts(data, start, run[0])
    && forall k | 0 <= k < |run| - 1 :: Step(m, data, run[k].tree, run[k].bodies, run[k + 1].tree, run[k + 1].bodies)
  }

  ghost predicate Sound<V>(m: Monoid<V>, data: seq<V>, start: V, st: State<V>) {
    && WellFormed(st.tree, 0) && InData(st.tree, |data|) && 0 in st.bodies && Zombies(st.tree) <= st.bodies.Keys
    && !(st.tree.Task? && !st.tree.started) && !st.tree.Gone?
    && Promise(m, data, st.tree, st.bodies[0], st.bodies) == m.op(start, Fold(m, data))
  }

  lemma {:induction false} EveryStateIsSound<V(!new)>(m: Monoid<V>, data: seq<V>, start: V, run: seq<State<V>>)
    requires Lawful(m) && IsRun(m, data, start, run)
    ensures Sound(m, data, start, run[|run| - 1])
  {
    if |run| == 1 {
      assert data[0..|data|] == data;
    } else {
      var last := |run| - 2;
      EveryStateIsSound(m, data, start, run[..|run| - 1]);
      StepKeepsPromise(m, data, run[last].tree, 0, run[last].bodies, run[last + 1].tree, run[last + 1].bodies);
    }
  }

  /**
   Whatever was split, whenever, and however tasks interleave, the caller's body ends with the
   left-to-right fold of all elements, for every associative operation with identity.
   */
  lemma ReductionEqualsFold<V(!new)>(m: Monoid<V>, data: seq<V>, start: V, run: seq<State<V>>)
    requires Lawful(m) && IsRun(m, data, start, run) && run[|run| - 1].tree.Released?
    ensures 0 in run[|run| - 1].bodies && run[|run| - 1].bodies[0] == m.op(start, Fold(m, data))
  {
    EveryStateIsSound(m, data, start, run);
  }

  /** A sound tree that is not done can always move. */
  lemma {:induction false} SomethingCanMove<V(!new)>(m: Monoid<V>, data: seq<V>, t: Tree, b: BodyId, s: Bodies<V>)
    returns (t': Tree, s': Bodies<V>)
    requires WellFormed(t, b) && InData(t, |data|) && b in s && Zombies(t) <= s.Keys
    requires !t.Released? && !t.Gone? && !(t.Task? && !t.started)
    ensures Step(m, data, t, s, t', s')
  {
    match t
    case Task(lo, hi, body, started) =>
      if lo == hi {
        t', s' := Released, s;
      } else {
        t', s' := t.(lo := hi), s[body := m.op(s[body], Fold(m, data[lo..hi]))];
        assert RunsBody(m, data, t, s, t', s');
      }
    case Joint(refs, leftBody, zombie, left, right) =>
      if left.Released? {
        t', s' := t.(refs := refs - 1, left := Gone), s;
      } else if !left.Gone? {
        var l, ls := SomethingCanMove(m, data, left, b, s);
        t', s' := t.(left := l), ls;
      } else if right.Released? {
        t', s' := t.(refs := refs - 1, right := Gone), s;
      } else if right.Gone? {
        t', s' := Released, if zombie.Some? then s[leftBody := m.op(s[leftBody], s[zombie.value])] else s;
        assert Joins(m, t, s, t', s');
      } else if right.Task? && !right.started {
        t', s' := t.(right := right.(started := true)), s;
        assert StartsRight(m, t, s, t', s');
      } else {
        var r, rs := SomethingCanMove(m, data, right, if zombie.Some? then zombie.value else b, s);
        t', s' := t.(right := r), rs;
      }
  }

  // ---------------------------------------------------------------- termination

  /** Bounds the steps that are left, splits included. */
  ghost function Weight(t: Tree): nat {
    match t
    case Task(lo, hi, _, started) => (if lo < hi then 16 * (hi - lo) - 8 else 2) + (if started then 0 else 1)
    case Joint(_, _, _, left, right) => 2 + Weight(left) + Weight(right)
    case Released => 1
    case Gone => 0
  }

  lemma {:induction false} StepLowersWeight<V(!new)>(m: Monoid<V>, data: seq<V>, t: Tree, s: Bodies<V>, t': Tree,
                                                     s': Bodies<V>)
    requires Step(m, data, t, s, t', s')
    ensures Weight(t') < Weight(t)
  {
    if t.Joint? {
      if t'.Joint? && t' == t.(left := t'.left) && Step(m, data, t.left, s, t'.left, s') {
        StepLowersWeight(m, data, t.left, s, t'.left, s');
      } else if t'.Joint? && t' == t.(right := t'.right) && Step(m, data, t.right, s, t'.right, s') {
        StepLowersWeight(m, data, t.right, s, t'.right, s');
      }
    }
  }

  /** Every run is finite: no reduction takes more than 16 steps for each element. */
  lemma {:induction false} RunsAreShort<V(!new)>(m: Monoid<V>, data: seq<V>, start: V, run: seq<State<V>>)
    requires IsRun(m, data, start, run)
    ensures |run| + Weight(run[|run| - 1].tree) <= 16 * |data|
  {
    var n := |run| - 1;
    if n > 0 {
      RunsAreShort(m, data, start, run[..n]);
      StepLowersWeight(m, data, run[n - 1].tree, run[n - 1].bodies, run[n].tree, run[n].bodies);
    }
  }

  /** Every run can be continued to its end. */
  lemma {:induction false} EveryRunCompletes<V(!new)>(m: Monoid<V>, data: seq<V>, start: V, run: seq<State<V>>)
    returns (full: seq<State<V>>)
    requires Lawful(m) && IsRun(m, data, start, run)
    ensures run <= full && IsRun(m, data, start, full) && full[|full| - 1].tree.Released?
    decreases 16 * |data| - |run|
  {
    var last := run[|run| - 1];
    EveryStateIsSound(m, data, start, run);
    RunsAreShort(m, data, start, run);
    if last.tree.Released? {
      full := run;
    } else {
      var t', s' := SomethingCanMove(m, data, last.tree, 0, last.bodies);
      var longer := run + [State(t', s')];
      assert IsRun(m, data, start, longer);
      RunsAreShort(m, data, start, longer);
      full := EveryRunCompletes(m, data, start, longer);
    }
  }
}
