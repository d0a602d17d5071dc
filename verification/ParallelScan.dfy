/**
 The two passes of a parallel prefix computation (include/oneapi/tbb/parallel_scan.h).

 The first pass sums, and where nothing has been stolen it also does the final work; it leaves
 behind a tree of sum nodes for what is still to do. The second pass carries prefixes down that
 tree. In both, tasks form a tree and a step changes one place in it.
 */
module ParallelScan {
  import opened Folds

  type BodyId = nat
  type Bodies<V> = map<BodyId, V>

  datatype Option<T> = None | Some(value: T)

  /** One call of a body with final_scan_tag: the range and the value the body held. */
  datatype FinalRun<V> = FinalRun(lo: nat, hi: nat, incoming: V)

  /** sum_node, as the first pass hands it to the second; Null where the slot was left empty. */
  datatype SumTree =
    | Null
    | SumNode(lo: nat, mid: nat, hi: nat, leftSum: BodyId, leftFinal: bool, left: SumTree, right: SumTree)

  /** A right child that has not begun, one that runs its range undivided, and any other start_scan. */
  datatype Mode = Fresh | Whole | Free

  datatype Scan =
    /** start_scan; wantsSum says that m_sum_slot is set. */
    | Start(lo: nat, hi: nat, body: BodyId, final: bool, wantsSum: bool, mode: Mode)
    /** finish_scan with the sum_node it will fill in; refs is its ref_count. */
    | Node(lo: nat, mid: nat, hi: nat, leftFinal: bool, wantsSum: bool, zombie: Option<BodyId>, refs: int, left: Scan,
           right: Scan)
    /** Finished: what stands in the return slot and in the sum slot. */
    | Done(lo: nat, hi: nat, ret: SumTree, slot: Option<BodyId>, counted: bool)

  /** What has been written so far into the sum slot that this subtree was given. */
  function Slot(t: Scan): Option<BodyId> {
    match t
    case Start(_, _, _, _, _, _) => None
    case Node(_, _, _, _, _, _, _, _, right) => Slot(right)
    case Done(_, _, _, slot, _) => slot
  }

  function Pending(t: Scan): int {
    if t.Done? && t.counted then 0 else 1
  }

  // ---------------------------------------------------------------- first pass: steps

  ghost predicate Step1<V(!new)>(m: Monoid<V>, data: seq<V>, t: Scan, s: Bodies<V>, t': Scan, s': Bodies<V>,
                                 log: seq<FinalRun<V>>) {
    match t
    case Start(lo, hi, body, final, wantsSum, mode) =>
      mode != Fresh && (RunsLeaf(m, data, t, s, t', s', log) || (mode == Free && Splits(t, s, t', s', log)))
    case Node(_, _, _, _, _, _, _, left, right) =>
      || (t'.Node? && t' == t.(left := t'.left) && Step1(m, data, left, s, t'.left, s', log))
      || (t'.Node? && t' == t.(right := t'.right) && Step1(m, data, right, s, t'.right, s', log))
      || BeginsRight(m, t, s, t', s', log)
      || (Counts(t, t') && s' == s && log == [])
      || Finishes(m, t, s, t', s', log)
    case Done(_, _, _, _, _) => false
  }

  /** The leaf branch of start_scan::execute. */
  ghost predicate RunsLeaf<V>(m: Monoid<V>, data: seq<V>, t: Scan, s: Bodies<V>, t': Scan, s': Bodies<V>,
                              log: seq<FinalRun<V>>)
    requires t.Start?
  {
    && t.lo <= t.hi <= |data| && t.body in s
    && s' == (if t.final || t.wantsSum then s[t.body := m.op(s[t.body], Fold(m, data[t.lo..t.hi]))] else s)
    && log == (if t.final then [FinalRun(t.lo, t.hi, s[t.body])] else [])
    && t' == Done(t.lo, t.hi, Null, if t.wantsSum then Some(t.body) else None, false)
  }

  /** The splitting branch: the left half stays, the right half becomes a new task. */
  ghost predicate Splits<V>(t: Scan, s: Bodies<V>, t': Scan, s': Bodies<V>, log: seq<FinalRun<V>>)
    requires t.Start?
  {
    exists mid: nat :: t.lo < mid < t.hi && s' == s && log == [] &&
      t' == Node(t.lo, mid, t.hi, t.final, t.wantsSum, None, 2,
                 Start(t.lo, mid, t.body, t.final, true, Free),
                 Start(mid, t.hi, t.body, t.final, t.wantsSum, Fresh))
  }

  /**
   A right child begins. It counts as stolen if it was, or if its body is not where the sum of the
   left half is; then it goes on without the left half, on a body of its own.
   */
  ghost predicate BeginsRight<V>(m: Monoid<V>, t: Scan, s: Bodies<V>, t': Scan, s': Bodies<V>, log: seq<FinalRun<V>>)
    requires t.Node?
  {
    && t.right.Start? && t.right.mode == Fresh && log == []
    && (CountsAsStolen(m, t, s, t', s') ||
        (Slot(t.left) == Some(t.right.body) && s' == s && t' == t.(right := t.right.(mode := Whole))))
  }

  ghost predicate CountsAsStolen<V>(m: Monoid<V>, t: Scan, s: Bodies<V>, t': Scan, s': Bodies<V>)
    requires t.Node? && t.right.Start?
  {
    exists z: BodyId :: z !in s && s' == s[z := m.id] &&
      t' == t.(zombie := Some(z), right := t.right.(body := z, final := false, mode := Free))
  }

  /** A finished child lowers the count of its finish_scan. */
  predicate Counts(t: Scan, t': Scan)
    requires t.Node?
  {
    || (t.left.Done? && !t.left.counted && t' == t.(refs := t.refs - 1, left := t.left.(counted := true)))
    || (t.right.Done? && !t.right.counted && t' == t.(refs := t.refs - 1, right := t.right.(counted := true)))
  }

  /** finish_scan::execute */
  ghost predicate Finishes<V>(m: Monoid<V>, t: Scan, s: Bodies<V>, t': Scan, s': Bodies<V>, log: seq<FinalRun<V>>)
    requires t.Node?
  {
    && t.refs == 0 && t.left.Done? && t.right.Done? && log == []
    && t.left.slot.Some? && t.left.slot.value in s
    && (if t.zombie.Some? && t.wantsSum then
          && t.right.slot.Some? && t.right.slot.value in s
          && s' == s[t.right.slot.value := m.op(s[t.left.slot.value], s[t.right.slot.value])]
        else s' == s)
    && t' == Done(t.lo, t.hi,
                  if t.zombie.Some? || !t.right.ret.Null? then
                    SumNode(t.lo, t.mid, t.hi, t.left.slot.value, t.leftFinal && t.left.ret.Null?, t.left.ret,
                            t.right.ret)
                  else Null,
                  t.right.slot, false)
  }

  // ---------------------------------------------------------------- what is owed

  function Inside(lo: int, hi: int, i: int): int {
    if lo <= i < hi then 1 else 0
  }

  /** How often the log covers index i. */
  function Covered<V>(log: seq<FinalRun<V>>, i: int): int {
    if log == [] then 0
    else Covered(log[..|log| - 1], i) + Inside(log[|log| - 1].lo, log[|log| - 1].hi, i)
  }

  /** Whether index i still awaits its final run under this part of the sum tree. */
  function OwedSum(n: SumTree, lo: int, hi: int, final: bool, i: int): int {
    match n
    case Null => if final then 0 else Inside(lo, hi, i)
    case SumNode(l, mid, h, _, _, left, right) => OwedSum(left, l, mid, final, i) + OwedSum(right, mid, h, false, i)
  }

  function Owed1(t: Scan, final: bool, i: int): int {
    match t
    case Start(lo, hi, _, _, _, _) => Inside(lo, hi, i)
    case Node(_, _, _, _, _, zombie, _, left, right) =>
      Owed1(left, final, i) + Owed1(right, final && zombie.None?, i)
    case Done(lo, hi, ret, _, _) => OwedSum(ret, lo, hi, final, i)
  }

  // ---------------------------------------------------------------- first pass: invariant

  /** The value a freshly divided range starts from: the caller's in the final part, the identity elsewhere. */
  ghost function Base<V>(m: Monoid<V>, start: V, final: bool): V {
    if final then start else m.id
  }

  function LeftSums(n: SumTree): set<BodyId> {
    if n.SumNode? then {n.leftSum} + LeftSums(n.left) + LeftSums(n.right) else {}
  }

  /** Every sum node holds the sum of its left half, in a body that no other node uses. */
  ghost predicate SumOk<V>(m: Monoid<V>, data: seq<V>, start: V, n: SumTree, lo: nat, hi: nat, final: bool,
                           s: Bodies<V>) {
    n.SumNode? ==>
      && n.lo == lo && n.hi == hi && lo <= n.mid <= hi <= |data|
      && (final ==> lo == 0)
      && n.leftFinal == (final && n.left.Null?)
      && n.leftSum in s && s[n.leftSum] == m.op(Base(m, start, final), Fold(m, data[lo..n.mid]))
      && n.leftSum !in LeftSums(n.left) + LeftSums(n.right) && LeftSums(n.left) !! LeftSums(n.right)
      && SumOk(m, data, start, n.left, lo, n.mid, final, s)
      && SumOk(m, data, start, n.right, n.mid, hi, false, s)
  }

  /** A subtree in which nobody was stolen and everything has run, on body b. */
  predicate SerialDone(t: Scan, b: BodyId) {
    match t
    case Start(_, _, _, _, _, _) => false
    case Node(_, _, _, _, _, zombie, refs, left, right) =>
      && zombie.None? && SerialDone(left, b) && right.Done? && right.ret.Null? && right.slot == Some(b)
      && refs == Pending(left) + Pending(right)
    case Done(_, _, ret, slot, _) => ret.Null? && slot == Some(b)
  }

  /** The bodies that a subtree has split off. */
  ghost function Zombies(t: Scan): set<BodyId> {
    match t
    case Start(_, _, _, _, _, _) => {}
    case Node(_, _, _, _, _, zombie, _, left, right) =>
      Zombies(left) + Zombies(right) + (if zombie.Some? then {zombie.value} else {})
    case Done(_, _, ret, slot, _) => LeftSums(ret) + (if slot.Some? then {slot.value} else {})
  }

  ghost function Touches(t: Scan, b: BodyId): set<BodyId> {
    {b} + Zombies(t)
  }

  /**
   The subtree t works on [lo, hi) with body b, which held acc when the subtree began. It does the
   final work along the way if final holds, and is asked for its sum if wants holds.
   */
  ghost predicate Good1<V>(m: Monoid<V>, data: seq<V>, start: V, t: Scan, lo: nat, hi: nat, b: BodyId, final: bool,
                           wants: bool, acc: V, s: Bodies<V>) {
    match t
    case Start(l, h, body, f, w, mode) =>
      && l == lo && h == hi && body == b && f == final && w == wants && lo <= hi <= |data|
      && mode != Fresh && b in s && s[b] == acc
      && (mode == Free ==> acc == Base(m, start, final) && (final ==> lo == 0))
    case Node(l, mid, h, leftFinal, w, zombie, refs, left, right) =>
      && l == lo && h == hi && leftFinal == final && w == wants && lo <= mid <= hi <= |data|
      && acc == Base(m, start, final) && (final ==> lo == 0)
      && refs == Pending(left) + Pending(right)
      && (match zombie
          case None =>
            if right.Start? && right.mode == Fresh then
              && right == Start(mid, hi, b, final, wants, Fresh)
              && Good1(m, data, start, left, lo, mid, b, final, true, acc, s)
            else
              && SerialDone(left, b) && SpansFrom(left, lo, mid)
              && ((right.Start? && right.mode == Whole) || (right.Done? && right.ret.Null?))
              && Good1(m, data, start, right, mid, hi, b, final, wants, m.op(acc, Fold(m, data[lo..mid])), s)
          case Some(z) =>
            && Good1(m, data, start, left, lo, mid, b, final, true, acc, s)
            && Good1(m, data, start, right, mid, hi, z, false, wants, m.id, s)
            && Touches(left, b) !! Touches(right, z))
    case Done(l, h, ret, slot, _) =>
      && l == lo && h == hi && lo <= hi <= |data| && slot.Some? == wants
      && SumOk(m, data, start, ret, lo, hi, final, s)
      && (wants ==>
          slot.value in s && s[slot.value] == m.op(acc, Fold(m, data[lo..hi])) && slot.value !in LeftSums(ret))
      && (ret.Null? ==> (wants ==> slot.value == b) && (final ==> b in s && s[b] == m.op(acc, Fold(m, data[lo..hi]))))
      && (ret.SumNode? ==> acc == Base(m, start, final) && (wants ==> slot.value != b))
  }

  predicate SpansFrom(t: Scan, lo: nat, hi: nat) {
    match t
    case Start(l, h, _, _, _, _) => l == lo && h == hi
    case Node(l, mid, h, _, _, _, _, left, right) =>
      l == lo && h == hi && lo <= mid <= hi && SpansFrom(left, lo, mid) && SpansFrom(right, mid, hi)
    case Done(l, h, _, _, _) => l == lo && h == hi
  }

  ghost function Prefix<V>(m: Monoid<V>, data: seq<V>, start: V, i: nat): V
    requires i <= |data|
  {
    m.op(start, Fold(m, data[..i]))
  }

  /** Every final run got exactly the fold of the initial value and of everything to its left. */
  ghost predicate LogOk<V>(m: Monoid<V>, data: seq<V>, start: V, log: seq<FinalRun<V>>) {
    forall k | 0 <= k < |log| ::
      log[k].lo <= log[k].hi <= |data| && log[k].incoming == Prefix(m, data, start, log[k].lo)
  }

  // ---------------------------------------------------------------- first pass: framing

  lemma {:induction false} SumOkFrame<V>(m: Monoid<V>, data: seq<V>, start: V, n: SumTree, lo: nat, hi: nat,
                                         final: bool, s: Bodies<V>, s': Bodies<V>)
    requires SumOk(m, data, start, n, lo, hi, final, s)
    requires forall x | x in LeftSums(n) :: x in s && x in s' && s'[x] == s[x]
    ensures SumOk(m, data, start, n, lo, hi, final, s')
  {
    if n.SumNode? {
      SumOkFrame(m, data, start, n.left, lo, n.mid, final, s, s');
      SumOkFrame(m, data, start, n.right, n.mid, hi, false, s, s');
    }
  }

  lemma {:induction false} Good1Frame<V>(m: Monoid<V>, data: seq<V>, start: V, t: Scan, lo: nat, hi: nat, b: BodyId,
                                         final: bool, wants: bool, acc: V, s: Bodies<V>, s': Bodies<V>)
    requires Good1(m, data, start, t, lo, hi, b, final, wants, acc, s)
    requires forall x | x in Touches(t, b) :: x in s && x in s' && s'[x] == s[x]
    ensures Good1(m, data, start, t, lo, hi, b, final, wants, acc, s')
  {
    match t
    case Start(_, _, _, _, _, _) =>
    case Node(_, mid, _, _, _, zombie, _, left, right) =>
      match zombie {
        case None =>
          if right.Start? && right.mode == Fresh {
            Good1Frame(m, data, start, left, lo, mid, b, final, true, acc, s, s');
          } else {
            Good1Frame(m, data, start, right, mid, hi, b, final, wants, m.op(acc, Fold(m, data[lo..mid])), s, s');
          }
        case Some(z) =>
          Good1Frame(m, data, start, left, lo, mid, b, final, true, acc, s, s');
          Good1Frame(m, data, start, right, mid, hi, z, false, wants, m.id, s, s');
      }
    case Done(_, _, ret, _, _) =>
      SumOkFrame(m, data, start, ret, lo, hi, final, s, s');
  }

  lemma {:induction false} SlotInZombies(t: Scan)
    ensures Slot(t).Some? ==> Slot(t).value in Zombies(t)
  {
    if t.Node? {
      SlotInZombies(t.right);
    }
  }

  /** If the sum of a subtree is in the body it began with, nobody in it was stolen and all of it has run. */
  lemma {:induction false} SlotMeansSerial<V(!new)>(m: Monoid<V>, data: seq<V>, start: V, t: Scan, lo: nat, hi: nat,
                                                    b: BodyId, final: bool, acc: V, s: Bodies<V>)
    requires Lawful(m) && Good1(m, data, start, t, lo, hi, b, final, true, acc, s) && Slot(t) == Some(b)
    ensures SerialDone(t, b) && SpansFrom(t, lo, hi)
    ensures b in s && lo <= hi <= |data| && s[b] == m.op(acc, Fold(m, data[lo..hi]))
  {
    match t
    case Start(_, _, _, _, _, _) =>
    case Node(_, mid, _, _, _, zombie, _, left, right) =>
      SlotInZombies(right);
      if zombie.None? && right.Done? {
        assert s[b] == m.op(m.op(acc, Fold(m, data[lo..mid])), Fold(m, data[mid..hi]));
        FoldSplit(m, data, lo, mid, hi);
      }
    case Done(_, _, _, _, _) =>
  }

  /** What is left to do in such a subtree touches no body and runs nothing. */
  lemma {:induction false} SerialStep<V(!new)>(m: Monoid<V>, data: seq<V>, t: Scan, s: Bodies<V>, t': Scan,
                                               s': Bodies<V>,
                                               log: seq<FinalRun<V>>, lo: nat, hi: nat, b: BodyId, final: bool)
    requires SerialDone(t, b) && SpansFrom(t, lo, hi) && Step1(m, data, t, s, t', s', log)
    ensures SerialDone(t', b) && SpansFrom(t', lo, hi) && s' == s && log == []
    ensures Zombies(t') <= Zombies(t)
    ensures forall i :: Owed1(t', final, i) == Owed1(t, final, i)
    ensures Pending(t') == Pending(t)
  {
    if t.Node? {
      if t'.Node? && t' == t.(left := t'.left) && Step1(m, data, t.left, s, t'.left, s', log) {
        SerialStep(m, data, t.left, s, t'.left, s', log, lo, t.mid, b, final);
      } else if t'.Node? && t' == t.(right := t'.right) && Step1(m, data, t.right, s, t'.right, s', log) {
      } else if Finishes(m, t, s, t', s', log) {
      } else {
      }
    }
  }

  // ---------------------------------------------------------------- first pass: preservation

  /**
   What one step of the first pass does to a subtree: its invariant stays, nothing else is touched, the
   log pays what was owed.
   */
  ghost predicate Keeps1<V>(m: Monoid<V>, data: seq<V>, start: V, t: Scan, lo: nat, hi: nat, b: BodyId, final: bool,
                            wants: bool, acc: V, s: Bodies<V>, t': Scan, s': Bodies<V>, log: seq<FinalRun<V>>) {
    && Good1(m, data, start, t', lo, hi, b, final, wants, acc, s')
    && s.Keys <= s'.Keys && Touches(t', b) <= s'.Keys
    && (forall x | x in s && x !in Touches(t, b) :: s'[x] == s[x])
    && (forall x | x in Touches(t', b) :: x in Touches(t, b) || x !in s)
    && LogOk(m, data, start, log)
    && (forall i :: Owed1(t', final, i) + Covered(log, i) == Owed1(t, final, i))
    && Pending(t') == 1
  }

  lemma LeafKeeps1<V(!new)>(m: Monoid<V>, data: seq<V>, start: V, t: Scan, lo: nat, hi: nat, b: BodyId, final: bool,
                            wants: bool, acc: V, s: Bodies<V>, t': Scan, s': Bodies<V>, log: seq<FinalRun<V>>)
    requires Lawful(m) && t.Start? && RunsLeaf(m, data, t, s, t', s', log)
    requires Good1(m, data, start, t, lo, hi, b, final, wants, acc, s)
    requires final ==> acc == Prefix(m, data, start, lo)
    ensures Keeps1(m, data, start, t, lo, hi, b, final, wants, acc, s, t', s', log)
  {
    if final {
      assert log[..|log| - 1] == [];
    }
    assert Touches(t', b) == {b};
    assert forall i :: Owed1(t', final, i) + Covered(log, i) == Owed1(t, final, i);
    assert Good1(m, data, start, t', lo, hi, b, final, wants, acc, s');
  }

  lemma SplitKeeps1<V(!new)>(m: Monoid<V>, data: seq<V>, start: V, t: Scan, lo: nat, hi: nat, b: BodyId, final: bool,
                             wants: bool, acc: V, s: Bodies<V>, t': Scan, s': Bodies<V>, log: seq<FinalRun<V>>)
    requires Lawful(m) && t.Start? && t.mode == Free && Splits(t, s, t', s', log)
    requires Good1(m, data, start, t, lo, hi, b, final, wants, acc, s)
    ensures Keeps1(m, data, start, t, lo, hi, b, final, wants, acc, s, t', s', log)
  {
    var mid: nat :| t.lo < mid < t.hi && s' == s && log == [] &&
      t' == Node(t.lo, mid, t.hi, t.final, t.wantsSum, None, 2,
                 Start(t.lo, mid, t.body, t.final, true, Free),
                 Start(mid, t.hi, t.body, t.final, t.wantsSum, Fresh));
    assert Zombies(t'.left) == {} && Zombies(t'.right) == {};
    assert Zombies(t') == {};
    assert Touches(t', b) == {b};
    assert forall i :: Owed1(t', final, i) + Covered(log, i) == Owed1(t, final, i);
    assert Good1(m, data, start, t', lo, hi, b, final, wants, acc, s');
  }

  lemma StolenKeeps1<V(!new)>(m: Monoid<V>, data: seq<V>, start: V, t: Scan, lo: nat, hi: nat, b: BodyId, final: bool,
                              wants: bool, acc: V, s: Bodies<V>, t': Scan, s': Bodies<V>)
    requires Lawful(m) && t.Node? && t.right.Start? && t.right.mode == Fresh && CountsAsStolen(m, t, s, t', s')
    requires Good1(m, data, start, t, lo, hi, b, final, wants, acc, s) && Touches(t, b) <= s.Keys
    ensures Keeps1(m, data, start, t, lo, hi, b, final, wants, acc, s, t', s', [])
  {
    var z: BodyId :| z !in s && s' == s[z := m.id] &&
      t' == t.(zombie := Some(z), right := t.right.(body := z, final := false, mode := Free));
    assert Zombies(t.right) == {} && Zombies(t'.right) == {};
    assert Zombies(t) == Zombies(t.left);
    assert Touches(t', b) == Touches(t, b) + {z};
    Good1Frame(m, data, start, t.left, lo, t.mid, b, final, true, acc, s, s');
    assert Touches(t'.left, b) !! Touches(t'.right, z);
    assert Good1(m, data, start, t'.right, t.mid, hi, z, false, wants, m.id, s');
    assert forall i :: Owed1(t'.right, false, i) == Owed1(t.right, final, i);
    assert Pending(t') == 1;
  }

  lemma WholeKeeps1<V(!new)>(m: Monoid<V>, data: seq<V>, start: V, t: Scan, lo: nat, hi: nat, b: BodyId, final: bool,
                             wants: bool, acc: V, s: Bodies<V>)
    requires Lawful(m) && t.Node? && t.right.Start? && t.right.mode == Fresh && Slot(t.left) == Some(t.right.body)
    requires Good1(m, data, start, t, lo, hi, b, final, wants, acc, s) && Touches(t, b) <= s.Keys
    ensures Keeps1(m, data, start, t, lo, hi, b, final, wants, acc, s, t.(right := t.right.(mode := Whole)), s, [])
  {
    assert t.zombie.None?;
    SlotMeansSerial(m, data, start, t.left, lo, t.mid, b, final, acc, s);
    var r := t.right.(mode := Whole);
    assert Zombies(r) == Zombies(t.right) == {};
    assert Touches(t.(right := r), b) == Touches(t, b);
    assert Good1(m, data, start, r, t.mid, hi, b, final, wants, m.op(acc, Fold(m, data[lo..t.mid])), s);
    assert forall i :: Owed1(r, final, i) == Owed1(t.right, final, i);
    assert Pending(t.(right := r)) == 1;
  }

  lemma LeftKeeps1<V(!new)>(m: Monoid<V>, data: seq<V>, start: V, t: Scan, lo: nat, hi: nat, b: BodyId, final: bool,
                            wants: bool, acc: V, s: Bodies<V>, l: Scan, s': Bodies<V>, log: seq<FinalRun<V>>)
    requires t.Node? && Good1(m, data, start, t, lo, hi, b, final, wants, acc, s) && Touches(t, b) <= s.Keys
    requires t.zombie.Some? || (t.right.Start? && t.right.mode == Fresh)
    requires Pending(t.left) == 1
    requires Keeps1(m, data, start, t.left, lo, t.mid, b, final, true, acc, s, l, s', log)
    ensures Keeps1(m, data, start, t, lo, hi, b, final, wants, acc, s, t.(left := l), s', log)
  {
    if t.zombie.Some? {
      Good1Frame(m, data, start, t.right, t.mid, hi, t.zombie.value, false, wants, m.id, s, s');
    }
  }

  lemma SerialLeftKeeps1<V(!new)>(m: Monoid<V>, data: seq<V>, start: V, t: Scan, lo: nat, hi: nat, b: BodyId,
                                  final: bool, wants: bool, acc: V, s: Bodies<V>, l: Scan)
    requires t.Node? && Good1(m, data, start, t, lo, hi, b, final, wants, acc, s) && Touches(t, b) <= s.Keys
    requires t.zombie.None? && !(t.right.Start? && t.right.mode == Fresh)
    requires SerialDone(l, b) && SpansFrom(l, lo, t.mid) && Zombies(l) <= Zombies(t.left)
    requires Pending(l) == Pending(t.left)
    requires forall i :: Owed1(l, final, i) == Owed1(t.left, final, i)
    ensures Keeps1(m, data, start, t, lo, hi, b, final, wants, acc, s, t.(left := l), s, [])
  {
    var t' := t.(left := l);
    assert Zombies(t') <= Zombies(t);
    assert Touches(t', b) <= Touches(t, b);
    assert forall i :: Owed1(t', final, i) == Owed1(t, final, i);
    assert Good1(m, data, start, t', lo, hi, b, final, wants, acc, s);
  }

  lemma RightKeeps1<V(!new)>(m: Monoid<V>, data: seq<V>, start: V, t: Scan, lo: nat, hi: nat, b: BodyId, final: bool,
                             wants: bool, acc: V, s: Bodies<V>, r: Scan, s': Bodies<V>, log: seq<FinalRun<V>>)
    requires t.Node? && Good1(m, data, start, t, lo, hi, b, final, wants, acc, s) && Touches(t, b) <= s.Keys
    requires Pending(t.right) == 1
    requires match t.zombie {
               case Some(z) => Keeps1(m, data, start, t.right, t.mid, hi, z, false, wants, m.id, s, r, s', log)
               case None => !(t.right.Start? && t.right.mode == Fresh) && r.Done? && r.ret.Null? &&
                            Keeps1(m, data, start, t.right, t.mid, hi, b, final, wants,
                                   m.op(acc, Fold(m, data[lo..t.mid])), s, r, s', log)
             }
    ensures Keeps1(m, data, start, t, lo, hi, b, final, wants, acc, s, t.(right := r), s', log)
  {
    if t.zombie.Some? {
      Good1Frame(m, data, start, t.left, lo, t.mid, b, final, true, acc, s, s');
    }
  }

  /** Sums of two neighbouring halves join, whether or not the right one began with the identity. */
  ghost predicate SumsJoin<V>(m: Monoid<V>, data: seq<V>, acc: V, lo: nat, mid: nat, hi: nat) {
    && lo <= mid <= hi <= |data|
    && var x, y, z := Fold(m, data[lo..mid]), Fold(m, data[mid..hi]), Fold(m, data[lo..hi]);
       m.op(m.op(acc, x), y) == m.op(acc, z) && m.op(m.op(acc, x), m.op(m.id, y)) == m.op(acc, z)
  }

  lemma SumsDoJoin<V(!new)>(m: Monoid<V>, data: seq<V>, acc: V, lo: nat, mid: nat, hi: nat)
    requires Lawful(m) && lo <= mid <= hi <= |data|
    ensures SumsJoin(m, data, acc, lo, mid, hi)
  {
    FoldSplit(m, data, lo, mid, hi);
  }

  /** Closing a node changes nothing outside it, runs nothing and owes as much as before. */
  lemma FinishFrames1<V>(m: Monoid<V>, data: seq<V>, start: V, t: Scan, lo: nat, hi: nat, b: BodyId, final: bool,
                         wants: bool, acc: V, s: Bodies<V>, t': Scan, s': Bodies<V>)
    requires t.Node? && Finishes(m, t, s, t', s', []) && Good1(m, data, start, t', lo, hi, b, final, wants, acc, s')
    requires Zombies(t') <= Zombies(t) && Touches(t, b) <= s.Keys
    requires forall i :: Owed1(t', final, i) == Owed1(t, final, i)
    ensures Keeps1(m, data, start, t, lo, hi, b, final, wants, acc, s, t', s', [])
  {
    assert Touches(t', b) <= Touches(t, b);
    if t.zombie.Some? && t.wantsSum {
      assert t.right.slot.value in Zombies(t.right);
    }
  }

  lemma FinishAloneKeeps1<V>(m: Monoid<V>, data: seq<V>, start: V, t: Scan, lo: nat, hi: nat, b: BodyId, final: bool,
                             wants: bool, acc: V, s: Bodies<V>, t': Scan, s': Bodies<V>)
    requires t.Node? && t.zombie.None? && Finishes(m, t, s, t', s', []) && SumsJoin(m, data, acc, lo, t.mid, hi)
    requires Good1(m, data, start, t, lo, hi, b, final, wants, acc, s) && Touches(t, b) <= s.Keys
    ensures Keeps1(m, data, start, t, lo, hi, b, final, wants, acc, s, t', s', [])
  {
    assert t'.ret == Null && t.left.ret == Null && t.right.ret == Null;
    assert Zombies(t.right) == Zombies(t');
    assert forall i :: Owed1(t', final, i) == Owed1(t, final, i);
    FinishFrames1(m, data, start, t, lo, hi, b, final, wants, acc, s, t', s');
  }

  lemma FinishStolenKeeps1<V>(m: Monoid<V>, data: seq<V>, start: V, t: Scan, lo: nat, hi: nat, b: BodyId, final: bool,
                              wants: bool, acc: V, s: Bodies<V>, t': Scan, s': Bodies<V>)
    requires t.Node? && t.zombie.Some? && Finishes(m, t, s, t', s', []) && SumsJoin(m, data, acc, lo, t.mid, hi)
    requires Good1(m, data, start, t, lo, hi, b, final, wants, acc, s) && Touches(t, b) <= s.Keys
    ensures Keeps1(m, data, start, t, lo, hi, b, final, wants, acc, s, t', s', [])
  {
    StolenSum(m, data, start, t, lo, hi, b, final, wants, acc, s, t', s');
    assert Zombies(t') <= Zombies(t);
    assert forall i :: Owed1(t', final, i) == Owed1(t, final, i);
    FinishFrames1(m, data, start, t, lo, hi, b, final, wants, acc, s, t', s');
  }

  /** The sum node that is left behind, and the sum that is passed on. */
  lemma StolenSum<V>(m: Monoid<V>, data: seq<V>, start: V, t: Scan, lo: nat, hi: nat, b: BodyId, final: bool,
                     wants: bool, acc: V, s: Bodies<V>, t': Scan, s': Bodies<V>)
    requires t.Node? && t.zombie.Some? && Finishes(m, t, s, t', s', []) && SumsJoin(m, data, acc, lo, t.mid, hi)
    requires Good1(m, data, start, t, lo, hi, b, final, wants, acc, s) && Touches(t, b) <= s.Keys
    ensures Good1(m, data, start, t', lo, hi, b, final, wants, acc, s')
  {
    var z := t.zombie.value;
    assert Zombies(t.right) <= Touches(t.right, z) && Zombies(t.left) <= Touches(t.left, b);
    SumOkFrame(m, data, start, t.left.ret, lo, t.mid, final, s, s');
    SumOkFrame(m, data, start, t.right.ret, t.mid, hi, false, s, s');
    assert SumOk(m, data, start, t'.ret, lo, hi, final, s');
  }

  lemma PrefixExtends<V(!new)>(m: Monoid<V>, data: seq<V>, start: V, lo: nat, mid: nat)
    requires Lawful(m) && lo <= mid <= |data|
    ensures m.op(Prefix(m, data, start, lo), Fold(m, data[lo..mid])) == Prefix(m, data, start, mid)
  {
    FoldSplit(m, data, 0, lo, mid);
    assert data[0..lo] == data[..lo] && data[0..mid] == data[..mid];
  }

  lemma CountLeftKeeps1<V(!new)>(m: Monoid<V>, data: seq<V>, start: V, t: Scan, lo: nat, hi: nat, b: BodyId,
                                 final: bool, wants: bool, acc: V, s: Bodies<V>, t': Scan)
    requires t.Node? && Good1(m, data, start, t, lo, hi, b, final, wants, acc, s) && Touches(t, b) <= s.Keys
    requires t.left.Done? && !t.left.counted && t' == t.(refs := t.refs - 1, left := t.left.(counted := true))
    ensures Keeps1(m, data, start, t, lo, hi, b, final, wants, acc, s, t', s, [])
  {
    assert Zombies(t'.left) == Zombies(t.left);
    assert Touches(t', b) == Touches(t, b) && Touches(t'.left, b) == Touches(t.left, b);
    assert forall i :: Owed1(t', final, i) == Owed1(t, final, i);
    assert Pending(t'.left) == 0 && Pending(t.left) == 1;
    assert Good1(m, data, start, t', lo, hi, b, final, wants, acc, s);
  }

  lemma CountRightKeeps1<V(!new)>(m: Monoid<V>, data: seq<V>, start: V, t: Scan, lo: nat, hi: nat, b: BodyId,
                                  final: bool, wants: bool, acc: V, s: Bodies<V>, t': Scan)
    requires t.Node? && Good1(m, data, start, t, lo, hi, b, final, wants, acc, s) && Touches(t, b) <= s.Keys
    requires t.right.Done? && !t.right.counted && t' == t.(refs := t.refs - 1, right := t.right.(counted := true))
    ensures Keeps1(m, data, start, t, lo, hi, b, final, wants, acc, s, t', s, [])
  {
    assert Zombies(t'.right) == Zombies(t.right);
    assert Touches(t', b) == Touches(t, b);
    assert t.zombie.Some? ==> Touches(t'.right, t.zombie.value) == Touches(t.right, t.zombie.value);
    assert forall i :: Owed1(t', final, i) == Owed1(t, final, i);
    assert Pending(t'.right) == 0 && Pending(t.right) == 1;
    assert Good1(m, data, start, t', lo, hi, b, final, wants, acc, s);
  }

  /** A step at the node itself. */
  lemma NodeStepKeeps1<V(!new)>(m: Monoid<V>, data: seq<V>, start: V, t: Scan, lo: nat, hi: nat, b: BodyId, final: bool,
                                wants: bool, acc: V, s: Bodies<V>, t': Scan, s': Bodies<V>)
    requires t.Node?
    requires BeginsRight(m, t, s, t', s', []) || Finishes(m, t, s, t', s', []) || (Counts(t, t') && s' == s)
    requires Lawful(m) && Good1(m, data, start, t, lo, hi, b, final, wants, acc, s) && Touches(t, b) <= s.Keys
    ensures Keeps1(m, data, start, t, lo, hi, b, final, wants, acc, s, t', s', [])
  {
    if BeginsRight(m, t, s, t', s', []) {
      if CountsAsStolen(m, t, s, t', s') {
        StolenKeeps1(m, data, start, t, lo, hi, b, final, wants, acc, s, t', s');
      } else {
        assert t.right.body == b;
        WholeKeeps1(m, data, start, t, lo, hi, b, final, wants, acc, s);
      }
    } else if Finishes(m, t, s, t', s', []) {
      SumsDoJoin(m, data, acc, lo, t.mid, hi);
      if t.zombie.Some? {
        FinishStolenKeeps1(m, data, start, t, lo, hi, b, final, wants, acc, s, t', s');
      } else {
        FinishAloneKeeps1(m, data, start, t, lo, hi, b, final, wants, acc, s, t', s');
      }
    } else {
      if t.left.Done? && !t.left.counted && t' == t.(refs := t.refs - 1, left := t.left.(counted := true)) {
        CountLeftKeeps1(m, data, start, t, lo, hi, b, final, wants, acc, s, t');
      } else {
        CountRightKeeps1(m, data, start, t, lo, hi, b, final, wants, acc, s, t');
      }
    }
  }

  lemma {:induction false} LeftStepKeeps1<V(!new)>(m: Monoid<V>, data: seq<V>, start: V, t: Scan, lo: nat, hi: nat,
                                                   b: BodyId, final: bool,
                                                   wants: bool, acc: V, s: Bodies<V>, t': Scan, s': Bodies<V>,
                                                   log: seq<FinalRun<V>>)
    requires t.Node? && t'.Node? && t' == t.(left := t'.left) && Step1(m, data, t.left, s, t'.left, s', log)
    requires Lawful(m) && Good1(m, data, start, t, lo, hi, b, final, wants, acc, s) && Touches(t, b) <= s.Keys
    requires final ==> acc == Prefix(m, data, start, lo)
    ensures Keeps1(m, data, start, t, lo, hi, b, final, wants, acc, s, t', s', log)
    decreases t, 0
  {
    if t.zombie.Some? || (t.right.Start? && t.right.mode == Fresh) {
      assert Touches(t.left, b) <= Touches(t, b);
      StepKeeps1(m, data, start, t.left, lo, t.mid, b, final, true, acc, s, t'.left, s', log);
      LeftKeeps1(m, data, start, t, lo, hi, b, final, wants, acc, s, t'.left, s', log);
    } else {
      SerialStep(m, data, t.left, s, t'.left, s', log, lo, t.mid, b, final);
      SerialLeftKeeps1(m, data, start, t, lo, hi, b, final, wants, acc, s, t'.left);
    }
  }

  lemma {:induction false} RightStepKeeps1<V(!new)>(m: Monoid<V>, data: seq<V>, start: V, t: Scan, lo: nat, hi: nat,
                                                    b: BodyId, final: bool,
                                                    wants: bool, acc: V, s: Bodies<V>, t': Scan, s': Bodies<V>,
                                                    log: seq<FinalRun<V>>)
    requires t.Node? && t'.Node? && t' == t.(right := t'.right) && Step1(m, data, t.right, s, t'.right, s', log)
    requires Lawful(m) && Good1(m, data, start, t, lo, hi, b, final, wants, acc, s) && Touches(t, b) <= s.Keys
    requires final ==> acc == Prefix(m, data, start, lo)
    ensures Keeps1(m, data, start, t, lo, hi, b, final, wants, acc, s, t', s', log)
    decreases t, 0
  {
    if t.zombie.Some? {
      assert Touches(t.right, t.zombie.value) <= Touches(t, b);
      StepKeeps1(m, data, start, t.right, t.mid, hi, t.zombie.value, false, wants, m.id, s, t'.right, s', log);
    } else {
      if final { PrefixExtends(m, data, start, lo, t.mid); }
      assert Touches(t.right, b) <= Touches(t, b);
      StepKeeps1(m, data, start, t.right, t.mid, hi, b, final, wants, m.op(acc, Fold(m, data[lo..t.mid])), s, t'.right,
                 s', log);
    }
    RightKeeps1(m, data, start, t, lo, hi, b, final, wants, acc, s, t'.right, s', log);
  }

  lemma {:induction false} StepKeeps1<V(!new)>(m: Monoid<V>, data: seq<V>, start: V, t: Scan, lo: nat, hi: nat,
                                               b: BodyId, final: bool,
                                               wants: bool, acc: V, s: Bodies<V>, t': Scan, s': Bodies<V>,
                                               log: seq<FinalRun<V>>)
    requires Step1(m, data, t, s, t', s', log)
    requires Lawful(m) && Good1(m, data, start, t, lo, hi, b, final, wants, acc, s) && Touches(t, b) <= s.Keys
    requires final ==> acc == Prefix(m, data, start, lo)
    ensures Keeps1(m, data, start, t, lo, hi, b, final, wants, acc, s, t', s', log)
    decreases t, 1
  {
    if t.Start? {
      if RunsLeaf(m, data, t, s, t', s', log) {
        LeafKeeps1(m, data, start, t, lo, hi, b, final, wants, acc, s, t', s', log);
      } else {
        SplitKeeps1(m, data, start, t, lo, hi, b, final, wants, acc, s, t', s', log);
      }
    } else if t'.Node? && t' == t.(left := t'.left) && Step1(m, data, t.left, s, t'.left, s', log) {
      LeftStepKeeps1(m, data, start, t, lo, hi, b, final, wants, acc, s, t', s', log);
    } else if t'.Node? && t' == t.(right := t'.right) && Step1(m, data, t.right, s, t'.right, s', log) {
      RightStepKeeps1(m, data, start, t, lo, hi, b, final, wants, acc, s, t', s', log);
    } else {
      assert log == [];
      NodeStepKeeps1(m, data, start, t, lo, hi, b, final, wants, acc, s, t', s');
    }
  }

  // ---------------------------------------------------------------- second pass

  /** A task of the second pass. */
  datatype Second =
    /** sum_node prepared to run; incoming is m_incoming, last says that m_stuff_last is set. */
    | Waits(n: SumTree, body: BodyId, incoming: Option<BodyId>, last: bool)
    /** final_sum */
    | Leaf(lo: nat, hi: nat, body: BodyId, last: bool)
    /** sum_node after its first execution. */
    | Par(mid: nat, refs: int, left: Second, right: Second)
    | Over(counted: bool)

  function Pending2(t: Second): int {
    if t.Over? && t.counted then 0 else 1
  }

  /** sum_node::create_child */
  function Child(n: SumTree, lo: nat, hi: nat, body: BodyId, incoming: Option<BodyId>, last: bool): Second {
    if n.SumNode? then Waits(n, body, incoming, last) else Leaf(lo, hi, body, last)
  }

  ghost predicate Step2<V(!new)>(m: Monoid<V>, data: seq<V>, t: Second, s: Bodies<V>, total: V,
                                 t': Second, s': Bodies<V>, total': V, log: seq<FinalRun<V>>) {
    match t
    case Waits(_, _, _, _) => Forks(m, t, s, t', s') && total' == total && log == []
    case Leaf(lo, hi, body, last) =>
      && lo <= hi <= |data| && body in s && log == [FinalRun(lo, hi, s[body])]
      && s' == s[body := m.op(s[body], Fold(m, data[lo..hi]))]
      && total' == (if last then s'[body] else total) && t' == Over(false)
    case Par(_, refs, left, right) =>
      || (t'.Par? && t' == t.(left := t'.left) && Step2(m, data, left, s, total, t'.left, s', total', log))
      || (t'.Par? && t' == t.(right := t'.right) && Step2(m, data, right, s, total, t'.right, s', total', log))
      || (t' == t.(refs := refs - 1, left := Over(true)) && left == Over(false) && s' == s && total' == total
          && log == [])
      || (t' == t.(refs := refs - 1, right := Over(true)) && right == Over(false) && s' == s && total' == total
          && log == [])
      || (refs == 0 && t' == Over(false) && s' == s && total' == total && log == [])
    case Over(_) => false
  }

  /** The first execution of a sum_node. */
  ghost predicate Forks<V>(m: Monoid<V>, t: Second, s: Bodies<V>, t': Second, s': Bodies<V>)
    requires t.Waits?
  {
    && t.n.SumNode? && t.n.leftSum in s
    && (match t.incoming
        case None => s' == s
        case Some(i) => i in s && s' == s[t.n.leftSum := m.op(s[i], s[t.n.leftSum])])
    && t' == Par(t.n.mid, if t.n.leftFinal then 1 else 2,
                 if t.n.leftFinal then Over(true) else Child(t.n.left, t.n.lo, t.n.mid, t.body, t.incoming, false),
                 Child(t.n.right, t.n.mid, t.n.hi, t.n.leftSum, Some(t.n.leftSum), t.last))
  }

  function Owed2(t: Second, i: int): int {
    match t
    case Waits(n, _, incoming, _) => if n.SumNode? then OwedSum(n, n.lo, n.hi, incoming.None?, i) else 0
    case Leaf(lo, hi, _, _) => Inside(lo, hi, i)
    case Par(_, _, left, right) => Owed2(left, i) + Owed2(right, i)
    case Over(_) => 0
  }

  ghost function Uses(t: Second): set<BodyId> {
    match t
    case Waits(n, _, incoming, _) => LeftSums(n) + (if incoming.Some? then {incoming.value} else {})
    case Leaf(_, _, body, _) => {body}
    case Par(_, _, left, right) => Uses(left) + Uses(right)
    case Over(_) => {}
  }

  /** Task t covers what is left of [lo, hi); every body it will run holds, or will get, the right prefix. */
  ghost predicate Good2<V>(m: Monoid<V>, data: seq<V>, start: V, t: Second, lo: nat, hi: nat, last: bool, s: Bodies<V>,
                           total: V) {
    match t
    case Waits(n, body, incoming, la) =>
      && n.SumNode? && la == last && lo <= hi <= |data| && SumOk(m, data, start, n, lo, hi, incoming.None?, s)
      && (incoming.Some? ==>
            incoming.value == body && body in s && s[body] == Prefix(m, data, start, lo) && body !in LeftSums(n))
    case Leaf(l, h, body, la) =>
      && l == lo && h == hi && la == last && lo <= hi <= |data| && body in s && s[body] == Prefix(m, data, start, lo)
    case Par(mid, refs, left, right) =>
      && lo <= mid <= hi <= |data| && refs == Pending2(left) + Pending2(right)
      && Good2(m, data, start, left, lo, mid, false, s, total)
      && Good2(m, data, start, right, mid, hi, last, s, total)
      && Uses(left) !! Uses(right)
    case Over(_) => last ==> total == m.op(start, Fold(m, data))
  }

  lemma {:induction false} Good2Frame<V>(m: Monoid<V>, data: seq<V>, start: V, t: Second, lo: nat, hi: nat, last: bool,
                                         s: Bodies<V>, total: V, s': Bodies<V>, total': V)
    requires Good2(m, data, start, t, lo, hi, last, s, total)
    requires forall x | x in Uses(t) :: x in s && x in s' && s'[x] == s[x]
    requires last ==> total' == total
    ensures Good2(m, data, start, t, lo, hi, last, s', total')
  {
    match t
    case Waits(n, _, incoming, _) => SumOkFrame(m, data, start, n, lo, hi, incoming.None?, s, s');
    case Leaf(_, _, _, _) =>
    case Par(mid, _, left, right) =>
      Good2Frame(m, data, start, left, lo, mid, false, s, total, s', total');
      Good2Frame(m, data, start, right, mid, hi, last, s, total, s', total');
    case Over(_) =>
  }

  /** What one step of the second pass does to a task. */
  ghost predicate Keeps2<V>(m: Monoid<V>, data: seq<V>, start: V, t: Second, lo: nat, hi: nat, last: bool, s: Bodies<V>,
                            total: V, t': Second, s': Bodies<V>, total': V, log: seq<FinalRun<V>>) {
    && Good2(m, data, start, t', lo, hi, last, s', total')
    && s'.Keys == s.Keys && Uses(t') <= Uses(t) && (!last ==> total' == total)
    && (forall x | x in s && x !in Uses(t) :: s'[x] == s[x])
    && LogOk(m, data, start, log)
    && (forall i :: Owed2(t', i) + Covered(log, i) == Owed2(t, i))
    && Pending2(t') == 1
  }

  /** A child owes what its subtree owed; a finished left half has none. */
  lemma ChildOwes<V>(m: Monoid<V>, data: seq<V>, start: V, n: SumTree, lo: nat, hi: nat, body: BodyId,
                     incoming: Option<BodyId>, last: bool, s: Bodies<V>, i: int)
    requires SumOk(m, data, start, n, lo, hi, incoming.None?, s) && (incoming.None? ==> n.SumNode?)
    ensures Owed2(Child(n, lo, hi, body, incoming, last), i) == OwedSum(n, lo, hi, incoming.None?, i)
  {
  }

  lemma ForkOwes<V>(m: Monoid<V>, data: seq<V>, start: V, t: Second, lo: nat, hi: nat, s: Bodies<V>, t': Second,
                    s': Bodies<V>, i: int)
    requires t.Waits? && Forks(m, t, s, t', s')
    requires SumOk(m, data, start, t.n, lo, hi, t.incoming.None?, s)
    ensures Owed2(t', i) == Owed2(t, i)
  {
    var final := t.incoming.None?;
    ChildOwes(m, data, start, t.n.right, t.n.mid, hi, t.n.leftSum, Some(t.n.leftSum), t.last, s, i);
    assert Owed2(t', i) == Owed2(t'.left, i) + Owed2(t'.right, i);
    assert Owed2(t, i) == OwedSum(t.n.left, lo, t.n.mid, final, i) + OwedSum(t.n.right, t.n.mid, hi, false, i);
    if t.n.leftFinal {
      assert Owed2(t'.left, i) == 0;
    } else {
      ChildOwes(m, data, start, t.n.left, lo, t.n.mid, t.body, t.incoming, false, s, i);
    }
  }

  lemma ForkKeeps2<V(!new)>(m: Monoid<V>, data: seq<V>, start: V, t: Second, lo: nat, hi: nat, last: bool, s: Bodies<V>,
                            total: V, t': Second, s': Bodies<V>)
    requires Lawful(m) && t.Waits? && Forks(m, t, s, t', s')
    requires Good2(m, data, start, t, lo, hi, last, s, total) && Uses(t) <= s.Keys
    ensures Keeps2(m, data, start, t, lo, hi, last, s, total, t', s', total, [])
  {
    var n := t.n;
    PrefixExtends(m, data, start, lo, n.mid);
    assert t.incoming.None? ==> data[..0] == [];
    assert s'[n.leftSum] == Prefix(m, data, start, n.mid);
    SumOkFrame(m, data, start, n.right, n.mid, hi, false, s, s');
    SumOkFrame(m, data, start, n.left, lo, n.mid, t.incoming.None?, s, s');
    assert Good2(m, data, start, t'.left, lo, n.mid, false, s', total);
    assert Good2(m, data, start, t'.right, n.mid, hi, last, s', total);
    assert Uses(t'.right) == {n.leftSum} + LeftSums(n.right);
    forall i ensures Owed2(t', i) == Owed2(t, i) {
      ForkOwes(m, data, start, t, lo, hi, s, t', s', i);
    }
    assert Good2(m, data, start, t', lo, hi, last, s', total);
  }

  lemma LeafKeeps2<V(!new)>(m: Monoid<V>, data: seq<V>, start: V, t: Second, lo: nat, hi: nat, last: bool, s: Bodies<V>,
                            total: V, t': Second, s': Bodies<V>, total': V, log: seq<FinalRun<V>>)
    requires Lawful(m) && t.Leaf? && Step2(m, data, t, s, total, t', s', total', log) && (last ==> hi == |data|)
    requires Good2(m, data, start, t, lo, hi, last, s, total)
    ensures Keeps2(m, data, start, t, lo, hi, last, s, total, t', s', total', log)
  {
    assert log[..|log| - 1] == [];
    assert forall i :: Owed2(t', i) + Covered(log, i) == Owed2(t, i);
    PrefixExtends(m, data, start, lo, hi);
    assert data[..|data|] == data;
  }

  lemma LeftKeeps2<V(!new)>(m: Monoid<V>, data: seq<V>, start: V, t: Second, lo: nat, hi: nat, last: bool, s: Bodies<V>,
                            total: V, l: Second, s': Bodies<V>, total': V, log: seq<FinalRun<V>>)
    requires t.Par? && Good2(m, data, start, t, lo, hi, last, s, total) && Uses(t) <= s.Keys && Pending2(t.left) == 1
    requires Keeps2(m, data, start, t.left, lo, t.mid, false, s, total, l, s', total', log)
    ensures Keeps2(m, data, start, t, lo, hi, last, s, total, t.(left := l), s', total', log)
  {
    Good2Frame(m, data, start, t.right, t.mid, hi, last, s, total, s', total');
  }

  lemma RightKeeps2<V(!new)>(m: Monoid<V>, data: seq<V>, start: V, t: Second, lo: nat, hi: nat, last: bool,
                             s: Bodies<V>, total: V, r: Second, s': Bodies<V>, total': V, log: seq<FinalRun<V>>)
    requires t.Par? && Good2(m, data, start, t, lo, hi, last, s, total) && Uses(t) <= s.Keys && Pending2(t.right) == 1
    requires Keeps2(m, data, start, t.right, t.mid, hi, last, s, total, r, s', total', log)
    ensures Keeps2(m, data, start, t, lo, hi, last, s, total, t.(right := r), s', total', log)
  {
    Good2Frame(m, data, start, t.left, lo, t.mid, false, s, total, s', total');
  }

  lemma ParKeeps2<V(!new)>(m: Monoid<V>, data: seq<V>, start: V, t: Second, lo: nat, hi: nat, last: bool, s: Bodies<V>,
                           total: V, t': Second)
    requires t.Par? && Good2(m, data, start, t, lo, hi, last, s, total)
    requires || (t' == t.(refs := t.refs - 1, left := Over(true)) && t.left == Over(false))
             || (t' == t.(refs := t.refs - 1, right := Over(true)) && t.right == Over(false))
             || (t.refs == 0 && t' == Over(false))
    ensures Keeps2(m, data, start, t, lo, hi, last, s, total, t', s, total, [])
  {
    if t'.Par? {
      assert Pending2(t') == 1;
      assert forall i :: Owed2(t', i) == Owed2(t, i);
    } else {
      assert t.left == Over(true) && t.right == Over(true);
      assert Pending2(t') == 1;
      assert Good2(m, data, start, t', lo, hi, last, s, total);
      assert forall i :: Owed2(t', i) == Owed2(t, i);
    }
  }

  lemma {:induction false} StepKeeps2<V(!new)>(m: Monoid<V>, data: seq<V>, start: V, t: Second, lo: nat, hi: nat,
                                               last: bool, s: Bodies<V>,
                                               total: V, t': Second, s': Bodies<V>, total': V, log: seq<FinalRun<V>>)
    requires Lawful(m) && Step2(m, data, t, s, total, t', s', total', log) && (last ==> hi == |data|)
    requires Good2(m, data, start, t, lo, hi, last, s, total) && Uses(t) <= s.Keys
    ensures Keeps2(m, data, start, t, lo, hi, last, s, total, t', s', total', log)
  {
    if t.Waits? {
      ForkKeeps2(m, data, start, t, lo, hi, last, s, total, t', s');
    } else if t.Leaf? {
      LeafKeeps2(m, data, start, t, lo, hi, last, s, total, t', s', total', log);
    } else if t'.Par? && t' == t.(left := t'.left) && Step2(m, data, t.left, s, total, t'.left, s', total', log) {
      StepKeeps2(m, data, start, t.left, lo, t.mid, false, s, total, t'.left, s', total', log);
      LeftKeeps2(m, data, start, t, lo, hi, last, s, total, t'.left, s', total', log);
    } else if t'.Par? && t' == t.(right := t'.right) && Step2(m, data, t.right, s, total, t'.right, s', total', log) {
      StepKeeps2(m, data, start, t.right, t.mid, hi, last, s, total, t'.right, s', total', log);
      RightKeeps2(m, data, start, t, lo, hi, last, s, total, t'.right, s', total', log);
    } else {
      ParKeeps2(m, data, start, t, lo, hi, last, s, total, t');
    }
  }

  // ---------------------------------------------------------------- whole runs

  /** The state of start_scan::run; total is the value of the caller's body. */
  datatype State<V> =
    | First(scan: Scan, bodies: Bodies<V>, log: seq<FinalRun<V>>, total: V)
    | Then(task: Second, bodies: Bodies<V>, log: seq<FinalRun<V>>, total: V)
    | End(log: seq<FinalRun<V>>, total: V)

  ghost predicate Starts<V>(m: Monoid<V>, data: seq<V>, start: V, st: State<V>) {
    if data == [] then st == End([], start)
    else st == First(Start(0, |data|, 0, true, false, Free), map[0 := m.op(start, m.id)], [], start)
  }

  ghost predicate Next<V(!new)>(m: Monoid<V>, data: seq<V>, st: State<V>, st': State<V>) {
    match st
    case First(scan, bodies, log, total) =>
      if scan.Done? then
        if scan.ret.SumNode? then st' == Then(Waits(scan.ret, 0, None, true), bodies, log, total)
        else 0 in bodies && st' == End(log, bodies[0])
      else
        && st'.First? && st'.total == total && log <= st'.log
        && Step1(m, data, scan, bodies, st'.scan, st'.bodies, st'.log[|log|..])
    case Then(task, bodies, log, total) =>
      if task.Over? then st' == End(log, total)
      else
        && st'.Then? && log <= st'.log
        && Step2(m, data, task, bodies, total, st'.task, st'.bodies, st'.total, st'.log[|log|..])
    case End(_, _) => false
  }

  ghost predicate IsRun<V(!new)>(m: Monoid<V>, data: seq<V>, start: V, run: seq<State<V>>) {
    && |run| > 0 && Starts(m, data, start, run[0])
    && forall k | 0 <= k < |run| - 1 :: Next(m, data, run[k], run[k + 1])
  }

  /** What index i still awaits in a state. */
  ghost function Owed<V>(st: State<V>, i: int): int {
    match st
    case First(scan, _, _, _) => Owed1(scan, true, i)
    case Then(task, _, _, _) => Owed2(task, i)
    case End(_, _) => 0
  }

  ghost predicate Sound<V>(m: Monoid<V>, data: seq<V>, start: V, st: State<V>) {
    && LogOk(m, data, start, st.log)
    && (forall i :: Owed(st, i) + Covered(st.log, i) == Inside(0, |data|, i))
    && (match st
        case First(scan, bodies, _, _) =>
          Good1(m, data, start, scan, 0, |data|, 0, true, false, start, bodies) && Touches(scan, 0) <= bodies.Keys
        case Then(task, bodies, _, total) =>
          Good2(m, data, start, task, 0, |data|, true, bodies, total) && Uses(task) <= bodies.Keys
        case End(_, total) => total == m.op(start, Fold(m, data)))
  }

  lemma {:induction false} CoveredConcat<V>(a: seq<FinalRun<V>>, b: seq<FinalRun<V>>, i: int)
    ensures Covered(a + b, i) == Covered(a, i) + Covered(b, i)
  {
    if b == [] {
      assert a + b == a;
    } else {
      assert (a + b)[..|a + b| - 1] == a + b[..|b| - 1];
      CoveredConcat(a, b[..|b| - 1], i);
    }
  }

  lemma LogGrows<V>(m: Monoid<V>, data: seq<V>, start: V, a: seq<FinalRun<V>>, b: seq<FinalRun<V>>)
    requires a <= b && LogOk(m, data, start, a) && LogOk(m, data, start, b[|a|..])
    ensures LogOk(m, data, start, b)
    ensures forall i :: Covered(b, i) == Covered(a, i) + Covered(b[|a|..], i)
  {
    assert a + b[|a|..] == b;
    forall i ensures Covered(b, i) == Covered(a, i) + Covered(b[|a|..], i) {
      CoveredConcat(a, b[|a|..], i);
    }
    forall k | 0 <= k < |b|
      ensures b[k].lo <= b[k].hi <= |data| && b[k].incoming == Prefix(m, data, start, b[k].lo)
    {
      if k >= |a| { assert b[k] == b[|a|..][k - |a|]; }
    }
  }

  lemma NextKeepsSound<V(!new)>(m: Monoid<V>, data: seq<V>, start: V, st: State<V>, st': State<V>)
    requires Lawful(m) && Sound(m, data, start, st) && Next(m, data, st, st')
    ensures Sound(m, data, start, st')
  {
    match st
    case First(scan, bodies, log, _) =>
      if scan.Done? {
        assert data[0..|data|] == data;
      } else {
        assert data[..0] == [];
        StepKeeps1(m, data, start, scan, 0, |data|, 0, true, false, start, bodies, st'.scan, st'.bodies,
                   st'.log[|log|..]);
        LogGrows(m, data, start, log, st'.log);
      }
    case Then(task, bodies, log, total) =>
      if !task.Over? {
        StepKeeps2(m, data, start, task, 0, |data|, true, bodies, total, st'.task, st'.bodies, st'.total,
                   st'.log[|log|..]);
        LogGrows(m, data, start, log, st'.log);
      }
  }

  lemma {:induction false} EveryStateIsSound<V(!new)>(m: Monoid<V>, data: seq<V>, start: V, run: seq<State<V>>)
    requires Lawful(m) && IsRun(m, data, start, run)
    ensures Sound(m, data, start, run[|run| - 1])
  {
    if |run| > 1 {
      EveryStateIsSound(m, data, start, run[..|run| - 1]);
      NextKeepsSound(m, data, start, run[|run| - 2], run[|run| - 1]);
    } else if data != [] {
      assert Zombies(run[0].scan) == {};
      assert Good1(m, data, start, run[0].scan, 0, |data|, 0, true, false, start, run[0].bodies);
    }
  }

  ghost predicate CoveredAt<V>(log: seq<FinalRun<V>>, i: int, k: nat) {
    k < |log| && log[k].lo <= i < log[k].hi
  }

  /** Exactly one entry covers i. */
  ghost predicate CoveredOnce<V>(log: seq<FinalRun<V>>, i: int) {
    exists k: nat :: CoveredAt(log, i, k) && forall k': nat | CoveredAt(log, i, k') :: k' == k
  }

  lemma {:induction false} NotCovered<V>(log: seq<FinalRun<V>>, i: int)
    ensures Covered(log, i) >= 0
    ensures Covered(log, i) == 0 ==> forall k: nat :: !CoveredAt(log, i, k)
  {
    if log != [] {
      var init := log[..|log| - 1];
      NotCovered(init, i);
      assert forall k: nat | k < |init| :: CoveredAt(log, i, k) ==> CoveredAt(init, i, k);
    }
  }

  lemma {:induction false} CoveredMeans<V>(log: seq<FinalRun<V>>, i: int)
    requires Covered(log, i) == 1
    ensures CoveredOnce(log, i)
  {
    var last := |log| - 1;
    var init := log[..last];
    NotCovered(init, i);
    if CoveredAt(log, i, last) {
      forall k: nat | CoveredAt(log, i, k) ensures k == last {
        if k < last { assert CoveredAt(init, i, k); }
      }
    } else {
      CoveredMeans(init, i);
      var k: nat :| CoveredAt(init, i, k) && forall k': nat | CoveredAt(init, i, k') :: k' == k;
      assert CoveredAt(log, i, k);
      forall k': nat | CoveredAt(log, i, k') ensures k' == k {
        assert CoveredAt(init, i, k');
      }
    }
  }

  /**
   Whatever is split, whichever right children count as stolen and however tasks of the two
   passes interleave: every index is in exactly one call with the final tag, every such call gets
   exactly the fold of the caller's value and of all elements before its range, and the caller's
   body ends with the total.
   */
  lemma ScanIsRight<V(!new)>(m: Monoid<V>, data: seq<V>, start: V, run: seq<State<V>>)
    requires Lawful(m) && IsRun(m, data, start, run) && run[|run| - 1].End?
    ensures var log := run[|run| - 1].log;
      && run[|run| - 1].total == m.op(start, Fold(m, data))
      && (forall i | 0 <= i < |data| :: CoveredOnce(log, i))
      && forall c | c in log :: c.lo <= c.hi <= |data| && c.incoming == m.op(start, Fold(m, data[..c.lo]))
  {
    EveryStateIsSound(m, data, start, run);
    var log := run[|run| - 1].log;
    forall i | 0 <= i < |data| ensures CoveredOnce(log, i) {
      assert Owed(run[|run| - 1], i) + Covered(log, i) == 1;
      CoveredMeans(log, i);
    }
  }

  // ---------------------------------------------------------------- progress

  /** A subtree of the first pass that is not finished can always take a step. */
  lemma {:induction false} FirstPassMoves<V(!new)>(m: Monoid<V>, data: seq<V>, start: V, t: Scan, lo: nat, hi: nat,
                                                   b: BodyId, final: bool, wants: bool, acc: V, s: Bodies<V>)
    returns (t': Scan, s': Bodies<V>, log: seq<FinalRun<V>>)
    requires Good1(m, data, start, t, lo, hi, b, final, wants, acc, s) && Touches(t, b) <= s.Keys && !t.Done?
    ensures Step1(m, data, t, s, t', s', log)
    decreases t, 1
  {
    if t.Start? {
      t' := Done(lo, hi, Null, if wants then Some(b) else None, false);
      s' := if final || wants then s[b := m.op(s[b], Fold(m, data[lo..hi]))] else s;
      log := if final then [FinalRun(lo, hi, s[b])] else [];
    } else if t.zombie.None? && t.right.Start? && t.right.mode == Fresh {
      var z := NewName(s.Keys);
      t' := t.(zombie := Some(z), right := t.right.(body := z, final := false, mode := Free));
      s', log := s[z := m.id], [];
      assert CountsAsStolen(m, t, s, t', s');
    } else if t.zombie.Some? {
      t', s', log := StolenNodeMoves(m, data, start, t, lo, hi, b, final, wants, acc, s);
    } else {
      t', s', log := SerialNodeMoves(m, data, start, t, lo, hi, b, final, wants, acc, s);
    }
  }

  lemma {:induction false} StolenNodeMoves<V(!new)>(m: Monoid<V>, data: seq<V>, start: V, t: Scan, lo: nat, hi: nat,
                                                    b: BodyId, final: bool, wants: bool, acc: V, s: Bodies<V>)
    returns (t': Scan, s': Bodies<V>, log: seq<FinalRun<V>>)
    requires Good1(m, data, start, t, lo, hi, b, final, wants, acc, s) && Touches(t, b) <= s.Keys && t.Node?
    requires t.zombie.Some?
    ensures Step1(m, data, t, s, t', s', log)
    decreases t, 0
  {
    assert Touches(t.left, b) <= Touches(t, b) && Touches(t.right, t.zombie.value) <= Touches(t, b);
    if !t.left.Done? {
      var l;
      l, s', log := FirstPassMoves(m, data, start, t.left, lo, t.mid, b, final, true, acc, s);
      t' := t.(left := l);
    } else if !t.right.Done? {
      var r;
      r, s', log := FirstPassMoves(m, data, start, t.right, t.mid, hi, t.zombie.value, false, wants, m.id, s);
      t' := t.(right := r);
    } else {
      t', s', log := FinishedChildrenMove(m, data, t, s);
    }
  }

  lemma {:induction false} SerialNodeMoves<V(!new)>(m: Monoid<V>, data: seq<V>, start: V, t: Scan, lo: nat, hi: nat,
                                                    b: BodyId, final: bool, wants: bool, acc: V, s: Bodies<V>)
    returns (t': Scan, s': Bodies<V>, log: seq<FinalRun<V>>)
    requires Good1(m, data, start, t, lo, hi, b, final, wants, acc, s) && Touches(t, b) <= s.Keys && t.Node?
    requires t.zombie.None?
    requires !(t.right.Start? && t.right.mode == Fresh)
    ensures Step1(m, data, t, s, t', s', log)
    decreases t, 0
  {
    if !t.right.Done? {
      var r;
      r, s', log :=
        FirstPassMoves(m, data, start, t.right, t.mid, hi, b, final, wants, m.op(acc, Fold(m, data[lo..t.mid])), s);
      t' := t.(right := r);
    } else if t.left.Done? {
      t', s', log := FinishedChildrenMove(m, data, t, s);
    } else {
      var l := SerialMoves(m, data, t.left, s, b);
      t', s', log := t.(left := l), s, [];
    }
  }

  lemma FinishedChildrenMove<V(!new)>(m: Monoid<V>, data: seq<V>, t: Scan, s: Bodies<V>)
    returns (t': Scan, s': Bodies<V>, log: seq<FinalRun<V>>)
    requires t.Node? && t.left.Done? && t.right.Done? && t.refs == Pending(t.left) + Pending(t.right)
    requires t.left.slot.Some? && t.left.slot.value in s
    requires t.zombie.Some? && t.wantsSum ==> t.right.slot.Some? && t.right.slot.value in s
    ensures Step1(m, data, t, s, t', s', log) && (t.zombie.None? ==> s' == s && log == [])
  {
    s', log := s, [];
    if !t.left.counted {
      t' := t.(refs := t.refs - 1, left := t.left.(counted := true));
    } else if !t.right.counted {
      t' := t.(refs := t.refs - 1, right := t.right.(counted := true));
    } else {
      if t.zombie.Some? && t.wantsSum {
        s' := s[t.right.slot.value := m.op(s[t.left.slot.value], s[t.right.slot.value])];
      }
      t' := Done(t.lo, t.hi,
                 if t.zombie.Some? || !t.right.ret.Null? then
                   SumNode(t.lo, t.mid, t.hi, t.left.slot.value, t.leftFinal && t.left.ret.Null?, t.left.ret,
                           t.right.ret)
                 else Null,
                 t.right.slot, false);
      assert Finishes(m, t, s, t', s', log);
    }
  }

  lemma {:induction false} SerialMoves<V(!new)>(m: Monoid<V>, data: seq<V>, t: Scan, s: Bodies<V>, b: BodyId)
    returns (t': Scan)
    requires SerialDone(t, b) && !t.Done? && b in s
    ensures Step1(m, data, t, s, t', s, [])
  {
    if t.left.Done? {
      var s', log;
      t', s', log := FinishedChildrenMove(m, data, t, s);
    } else {
      var l := SerialMoves(m, data, t.left, s, b);
      t' := t.(left := l);
    }
  }

  /** So can a task of the second pass. */
  lemma {:induction false} SecondPassMoves<V(!new)>(m: Monoid<V>, data: seq<V>, start: V, t: Second, lo: nat, hi: nat,
                                                    last: bool, s: Bodies<V>, total: V)
    returns (t': Second, s': Bodies<V>, total': V, log: seq<FinalRun<V>>)
    requires Good2(m, data, start, t, lo, hi, last, s, total) && !t.Over?
    ensures Step2(m, data, t, s, total, t', s', total', log)
  {
    total', log := total, [];
    match t
    case Waits(n, body, incoming, la) =>
      s' := if incoming.Some? then s[n.leftSum := m.op(s[incoming.value], s[n.leftSum])] else s;
      t' := Par(n.mid, if n.leftFinal then 1 else 2,
                if n.leftFinal then Over(true) else Child(n.left, n.lo, n.mid, body, incoming, false),
                Child(n.right, n.mid, n.hi, n.leftSum, Some(n.leftSum), la));
    case Leaf(l, h, body, la) =>
      t', s', log := Over(false), s[body := m.op(s[body], Fold(m, data[l..h]))], [FinalRun(l, h, s[body])];
      total' := if la then s'[body] else total;
    case Par(mid, refs, left, right) =>
      if !left.Over? {
        var l;
        l, s', total', log := SecondPassMoves(m, data, start, left, lo, mid, false, s, total);
        t' := t.(left := l);
      } else if !right.Over? {
        var r;
        r, s', total', log := SecondPassMoves(m, data, start, right, mid, hi, last, s, total);
        t' := t.(right := r);
      } else {
        s' := s;
        t' := if !left.counted then t.(refs := refs - 1, left := Over(true))
              else if !right.counted then t.(refs := refs - 1, right := Over(true))
              else Over(false);
      }
  }

  /** No run gets stuck before the end. */
  lemma NoRunIsStuck<V(!new)>(m: Monoid<V>, data: seq<V>, start: V, run: seq<State<V>>) returns (st': State<V>)
    requires Lawful(m) && IsRun(m, data, start, run) && !run[|run| - 1].End?
    ensures Next(m, data, run[|run| - 1], st')
  {
    EveryStateIsSound(m, data, start, run);
    match run[|run| - 1]
    case First(scan, bodies, log, total) =>
      if scan.Done? {
        st' := if scan.ret.SumNode? then Then(Waits(scan.ret, 0, None, true), bodies, log, total)
          else End(log, bodies[0]);
      } else {
        var t', s', more := FirstPassMoves(m, data, start, scan, 0, |data|, 0, true, false, start, bodies);
        st' := First(t', s', log + more, total);
        assert (log + more)[|log|..] == more;
      }
    case Then(task, bodies, log, total) =>
      if task.Over? {
        st' := End(log, total);
      } else {
        var t', s', total', more := SecondPassMoves(m, data, start, task, 0, |data|, true, bodies, total);
        st' := Then(t', s', log + more, total');
        assert (log + more)[|log|..] == more;
      }
  }

  // ---------------------------------------------------------------- termination

  ghost function Weight1(t: Scan): nat {
    match t
    case Start(lo, hi, _, _, _, mode) => (if lo < hi then 16 * (hi - lo) - 8 else 2) + (if mode == Fresh then 1 else 0)
    case Node(_, _, _, _, _, _, _, left, right) => 2 + Weight1(left) + Weight1(right)
    case Done(_, _, _, _, counted) => if counted then 0 else 1
  }

  ghost function SumWeight(n: SumTree): nat {
    if n.SumNode? then 3 + SumWeight(n.left) + SumWeight(n.right) else 2
  }

  ghost function Weight2(t: Second): nat {
    match t
    case Waits(n, _, _, _) => SumWeight(n)
    case Leaf(_, _, _, _) => 2
    case Par(_, _, left, right) => 2 + Weight2(left) + Weight2(right)
    case Over(counted) => if counted then 0 else 1
  }

  lemma {:induction false} Step1LowersWeight<V(!new)>(m: Monoid<V>, data: seq<V>, t: Scan, s: Bodies<V>, t': Scan,
                                                      s': Bodies<V>, log: seq<FinalRun<V>>)
    requires Step1(m, data, t, s, t', s', log)
    ensures Weight1(t') < Weight1(t)
  {
    if t.Node? {
      if t'.Node? && t' == t.(left := t'.left) && Step1(m, data, t.left, s, t'.left, s', log) {
        Step1LowersWeight(m, data, t.left, s, t'.left, s', log);
      } else if t'.Node? && t' == t.(right := t'.right) && Step1(m, data, t.right, s, t'.right, s', log) {
        Step1LowersWeight(m, data, t.right, s, t'.right, s', log);
      } else {
        NodeStepLowersWeight(m, t, s, t', s', log);
      }
    }
  }

  lemma NodeStepLowersWeight<V>(m: Monoid<V>, t: Scan, s: Bodies<V>, t': Scan, s': Bodies<V>, log: seq<FinalRun<V>>)
    requires t.Node? && (BeginsRight(m, t, s, t', s', log) || Counts(t, t') || Finishes(m, t, s, t', s', log))
    ensures Weight1(t') < Weight1(t)
  {
  }

  lemma {:induction false} Step2LowersWeight<V(!new)>(m: Monoid<V>, data: seq<V>, t: Second, s: Bodies<V>, total: V,
                                                      t': Second, s': Bodies<V>, total': V, log: seq<FinalRun<V>>)
    requires Step2(m, data, t, s, total, t', s', total', log)
    ensures Weight2(t') < Weight2(t)
  {
    assert Weight2(Over(true)) == 0 && Weight2(Over(false)) == 1;
    if t.Waits? {
      var n := t.n;
      assert Weight2(t'.right) == SumWeight(n.right);
      assert n.leftFinal ==> t'.left == Over(true);
      assert !n.leftFinal ==> Weight2(t'.left) == SumWeight(n.left);
      assert Weight2(t') == 2 + Weight2(t'.left) + Weight2(t'.right);
    } else if t.Par? {
      if t'.Par? && t' == t.(left := t'.left) && Step2(m, data, t.left, s, total, t'.left, s', total', log) {
        Step2LowersWeight(m, data, t.left, s, total, t'.left, s', total', log);
      } else if t'.Par? && t' == t.(right := t'.right) && Step2(m, data, t.right, s, total, t'.right, s', total', log) {
        Step2LowersWeight(m, data, t.right, s, total, t'.right, s', total', log);
      }
    }
  }

  ghost function Phase<V>(st: State<V>): nat {
    match st
    case First(_, _, _, _) => 2
    case Then(_, _, _, _) => 1
    case End(_, _) => 0
  }

  ghost function Weight<V>(st: State<V>): nat {
    match st
    case First(scan, _, _, _) => Weight1(scan)
    case Then(task, _, _, _) => Weight2(task)
    case End(_, _) => 0
  }

  /** Every run is finite: each step ends a pass or lowers its weight. */
  lemma NextLowersRank<V(!new)>(m: Monoid<V>, data: seq<V>, st: State<V>, st': State<V>)
    requires Next(m, data, st, st')
    ensures Phase(st') < Phase(st) || (Phase(st') == Phase(st) && Weight(st') < Weight(st))
  {
    match st
    case First(scan, bodies, log, _) =>
      if !scan.Done? {
        Step1LowersWeight(m, data, scan, bodies, st'.scan, st'.bodies, st'.log[|log|..]);
      }
    case Then(task, bodies, log, total) =>
      if !task.Over? {
        Step2LowersWeight(m, data, task, bodies, total, st'.task, st'.bodies, st'.total, st'.log[|log|..]);
      }
  }

  /** Every run can be continued to its end. */
  lemma {:induction false} EveryRunCompletes<V(!new)>(m: Monoid<V>, data: seq<V>, start: V, run: seq<State<V>>)
    returns (full: seq<State<V>>)
    requires Lawful(m) && IsRun(m, data, start, run)
    ensures run <= full && IsRun(m, data, start, full) && full[|full| - 1].End?
    decreases Phase(run[|run| - 1]), Weight(run[|run| - 1])
  {
    if run[|run| - 1].End? {
      full := run;
    } else {
      var st' := NoRunIsStuck(m, data, start, run);
      NextLowersRank(m, data, run[|run| - 1], st');
      full := EveryRunCompletes(m, data, start, run + [st']);
    }
  }
}
