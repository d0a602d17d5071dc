/**
 The table behind enumerable_thread_specific (ets_base::table_lookup in
 include/oneapi/tbb/enumerable_thread_specific.h), one access to shared data at a time, for any number
 of threads. Arrays are published at the head of a list and never taken out again, so the list is kept
 as a sequence, oldest first: the root is the last one and the next of an array is the one before it.
 */
module ThreadLocalTable {

  datatype Option<T> = None | Some(value: T)

  /** What create_local returns. */
  type Local = int

  function Pow2(n: nat): (r: nat)
    ensures r >= 1
  {
    if n == 0 then 1 else 2 * Pow2(n - 1)
  }

  lemma {:induction false} PowersGrow(a: nat, b: nat)
    requires a <= b
    ensures Pow2(a) <= Pow2(b)
  {
    if a < b {
      PowersGrow(a, b - 1);
    }
  }

  /** A key is the index of the thread it belongs to; None is the empty key. */
  datatype Slot = Slot(key: Option<nat>, ptr: Local)

  datatype Array = Array(lg: nat, slots: seq<Slot>)

  /** array::start for a key and a size: any function into the array. */
  type Start = (nat, nat) -> nat

  ghost predicate GoodStart(start: Start) {
    forall k: nat, lg: nat :: start(k, lg) < Pow2(lg)
  }

  /** The n-th slot probed from i: (i + n) & mask. */
  function Probe(i: nat, n: nat, size: nat): nat {
    if i + n < size then i + n else i + n - size
  }

  /** Where a thread stands in table_lookup; array r, probe n. */
  datatype Pc =
    | Idle
    | Search(r: nat, n: nat)
    | Matched(r: nat, n: nat)
    | Create
    | CountUp(found: Local)
    | LoadRoot(c: nat, found: Local)
    | Publish(lg: nat, seen: Option<nat>, found: Local)
    | InsertLoad(found: Local)
    | Insert(r: nat, n: nat, found: Local)
    | Claim(r: nat, n: nat, found: Local)
    | SetPtr(r: nat, n: nat, found: Local)
    | Return(ptr: Local)

  /** History: num is what the thread's increment of my_count gave (0 before), val what it created. */
  datatype Thread = Thread(pc: Pc, num: nat, val: Option<Local>)

  datatype State = State(chain: seq<Array>, count: nat, threads: seq<Thread>)

  function Root(s: State): Option<nat> {
    if s.chain == [] then None else Some(|s.chain| - 1)
  }

  function SizeOf(a: Array): nat { Pow2(a.lg) }

  function KeyAt(start: Start, a: Array, k: nat, n: nat): nat {
    Probe(start(k, a.lg), n, Pow2(a.lg))
  }

  // ---------------------------------------------------------------- steps

  function Go(s: State, t: nat, pc: Pc): State
    requires t < |s.threads|
  {
    s.(threads := s.threads[t := s.threads[t].(pc := pc)])
  }

  function WithSlot(s: State, r: nat, j: nat, slot: Slot): State
    requires r < |s.chain| && j < |s.chain[r].slots|
  {
    s.(chain := s.chain[r := s.chain[r].(slots := s.chain[r].slots[j := slot])])
  }

  /** The size with which a thread numbered c wants to be on the safe side. */
  function GrownLg(lg: nat, c: nat): nat
    decreases if lg == 0 then 2 * c + 1 else 2 * c - Pow2(lg)
  {
    if lg >= 1 && c <= Pow2(lg - 1) then lg else GrownLg(lg + 1, c)
  }

  ghost predicate Step(start: Start, s: State, t: nat, s': State)
    requires t < |s.threads|
  {
    var me := s.threads[t];
    match me.pc
    case Idle => s' == Go(s, t, if Root(s).None? then Create else Search(Root(s).value, 0))
    case Search(r, n) =>
      && r < |s.chain| && KeyAt(start, s.chain[r], t, n) < |s.chain[r].slots|
      && var slot := s.chain[r].slots[KeyAt(start, s.chain[r], t, n)];
         s' == Go(s, t, if slot.key.None? then (if r == 0 then Create else Search(r - 1, 0))
                        else if slot.key == Some(t) then Matched(r, n) else Search(r, n + 1))
    case Matched(r, n) =>
      && r < |s.chain| && KeyAt(start, s.chain[r], t, n) < |s.chain[r].slots|
      && var slot := s.chain[r].slots[KeyAt(start, s.chain[r], t, n)];
         s' == Go(s, t, if Root(s) == Some(r) then Return(slot.ptr) else InsertLoad(slot.ptr))
    case Create => exists p :: s' == s.(threads := s.threads[t := Thread(CountUp(p), me.num, Some(p))])
    case CountUp(found) =>
      s' == s.(count := s.count + 1,
               threads := s.threads[t := Thread(LoadRoot(s.count + 1, found), s.count + 1, me.val)])
    case LoadRoot(c, found) =>
      if Root(s).None? then s' == Go(s, t, Publish(GrownLg(2, c), None, found))
      else
        var lg := s.chain[Root(s).value].lg;
        s' == Go(s, t, if c > Pow2(lg) / 2 then Publish(GrownLg(lg, c), Root(s), found) else InsertLoad(found))
    case Publish(lg, seen, found) =>
      if Root(s) == seen then
        s' == Go(s.(chain := s.chain + [Array(lg, seq(Pow2(lg), _ => Slot(None, 0)))]), t, InsertLoad(found))
      else
        Root(s).Some? &&
        s' == Go(s, t, if s.chain[Root(s).value].lg >= lg then InsertLoad(found) else Publish(lg, Root(s), found))
    case InsertLoad(found) => Root(s).Some? && s' == Go(s, t, Insert(Root(s).value, 0, found))
    case Insert(r, n, found) =>
      && r < |s.chain| && KeyAt(start, s.chain[r], t, n) < |s.chain[r].slots|
      && s' == Go(s, t,
                  if s.chain[r].slots[KeyAt(start, s.chain[r], t, n)].key.None? then Claim(r, n, found)
                    else Insert(r, n + 1, found))
    case Claim(r, n, found) =>
      && r < |s.chain| && KeyAt(start, s.chain[r], t, n) < |s.chain[r].slots|
      && var j := KeyAt(start, s.chain[r], t, n);
         if s.chain[r].slots[j].key.None?
         then s' == Go(WithSlot(s, r, j, s.chain[r].slots[j].(key := Some(t))), t, SetPtr(r, n, found))
         else s' == Go(s, t, Insert(r, n + 1, found))
    case SetPtr(r, n, found) =>
      && r < |s.chain| && KeyAt(start, s.chain[r], t, n) < |s.chain[r].slots|
      && var j := KeyAt(start, s.chain[r], t, n);
         s' == Go(WithSlot(s, r, j, s.chain[r].slots[j].(ptr := found)), t, Return(found))
    case Return(_) => s' == Go(s, t, Idle)
  }

  // ---------------------------------------------------------------- invariant

  ghost predicate HasAt(a: Array, k: nat, j: nat) {
    j < |a.slots| && a.slots[j].key == Some(k)
  }

  ghost predicate Has(a: Array, k: nat) {
    exists j: nat :: HasAt(a, k, j)
  }

  /** The first n slots probed for k are taken, and none by k. */
  ghost predicate Passed(start: Start, a: Array, k: nat, n: nat) {
    && n <= SizeOf(a) / 2
    && forall m: nat | m < n :: Taken(a, KeyAt(start, a, k, m), k)
  }

  ghost predicate Taken(a: Array, j: nat, k: nat) {
    j < |a.slots| && a.slots[j].key.Some? && a.slots[j].key != Some(k)
  }

  /** Key k is where probing finds it. */
  ghost predicate Findable(start: Start, a: Array, k: nat, j: nat) {
    exists n: nat :: j == KeyAt(start, a, k, n) && Passed(start, a, k, n)
  }

  ghost predicate ArrayOk(start: Start, s: State, r: nat)
    requires r < |s.chain|
  {
    var a := s.chain[r];
    && |a.slots| == SizeOf(a) && a.lg >= 1
    && (forall i: nat, j: nat, k: nat | HasAt(a, k, i) && HasAt(a, k, j) :: i == j)
    && (forall j: nat, k: nat | HasAt(a, k, j) ::
          && k < |s.threads| && 1 <= s.threads[k].num <= SizeOf(a) / 2
          && Findable(start, a, k, j)
          && (s.threads[k].val == Some(a.slots[j].ptr) || (s.threads[k].pc.SetPtr? && s.threads[k].pc.r == r)))
  }

  ghost predicate ChainOk(start: Start, s: State) {
    && (forall r: nat | r < |s.chain| :: ArrayOk(start, s, r))
    && (forall a, b | 0 <= a < b < |s.chain| :: s.chain[a].lg < s.chain[b].lg)
  }

  /** Numbers are given out once. */
  ghost predicate NumbersOk(s: State) {
    && (forall t | 0 <= t < |s.threads| :: s.threads[t].num <= s.count)
    && (forall t, u | 0 <= t < u < |s.threads| && s.threads[t].num > 0 :: s.threads[t].num != s.threads[u].num)
  }

  ghost predicate InNone(s: State, t: nat) {
    forall r: nat | r < |s.chain| :: !Has(s.chain[r], t)
  }

  ghost predicate InSome(s: State, t: nat) {
    exists r: nat :: r < |s.chain| && Has(s.chain[r], t)
  }

  /** Thread t has been numbered, has a pointer, and its number is small enough for array r. */
  ghost predicate Fits(s: State, t: nat, r: nat)
    requires t < |s.threads|
  {
    r < |s.chain| && 1 <= s.threads[t].num <= SizeOf(s.chain[r]) / 2
  }

  ghost predicate ThreadOk(start: Start, s: State, t: nat, me: Thread)
    requires t < |s.threads|
  {
    match me.pc
    case Idle => if me.num == 0 then InNone(s, t) else me.val.Some? && InSome(s, t)
    case Search(r, n) =>
      && r < |s.chain| && Passed(start, s.chain[r], t, n) && (forall q: nat | r < q < |s.chain| :: !Has(s.chain[q], t))
      && if me.num == 0 then InNone(s, t) else me.val.Some? && InSome(s, t)
    case Matched(r, n) =>
      && r < |s.chain| && HasAt(s.chain[r], t, KeyAt(start, s.chain[r], t, n))
      && (forall q: nat | r < q < |s.chain| :: !Has(s.chain[q], t))
    case Create => me.num == 0 && InNone(s, t)
    case CountUp(found) => me.num == 0 && InNone(s, t) && me.val == Some(found)
    case LoadRoot(c, found) => me.num == c > 0 && InNone(s, t) && me.val == Some(found)
    case Publish(lg, seen, found) =>
      && 1 <= lg && 1 <= me.num <= Pow2(lg) / 2 && InNone(s, t) && me.val == Some(found)
      && (seen.Some? ==> seen.value < |s.chain| && s.chain[seen.value].lg < lg)
    case InsertLoad(found) =>
      && s.chain != [] && Fits(s, t, |s.chain| - 1) && !Has(s.chain[|s.chain| - 1], t) && me.val == Some(found)
    case Insert(r, n, found) =>
      r < |s.chain| && Fits(s, t, r) && !Has(s.chain[r], t) && Passed(start, s.chain[r], t, n) && me.val == Some(found)
    case Claim(r, n, found) =>
      r < |s.chain| && Fits(s, t, r) && !Has(s.chain[r], t) && Passed(start, s.chain[r], t, n) && me.val == Some(found)
    case SetPtr(r, n, found) =>
      r < |s.chain| && me.num > 0 && HasAt(s.chain[r], t, KeyAt(start, s.chain[r], t, n)) && me.val == Some(found)
    case Return(ptr) => me.num > 0 && me.val == Some(ptr) && InSome(s, t)
  }

  ghost predicate Inv(start: Start, s: State) {
    && ChainOk(start, s) && NumbersOk(s)
    && forall t: nat | t < |s.threads| :: ThreadOk(start, s, t, s.threads[t])
  }

  // ---------------------------------------------------------------- arrays are at most half full

  function Occupied(a: Array): set<nat> {
    set j: nat | j < |a.slots| && a.slots[j].key.Some?
  }

  /** Distinct indices with distinct numbers from 1 to bound: there are at most bound of them. */
  lemma {:induction false} AtMost(js: set<nat>, f: nat -> nat, bound: nat)
    requires forall j | j in js :: 1 <= f(j) <= bound
    requires forall i, j | i in js && j in js && i != j :: f(i) != f(j)
    ensures |js| <= bound
    decreases bound
  {
    if exists j :: j in js && f(j) == bound {
      var j :| j in js && f(j) == bound;
      AtMost(js - {j}, f, bound - 1);
    } else if bound > 0 {
      AtMost(js, f, bound - 1);
    } else {
      assert js == {};
    }
  }

  lemma HalfFull(start: Start, s: State, r: nat)
    requires r < |s.chain| && ArrayOk(start, s, r) && NumbersOk(s)
    ensures |Occupied(s.chain[r])| <= SizeOf(s.chain[r]) / 2
  {
    var a := s.chain[r];
    var f := (j: nat) =>
      if j < |a.slots| && a.slots[j].key.Some? && a.slots[j].key.value < |s.threads|
      then s.threads[a.slots[j].key.value].num else 0;
    forall j | j in Occupied(a) ensures 1 <= f(j) <= SizeOf(a) / 2 {
      assert HasAt(a, a.slots[j].key.value, j);
    }
    forall i, j | i in Occupied(a) && j in Occupied(a) && i != j ensures f(i) != f(j) {
      assert HasAt(a, a.slots[i].key.value, i) && HasAt(a, a.slots[j].key.value, j);
    }
    AtMost(Occupied(a), f, SizeOf(a) / 2);
  }

  function Probed(i: nat, n: nat, size: nat): set<nat> {
    if n == 0 then {} else Probed(i, n - 1, size) + {Probe(i, n - 1, size)}
  }

  lemma {:induction false} ProbesDiffer(i: nat, n: nat, size: nat)
    requires i < size && n <= size
    ensures |Probed(i, n, size)| == n
    ensures forall j :: j in Probed(i, n, size) <==> exists m: nat :: m < n && j == Probe(i, m, size)
  {
    if n > 0 {
      ProbesDiffer(i, n - 1, size);
      assert Probe(i, n - 1, size) !in Probed(i, n - 1, size);
      forall j ensures j in Probed(i, n, size) <==> exists m: nat :: m < n && j == Probe(i, m, size) {
        if j == Probe(i, n - 1, size) {
        } else if j in Probed(i, n - 1, size) {
        }
      }
    }
  }

  /** A probe past taken slots never goes beyond half of the array. */
  lemma StillPassing(start: Start, s: State, r: nat, k: nat, n: nat)
    requires GoodStart(start) && r < |s.chain| && ArrayOk(start, s, r) && NumbersOk(s)
    requires Passed(start, s.chain[r], k, n) && Taken(s.chain[r], KeyAt(start, s.chain[r], k, n), k)
    ensures Passed(start, s.chain[r], k, n + 1)
  {
    var a := s.chain[r];
    var i, size := start(k, a.lg), SizeOf(a);
    assert size == 2 * Pow2(a.lg - 1);
    ProbesDiffer(i, n + 1, size);
    ProbedAreTaken(start, a, k, n + 1);
    Subset(Probed(i, n + 1, size), Occupied(a));
    HalfFull(start, s, r);
  }

  lemma {:induction false} ProbedAreTaken(start: Start, a: Array, k: nat, n: nat)
    requires forall m: nat | m < n :: Taken(a, KeyAt(start, a, k, m), k)
    ensures forall j | j in Probed(start(k, a.lg), n, SizeOf(a)) :: j in Occupied(a)
  {
    if n > 0 {
      ProbedAreTaken(start, a, k, n - 1);
      assert Taken(a, KeyAt(start, a, k, n - 1), k);
    }
  }

  lemma {:induction false} Subset(a: set<nat>, b: set<nat>)
    requires forall j | j in a :: j in b
    ensures |a| <= |b|
  {
    assert a + (b - a) == b;
    assert |a + (b - a)| == |a| + |b - a|;
  }

  /** An empty slot on the way of k means that k is not in the array. */
  lemma EmptyMeansAbsent(start: Start, s: State, r: nat, k: nat, n: nat)
    requires r < |s.chain| && ArrayOk(start, s, r) && Passed(start, s.chain[r], k, n)
    requires KeyAt(start, s.chain[r], k, n) < |s.chain[r].slots|
    requires s.chain[r].slots[KeyAt(start, s.chain[r], k, n)].key.None?
    ensures !Has(s.chain[r], k)
  {
    var a := s.chain[r];
    assert !Taken(a, KeyAt(start, a, k, n), k);
    forall j: nat ensures !HasAt(a, k, j) {
      if HasAt(a, k, j) {
        var m: nat :| j == KeyAt(start, a, k, m) && Passed(start, a, k, m);
        if m < n { PassedWithout(start, a, k, n, m); }
      }
    }
  }

  lemma PassedWithout(start: Start, a: Array, k: nat, n: nat, m: nat)
    requires Passed(start, a, k, n) && m < n
    ensures !HasAt(a, k, KeyAt(start, a, k, m))
  {
    assert Taken(a, KeyAt(start, a, k, m), k);
  }

  // ---------------------------------------------------------------- what other threads rely on

  ghost predicate ArrayKept(a: Array, a': Array, u: nat) {
    && a'.lg == a.lg && |a'.slots| == |a.slots|
    && (forall j: nat | j < |a.slots| && a.slots[j].key.Some? :: a'.slots[j].key == a.slots[j].key)
    && (forall j: nat :: HasAt(a', u, j) <==> HasAt(a, u, j))
    && (forall j: nat | HasAt(a, u, j) :: a'.slots[j].ptr == a.slots[j].ptr)
  }

  /** The step from s to s' leaves thread u what it relies on. */
  ghost predicate Undisturbed(s: State, s': State, u: nat) {
    && |s.chain| <= |s'.chain| && u < |s.threads| == |s'.threads| && s'.threads[u] == s.threads[u]
    && (forall r: nat | r < |s.chain| :: ArrayKept(s.chain[r], s'.chain[r], u))
    && (forall r: nat | |s.chain| <= r < |s'.chain| :: !Has(s'.chain[r], u))
    && (s.chain != [] ==> s.chain[|s.chain| - 1].lg <= s'.chain[|s'.chain| - 1].lg)
  }

  lemma HasKept(a: Array, a': Array, u: nat)
    requires ArrayKept(a, a', u)
    ensures Has(a', u) <==> Has(a, u)
  {
    if Has(a', u) {
      var j: nat :| HasAt(a', u, j);
      assert HasAt(a, u, j);
    }
    if Has(a, u) {
      var j: nat :| HasAt(a, u, j);
      assert HasAt(a', u, j);
    }
  }

  lemma PassedKept(start: Start, a: Array, a': Array, u: nat, n: nat)
    requires ArrayKept(a, a', u) && Passed(start, a, u, n)
    ensures Passed(start, a', u, n)
  {
    forall m: nat | m < n ensures Taken(a', KeyAt(start, a', u, m), u) {
      assert Taken(a, KeyAt(start, a, u, m), u);
    }
  }

  lemma AllKept(s: State, s': State, u: nat)
    requires Undisturbed(s, s', u)
    ensures forall r: nat | r < |s.chain| :: Has(s'.chain[r], u) <==> Has(s.chain[r], u)
    ensures InNone(s, u) ==> InNone(s', u)
    ensures InSome(s, u) ==> InSome(s', u)
    ensures forall r: nat | r < |s.chain| && Fits(s, u, r) :: Fits(s', u, r)
    ensures s.chain != [] && Fits(s, u, |s.chain| - 1) ==> Fits(s', u, |s'.chain| - 1)
    ensures s.chain != [] && !Has(s.chain[|s.chain| - 1], u) ==> !Has(s'.chain[|s'.chain| - 1], u)
  {
    forall r: nat | r < |s.chain| ensures Has(s'.chain[r], u) <==> Has(s.chain[r], u) {
      HasKept(s.chain[r], s'.chain[r], u);
    }
    if s.chain != [] {
      PowersGrow(s.chain[|s.chain| - 1].lg, s'.chain[|s'.chain| - 1].lg);
    }
  }

  lemma StaysOk(start: Start, s: State, s': State, u: nat)
    requires Undisturbed(s, s', u) && ThreadOk(start, s, u, s.threads[u])
    ensures ThreadOk(start, s', u, s'.threads[u])
  {
    AllKept(s, s', u);
    match s.threads[u].pc {
      case Search(r, n) => PassedKept(start, s.chain[r], s'.chain[r], u, n);
      case Matched(r, n) => assert ArrayKept(s.chain[r], s'.chain[r], u);
      case Insert(r, n, _) => PassedKept(start, s.chain[r], s'.chain[r], u, n);
      case Claim(r, n, _) => PassedKept(start, s.chain[r], s'.chain[r], u, n);
      case SetPtr(r, n, _) => assert ArrayKept(s.chain[r], s'.chain[r], u);
      case _ =>
    }
  }

  lemma OthersStayOk(start: Start, s: State, s': State, t: nat)
    requires t < |s.threads| == |s'.threads|
    requires forall u: nat | u < |s.threads| :: ThreadOk(start, s, u, s.threads[u])
    requires forall u: nat | u < |s.threads| && u != t :: Undisturbed(s, s', u)
    requires ThreadOk(start, s', t, s'.threads[t])
    ensures forall u: nat | u < |s.threads| :: ThreadOk(start, s', u, s'.threads[u])
  {
    forall u: nat | u < |s.threads| && u != t ensures ThreadOk(start, s', u, s'.threads[u]) {
      StaysOk(start, s, s', u);
    }
  }

  // ---------------------------------------------------------------- steps

  /** A step that changes nothing but the thread itself, and the count if it takes a number. */
  lemma OwnStep(start: Start, s: State, t: nat, count: nat, me: Thread)
    requires Inv(start, s) && t < |s.threads| && !s.threads[t].pc.SetPtr?
    requires (me.num == s.threads[t].num && count == s.count) || (me.num == count == s.count + 1 && InNone(s, t))
    requires me.val == s.threads[t].val || InNone(s, t)
    requires ThreadOk(start, s.(count := count, threads := s.threads[t := me]), t, me)
    ensures Inv(start, s.(count := count, threads := s.threads[t := me]))
  {
    var s' := s.(count := count, threads := s.threads[t := me]);
    forall r: nat | r < |s.chain| ensures ArrayOk(start, s', r) {
      assert ArrayOk(start, s, r);
      forall j: nat, k: nat | HasAt(s.chain[r], k, j)
        ensures k < |s.threads| && 1 <= s'.threads[k].num <= SizeOf(s.chain[r]) / 2
             && (s'.threads[k].val == Some(s.chain[r].slots[j].ptr)
                 || (s'.threads[k].pc.SetPtr? && s'.threads[k].pc.r == r))
      {
        assert Has(s.chain[r], k);
      }
    }
    OthersStayOk(start, s, s', t);
  }

  lemma PcStep(start: Start, s: State, t: nat, pc: Pc)
    requires Inv(start, s) && t < |s.threads| && !s.threads[t].pc.SetPtr?
    requires ThreadOk(start, Go(s, t, pc), t, s.threads[t].(pc := pc))
    ensures Inv(start, Go(s, t, pc))
  {
    OwnStep(start, s, t, s.count, s.threads[t].(pc := pc));
  }

  lemma SearchKeeps(start: Start, s: State, t: nat, s': State)
    requires GoodStart(start) && Inv(start, s) && t < |s.threads| && s.threads[t].pc.Search? && Step(start, s, t, s')
    ensures Inv(start, s')
  {
    assert ThreadOk(start, s, t, s.threads[t]);
    var r, n := s.threads[t].pc.r, s.threads[t].pc.n;
    var j := KeyAt(start, s.chain[r], t, n);
    assert ArrayOk(start, s, r);
    if s.chain[r].slots[j].key.None? {
      EmptyMeansAbsent(start, s, r, t, n);
    } else if s.chain[r].slots[j].key != Some(t) {
      StillPassing(start, s, r, t, n);
    }
    PcStep(start, s, t, s'.threads[t].pc);
  }

  lemma MatchedKeeps(start: Start, s: State, t: nat, s': State)
    requires Inv(start, s) && t < |s.threads| && s.threads[t].pc.Matched? && Step(start, s, t, s')
    ensures Inv(start, s')
  {
    assert ThreadOk(start, s, t, s.threads[t]);
    var r := s.threads[t].pc.r;
    assert ArrayOk(start, s, r);
    assert Has(s.chain[r], t);
    PowersGrow(s.chain[r].lg, s.chain[|s.chain| - 1].lg);
    PcStep(start, s, t, s'.threads[t].pc);
  }

  /** Large enough, and not larger than need be. */
  lemma {:induction false} GrownIsEnough(lg: nat, c: nat)
    ensures GrownLg(lg, c) >= lg && GrownLg(lg, c) >= 1 && c <= Pow2(GrownLg(lg, c)) / 2
    ensures GrownLg(lg, c) <= 1 || GrownLg(lg, c) == lg || c > Pow2(GrownLg(lg, c) - 1) / 2
    decreases if lg == 0 then 2 * c + 1 else 2 * c - Pow2(lg)
  {
    if !(lg >= 1 && c <= Pow2(lg - 1)) {
      GrownIsEnough(lg + 1, c);
    }
  }

  lemma LoadRootKeeps(start: Start, s: State, t: nat, s': State)
    requires Inv(start, s) && t < |s.threads| && s.threads[t].pc.LoadRoot? && Step(start, s, t, s')
    ensures Inv(start, s')
  {
    assert ThreadOk(start, s, t, s.threads[t]);
    var c := s.threads[t].pc.c;
    if s.chain == [] {
      GrownIsEnough(2, c);
    } else {
      GrownIsEnough(s.chain[|s.chain| - 1].lg, c);
      assert ArrayOk(start, s, |s.chain| - 1);
    }
    PcStep(start, s, t, s'.threads[t].pc);
  }

  lemma PublishKeeps(start: Start, s: State, t: nat, s': State)
    requires Inv(start, s) && t < |s.threads| && s.threads[t].pc.Publish? && Step(start, s, t, s')
    ensures Inv(start, s')
  {
    assert ThreadOk(start, s, t, s.threads[t]);
    var lg := s.threads[t].pc.lg;
    if Root(s) == s.threads[t].pc.seen {
      PushKeeps(start, s, t, s');
    } else {
      if s.chain[|s.chain| - 1].lg >= lg { PowersGrow(lg, s.chain[|s.chain| - 1].lg); }
      PcStep(start, s, t, s'.threads[t].pc);
    }
  }

  lemma PushKeeps(start: Start, s: State, t: nat, s': State)
    requires Inv(start, s) && t < |s.threads| && s.threads[t].pc.Publish? && Step(start, s, t, s')
    requires Root(s) == s.threads[t].pc.seen
    ensures Inv(start, s')
  {
    assert ThreadOk(start, s, t, s.threads[t]);
    var top := s'.chain[|s.chain|];
    assert forall j: nat, k: nat :: !HasAt(top, k, j);
    forall r: nat | r < |s'.chain| ensures ArrayOk(start, s', r) {
      if r < |s.chain| {
        assert ArrayOk(start, s, r);
        assert forall j: nat, k: nat | HasAt(s.chain[r], k, j) :: k != t by {
          assert !Has(s.chain[r], t);
        }
      }
    }
    OthersStayOk(start, s, s', t);
  }

  lemma InsertKeeps(start: Start, s: State, t: nat, s': State)
    requires GoodStart(start) && Inv(start, s) && t < |s.threads| && Step(start, s, t, s')
    requires var pc := s.threads[t].pc;
      pc.Insert? || (pc.Claim? && pc.r < |s.chain| && KeyAt(start, s.chain[pc.r], t, pc.n) < |s.chain[pc.r].slots|
                     && s.chain[pc.r].slots[KeyAt(start, s.chain[pc.r], t, pc.n)].key.Some?)
    ensures Inv(start, s')
  {
    assert ThreadOk(start, s, t, s.threads[t]);
    var r, n := s.threads[t].pc.r, s.threads[t].pc.n;
    var j := KeyAt(start, s.chain[r], t, n);
    assert ArrayOk(start, s, r);
    if s.chain[r].slots[j].key.Some? {
      assert !HasAt(s.chain[r], t, j);
      StillPassing(start, s, r, t, n);
    }
    PcStep(start, s, t, s'.threads[t].pc);
  }

  lemma ClaimKeeps(start: Start, s: State, t: nat, s': State)
    requires Inv(start, s) && t < |s.threads| && s.threads[t].pc.Claim? && Step(start, s, t, s')
    requires s'.threads[t].pc.SetPtr?
    ensures Inv(start, s')
  {
    assert ThreadOk(start, s, t, s.threads[t]);
    var r, n := s.threads[t].pc.r, s.threads[t].pc.n;
    var j := KeyAt(start, s.chain[r], t, n);
    var a, a' := s.chain[r], s'.chain[r];
    assert ArrayOk(start, s, r) && !Has(a, t);
    assert forall i: nat, k: nat :: HasAt(a', k, i) <==> HasAt(a, k, i) || (k == t && i == j);
    forall i: nat, k: nat | HasAt(a', k, i) ensures Findable(start, a', k, i) {
      ClaimFindable(start, a, a', t, j, n, k, i);
    }
    assert forall i: nat :: !HasAt(a, t, i);
    ClaimedOk(start, s, s', t, r, j);
    SlotUndisturbed(s, s', t, r, j, Slot(Some(t), a.slots[j].ptr));
    OthersStayOk(start, s, s', t);
  }

  /** Writing to an empty slot, or to its own, t disturbs nobody else. */
  lemma SlotUndisturbed(s: State, s': State, t: nat, r: nat, j: nat, slot: Slot)
    requires r < |s.chain| && j < |s.chain[r].slots|
    requires s.chain[r].slots[j].key.None? || s.chain[r].slots[j].key == Some(t)
    requires slot.key == Some(t) && s'.chain == s.chain[r := s.chain[r].(slots := s.chain[r].slots[j := slot])]
    requires |s'.threads| == |s.threads| && forall u | 0 <= u < |s.threads| && u != t :: s'.threads[u] == s.threads[u]
    ensures forall u: nat | u < |s.threads| && u != t :: Undisturbed(s, s', u)
  {
    forall u: nat, q: nat | u != t && q < |s.chain| ensures ArrayKept(s.chain[q], s'.chain[q], u) {
    }
  }

  /** After slot j of array r has been claimed for t. */
  lemma ClaimedOk(start: Start, s: State, s': State, t: nat, r: nat, j: nat)
    requires ChainOk(start, s) && r < |s.chain| && t < |s.threads| && Fits(s, t, r) && !s.threads[t].pc.SetPtr?
    requires |s'.threads| == |s.threads| && s'.threads[t].pc.SetPtr? && s'.threads[t].pc.r == r
    requires j < |s.chain[r].slots|
    requires s' == Go(WithSlot(s, r, j, s.chain[r].slots[j].(key := Some(t))), t, s'.threads[t].pc)
    requires forall i: nat, k: nat :: HasAt(s'.chain[r], k, i) <==> HasAt(s.chain[r], k, i) || (k == t && i == j)
    requires forall i: nat :: !HasAt(s.chain[r], t, i)
    requires forall i: nat, k: nat | HasAt(s'.chain[r], k, i) :: Findable(start, s'.chain[r], k, i)
    ensures ChainOk(start, s')
  {
    forall q: nat | q < |s'.chain| ensures ArrayOk(start, s', q) {
      assert ArrayOk(start, s, q);
    }
  }

  lemma ClaimFindable(start: Start, a: Array, a': Array, t: nat, j: nat, n: nat, k: nat, i: nat)
    requires j < |a.slots| && a.slots[j].key.None? && a' == a.(slots := a.slots[j := a.slots[j].(key := Some(t))])
    requires j == KeyAt(start, a, t, n) && Passed(start, a, t, n) && !Has(a, t)
    requires HasAt(a', k, i) && (HasAt(a, k, i) ==> Findable(start, a, k, i))
    ensures Findable(start, a', k, i)
  {
    if k == t {
      assert HasAt(a, t, i) ==> Has(a, t);
      forall m: nat | m < n ensures Taken(a', KeyAt(start, a', t, m), t) {
        assert Taken(a, KeyAt(start, a, t, m), t);
      }
      assert Passed(start, a', t, n);
    } else {
      var m: nat :| i == KeyAt(start, a, k, m) && Passed(start, a, k, m);
      forall l: nat | l < m ensures Taken(a', KeyAt(start, a', k, l), k) {
        assert Taken(a, KeyAt(start, a, k, l), k);
      }
      assert Passed(start, a', k, m);
    }
  }

  lemma SetPtrKeeps(start: Start, s: State, t: nat, s': State)
    requires Inv(start, s) && t < |s.threads| && s.threads[t].pc.SetPtr? && Step(start, s, t, s')
    ensures Inv(start, s')
  {
    assert ThreadOk(start, s, t, s.threads[t]);
    var r, n := s.threads[t].pc.r, s.threads[t].pc.n;
    var j := KeyAt(start, s.chain[r], t, n);
    var a, a' := s.chain[r], s'.chain[r];
    assert ArrayOk(start, s, r);
    assert forall i: nat, k: nat :: HasAt(a', k, i) <==> HasAt(a, k, i);
    SameKeysFindable(start, a, a');
    assert Has(a', t);
    WrittenOk(start, s, s', t, r, j);
    SlotUndisturbed(s, s', t, r, j, Slot(Some(t), s.threads[t].pc.found));
    OthersStayOk(start, s, s', t);
  }

  lemma SameKeysFindable(start: Start, a: Array, a': Array)
    requires a'.lg == a.lg && |a'.slots| == |a.slots|
    requires forall j | 0 <= j < |a.slots| :: a'.slots[j].key == a.slots[j].key
    ensures forall k: nat, i: nat | Findable(start, a, k, i) :: Findable(start, a', k, i)
  {
    forall k: nat, i: nat | Findable(start, a, k, i) ensures Findable(start, a', k, i) {
      var m: nat :| i == KeyAt(start, a, k, m) && Passed(start, a, k, m);
      forall l: nat | l < m ensures Taken(a', KeyAt(start, a', k, l), k) {
        assert Taken(a, KeyAt(start, a, k, l), k);
      }
      assert Passed(start, a', k, m);
    }
  }

  /** After t has stored its pointer in its slot j of array r. */
  lemma WrittenOk(start: Start, s: State, s': State, t: nat, r: nat, j: nat)
    requires ChainOk(start, s) && r < |s.chain| && t < |s.threads| == |s'.threads| && HasAt(s.chain[r], t, j)
    requires s'.threads == s.threads[t := s'.threads[t]] && s'.threads[t].num == s.threads[t].num
    requires s'.threads[t].val == s.threads[t].val
    requires s.threads[t].val.Some? && s.threads[t].pc.SetPtr? && s.threads[t].pc.r == r
    requires s'.chain ==
             s.chain[r := s.chain[r].(slots := s.chain[r].slots[j := Slot(Some(t), s.threads[t].val.value)])]
    requires forall i: nat, k: nat :: HasAt(s'.chain[r], k, i) <==> HasAt(s.chain[r], k, i)
    requires forall k: nat, i: nat | Findable(start, s.chain[r], k, i) :: Findable(start, s'.chain[r], k, i)
    ensures ChainOk(start, s')
  {
    forall q: nat | q < |s'.chain| ensures ArrayOk(start, s', q) {
      assert ArrayOk(start, s, q);
    }
  }

  /** The steps that leave the chain alone and ask nothing of it. */
  lemma AloneKeeps(start: Start, s: State, t: nat, s': State)
    requires Inv(start, s) && t < |s.threads| && Step(start, s, t, s')
    requires var pc := s.threads[t].pc; pc.Idle? || pc.Create? || pc.CountUp? || pc.InsertLoad? || pc.Return?
    ensures Inv(start, s')
  {
    var me := s.threads[t];
    assert ThreadOk(start, s, t, me);
    if me.pc.Create? || me.pc.CountUp? {
      OwnStep(start, s, t, if me.pc.Create? then s.count else s.count + 1, s'.threads[t]);
    } else {
      PcStep(start, s, t, s'.threads[t].pc);
    }
  }

  lemma StepKeepsInv(start: Start, s: State, t: nat, s': State)
    requires GoodStart(start) && Inv(start, s) && t < |s.threads| && Step(start, s, t, s')
    ensures Inv(start, s')
  {
    var me := s.threads[t];
    assert ThreadOk(start, s, t, me);
    match me.pc
    case Idle => AloneKeeps(start, s, t, s');
    case Search(_, _) => SearchKeeps(start, s, t, s');
    case Matched(_, _) => MatchedKeeps(start, s, t, s');
    case Create => AloneKeeps(start, s, t, s');
    case CountUp(_) => AloneKeeps(start, s, t, s');
    case LoadRoot(_, _) => LoadRootKeeps(start, s, t, s');
    case Publish(_, _, _) => PublishKeeps(start, s, t, s');
    case InsertLoad(_) => AloneKeeps(start, s, t, s');
    case Insert(_, _, _) => InsertKeeps(start, s, t, s');
    case Claim(_, _, _) =>
      if s'.threads[t].pc.SetPtr? { ClaimKeeps(start, s, t, s'); } else { InsertKeeps(start, s, t, s'); }
    case SetPtr(_, _, _) => SetPtrKeeps(start, s, t, s');
    case Return(_) => AloneKeeps(start, s, t, s');
  }

  // ---------------------------------------------------------------- whole runs

  ghost predicate Starts(s: State) {
    s.chain == [] && s.count == 0 && forall t | 0 <= t < |s.threads| :: s.threads[t] == Thread(Idle, 0, None)
  }

  ghost predicate Moves(start: Start, s: State, s': State) {
    exists t: nat :: t < |s.threads| && Step(start, s, t, s')
  }

  ghost predicate IsRun(start: Start, run: seq<State>) {
    && run != [] && Starts(run[0])
    && forall k: nat {:trigger MovesAt(start, run, k)} | k < |run| - 1 :: MovesAt(start, run, k)
  }

  ghost predicate MovesAt(start: Start, run: seq<State>, k: nat)
    requires k < |run| - 1
  {
    Moves(start, run[k], run[k + 1])
  }

  lemma {:induction false} EveryStateIsOk(start: Start, run: seq<State>, k: nat)
    requires GoodStart(start) && IsRun(start, run) && k < |run|
    ensures Inv(start, run[k])
  {
    if k > 0 {
      EveryStateIsOk(start, run, k - 1);
      assert MovesAt(start, run, k - 1);
      var t: nat :| t < |run[k - 1].threads| && Step(start, run[k - 1], t, run[k]);
      StepKeepsInv(start, run[k - 1], t, run[k]);
    }
  }

  /** No array is ever more than half full, whatever the interleaving. */
  lemma AlwaysHalfEmpty(start: Start, run: seq<State>, k: nat, r: nat)
    requires GoodStart(start) && IsRun(start, run) && k < |run| && r < |run[k].chain|
    ensures |run[k].chain[r].slots| == SizeOf(run[k].chain[r])
    ensures |Occupied(run[k].chain[r])| <= SizeOf(run[k].chain[r]) / 2
  {
    EveryStateIsOk(start, run, k);
    assert ArrayOk(start, run[k], r);
    HalfFull(start, run[k], r);
  }

  /** So every probe loop ends: it never visits more than half of an array before it finds what it looks for. */
  lemma ProbesEnd(start: Start, run: seq<State>, k: nat, t: nat)
    requires GoodStart(start) && IsRun(start, run) && k < |run| && t < |run[k].threads|
    requires var pc := run[k].threads[t].pc; pc.Search? || pc.Insert? || pc.Claim?
    ensures var pc, s := run[k].threads[t].pc, run[k];
      pc.r < |s.chain| && pc.n <= SizeOf(s.chain[pc.r]) / 2
        && KeyAt(start, s.chain[pc.r], t, pc.n) < |s.chain[pc.r].slots|
  {
    EveryStateIsOk(start, run, k);
    var s := run[k];
    assert ThreadOk(start, s, t, s.threads[t]);
    assert ArrayOk(start, s, s.threads[t].pc.r);
  }

  /** Each root is larger than the one before. */
  lemma RootsGrow(start: Start, run: seq<State>, k: nat, a: nat, b: nat)
    requires GoodStart(start) && IsRun(start, run) && k < |run| && a < b < |run[k].chain|
    ensures run[k].chain[a].lg < run[k].chain[b].lg && SizeOf(run[k].chain[a]) < SizeOf(run[k].chain[b])
  {
    EveryStateIsOk(start, run, k);
    PowersGrow(run[k].chain[a].lg + 1, run[k].chain[b].lg);
  }

  /** A pointer, once created for a thread, is never replaced. */
  lemma {:induction false} LocalStays(start: Start, run: seq<State>, k: nat, l: nat, t: nat)
    requires GoodStart(start) && IsRun(start, run) && k <= l < |run| && t < |run[k].threads|
    requires run[k].threads[t].num > 0
    ensures t < |run[l].threads| && run[l].threads[t].val == run[k].threads[t].val
    ensures run[l].threads[t].num == run[k].threads[t].num
    decreases l - k
  {
    if k < l {
      LocalStays(start, run, k, l - 1, t);
      EveryStateIsOk(start, run, l - 1);
      assert MovesAt(start, run, l - 1);
      MoveKeepsLocal(start, run[l - 1], run[l], t);
    }
  }

  lemma MoveKeepsLocal(start: Start, s: State, s': State, t: nat)
    requires Inv(start, s) && Moves(start, s, s') && t < |s.threads| && s.threads[t].num > 0
    ensures |s'.threads| == |s.threads| && s'.threads[t].val == s.threads[t].val
    ensures s'.threads[t].num == s.threads[t].num
  {
    var u: nat :| u < |s.threads| && Step(start, s, u, s');
    StepKeepsLocal(start, s, u, s', t);
  }

  lemma StepKeepsLocal(start: Start, s: State, u: nat, s': State, t: nat)
    requires u < |s.threads| && t < |s.threads| && Step(start, s, u, s') && ThreadOk(start, s, t, s.threads[t])
    requires s.threads[t].num > 0
    ensures |s'.threads| == |s.threads| && s'.threads[t].val == s.threads[t].val
    ensures s'.threads[t].num == s.threads[t].num
  {
  }

  /** A thread gets the same pointer from every lookup, even after its key has moved to a newer array. */
  lemma SameLocalForever(start: Start, run: seq<State>, k: nat, l: nat, t: nat)
    requires GoodStart(start) && IsRun(start, run) && k <= l < |run| && t < |run[k].threads| && t < |run[l].threads|
    requires run[k].threads[t].pc.Return? && run[l].threads[t].pc.Return?
    ensures run[k].threads[t].pc.ptr == run[l].threads[t].pc.ptr
  {
    EveryStateIsOk(start, run, k);
    EveryStateIsOk(start, run, l);
    assert ThreadOk(start, run[k], t, run[k].threads[t]) && ThreadOk(start, run[l], t, run[l].threads[t]);
    LocalStays(start, run, k, l, t);
  }

  /** What a lookup returns is what create_local once returned to this thread. */
  lemma ReturnsOwn(start: Start, run: seq<State>, k: nat, t: nat)
    requires GoodStart(start) && IsRun(start, run) && k < |run| && t < |run[k].threads|
    requires run[k].threads[t].pc.Return?
    ensures run[k].threads[t].val == Some(run[k].threads[t].pc.ptr)
  {
    EveryStateIsOk(start, run, k);
    assert ThreadOk(start, run[k], t, run[k].threads[t]);
  }

  // ---------------------------------------------------------------- every lookup ends

  function Phase(pc: Pc): nat {
    match pc
    case Idle => 10
    case Search(_, _) => 9
    case Matched(_, _) => 8
    case Create => 7
    case CountUp(_) => 6
    case LoadRoot(_, _) => 5
    case Publish(_, _, _) => 4
    case InsertLoad(_) => 3
    case Insert(_, _, _) => 2
    case Claim(_, _, _) => 2
    case SetPtr(_, _, _) => 1
    case Return(_) => 0
  }

  /** Within a phase: arrays still to search, or slots still to probe. */
  function Left(s: State, pc: Pc): int {
    match pc
    case Search(r, _) => r
    case Publish(_, seen, _) => if Root(s) == seen then 0 else 1
    case Insert(r, n, _) => if r < |s.chain| then 2 * (SizeOf(s.chain[r]) - n) + 1 else 0
    case Claim(r, n, _) => if r < |s.chain| then 2 * (SizeOf(s.chain[r]) - n) else 0
    case _ => 0
  }

  function SlotsLeft(s: State, pc: Pc): int {
    match pc
    case Search(r, n) => if r < |s.chain| then SizeOf(s.chain[r]) - n else 0
    case _ => 0
  }

  /** Thread t is nearer to the end of its lookup. */
  ghost predicate Nearer(s: State, pc: Pc, s': State, pc': Pc) {
    || Phase(pc') < Phase(pc)
    || (Phase(pc') == Phase(pc) && Left(s', pc') < Left(s, pc))
    || (Phase(pc') == Phase(pc) && Left(s', pc') == Left(s, pc) && SlotsLeft(s', pc') < SlotsLeft(s, pc))
  }

  /** Whatever the others have done, a thread in a lookup can go on, and comes nearer to its end. */
  lemma NextOf(start: Start, s: State, t: nat) returns (s': State)
    requires GoodStart(start) && Inv(start, s) && t < |s.threads| && !s.threads[t].pc.Return?
    ensures Step(start, s, t, s') && Nearer(s, s.threads[t].pc, s', s'.threads[t].pc)
  {
    var me := s.threads[t];
    assert ThreadOk(start, s, t, me);
    match me.pc {
      case Search(r, n) =>
        assert ArrayOk(start, s, r);
        s' := SearchOne(start, s, t, r, n);
      case Matched(r, n) =>
        assert ArrayOk(start, s, r);
        s' := MatchedOne(start, s, t, r, n);
      case Insert(r, n, found) =>
        assert ArrayOk(start, s, r);
        s' := InsertOne(start, s, t, r, n, found);
      case Claim(r, n, found) =>
        assert ArrayOk(start, s, r);
        s' := ClaimOne(start, s, t, r, n, found);
      case SetPtr(r, n, found) =>
        assert ArrayOk(start, s, r);
        s' := SetPtrOne(start, s, t, r, n, found);
      case _ => s' := NextOfOther(start, s, t);
    }
  }

  lemma MatchedOne(start: Start, s: State, t: nat, r: nat, n: nat) returns (s': State)
    requires t < |s.threads| && s.threads[t].pc == Matched(r, n)
    requires r < |s.chain| && KeyAt(start, s.chain[r], t, n) < |s.chain[r].slots|
    ensures Step(start, s, t, s') && Nearer(s, s.threads[t].pc, s', s'.threads[t].pc)
  {
    var slot := s.chain[r].slots[KeyAt(start, s.chain[r], t, n)];
    s' := Go(s, t, if Root(s) == Some(r) then Return(slot.ptr) else InsertLoad(slot.ptr));
  }

  lemma InsertOne(start: Start, s: State, t: nat, r: nat, n: nat, found: Local) returns (s': State)
    requires t < |s.threads| && s.threads[t].pc == Insert(r, n, found)
    requires r < |s.chain| && KeyAt(start, s.chain[r], t, n) < |s.chain[r].slots|
    ensures Step(start, s, t, s') && Nearer(s, s.threads[t].pc, s', s'.threads[t].pc)
  {
    s' := Go(s, t, if s.chain[r].slots[KeyAt(start, s.chain[r], t, n)].key.None? then Claim(r, n, found)
                   else Insert(r, n + 1, found));
  }

  lemma SetPtrOne(start: Start, s: State, t: nat, r: nat, n: nat, found: Local) returns (s': State)
    requires t < |s.threads| && s.threads[t].pc == SetPtr(r, n, found)
    requires r < |s.chain| && KeyAt(start, s.chain[r], t, n) < |s.chain[r].slots|
    ensures Step(start, s, t, s') && Nearer(s, s.threads[t].pc, s', s'.threads[t].pc)
  {
    var j := KeyAt(start, s.chain[r], t, n);
    s' := Go(WithSlot(s, r, j, s.chain[r].slots[j].(ptr := found)), t, Return(found));
  }

  lemma SearchOne(start: Start, s: State, t: nat, r: nat, n: nat) returns (s': State)
    requires t < |s.threads| && s.threads[t].pc == Search(r, n)
    requires r < |s.chain| && KeyAt(start, s.chain[r], t, n) < |s.chain[r].slots|
    ensures Step(start, s, t, s') && Nearer(s, s.threads[t].pc, s', s'.threads[t].pc)
  {
    var slot := s.chain[r].slots[KeyAt(start, s.chain[r], t, n)];
    s' := Go(s, t, if slot.key.None? then (if r == 0 then Create else Search(r - 1, 0))
                   else if slot.key == Some(t) then Matched(r, n) else Search(r, n + 1));
  }

  lemma ClaimOne(start: Start, s: State, t: nat, r: nat, n: nat, found: Local) returns (s': State)
    requires t < |s.threads| && s.threads[t].pc == Claim(r, n, found)
    requires r < |s.chain| && KeyAt(start, s.chain[r], t, n) < |s.chain[r].slots|
    ensures Step(start, s, t, s') && Nearer(s, s.threads[t].pc, s', s'.threads[t].pc)
  {
    var j := KeyAt(start, s.chain[r], t, n);
    if s.chain[r].slots[j].key.None? {
      s' := Go(WithSlot(s, r, j, s.chain[r].slots[j].(key := Some(t))), t, SetPtr(r, n, found));
    } else {
      s' := Go(s, t, Insert(r, n + 1, found));
    }
  }

  lemma NextOfOther(start: Start, s: State, t: nat) returns (s': State)
    requires Inv(start, s) && t < |s.threads|
    requires var pc := s.threads[t].pc;
             pc.Idle? || pc.Create? || pc.CountUp? || pc.LoadRoot? || pc.Publish? || pc.InsertLoad?
    ensures Step(start, s, t, s')
    ensures Nearer(s, s.threads[t].pc, s', s'.threads[t].pc)
  {
    var me := s.threads[t];
    assert ThreadOk(start, s, t, me);
    match me.pc {
      case Idle => s' := Go(s, t, if Root(s).None? then Create else Search(Root(s).value, 0));
      case Create => s' := s.(threads := s.threads[t := Thread(CountUp(0), me.num, Some(0))]);
      case CountUp(found) =>
        s' := s.(count := s.count + 1,
                 threads := s.threads[t := Thread(LoadRoot(s.count + 1, found), s.count + 1, me.val)]);
      case LoadRoot(c, found) =>
        if Root(s).None? {
          s' := Go(s, t, Publish(GrownLg(2, c), None, found));
        } else {
          var lg := s.chain[Root(s).value].lg;
          s' := Go(s, t, if c > Pow2(lg) / 2 then Publish(GrownLg(lg, c), Root(s), found) else InsertLoad(found));
        }
      case Publish(lg, seen, found) =>
        if Root(s) == seen {
          s' := Go(s.(chain := s.chain + [Array(lg, seq(Pow2(lg), _ => Slot(None, 0)))]), t, InsertLoad(found));
        } else {
          s' := Go(s, t, if s.chain[Root(s).value].lg >= lg then InsertLoad(found) else Publish(lg, Root(s), found));
        }
      case InsertLoad(found) => s' := Go(s, t, Insert(Root(s).value, 0, found));
    }
  }

  lemma MeasureIsNat(start: Start, s: State, t: nat)
    requires Inv(start, s) && t < |s.threads|
    ensures Left(s, s.threads[t].pc) >= 0 && SlotsLeft(s, s.threads[t].pc) >= 0
  {
    assert ThreadOk(start, s, t, s.threads[t]);
  }

  lemma LongerRun(start: Start, run: seq<State>, t: nat, s': State)
    requires IsRun(start, run) && t < |run[|run| - 1].threads| && Step(start, run[|run| - 1], t, s')
    ensures IsRun(start, run + [s'])
    ensures var before, after := run[|run| - 1].threads, s'.threads;
            |after| == |before| && after == before[t := after[t]]
  {
    var longer := run + [s'];
    forall k: nat | k < |longer| - 1 ensures MovesAt(start, longer, k) {
      assert k < |run| - 1 ==> MovesAt(start, run, k);
      assert k == |run| - 1 ==> Moves(start, run[|run| - 1], s');
    }
  }

  /** Every run can be continued until a given thread returns its pointer, and by that thread alone. */
  lemma {:induction false} LookupCompletes(start: Start, run: seq<State>, t: nat) returns (full: seq<State>)
    requires GoodStart(start) && IsRun(start, run) && t < |run[|run| - 1].threads|
    ensures IsRun(start, full) && run <= full
    ensures var before, after := run[|run| - 1].threads, full[|full| - 1].threads;
            |after| == |before| && after[t].pc.Return? && after == before[t := after[t]]
    decreases Phase(run[|run| - 1].threads[t].pc), Left(run[|run| - 1], run[|run| - 1].threads[t].pc),
              SlotsLeft(run[|run| - 1], run[|run| - 1].threads[t].pc)
  {
    var s := run[|run| - 1];
    full := run;
    if !s.threads[t].pc.Return? {
      EveryStateIsOk(start, run, |run| - 1);
      MeasureIsNat(start, s, t);
      var s' := NextOf(start, s, t);
      LongerRun(start, run, t, s');
      full := LookupCompletes(start, run + [s'], t);
    }
  }

  // ---------------------------------------------------------------- the hash shift

  function ShiftRight(h: nat, n: nat): nat {
    if n == 0 then h else ShiftRight(h / 2, n - 1)
  }

  /** array::start: the top lg bits of a hash of `bits` bits lie within an array of that size. */
  lemma {:induction false} TopBitsFit(h: nat, bits: nat, lg: nat)
    requires h < Pow2(bits) && lg <= bits
    ensures ShiftRight(h, bits - lg) < Pow2(lg)
    decreases bits
  {
    if lg < bits {
      TopBitsFit(h / 2, bits - 1, lg);
    }
  }

  /** So the code's start is a good one, for any hash of that many bits. */
  lemma ShiftIsGoodStart(hash: nat -> nat, bits: nat, start: Start)
    requires forall k: nat :: hash(k) < Pow2(bits)
    requires forall k: nat, lg: nat :: start(k, lg) == if lg <= bits then ShiftRight(hash(k), bits - lg) else 0
    ensures GoodStart(start)
  {
    forall k: nat, lg: nat ensures start(k, lg) < Pow2(lg) {
      if lg <= bits {
        TopBitsFit(hash(k), bits, lg);
      }
    }
  }
}
