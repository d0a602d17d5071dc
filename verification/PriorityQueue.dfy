/**
 The batched priority queue (include/oneapi/tbb/concurrent_priority_queue.h): a binary heap followed
 by elements that were pushed but not yet merged into it. One thread at a time handles a batch of
 concurrent operations.
 */
module PriorityQueue {

  datatype Op<T> = Push(value: T) | Pop

  datatype Outcome<T> = Waiting | Stored | Popped(value: T) | Failed

  // ---------------------------------------------------------------- the ideal queue

  ghost predicate StrictWeakOrder<T(!new)>(less: (T, T) -> bool) {
    && (forall a :: !less(a, a))
    && (forall a, b, c :: less(a, b) && less(b, c) ==> less(a, c))
    && (forall a, b, c :: !less(a, b) && !less(b, c) ==> !less(a, c))
  }

  /** What an ideal max-priority queue holding q may answer. */
  ghost predicate Allowed<T>(less: (T, T) -> bool, q: multiset<T>, op: Op<T>, out: Outcome<T>) {
    match op
    case Push(_) => out.Stored?
    case Pop =>
      || (out.Failed? && q == multiset{})
      || (out.Popped? && out.value in q && forall y | y in q :: !less(out.value, y))
  }

  ghost function Effect<T>(q: multiset<T>, op: Op<T>, out: Outcome<T>): multiset<T> {
    match op
    case Push(v) => q + multiset{v}
    case Pop => if out.Popped? then q - multiset{out.value} else q
  }

  ghost predicate Indices(order: seq<nat>, n: nat) {
    forall k | 0 <= k < |order| :: order[k] < n
  }

  /** The ideal queue after the operations named by order, in that order. */
  ghost function Content<T>(q: multiset<T>, ops: seq<Op<T>>, outs: seq<Outcome<T>>, order: seq<nat>): multiset<T>
    requires |outs| == |ops| && Indices(order, |ops|)
  {
    if order == [] then q
    else
      var last := order[|order| - 1];
      Effect(Content(q, ops, outs, order[..|order| - 1]), ops[last], outs[last])
  }

  ghost predicate Legal<T>(less: (T, T) -> bool, q: multiset<T>, ops: seq<Op<T>>, outs: seq<Outcome<T>>,
                           order: seq<nat>)
    requires |outs| == |ops| && Indices(order, |ops|)
  {
    order == [] ||
    var init, last := order[..|order| - 1], order[|order| - 1];
    Legal(less, q, ops, outs, init) && Allowed(less, Content(q, ops, outs, init), ops[last], outs[last])
  }

  ghost function UpTo(n: nat): multiset<nat> {
    if n == 0 then multiset{} else UpTo(n - 1) + multiset{n - 1}
  }

  /** Some order of all the operations makes the outcomes those of an ideal queue going from q to q'. */
  ghost predicate Linearizable<T>(less: (T, T) -> bool, q: multiset<T>, ops: seq<Op<T>>, outs: seq<Outcome<T>>,
                                  q': multiset<T>) {
    |outs| == |ops| &&
    exists order: seq<nat> :: Witnesses(less, q, ops, outs, q', order)
  }

  ghost predicate Witnesses<T>(less: (T, T) -> bool, q: multiset<T>, ops: seq<Op<T>>, outs: seq<Outcome<T>>,
                               q': multiset<T>, order: seq<nat>)
    requires |outs| == |ops|
  {
    && Indices(order, |ops|) && multiset(order) == UpTo(|ops|)
    && Legal(less, q, ops, outs, order) && Content(q, ops, outs, order) == q'
  }

  /** Outcomes of operations outside the order do not matter. */
  lemma {:induction false} LegalFrame<T>(less: (T, T) -> bool, q: multiset<T>, ops: seq<Op<T>>, outs: seq<Outcome<T>>,
                                         outs': seq<Outcome<T>>, order: seq<nat>)
    requires |outs| == |ops| == |outs'| && Indices(order, |ops|)
    requires forall k | 0 <= k < |order| :: outs'[order[k]] == outs[order[k]]
    ensures Content(q, ops, outs', order) == Content(q, ops, outs, order)
    ensures Legal(less, q, ops, outs', order) == Legal(less, q, ops, outs, order)
  {
    if order != [] {
      LegalFrame(less, q, ops, outs, outs', order[..|order| - 1]);
    }
  }

  lemma LegalExtends<T>(less: (T, T) -> bool, q: multiset<T>, ops: seq<Op<T>>, outs: seq<Outcome<T>>, order: seq<nat>,
                        k: nat)
    requires |outs| == |ops| && Indices(order, |ops|) && k < |ops|
    requires Legal(less, q, ops, outs, order) && Allowed(less, Content(q, ops, outs, order), ops[k], outs[k])
    ensures Indices(order + [k], |ops|) && Legal(less, q, ops, outs, order + [k])
    ensures Content(q, ops, outs, order + [k]) == Effect(Content(q, ops, outs, order), ops[k], outs[k])
  {
    assert (order + [k])[..|order|] == order;
  }

  lemma NothingAbove<T(!new)>(less: (T, T) -> bool, a: T, b: T, c: T)
    requires StrictWeakOrder(less) && less(a, b) && !less(a, c)
    ensures !less(b, c)
  {
  }

  // ---------------------------------------------------------------- the heap

  /** The element at i is not above its parent. */
  ghost predicate Below<T>(less: (T, T) -> bool, d: seq<T>, i: int) {
    0 < i < |d| ==> !less(d[(i - 1) / 2], d[i])
  }

  ghost predicate Heap<T>(less: (T, T) -> bool, d: seq<T>, n: nat) {
    n <= |d| && forall i | 1 <= i < n :: Below(less, d, i)
  }

  lemma {:induction false} RootIsTop<T(!new)>(less: (T, T) -> bool, d: seq<T>, n: nat, i: nat)
    requires StrictWeakOrder(less) && Heap(less, d, n) && i < n
    ensures !less(d[0], d[i])
  {
    if i > 0 {
      RootIsTop(less, d, n, (i - 1) / 2);
      assert Below(less, d, i);
    }
  }

  /** The parent of cur is above the children of cur. */
  ghost predicate Spans<T>(less: (T, T) -> bool, d: seq<T>, n: nat, cur: nat)
    requires cur < |d| && n <= |d|
  {
    cur > 0 ==> forall i | 1 <= i < n && (i - 1) / 2 == cur :: !less(d[(cur - 1) / 2], d[i])
  }

  /** With x put at cur, d is a heap up to n except between cur and its children. */
  ghost predicate HeapButBelow<T>(less: (T, T) -> bool, d: seq<T>, n: nat, cur: nat, x: T) {
    && cur < |d| && n <= |d| && Spans(less, d, n, cur)
    && var e := d[cur := x]; forall i | 1 <= i < n && (i - 1) / 2 != cur :: Below(less, e, i)
  }

  /** With x put at cur, d is a heap up to n except between cur and its parent. */
  ghost predicate HeapButAbove<T>(less: (T, T) -> bool, d: seq<T>, n: nat, cur: nat, x: T) {
    && cur < n <= |d| && Spans(less, d, n, cur)
    && var e := d[cur := x]; forall i | 1 <= i < n && i != cur :: Below(less, e, i)
  }

  /** target is a child of cur with the highest priority. */
  ghost predicate Higher<T>(less: (T, T) -> bool, d: seq<T>, n: nat, cur: nat, target: nat) {
    && 2 * cur + 1 <= target <= 2 * cur + 2 && target < n <= |d|
    && forall i | 2 * cur + 1 <= i <= 2 * cur + 2 && i < n :: !less(d[target], d[i])
  }

  lemma MovingDown<T(!new)>(less: (T, T) -> bool, d: seq<T>, n: nat, cur: nat, x: T, target: nat)
    requires StrictWeakOrder(less) && HeapButBelow(less, d, n, cur, x)
    requires Higher(less, d, n, cur, target) && !less(d[target], x)
    ensures HeapButBelow(less, d[cur := d[target]], n, target, x)
  {
    var e := d[cur := x];
    var d' := d[cur := d[target]];
    var e' := d'[target := x];
    forall i | 1 <= i < n && (i - 1) / 2 != target ensures Below(less, e', i) {
      assert (i - 1) / 2 != cur ==> Below(less, e, i);
      if i == target {
      } else if i == cur {
      } else if (i - 1) / 2 == cur {
      }
    }
    forall i | 1 <= i < n && (i - 1) / 2 == target ensures !less(d'[(target - 1) / 2], d'[i]) {
      assert Below(less, e, i);
    }
  }

  lemma MovingUp<T(!new)>(less: (T, T) -> bool, d: seq<T>, n: nat, cur: nat, x: T)
    requires StrictWeakOrder(less) && HeapButAbove(less, d, n, cur, x) && cur > 0 && less(d[(cur - 1) / 2], x)
    ensures HeapButAbove(less, d[cur := d[(cur - 1) / 2]], n, (cur - 1) / 2, x)
  {
    var p := (cur - 1) / 2;
    var e := d[cur := x];
    var d' := d[cur := d[p]];
    var e' := d'[p := x];
    forall i | 1 <= i < n && i != p ensures Below(less, e', i) {
      assert i != cur ==> Below(less, e, i);
    }
    if p > 0 {
      assert Below(less, e, p);
      forall i | 1 <= i < n && (i - 1) / 2 == p ensures !less(d'[(p - 1) / 2], d'[i]) {
        assert i != cur ==> Below(less, e, i);
      }
    }
  }

  /** Moving d[j] to position i and putting x at j is the same, up to order, as putting x at i. */
  lemma HoleMoves<T>(d: seq<T>, n: nat, i: nat, j: nat, x: T)
    requires i < n <= |d| && j < n && i != j
    ensures multiset(d[i := d[j]][j := x][..n]) == multiset(d[i := x][..n])
  {
    var a := d[..n];
    assert d[i := d[j]][j := x][..n] == a[i := d[j]][j := x];
    assert d[i := x][..n] == a[i := x];
  }

  /** The state of the loop that moves x up in d0 towards its place: d with a hole at cur. */
  ghost predicate Rising<T>(less: (T, T) -> bool, d0: seq<T>, n: nat, d: seq<T>, cur: nat, x: T) {
    && |d| == |d0| && cur < |d| && HeapButAbove(less, d, n, cur, x)
    && multiset(d[cur := x]) == multiset(d0)
  }

  lemma RisingStarts<T(!new)>(less: (T, T) -> bool, d: seq<T>, n: nat)
    requires StrictWeakOrder(less) && 0 < n < |d| && Heap(less, d, n)
    ensures Rising(less, d, n + 1, d, n, d[n])
  {
    assert d[n := d[n]] == d;
  }

  lemma Rises<T(!new)>(less: (T, T) -> bool, d0: seq<T>, n: nat, d: seq<T>, cur: nat, x: T)
    requires StrictWeakOrder(less) && Rising(less, d0, n, d, cur, x) && cur > 0 && less(d[(cur - 1) / 2], x)
    ensures Rising(less, d0, n, d[cur := d[(cur - 1) / 2]], (cur - 1) / 2, x)
  {
    var p := (cur - 1) / 2;
    MovingUp(less, d, n, cur, x);
    HoleMoves(d, |d|, cur, p, x);
    assert d[cur := d[p]][p := x][..|d|] == d[cur := d[p]][p := x];
    assert d[cur := x][..|d|] == d[cur := x];
  }

  lemma Risen<T(!new)>(less: (T, T) -> bool, d0: seq<T>, n: nat, d: seq<T>, cur: nat, x: T)
    requires StrictWeakOrder(less) && Rising(less, d0, n, d, cur, x) && (cur > 0 ==> !less(d[(cur - 1) / 2], x))
    ensures Heap(less, d[cur := x], n) && multiset(d[cur := x]) == multiset(d0)
  {
    var e := d[cur := x];
    forall i | 1 <= i < n ensures Below(less, e, i) {
      if i == cur { assert e[(cur - 1) / 2] == d[(cur - 1) / 2]; }
    }
  }

  /** The state of the loop that moves the last element of d0 down from the root of the heap: d with a hole at cur. */
  ghost predicate Sinking<T>(less: (T, T) -> bool, d0: seq<T>, n: nat, d: seq<T>, cur: nat)
    requires d0 != [] && n <= |d0|
  {
    var x := d0[|d0| - 1];
    && |d| == |d0| && cur < |d| && d[|d| - 1] == x && d[n..] == d0[n..] && HeapButBelow(less, d, n, cur, x)
    && (if n == 0 then d == d0 && cur == 0
        else cur < n && multiset(d[cur := x][..n]) == multiset(d0[0 := x][..n]))
  }

  lemma Sinks<T(!new)>(less: (T, T) -> bool, d0: seq<T>, n: nat, d: seq<T>, cur: nat, target: nat)
    requires d0 != [] && n <= |d0| && StrictWeakOrder(less) && Sinking(less, d0, n, d, cur)
    requires Higher(less, d, n, cur, target) && !less(d[target], d[|d| - 1])
    ensures Sinking(less, d0, n, d[cur := d[target]], target)
  {
    var x := d0[|d0| - 1];
    MovingDown(less, d, n, cur, x, target);
    HoleMoves(d, n, cur, target, x);
    assert d[cur := d[target]][n..] == d[n..];
  }

  lemma Replaced<T>(a: seq<T>, x: T)
    requires a != []
    ensures multiset(a[0 := x]) == multiset(a) - multiset{a[0]} + multiset{x}
  {
    assert a == [a[0]] + a[1..] && a[0 := x] == [x] + a[1..];
  }

  lemma SunkHeap<T(!new)>(less: (T, T) -> bool, d0: seq<T>, n: nat, d: seq<T>, cur: nat)
    requires d0 != [] && n <= |d0| && StrictWeakOrder(less) && Sinking(less, d0, n, d, cur)
    requires FitsAt(less, d, n, cur)
    ensures Heap(less, d[cur := d[|d| - 1]][..|d| - 1], if n == |d| then n - 1 else n)
  {
    var e := d[cur := d[|d| - 1]];
    var d' := e[..|e| - 1];
    forall i | 1 <= i < n && i < |d'| ensures Below(less, d', i) {
      if (i - 1) / 2 == cur {
        assert e[i] == d[i];
      } else {
        assert Below(less, e, i);
      }
    }
  }

  lemma WithLast<T>(a: seq<T>)
    requires a != []
    ensures multiset(a) == multiset(a[..|a| - 1]) + multiset{a[|a| - 1]}
  {
    assert a == a[..|a| - 1] + [a[|a| - 1]];
  }

  /** Putting the last element in place of the first and dropping it at the end removes the first. */
  lemma SunkAll<T>(d0: seq<T>, d: seq<T>, e: seq<T>)
    requires d0 != [] && |d| == |d0| == |e| && e[|e| - 1] == d0[|d0| - 1]
    requires multiset(e[..|e|]) == multiset(d0[0 := d0[|d0| - 1]][..|e|])
    ensures multiset(e[..|e| - 1]) == multiset(d0) - multiset{d0[0]}
  {
    var back := d0[|d0| - 1];
    assert e[..|e|] == e && d0[0 := back][..|e|] == d0[0 := back];
    Replaced(d0, back);
    WithLast(e);
    assert d0[0] in multiset(d0);
    Shifted(multiset(e[..|e| - 1]), multiset(d0), back, d0[0]);
  }

  lemma Shifted<T>(a: multiset<T>, b: multiset<T>, x: T, y: T)
    requires a + multiset{x} == b - multiset{y} + multiset{x}
    ensures a == b - multiset{y}
  {
    assert a == a + multiset{x} - multiset{x};
  }

  /** The hole is where the last element belongs. */
  lemma Sunk<T(!new)>(less: (T, T) -> bool, d0: seq<T>, n: nat, d: seq<T>, cur: nat)
    requires d0 != [] && n <= |d0| && StrictWeakOrder(less) && Sinking(less, d0, n, d, cur)
    requires FitsAt(less, d, n, cur)
    ensures RootRemoved(less, d0, n, d[cur := d[|d| - 1]][..|d| - 1], if n == |d| then n - 1 else n)
  {
    SunkHeap(less, d0, n, d, cur);
    SunkElements(d0, n, d, cur);
  }

  lemma SunkElements<T>(d0: seq<T>, n: nat, d: seq<T>, cur: nat)
    requires d0 != [] && n <= |d0| == |d| && cur < |d| && d[|d| - 1] == d0[|d0| - 1] && d[n..] == d0[n..]
    requires if n == 0 then d == d0 && cur == 0
             else cur < n && multiset(d[cur := d0[|d0| - 1]][..n]) == multiset(d0[0 := d0[|d0| - 1]][..n])
    ensures var back, d' := d0[|d0| - 1], d[cur := d[|d| - 1]][..|d| - 1];
            && (n == 0 ==> d' == d0[0 := back][..|d0| - 1])
            && (0 < n < |d0| ==>
                d'[n..] == d0[n..|d0| - 1] && multiset(d'[..n]) == multiset(d0[..n]) - multiset{d0[0]} + multiset{back})
            && (n == |d0| ==> multiset(d') == multiset(d0) - multiset{d0[0]})
  {
    var e := d[cur := d0[|d0| - 1]];
    if n == |d| {
      SunkAll(d0, d, e);
    } else if n > 0 {
      assert e[n..] == d[n..];
      SunkPart(d0, n, d, e);
    }
  }

  lemma SunkPart<T>(d0: seq<T>, n: nat, d: seq<T>, e: seq<T>)
    requires 0 < n < |d0| == |d| == |e| && d[n..] == d0[n..] && e[n..] == d[n..]
    requires multiset(e[..n]) == multiset(d0[0 := d0[|d0| - 1]][..n])
    ensures var d' := e[..|e| - 1];
      d'[n..] == d0[n..|d0| - 1] && multiset(d'[..n]) == multiset(d0[..n]) - multiset{d0[0]} + multiset{d0[|d0| - 1]}
  {
    var back := d0[|d0| - 1];
    var d' := e[..|e| - 1];
    Replaced(d0[..n], back);
    assert d0[0 := back][..n] == d0[..n][0 := back];
    assert d'[..n] == e[..n];
    assert d'[n..] == e[n..][..|e| - 1 - n] == d0[n..][..|e| - 1 - n];
  }

  /**
   The root of d has been removed. If other elements wait behind the heap, the last of them has taken
   its place in the heap; if there is no heap, it has just taken the root's position.
   */
  ghost predicate RootRemoved<T>(less: (T, T) -> bool, d: seq<T>, n: nat, d': seq<T>, n': nat)
    requires n <= |d| && d != []
  {
    var back := d[|d| - 1];
    && |d'| == |d| - 1 && n' == (if n == |d| then n - 1 else n) && Heap(less, d', n')
    && (n == 0 ==> d' == d[0 := back][..|d| - 1])
    && (0 < n < |d| ==>
        d'[n..] == d[n..|d| - 1] && multiset(d'[..n]) == multiset(d[..n]) - multiset{d[0]} + multiset{back})
    && (n == |d| ==> multiset(d') == multiset(d) - multiset{d[0]})
  }

  class ConcurrentPriorityQueue<T(!new, ==)> {
    const less: (T, T) -> bool
    var data: seq<T>
    /** Where the elements not yet merged into the heap begin. */
    var mark: nat
    var size: nat

    ghost predicate Valid()
      reads this
    {
      StrictWeakOrder(less) && mark == |data| == size && Heap(less, data, mark)
    }

    constructor (less: (T, T) -> bool)
      requires StrictWeakOrder(less)
      ensures Valid() && data == [] && this.less == less
    {
      this.less := less;
      data, mark, size := [], 0, 0;
    }

    /** Merge the elements behind the heap into it. */
    method Heapify()
      requires StrictWeakOrder(less) && mark <= |data| && Heap(less, data, mark)
      modifies this`data, this`mark
      ensures mark == |data| && Heap(less, data, mark) && multiset(data) == multiset(old(data))
    {
      if mark == 0 && |data| > 0 {
        mark := 1;
      }
      while mark < |data|
        invariant mark <= |data| && Heap(less, data, mark) && multiset(data) == multiset(old(data))
        invariant |data| > 0 ==> mark > 0
        decreases |data| - mark
      {
        SiftUp();
        mark := mark + 1;
      }
    }

    method SiftUp()
      requires StrictWeakOrder(less) && 0 < mark < |data| && Heap(less, data, mark)
      modifies this`data
      ensures |data| == |old(data)| && Heap(less, data, mark + 1) && multiset(data) == multiset(old(data))
    {
      var cur := mark;
      var placed := data[mark];
      ghost var before := data;
      RisingStarts(less, data, mark);
      while true
        invariant 0 < cur && Rising(less, before, mark + 1, data, cur, placed)
        decreases cur
      {
        var parent := (cur - 1) / 2;
        if !less(data[parent], placed) {
          break;
        }
        Rises(less, before, mark + 1, data, cur, placed);
        data := data[cur := data[parent]];
        cur := parent;
        if cur == 0 {
          break;
        }
      }
      Risen(less, before, mark + 1, data, cur, placed);
      data := data[cur := placed];
    }

    method HigherChild(cur: nat) returns (target: nat)
      requires StrictWeakOrder(less) && 2 * cur + 1 < mark <= |data|
      ensures Higher(less, data, mark, cur, target)
    {
      target := 2 * cur + 1;
      if target + 1 < mark && less(data[target], data[target + 1]) {
        target := target + 1;
      }
    }

    /** The position for the last element, once what must go up on the way from the root has gone up. */
    method SiftDown() returns (cur: nat)
      requires StrictWeakOrder(less) && mark <= |data| && Heap(less, data, mark) && data != []
      modifies this`data
      ensures Sinking(less, old(data), mark, data, cur) && FitsAt(less, data, mark, cur)
    {
      cur := 0;
      var child := 1;
      ghost var before := data;
      SinkingStarts(less, data, mark);
      while child < mark
        invariant child == 2 * cur + 1 && Sinking(less, before, mark, data, cur)
        decreases mark - child
      {
        var target := HigherChild(cur);
        if less(data[target], data[|data| - 1]) {
          Settles(less, data, mark, cur, target);
          return;
        }
        Sinks(less, before, mark, data, cur, target);
        data := data[cur := data[target]];
        cur := target;
        child := 2 * cur + 1;
      }
    }

    /** After the root was taken: push the last element down from it. */
    method Reheap()
      requires StrictWeakOrder(less) && mark <= |data| && Heap(less, data, mark) && data != []
      modifies this`data, this`mark
      ensures RootRemoved(less, old(data), old(mark), data, mark)
    {
      ghost var before, n := data, mark;
      var cur := SiftDown();
      ghost var sunk := data;
      Sunk(less, before, n, sunk, cur);
      MoveLast(cur);
      assert data == sunk[cur := sunk[|sunk| - 1]][..|sunk| - 1];
    }

    /** Answer one postponed pop. */
    method AnswerPop() returns (out: Outcome<T>)
      requires StrictWeakOrder(less) && mark <= |data| && Heap(less, data, mark) && size == |data|
      modifies this`data, this`mark, this`size
      ensures PopAnswered(less, old(data), old(mark), data, mark, out) && size == |data|
    {
      if data == [] {
        return Failed;
      }
      size := size - 1;
      if mark < |data| && less(data[0], data[|data| - 1]) {
        // There are newly pushed elements and the last one is higher than the top.
        out := Popped(data[|data| - 1]);
        data := data[..|data| - 1];
      } else {
        out := Popped(data[0]);
        Reheap();
      }
    }

    /** First pass, a pop: answered at once if the last element is higher than the top, postponed otherwise. */
    method TakePop(ghost q: multiset<T>, ops: seq<Op<T>>, outs: seq<Outcome<T>>, ghost h: History, late: seq<nat>,
                   i: nat)
      returns (outs': seq<Outcome<T>>, ghost h': History, late': seq<nat>)
      requires InBatch(less, q, ops, outs, h, late, i, data, mark) && size == |data| && StrictWeakOrder(less)
      requires i < |ops| && ops[i].Pop?
      modifies this`data, this`size
      ensures InBatch(less, q, ops, outs', h', late', i + 1, data, mark) && size == |data|
    {
      if mark < |data| && less(data[0], data[|data| - 1]) {
        outs', h' := TakeLast(q, ops, outs, h, late, i);
        late' := late;
      } else {
        Postponing(less, q, ops, outs, h, late, i, data, mark);
        outs', h', late' := outs, h, [i] + late;
      }
    }

    method TakeLast(ghost q: multiset<T>, ops: seq<Op<T>>, outs: seq<Outcome<T>>, ghost h: History,
                    ghost late: seq<nat>, i: nat)
      returns (outs': seq<Outcome<T>>, ghost h': History)
      requires InBatch(less, q, ops, outs, h, late, i, data, mark) && size == |data| && StrictWeakOrder(less)
      requires i < |ops| && ops[i].Pop? && mark < |data| && less(data[0], data[|data| - 1])
      modifies this`data, this`size
      ensures InBatch(less, q, ops, outs', h', late, i + 1, data, mark) && size == |data|
    {
      AnsweringAtOnce(less, q, ops, outs, h, late, i, data, mark);
      outs', h' := outs[i := Popped(data[|data| - 1])], Ordered(h, i, data, mark, less);
      size := size - 1;
      data := data[..|data| - 1];
    }

    /** First pass, a push: the element goes behind the heap. */
    method TakePush(ghost q: multiset<T>, ops: seq<Op<T>>, outs: seq<Outcome<T>>, ghost h: History,
                    ghost late: seq<nat>, i: nat, value: T)
      returns (outs': seq<Outcome<T>>, ghost h': History)
      requires InBatch(less, q, ops, outs, h, late, i, data, mark) && size == |data|
      requires i < |ops| && ops[i] == Push(value)
      modifies this`data, this`size
      ensures InBatch(less, q, ops, outs', h', late, i + 1, data, mark) && size == |data|
    {
      Arriving(less, q, ops, outs, h, late, i, data, mark);
      data := data + [value];
      size := size + 1;
      outs', h' := outs[i := Stored], h.(tail := h.tail + [i]);
    }

    method FirstPass(ghost q: multiset<T>, ops: seq<Op<T>>, outs0: seq<Outcome<T>>)
      returns (outs: seq<Outcome<T>>, ghost h: History, late: seq<nat>)
      requires Valid() && q == multiset(data) && |outs0| == |ops|
      modifies this`data, this`size
      ensures InBatch(less, q, ops, outs, h, late, |ops|, data, mark) && size == |data|
    {
      outs, h, late := outs0, History([], []), [];
      Beginning(less, q, ops, outs, data);
      var i := 0;
      while i < |ops|
        invariant 0 <= i <= |ops| && size == |data|
        invariant InBatch(less, q, ops, outs, h, late, i, data, mark)
        modifies this`data, this`size
      {
        outs, h, late := TakeOperation(q, ops, outs, h, late, i);
        i := i + 1;
      }
    }

    method TakeOperation(ghost q: multiset<T>, ops: seq<Op<T>>, outs: seq<Outcome<T>>, ghost h: History, late: seq<nat>,
                         i: nat)
      returns (outs': seq<Outcome<T>>, ghost h': History, late': seq<nat>)
      requires InBatch(less, q, ops, outs, h, late, i, data, mark) && size == |data| && StrictWeakOrder(less)
      requires i < |ops|
      modifies this`data, this`size
      ensures InBatch(less, q, ops, outs', h', late', i + 1, data, mark) && size == |data|
    {
      match ops[i]
      case Pop =>
        outs', h', late' := TakePop(q, ops, outs, h, late, i);
      case Push(value) =>
        outs', h' := TakePush(q, ops, outs, h, late, i, value);
        late' := late;
    }

    /** The postponed pops, the latest first. */
    method SecondPass(ghost q: multiset<T>, ops: seq<Op<T>>, outs0: seq<Outcome<T>>, ghost h0: History, late0: seq<nat>)
      returns (outs: seq<Outcome<T>>, ghost h: History)
      requires InBatch(less, q, ops, outs0, h0, late0, |ops|, data, mark) && size == |data| && StrictWeakOrder(less)
      modifies this`data, this`mark, this`size
      ensures InBatch(less, q, ops, outs, h, [], |ops|, data, mark) && size == |data|
    {
      outs, h := outs0, h0;
      var late := late0;
      while late != []
        invariant InBatch(less, q, ops, outs, h, late, |ops|, data, mark) && size == |data|
        decreases |late|
      {
        var k := late[0];
        ghost var d, n := data, mark;
        var out := AnswerPop();
        Answering(less, q, ops, outs, h, late, |ops|, d, n, data, mark, out);
        h := Ordered(h, k, d, n, less);
        outs := outs[k := out];
        late := late[1..];
      }
    }

    /**
     A batch is linearizable: in some order, its operations answer as those of an ideal priority
     queue that goes from the elements before to the elements after. The heap is whole again.
     */
    method HandleOperations(ops: seq<Op<T>>) returns (outs: seq<Outcome<T>>)
      requires Valid()
      modifies this`data, this`mark, this`size
      ensures Valid() && Linearizable(less, multiset(old(data)), ops, outs, multiset(data))
    {
      ghost var q, h := multiset(data), History([], []);
      var late;
      outs, h, late := FirstPass(q, ops, seq(|ops|, _ => Waiting));
      outs, h := SecondPass(q, ops, outs, h, late);
      Merging(less, q, ops, outs, h, data, mark);
      if mark < |data| {
        Heapify();
      }
      assert Witnesses(less, q, ops, outs, multiset(data), h.order + h.tail);
    }

    /** Fill position cur with the last element. */
    method MoveLast(cur: nat)
      requires cur < |data| && mark <= |data|
      modifies this`data, this`mark
      ensures data == old(data)[cur := old(data)[|old(data)| - 1]][..|old(data)| - 1]
      ensures mark == if old(mark) == |old(data)| then old(mark) - 1 else old(mark)
    {
      if cur != |data| - 1 {
        data := data[cur := data[|data| - 1]];
      }
      data := data[..|data| - 1];
      if mark > |data| {
        mark := |data|;
      }
    }
  }

  /** The last element of d is not below a child of cur. */
  ghost predicate FitsAt<T>(less: (T, T) -> bool, d: seq<T>, n: nat, cur: nat)
    requires d != [] && n <= |d|
  {
    forall i | 2 * cur + 1 <= i <= 2 * cur + 2 && i < n :: !less(d[|d| - 1], d[i])
  }

  lemma Settles<T(!new)>(less: (T, T) -> bool, d: seq<T>, n: nat, cur: nat, target: nat)
    requires StrictWeakOrder(less) && Higher(less, d, n, cur, target) && less(d[target], d[|d| - 1])
    ensures FitsAt(less, d, n, cur)
  {
    forall i | 2 * cur + 1 <= i <= 2 * cur + 2 && i < n ensures !less(d[|d| - 1], d[i]) {
      NothingAbove(less, d[target], d[|d| - 1], d[i]);
    }
  }

  lemma SinkingStarts<T(!new)>(less: (T, T) -> bool, d: seq<T>, n: nat)
    requires n <= |d| && Heap(less, d, n) && d != []
    ensures Sinking(less, d, n, d, 0)
  {
    var e := d[0 := d[|d| - 1]];
    forall i | 1 <= i < n && (i - 1) / 2 != 0 ensures Below(less, e, i) {
      assert Below(less, d, i);
    }
  }

  // ---------------------------------------------------------------- a batch

  /** What answering a pop does to d, a heap up to n followed by other elements. */
  ghost predicate PopAnswered<T>(less: (T, T) -> bool, d: seq<T>, n: nat, d': seq<T>, n': nat, out: Outcome<T>)
    requires n <= |d|
  {
    if d == [] then out == Failed && d' == d && n' == n
    else if n < |d| && less(d[0], d[|d| - 1]) then out == Popped(d[|d| - 1]) && d' == d[..|d| - 1] && n' == n
    else out == Popped(d[0]) && RootRemoved(less, d, n, d', n')
  }

  /** The operations ordered so far, and the pushes that have been answered but not ordered yet. */
  datatype History = History(order: seq<nat>, tail: seq<nat>)

  /** The elements behind the heap are those of the pushes in tail. */
  ghost predicate TailOf<T>(ops: seq<Op<T>>, outs: seq<Outcome<T>>, tail: seq<nat>, d: seq<T>, n: nat)
    requires |outs| == |ops|
  {
    n <= |d| && |tail| == |d| - n && Indices(tail, |ops|) &&
    forall j | 0 <= j < |tail| :: ops[tail[j]] == Push(d[n + j]) && outs[tail[j]] == Stored
  }

  /** The ideal queue's history so far leads to what the heap holds. */
  ghost predicate Told<T>(less: (T, T) -> bool, q: multiset<T>, ops: seq<Op<T>>, outs: seq<Outcome<T>>, order: seq<nat>,
                          content: multiset<T>)
    requires |outs| == |ops|
  {
    Indices(order, |ops|) && Legal(less, q, ops, outs, order) && Content(q, ops, outs, order) == content
  }

  /** Every operation up to `taken` is in one list: ordered, behind the heap, or a pop to be answered later. */
  ghost predicate Accounted<T>(ops: seq<Op<T>>, h: History, late: seq<nat>, taken: nat) {
    && taken <= |ops| && multiset(h.order) + multiset(h.tail) + multiset(late) == UpTo(taken)
    && Indices(late, |ops|) && (forall j | 0 <= j < |late| :: ops[late[j]] == Pop)
  }

  /** The state after the first `taken` operations have been seen. */
  ghost predicate InBatch<T>(less: (T, T) -> bool, q: multiset<T>, ops: seq<Op<T>>, outs: seq<Outcome<T>>,
                             h: History, late: seq<nat>, taken: nat, d: seq<T>, n: nat) {
    && |outs| == |ops| && Accounted(ops, h, late, taken) && Heap(less, d, n)
    && Told(less, q, ops, outs, h.order, multiset(d[..n])) && TailOf(ops, outs, h.tail, d, n)
  }

  lemma {:induction false} UpToCounts(n: nat, k: nat)
    ensures UpTo(n)[k] == if k < n then 1 else 0
  {
    if n > 0 {
      UpToCounts(n - 1, k);
    }
  }

  /** Nothing that is in one of the lists is in another. */
  lemma NotYet(a: seq<nat>, b: seq<nat>, c: seq<nat>, n: nat, k: nat)
    requires multiset(a) + multiset(b) + multiset(c) == UpTo(n)
    ensures k >= n || k in c ==> k !in a && k !in b
  {
    UpToCounts(n, k);
    assert (multiset(a) + multiset(b) + multiset(c))[k] == multiset(a)[k] + multiset(b)[k] + multiset(c)[k];
    assert k in c ==> multiset(c)[k] > 0;
    assert k in a ==> multiset(a)[k] > 0;
    assert k in b ==> multiset(b)[k] > 0;
  }

  lemma HeapPrefix<T>(less: (T, T) -> bool, d: seq<T>, d': seq<T>, n: nat)
    requires Heap(less, d, n) && n <= |d'| && d'[..n] == d[..n]
    ensures Heap(less, d', n)
  {
    forall k | 1 <= k < n ensures Below(less, d', k) {
      assert Below(less, d, k) && d'[k] == d'[..n][k] && d'[(k - 1) / 2] == d'[..n][(k - 1) / 2];
    }
  }

  lemma Beginning<T>(less: (T, T) -> bool, q: multiset<T>, ops: seq<Op<T>>, outs: seq<Outcome<T>>, d: seq<T>)
    requires |outs| == |ops| && Heap(less, d, |d|) && q == multiset(d)
    ensures InBatch(less, q, ops, outs, History([], []), [], 0, d, |d|)
  {
    assert d[..|d|] == d;
  }

  lemma Arriving<T>(less: (T, T) -> bool, q: multiset<T>, ops: seq<Op<T>>, outs: seq<Outcome<T>>,
                    h: History, late: seq<nat>, i: nat, d: seq<T>, n: nat)
    requires InBatch(less, q, ops, outs, h, late, i, d, n) && i < |ops| && ops[i].Push?
    ensures InBatch(less, q, ops, outs[i := Stored], h.(tail := h.tail + [i]), late, i + 1, d + [ops[i].value], n)
  {
    NotYet(h.order, h.tail, late, i, i);
    LegalFrame(less, q, ops, outs, outs[i := Stored], h.order);
    assert (d + [ops[i].value])[..n] == d[..n];
    HeapPrefix(less, d, d + [ops[i].value], n);
    LongerTail(ops, outs, h.tail, d, n, i);
  }

  lemma LongerTail<T>(ops: seq<Op<T>>, outs: seq<Outcome<T>>, tail: seq<nat>, d: seq<T>, n: nat, i: nat)
    requires |outs| == |ops| && TailOf(ops, outs, tail, d, n) && i < |ops| && ops[i].Push? && i !in tail
    ensures TailOf(ops, outs[i := Stored], tail + [i], d + [ops[i].value], n)
  {
  }

  lemma Postponing<T>(less: (T, T) -> bool, q: multiset<T>, ops: seq<Op<T>>, outs: seq<Outcome<T>>,
                      h: History, late: seq<nat>, i: nat, d: seq<T>, n: nat)
    requires InBatch(less, q, ops, outs, h, late, i, d, n) && i < |ops| && ops[i].Pop?
    ensures InBatch(less, q, ops, outs, h, [i] + late, i + 1, d, n)
  {
  }

  /**
   Where a pop k answered in this state stands in the order. A pop that takes the last element comes
   right after the push of that element. One that takes the root of the heap comes before the push of
   the element that refills the heap. With no heap, it comes right after the push of what it takes.
   */
  ghost function Ordered<T>(h: History, k: nat, d: seq<T>, n: nat, less: (T, T) -> bool): History
    requires n <= |d| && |h.tail| == |d| - n
  {
    if h.tail == [] then History(h.order + [k], [])
    else
      var last, init := h.tail[|h.tail| - 1], h.tail[..|h.tail| - 1];
      if less(d[0], d[|d| - 1]) then History(h.order + [last] + [k], init)
      else if n > 0 then History(h.order + [k] + [last], init)
      else History(h.order + [h.tail[0]] + [k], if |h.tail| == 1 then [] else [last] + h.tail[1..|h.tail| - 1])
  }

  lemma OrderedAccounts<T>(ops: seq<Op<T>>, h: History, late: seq<nat>, taken: nat, d: seq<T>, n: nat,
                           less: (T, T) -> bool)
    requires Accounted(ops, h, late, taken) && late != [] && n <= |d| && |h.tail| == |d| - n
    ensures Accounted(ops, Ordered(h, late[0], d, n, less), late[1..], taken)
  {
    FirstOf(late);
    OrderedKeepsAll(h, late[0], d, n, less);
  }

  lemma OrderedKeepsAll<T>(h: History, k: nat, d: seq<T>, n: nat, less: (T, T) -> bool)
    requires n <= |d| && |h.tail| == |d| - n
    ensures var h' := Ordered(h, k, d, n, less);
      multiset(h'.order) + multiset(h'.tail) == multiset(h.order) + multiset(h.tail) + multiset{k}
  {
    var t, h' := h.tail, Ordered(h, k, d, n, less);
    if t == [] {
      return;
    }
    var x: nat;
    if less(d[0], d[|d| - 1]) || n > 0 {
      x := t[|t| - 1];
      OneMore(t, |t| - 1);
      assert t[..|t|] == t;
    } else {
      x := t[0];
      LastComesFirst(t);
    }
    Regroup(h.order, multiset(h'.tail), multiset(t), x, k);
  }

  lemma Regroup(o: seq<nat>, i: multiset<nat>, t: multiset<nat>, x: nat, k: nat)
    requires t == i + multiset{x}
    ensures multiset(o + [x] + [k]) + i == multiset(o) + t + multiset{k}
    ensures multiset(o + [k] + [x]) + i == multiset(o) + t + multiset{k}
  {
    assert multiset(o + [x] + [k]) == multiset(o) + multiset{x} + multiset{k} == multiset(o + [k] + [x]);
  }

  lemma LastComesFirst(t: seq<nat>)
    requires t != []
    ensures multiset(if |t| == 1 then [] else [t[|t| - 1]] + t[1..|t| - 1]) + multiset{t[0]} == multiset(t)
  {
    FirstOf(t);
    if |t| > 1 {
      assert t[1..] == t[1..|t| - 1] + [t[|t| - 1]];
    }
  }

  lemma FirstOf<T>(a: seq<T>)
    requires a != []
    ensures multiset(a) == multiset{a[0]} + multiset(a[1..])
  {
    assert a == [a[0]] + a[1..];
  }

  /** The last element behind the heap is taken: push it and pop it. */
  lemma TellPair<T(!new)>(less: (T, T) -> bool, q: multiset<T>, ops: seq<Op<T>>, outs: seq<Outcome<T>>, order: seq<nat>,
                          c: multiset<T>, p: nat, k: nat, x: T)
    requires StrictWeakOrder(less) && |outs| == |ops| && Told(less, q, ops, outs, order, c)
    requires p < |ops| && k < |ops| && ops[p] == Push(x) && outs[p] == Stored && ops[k] == Pop && outs[k] == Popped(x)
    requires forall y | y in c :: !less(x, y)
    ensures Told(less, q, ops, outs, order + [p] + [k], c)
  {
    LegalExtends(less, q, ops, outs, order, p);
    LegalExtends(less, q, ops, outs, order + [p], k);
  }

  lemma TellPop<T>(less: (T, T) -> bool, q: multiset<T>, ops: seq<Op<T>>, outs: seq<Outcome<T>>, order: seq<nat>,
                   c: multiset<T>, k: nat, x: T)
    requires |outs| == |ops| && Told(less, q, ops, outs, order, c)
    requires k < |ops| && ops[k] == Pop && outs[k] == Popped(x)
    requires x in c && forall y | y in c :: !less(x, y)
    ensures Told(less, q, ops, outs, order + [k], c - multiset{x})
  {
    LegalExtends(less, q, ops, outs, order, k);
  }

  lemma TellPush<T>(less: (T, T) -> bool, q: multiset<T>, ops: seq<Op<T>>, outs: seq<Outcome<T>>, order: seq<nat>,
                    c: multiset<T>, p: nat, x: T)
    requires |outs| == |ops| && Told(less, q, ops, outs, order, c) && p < |ops| && ops[p] == Push(x)
    requires outs[p] == Stored
    ensures Told(less, q, ops, outs, order + [p], c + multiset{x})
  {
    LegalExtends(less, q, ops, outs, order, p);
  }

  lemma RootTops<T(!new)>(less: (T, T) -> bool, d: seq<T>, n: nat)
    requires StrictWeakOrder(less) && Heap(less, d, n)
    ensures n > 0 ==> d[0] in multiset(d[..n])
    ensures forall y | y in multiset(d[..n]) :: !less(d[0], y)
  {
    forall y | y in multiset(d[..n]) ensures !less(d[0], y) {
      var i :| 0 <= i < n && d[..n][i] == y;
      RootIsTop(less, d, n, i);
    }
    if n > 0 { assert d[..n][0] == d[0]; }
  }

  lemma Answering<T(!new)>(less: (T, T) -> bool, q: multiset<T>, ops: seq<Op<T>>, outs: seq<Outcome<T>>,
                           h: History, late: seq<nat>, taken: nat, d: seq<T>, n: nat, d': seq<T>, n': nat,
                           out: Outcome<T>)
    requires StrictWeakOrder(less) && late != []
    requires InBatch(less, q, ops, outs, h, late, taken, d, n) && PopAnswered(less, d, n, d', n', out)
    ensures InBatch(less, q, ops, outs[late[0] := out], Ordered(h, late[0], d, n, less), late[1..], taken, d', n')
  {
    var k := late[0];
    var outs' := outs[k := out];
    AnsweredFrame(less, q, ops, outs, h, late, taken, d, n, out);
    OrderedAccounts(ops, h, late, taken, d, n, less);
    AnsweringTells(less, q, ops, outs', h, k, d, n, d', n', out);
  }

  /** The answer touches no operation that has been ordered or waits behind the heap. */
  lemma AnsweredFrame<T>(less: (T, T) -> bool, q: multiset<T>, ops: seq<Op<T>>, outs: seq<Outcome<T>>,
                         h: History, late: seq<nat>, taken: nat, d: seq<T>, n: nat, out: Outcome<T>)
    requires InBatch(less, q, ops, outs, h, late, taken, d, n) && late != []
    ensures Told(less, q, ops, outs[late[0] := out], h.order, multiset(d[..n]))
    ensures TailOf(ops, outs[late[0] := out], h.tail, d, n)
  {
    NotYet(h.order, h.tail, late, taken, late[0]);
    LegalFrame(less, q, ops, outs, outs[late[0] := out], h.order);
  }

  lemma AnsweringAtOnce<T(!new)>(less: (T, T) -> bool, q: multiset<T>, ops: seq<Op<T>>, outs: seq<Outcome<T>>,
                                 h: History, late: seq<nat>, i: nat, d: seq<T>, n: nat)
    requires StrictWeakOrder(less) && InBatch(less, q, ops, outs, h, late, i, d, n) && i < |ops| && ops[i].Pop?
    requires n < |d| && less(d[0], d[|d| - 1])
    ensures InBatch(less, q, ops, outs[i := Popped(d[|d| - 1])], Ordered(h, i, d, n, less), late, i + 1, d[..|d| - 1],
                    n)
  {
    Postponing(less, q, ops, outs, h, late, i, d, n);
    assert ([i] + late)[1..] == late;
    Answering(less, q, ops, outs, h, [i] + late, i + 1, d, n, d[..|d| - 1], n, Popped(d[|d| - 1]));
  }

  lemma AnsweringTells<T(!new)>(less: (T, T) -> bool, q: multiset<T>, ops: seq<Op<T>>, outs: seq<Outcome<T>>,
                                h: History, k: nat, d: seq<T>, n: nat, d': seq<T>, n': nat, out: Outcome<T>)
    requires StrictWeakOrder(less) && |outs| == |ops| && Heap(less, d, n) && PopAnswered(less, d, n, d', n', out)
    requires Told(less, q, ops, outs, h.order, multiset(d[..n])) && TailOf(ops, outs, h.tail, d, n)
    requires k < |ops| && ops[k] == Pop && outs[k] == out
    ensures Heap(less, d', n')
    ensures var h' := Ordered(h, k, d, n, less);
      Told(less, q, ops, outs, h'.order, multiset(d'[..n'])) && TailOf(ops, outs, h'.tail, d', n')
  {
    if h.tail == [] {
      AnswerWhole(less, q, ops, outs, h, k, d, d', n', out);
    } else if less(d[0], d[|d| - 1]) {
      AnswerLast(less, q, ops, outs, h, k, d, n);
      HeapPrefix(less, d, d', n);
    } else if n > 0 {
      AnswerRoot(less, q, ops, outs, h, k, d, n, d');
    } else {
      AnswerAlone(less, q, ops, outs, h, k, d, d');
    }
  }

  lemma AnswerWhole<T(!new)>(less: (T, T) -> bool, q: multiset<T>, ops: seq<Op<T>>, outs: seq<Outcome<T>>, h: History,
                             k: nat, d: seq<T>, d': seq<T>, n': nat, out: Outcome<T>)
    requires StrictWeakOrder(less) && |outs| == |ops| && Heap(less, d, |d|) && PopAnswered(less, d, |d|, d', n', out)
    requires Told(less, q, ops, outs, h.order, multiset(d[..|d|])) && h.tail == []
    requires k < |ops| && ops[k] == Pop && outs[k] == out
    ensures n' == |d'| && Told(less, q, ops, outs, h.order + [k], multiset(d'[..n']))
  {
    assert d[..|d|] == d;
    if d == [] {
      LegalExtends(less, q, ops, outs, h.order, k);
    } else {
      RootTops(less, d, |d|);
      TellPop(less, q, ops, outs, h.order, multiset(d), k, d[0]);
      assert d'[..n'] == d';
    }
  }

  lemma WithoutLast<T>(d: seq<T>, n: nat)
    requires n < |d|
    ensures d[..|d| - 1][..n] == d[..n] && d[..|d| - 1][n..] == d[n..|d| - 1]
  {
  }

  lemma LastTops<T(!new)>(less: (T, T) -> bool, d: seq<T>, n: nat)
    requires StrictWeakOrder(less) && Heap(less, d, n) && n < |d| && less(d[0], d[|d| - 1])
    ensures forall y | y in multiset(d[..n]) :: !less(d[|d| - 1], y)
  {
    RootTops(less, d, n);
    forall y | y in multiset(d[..n]) ensures !less(d[|d| - 1], y) {
      NothingAbove(less, d[0], d[|d| - 1], y);
    }
  }

  lemma AnswerLast<T(!new)>(less: (T, T) -> bool, q: multiset<T>, ops: seq<Op<T>>, outs: seq<Outcome<T>>, h: History,
                            k: nat, d: seq<T>, n: nat)
    requires StrictWeakOrder(less) && |outs| == |ops| && Heap(less, d, n) && n < |d| && less(d[0], d[|d| - 1])
    requires Told(less, q, ops, outs, h.order, multiset(d[..n])) && TailOf(ops, outs, h.tail, d, n)
    requires k < |ops| && ops[k] == Pop && outs[k] == Popped(d[|d| - 1])
    ensures var d', h' := d[..|d| - 1], Ordered(h, k, d, n, less);
      d'[..n] == d[..n] && Told(less, q, ops, outs, h'.order, multiset(d'[..n])) && TailOf(ops, outs, h'.tail, d', n)
  {
    var x := d[|d| - 1];
    LastTops(less, d, n);
    TellPair(less, q, ops, outs, h.order, multiset(d[..n]), h.tail[|h.tail| - 1], k, x);
    WithoutLast(d, n);
    TailShrinks(ops, outs, h.tail, d, n, d[..|d| - 1]);
  }

  lemma AnswerRoot<T(!new)>(less: (T, T) -> bool, q: multiset<T>, ops: seq<Op<T>>, outs: seq<Outcome<T>>, h: History,
                            k: nat, d: seq<T>, n: nat, d': seq<T>)
    requires StrictWeakOrder(less) && |outs| == |ops| && Heap(less, d, n) && 0 < n < |d| && !less(d[0], d[|d| - 1])
    requires Told(less, q, ops, outs, h.order, multiset(d[..n])) && TailOf(ops, outs, h.tail, d, n)
    requires k < |ops| && ops[k] == Pop && outs[k] == Popped(d[0]) && RootRemoved(less, d, n, d', n)
    ensures var h' := Ordered(h, k, d, n, less);
      Told(less, q, ops, outs, h'.order, multiset(d'[..n])) && TailOf(ops, outs, h'.tail, d', n)
  {
    RootTops(less, d, n);
    TailEnds(ops, outs, h.tail, d, n);
    TellRefill(less, q, ops, outs, h.order, multiset(d[..n]), k, d[0], h.tail[|h.tail| - 1], d[|d| - 1]);
    TailShrinks(ops, outs, h.tail, d, n, d');
  }

  /** A pop of x, and then the push of the element y that takes its place. */
  lemma TellRefill<T>(less: (T, T) -> bool, q: multiset<T>, ops: seq<Op<T>>, outs: seq<Outcome<T>>, order: seq<nat>,
                      c: multiset<T>, k: nat, x: T, p: nat, y: T)
    requires |outs| == |ops| && Told(less, q, ops, outs, order, c)
    requires k < |ops| && ops[k] == Pop && outs[k] == Popped(x)
    requires x in c && forall z | z in c :: !less(x, z)
    requires p < |ops| && ops[p] == Push(y) && outs[p] == Stored
    ensures Told(less, q, ops, outs, order + [k] + [p], c - multiset{x} + multiset{y})
  {
    TellPop(less, q, ops, outs, order, c, k, x);
    TellPush(less, q, ops, outs, order + [k], c - multiset{x}, p, y);
  }

  lemma TailEnds<T>(ops: seq<Op<T>>, outs: seq<Outcome<T>>, tail: seq<nat>, d: seq<T>, n: nat)
    requires |outs| == |ops| && TailOf(ops, outs, tail, d, n) && n < |d|
    ensures tail != []
    ensures var p := tail[|tail| - 1]; p < |ops| && ops[p] == Push(d[|d| - 1]) && outs[p] == Stored
  {
    assert tail[|tail| - 1] in tail && d[n + (|tail| - 1)] == d[|d| - 1];
  }

  lemma TailShrinks<T>(ops: seq<Op<T>>, outs: seq<Outcome<T>>, tail: seq<nat>, d: seq<T>, n: nat, d': seq<T>)
    requires |outs| == |ops| && TailOf(ops, outs, tail, d, n) && n < |d| == |d'| + 1 && d'[n..] == d[n..|d| - 1]
    ensures TailOf(ops, outs, tail[..|tail| - 1], d', n)
  {
    var init := tail[..|tail| - 1];
    forall j | 0 <= j < |init| ensures ops[init[j]] == Push(d'[n + j]) && outs[init[j]] == Stored {
      assert d'[n + j] == d'[n..][j] == d[n..|d| - 1][j];
    }
  }

  lemma AnswerAlone<T(!new)>(less: (T, T) -> bool, q: multiset<T>, ops: seq<Op<T>>, outs: seq<Outcome<T>>, h: History,
                             k: nat, d: seq<T>, d': seq<T>)
    requires StrictWeakOrder(less) && |outs| == |ops| && 0 < |d| && !less(d[0], d[|d| - 1])
    requires Told(less, q, ops, outs, h.order, multiset(d[..0])) && TailOf(ops, outs, h.tail, d, 0)
    requires k < |ops| && ops[k] == Pop && outs[k] == Popped(d[0]) && RootRemoved(less, d, 0, d', 0)
    ensures var h' := Ordered(h, k, d, 0, less);
      Told(less, q, ops, outs, h'.order, multiset(d'[..0])) && TailOf(ops, outs, h'.tail, d', 0)
  {
    TellPair(less, q, ops, outs, h.order, multiset(d[..0]), h.tail[0], k, d[0]);
  }

  /** The pushes left behind the heap come last. */
  lemma Merging<T>(less: (T, T) -> bool, q: multiset<T>, ops: seq<Op<T>>, outs: seq<Outcome<T>>, h: History, d: seq<T>,
                   n: nat)
    requires InBatch(less, q, ops, outs, h, [], |ops|, d, n)
    ensures Witnesses(less, q, ops, outs, multiset(d), h.order + h.tail)
  {
    TellTail(less, q, ops, outs, h.order, h.tail, d, n);
    assert d[..|d|] == d;
  }

  lemma {:induction false} TellTail<T>(less: (T, T) -> bool, q: multiset<T>, ops: seq<Op<T>>, outs: seq<Outcome<T>>,
                                       order: seq<nat>, tail: seq<nat>, d: seq<T>, n: nat)
    requires |outs| == |ops| && TailOf(ops, outs, tail, d, n) && Told(less, q, ops, outs, order, multiset(d[..n]))
    ensures Told(less, q, ops, outs, order + tail, multiset(d[..|d|]))
    decreases |tail|
  {
    assert order + [] == order;
    if tail != [] {
      TellPush(less, q, ops, outs, order, multiset(d[..n]), tail[0], d[n]);
      OneMore(d, n);
      ShorterTail(ops, outs, tail, d, n);
      TellTail(less, q, ops, outs, order + [tail[0]], tail[1..], d, n + 1);
      Rejoin(order, tail);
    }
  }

  lemma Rejoin<T>(a: seq<T>, b: seq<T>)
    requires b != []
    ensures a + [b[0]] + b[1..] == a + b
  {
  }

  lemma ShorterTail<T>(ops: seq<Op<T>>, outs: seq<Outcome<T>>, tail: seq<nat>, d: seq<T>, n: nat)
    requires |outs| == |ops| && TailOf(ops, outs, tail, d, n) && tail != []
    ensures TailOf(ops, outs, tail[1..], d, n + 1)
  {
    forall j | 0 <= j < |tail| - 1 ensures ops[tail[1..][j]] == Push(d[n + 1 + j]) && outs[tail[1..][j]] == Stored {
      assert tail[1..][j] == tail[j + 1];
    }
  }

  lemma OneMore<T>(d: seq<T>, i: nat)
    requires i < |d|
    ensures multiset(d[..i + 1]) == multiset(d[..i]) + multiset{d[i]}
  {
    assert d[..i + 1] == d[..i] + [d[i]];
  }

  // ---------------------------------------------------------------- what a linearizable batch means

  ghost function Total<T>(f: nat -> multiset<T>, order: seq<nat>): multiset<T> {
    if order == [] then multiset{} else Total(f, order[..|order| - 1]) + f(order[|order| - 1])
  }

  lemma {:induction false} TotalWithout<T>(f: nat -> multiset<T>, order: seq<nat>, j: nat)
    requires j < |order|
    ensures Total(f, order) == Total(f, order[..j] + order[j + 1..]) + f(order[j])
  {
    var n := |order| - 1;
    var rest := order[..j] + order[j + 1..];
    if j == n {
      assert rest == order[..n];
    } else {
      TotalWithout(f, order[..n], j);
      assert rest[..n - 1] == order[..n][..j] + order[..n][j + 1..];
    }
  }

  /** The order of summation does not matter. */
  lemma {:induction false} TotalOfAny<T>(f: nat -> multiset<T>, a: seq<nat>, b: seq<nat>)
    requires multiset(a) == multiset(b)
    ensures Total(f, a) == Total(f, b)
    decreases |a|
  {
    if a == [] {
      assert |multiset(b)| == 0;
    } else {
      var n := |a| - 1;
      assert a[n] in multiset(b);
      var j :| 0 <= j < |b| && b[j] == a[n];
      var rest := b[..j] + b[j + 1..];
      assert a == a[..n] + [a[n]] && b == b[..j] + [b[j]] + b[j + 1..];
      assert multiset(a) == multiset(a[..n]) + multiset{a[n]} && multiset(b) == multiset(rest) + multiset{b[j]};
      Cancel(multiset(a[..n]), multiset(rest), a[n]);
      TotalWithout(f, b, j);
      TotalOfAny(f, a[..n], rest);
    }
  }

  lemma Cancel<T>(a: multiset<T>, b: multiset<T>, x: T)
    requires a + multiset{x} == b + multiset{x}
    ensures a == b
  {
    assert a == a + multiset{x} - multiset{x} && b == b + multiset{x} - multiset{x};
  }

  ghost function Pushes<T>(ops: seq<Op<T>>): nat -> multiset<T> {
    (k: nat) => if k < |ops| && ops[k].Push? then multiset{ops[k].value} else multiset{}
  }

  ghost function Pops<T>(outs: seq<Outcome<T>>): nat -> multiset<T> {
    (k: nat) => if k < |outs| && outs[k].Popped? then multiset{outs[k].value} else multiset{}
  }

  lemma StepConserves<T>(less: (T, T) -> bool, c: multiset<T>, op: Op<T>, out: Outcome<T>)
    requires Allowed(less, c, op, out)
    ensures Effect(c, op, out) + (if out.Popped? then multiset{out.value} else multiset{})
         == c + (if op.Push? then multiset{op.value} else multiset{})
  {
  }

  lemma Balances<T>(q: multiset<T>, c: multiset<T>, popped: multiset<T>, pushed: multiset<T>, c': multiset<T>,
                    pop: multiset<T>, push: multiset<T>)
    requires c + popped == q + pushed && c' + pop == c + push
    ensures c' + (popped + pop) == q + (pushed + push)
  {
    assert c' + (popped + pop) == (c' + pop) + popped == (c + popped) + push;
  }

  lemma {:induction false} HistoryConserves<T>(less: (T, T) -> bool, q: multiset<T>, ops: seq<Op<T>>,
                                               outs: seq<Outcome<T>>, order: seq<nat>)
    requires |outs| == |ops| && Indices(order, |ops|) && Legal(less, q, ops, outs, order)
    ensures Content(q, ops, outs, order) + Total(Pops(outs), order) == q + Total(Pushes(ops), order)
  {
    if order != [] {
      var init, last := order[..|order| - 1], order[|order| - 1];
      HistoryConserves(less, q, ops, outs, init);
      StepConserves(less, Content(q, ops, outs, init), ops[last], outs[last]);
      Balances(q, Content(q, ops, outs, init), Total(Pops(outs), init), Total(Pushes(ops), init),
               Content(q, ops, outs, order), Pops(outs)(last), Pushes(ops)(last));
    }
  }

  lemma {:induction false} HistoryAnswers<T>(less: (T, T) -> bool, q: multiset<T>, ops: seq<Op<T>>,
                                             outs: seq<Outcome<T>>, order: seq<nat>, k: nat)
    requires |outs| == |ops| && Indices(order, |ops|) && Legal(less, q, ops, outs, order) && k in order
    ensures if ops[k].Push? then outs[k].Stored? else outs[k].Popped? || outs[k].Failed?
  {
    if order[|order| - 1] != k {
      HistoryAnswers(less, q, ops, outs, order[..|order| - 1], k);
    }
  }

  lemma {:induction false} AscendingIsAll(n: nat)
    ensures multiset(seq(n, i requires 0 <= i < n => i as nat)) == UpTo(n)
  {
    if n > 0 {
      AscendingIsAll(n - 1);
      var a := seq(n, i requires 0 <= i < n => i as nat);
      var b := seq(n - 1, i requires 0 <= i < n - 1 => i as nat);
      assert a == b + [n - 1];
    }
  }

  /** Nothing is lost or made up by a batch, and every operation is answered. */
  lemma BatchConserves<T>(less: (T, T) -> bool, q: multiset<T>, ops: seq<Op<T>>, outs: seq<Outcome<T>>, q': multiset<T>)
    requires Linearizable(less, q, ops, outs, q')
    ensures var all := seq(|ops|, i requires 0 <= i < |ops| => i as nat);
      q' + Total(Pops(outs), all) == q + Total(Pushes(ops), all)
    ensures forall k | 0 <= k < |ops| :: if ops[k].Push? then outs[k].Stored? else outs[k].Popped? || outs[k].Failed?
  {
    var order :| Witnesses(less, q, ops, outs, q', order);
    var all := seq(|ops|, i requires 0 <= i < |ops| => i as nat);
    AscendingIsAll(|ops|);
    HistoryConserves(less, q, ops, outs, order);
    TotalOfAny(Pops(outs), order, all);
    TotalOfAny(Pushes(ops), order, all);
    forall k: nat | k < |ops|
      ensures if ops[k].Push? then outs[k].Stored? else outs[k].Popped? || outs[k].Failed?
    {
      UpToCounts(|ops|, k);
      assert k in UpTo(|ops|) && k in order;
      HistoryAnswers(less, q, ops, outs, order, k);
    }
  }

  lemma StillThere<T>(c: multiset<T>, popped: multiset<T>, q: multiset<T>, pushed: multiset<T>)
    requires c + popped == q + pushed
    ensures forall y | q[y] > popped[y] :: y in c
    ensures c == multiset{} ==> q <= popped
  {
    forall y ensures c[y] + popped[y] == q[y] + pushed[y] {
      assert (c + popped)[y] == (q + pushed)[y];
    }
  }

  /** What a pop of the history can be told, of the elements that were there at the beginning. */
  lemma {:induction false} PopInHistory<T>(less: (T, T) -> bool, q: multiset<T>, ops: seq<Op<T>>,
                                           outs: seq<Outcome<T>>, order: seq<nat>, k: nat)
    requires |outs| == |ops| && Indices(order, |ops|) && Legal(less, q, ops, outs, order)
    requires k in order && ops[k].Pop?
    ensures outs[k].Popped? ==> forall y | q[y] > Total(Pops(outs), order)[y] :: !less(outs[k].value, y)
    ensures outs[k].Failed? ==> q <= Total(Pops(outs), order)
  {
    var init := order[..|order| - 1];
    if order[|order| - 1] == k {
      HistoryConserves(less, q, ops, outs, init);
      StillThere(Content(q, ops, outs, init), Total(Pops(outs), init), q, Total(Pushes(ops), init));
    } else {
      PopInHistory(less, q, ops, outs, init, k);
    }
  }

  /**
   A pop comes back empty-handed only if the batch takes everything that was in the queue. What a pop
   gets is not below anything that was in the queue and is still there.
   */
  lemma PopsServeTheGreatest<T>(less: (T, T) -> bool, q: multiset<T>, ops: seq<Op<T>>, outs: seq<Outcome<T>>,
                                q': multiset<T>, k: nat)
    requires Linearizable(less, q, ops, outs, q') && k < |ops| && ops[k].Pop?
    ensures var taken := Total(Pops(outs), seq(|ops|, i requires 0 <= i < |ops| => i as nat));
            && (outs[k].Failed? ==> q <= taken)
            && (outs[k].Popped? ==> forall y | q[y] > taken[y] :: !less(outs[k].value, y))
  {
    var order :| Witnesses(less, q, ops, outs, q', order);
    AscendingIsAll(|ops|);
    TotalOfAny(Pops(outs), order, seq(|ops|, i requires 0 <= i < |ops| => i as nat));
    UpToCounts(|ops|, k);
    assert k in UpTo(|ops|) && k in order;
    PopInHistory(less, q, ops, outs, order, k);
  }
}
