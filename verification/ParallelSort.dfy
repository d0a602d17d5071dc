/**
 Quicksort by range splitting (include/oneapi/tbb/parallel_sort.h), on an array in place.
 */
module ParallelSort {

  type Less<!T> = (T, T) -> bool

  ghost predicate StrictWeakOrder<T(!new)>(less: Less<T>) {
    && (forall a :: !less(a, a))
    && (forall a, b, c :: less(a, b) && less(b, c) ==> less(a, c))
    && (forall a, b, c :: !less(a, b) && !less(b, c) ==> !less(a, c))
  }

  // ---------------------------------------------------------------- the pivot

  /** median_of_three: the index, among l, m and r, that holds the median. */
  function MedianOfThree<T>(less: Less<T>, d: seq<T>, l: nat, m: nat, r: nat): nat
    requires l < |d| && m < |d| && r < |d|
  {
    if less(d[l], d[m]) then
      if less(d[m], d[r]) then m else if less(d[l], d[r]) then r else l
    else
      if less(d[r], d[m]) then m else if less(d[r], d[l]) then r else l
  }

  /** One of the other two is not above it and the remaining one is not below it. */
  lemma MedianIsBetween<T(!new)>(less: Less<T>, d: seq<T>, l: nat, m: nat, r: nat)
    requires StrictWeakOrder(less) && l < |d| && m < |d| && r < |d|
    ensures var k := MedianOfThree(less, d, l, m, r);
      || (k == l && ((!less(d[k], d[m]) && !less(d[r], d[k])) || (!less(d[k], d[r]) && !less(d[m], d[k]))))
      || (k == m && ((!less(d[k], d[l]) && !less(d[r], d[k])) || (!less(d[k], d[r]) && !less(d[l], d[k]))))
      || (k == r && ((!less(d[k], d[l]) && !less(d[m], d[k])) || (!less(d[k], d[m]) && !less(d[l], d[k]))))
  {
  }

  /** Of the range of that size at begin; the result is relative to begin. */
  function PseudoMedianOfNine<T>(less: Less<T>, d: seq<T>, begin: nat, size: nat): (k: nat)
    requires 0 < size && begin + size <= |d|
    ensures k < size
  {
    var s := d[begin..begin + size];
    var offset := size / 8;
    MedianOfThree(less, s,
                  MedianOfThree(less, s, 0, offset, offset * 2),
                  MedianOfThree(less, s, offset * 3, offset * 4, offset * 5),
                  MedianOfThree(less, s, offset * 6, offset * 7, size - 1))
  }

  /** The positions that are looked at. */
  function Samples(size: nat): (at: seq<nat>)
    requires 0 < size
    ensures |at| == 9 && forall j | 0 <= j < 9 :: at[j] < size
  {
    var offset := size / 8;
    [0, offset, offset * 2, offset * 3, offset * 4, offset * 5, offset * 6, offset * 7, size - 1]
  }

  /** Two of three elements, number i and j of v from first on, are not above x, and numbers k and l not below. */
  datatype Sides = Sides(i: nat, j: nat, k: nat, l: nat)

  ghost predicate OnSides<T>(less: Less<T>, v: seq<T>, first: nat, x: T, p: Sides)
    requires first + 3 <= |v|
  {
    && p.i < p.j < 3 && !less(x, v[first + p.i]) && !less(x, v[first + p.j])
    && p.k < p.l < 3 && !less(v[first + p.k], x) && !less(v[first + p.l], x)
  }

  lemma MedianHasSides<T(!new)>(less: Less<T>, d: seq<T>, l: nat, m: nat, r: nat, v: seq<T>, first: nat)
    returns (p: Sides)
    requires StrictWeakOrder(less) && l < |d| && m < |d| && r < |d| && first + 3 <= |v|
    requires v[first] == d[l] && v[first + 1] == d[m] && v[first + 2] == d[r]
    ensures OnSides(less, v, first, d[MedianOfThree(less, d, l, m, r)], p)
  {
    var x := d[MedianOfThree(less, d, l, m, r)];
    var i: nat := if !less(x, d[l]) then 0 else 1;
    var k: nat := if !less(d[l], x) then 0 else 1;
    p := Sides(i, if i == 0 && !less(x, d[m]) then 1 else 2, k, if k == 0 && !less(d[m], x) then 1 else 2);
  }

  /** Four of the nine samples that are not above x. */
  ghost predicate FourNotAbove<T>(less: Less<T>, nine: seq<T>, x: T, a: nat, b: nat, c: nat, e: nat) {
    && a < b < c < e < 9 == |nine|
    && !less(x, nine[a]) && !less(x, nine[b]) && !less(x, nine[c]) && !less(x, nine[e])
  }

  ghost predicate FourNotBelow<T>(less: Less<T>, nine: seq<T>, x: T, a: nat, b: nat, c: nat, e: nat) {
    && a < b < c < e < 9 == |nine|
    && !less(nine[a], x) && !less(nine[b], x) && !less(nine[c], x) && !less(nine[e], x)
  }

  lemma UpperFour<T(!new)>(less: Less<T>, nine: seq<T>, x: seq<T>, m: T, p: seq<Sides>, q: Sides)
    requires StrictWeakOrder(less) && |nine| == 9 && |x| == 3 == |p|
    requires OnSides(less, nine, 0, x[0], p[0]) && OnSides(less, nine, 3, x[1], p[1])
    requires OnSides(less, nine, 6, x[2], p[2]) && OnSides(less, x, 0, m, q)
    ensures FourNotBelow(less, nine, m, 3 * q.k + p[q.k].k, 3 * q.k + p[q.k].l, 3 * q.l + p[q.l].k, 3 * q.l + p[q.l].l)
  {
  }

  /** Each of three medians has two elements on either side, and m two of those; so m has four on either side. */
  lemma FourOnEitherSide<T(!new)>(less: Less<T>, nine: seq<T>, x: seq<T>, m: T, p: seq<Sides>, q: Sides)
    requires StrictWeakOrder(less) && |nine| == 9 && |x| == 3 == |p|
    requires OnSides(less, nine, 0, x[0], p[0]) && OnSides(less, nine, 3, x[1], p[1])
    requires OnSides(less, nine, 6, x[2], p[2]) && OnSides(less, x, 0, m, q)
    ensures exists a, b, c, e :: FourNotAbove(less, nine, m, a, b, c, e)
    ensures exists a, b, c, e :: FourNotBelow(less, nine, m, a, b, c, e)
  {
    UpperFour(less, nine, x, m, p, q);
    assert FourNotAbove(less, nine, m, 3 * q.i + p[q.i].i, 3 * q.i + p[q.i].j, 3 * q.j + p[q.j].i, 3 * q.j + p[q.j].j);
  }

  lemma ByTriples<T(!new)>(less: Less<T>, s: seq<T>)
    requires s != []
    ensures var at := Samples(|s|);
            PseudoMedianOfNine(less, s, 0, |s|) ==
            MedianOfThree(less, s, MedianOfThree(less, s, at[0], at[1], at[2]),
                          MedianOfThree(less, s, at[3], at[4], at[5]), MedianOfThree(less, s, at[6], at[7], at[8]))
  {
    assert s[0..0 + |s|] == s;
  }

  /** The median of three medians of three, with its elements on either side. */
  lemma TriplesHaveSides<T(!new)>(less: Less<T>, s: seq<T>, nine: seq<T>, l0: nat, m0: nat, r0: nat,
                                  l1: nat, m1: nat, r1: nat, l2: nat, m2: nat, r2: nat)
    requires StrictWeakOrder(less) && l0 < |s| && m0 < |s| && r0 < |s| && l1 < |s| && m1 < |s| && r1 < |s|
    requires l2 < |s| && m2 < |s| && r2 < |s|
    requires nine == [s[l0], s[m0], s[r0], s[l1], s[m1], s[r1], s[l2], s[m2], s[r2]]
    ensures var m := s[MedianOfThree(less, s, MedianOfThree(less, s, l0, m0, r0),
                                     MedianOfThree(less, s, l1, m1, r1), MedianOfThree(less, s, l2, m2, r2))];
            && (exists a, b, c, e :: FourNotAbove(less, nine, m, a, b, c, e))
            && (exists a, b, c, e :: FourNotBelow(less, nine, m, a, b, c, e))
  {
    var p0 := MedianHasSides(less, s, l0, m0, r0, nine, 0);
    var p1 := MedianHasSides(less, s, l1, m1, r1, nine, 3);
    var p2 := MedianHasSides(less, s, l2, m2, r2, nine, 6);
    var x, y := MedianOfThree(less, s, l0, m0, r0), MedianOfThree(less, s, l1, m1, r1);
    var z := MedianOfThree(less, s, l2, m2, r2);
    var q := MedianHasSides(less, s, x, y, z, [s[x], s[y], s[z]], 0);
    FourOnEitherSide(less, nine, [s[x], s[y], s[z]], s[MedianOfThree(less, s, x, y, z)], [p0, p1, p2], q);
  }

  /** Of the nine samples, at least four are not above the chosen one, and at least four are not below it. */
  lemma PseudoMedianIsInside<T(!new)>(less: Less<T>, s: seq<T>, nine: seq<T>)
    requires StrictWeakOrder(less) && s != []
    requires |nine| == 9 && forall j | 0 <= j < 9 :: nine[j] == s[Samples(|s|)[j]]
    ensures var m := s[PseudoMedianOfNine(less, s, 0, |s|)];
            && (exists a, b, c, e :: FourNotAbove(less, nine, m, a, b, c, e))
            && (exists a, b, c, e :: FourNotBelow(less, nine, m, a, b, c, e))
  {
    var at := Samples(|s|);
    ByTriples(less, s);
    TriplesHaveSides(less, s, nine, at[0], at[1], at[2], at[3], at[4], at[5], at[6], at[7], at[8]);
  }

  // ---------------------------------------------------------------- rearranging

  /** Between lo and hi the elements of d have been put in another order; the rest is untouched. */
  ghost predicate Rearranged<T>(d: seq<T>, d': seq<T>, lo: nat, hi: nat) {
    && |d'| == |d| && lo <= hi <= |d| && multiset(d') == multiset(d)
    && forall x | 0 <= x < |d| && !(lo <= x < hi) :: d'[x] == d[x]
  }

  function Swapped<T>(d: seq<T>, i: nat, j: nat): seq<T>
    requires i < |d| && j < |d|
  {
    d[i := d[j]][j := d[i]]
  }

  lemma SwapRearranges<T>(d: seq<T>, lo: nat, hi: nat, i: nat, j: nat)
    requires lo <= i < hi <= |d| && lo <= j < hi
    ensures Rearranged(d, Swapped(d, i, j), lo, hi)
  {
    assert multiset(Swapped(d, i, j)) == multiset(d);
  }

  lemma RearrangedAgain<T>(a: seq<T>, b: seq<T>, c: seq<T>, lo: nat, hi: nat)
    requires Rearranged(a, b, lo, hi) && Rearranged(b, c, lo, hi)
    ensures Rearranged(a, c, lo, hi)
  {
  }

  lemma SwapWithin<T>(d0: seq<T>, d: seq<T>, lo: nat, hi: nat, i: nat, j: nat)
    requires Rearranged(d0, d, lo, hi) && lo <= i < hi && lo <= j < hi
    ensures Rearranged(d0, Swapped(d, i, j), lo, hi)
  {
    SwapRearranges(d, lo, hi, i, j);
    RearrangedAgain(d0, d, Swapped(d, i, j), lo, hi);
  }

  /** Every element of the rearranged part was there before. */
  lemma FromThere<T>(d: seq<T>, d': seq<T>, lo: nat, hi: nat, x: nat) returns (x': nat)
    requires Rearranged(d, d', lo, hi) && lo <= x < hi
    ensures lo <= x' < hi && d[x'] == d'[x]
  {
    PartRearranged(d, d', lo, hi);
    assert d'[lo..hi][x - lo] in multiset(d[lo..hi]);
    var k :| 0 <= k < hi - lo && d[lo..hi][k] == d'[x];
    x' := lo + k;
  }

  lemma PartRearranged<T>(d: seq<T>, d': seq<T>, lo: nat, hi: nat)
    requires Rearranged(d, d', lo, hi)
    ensures multiset(d'[lo..hi]) == multiset(d[lo..hi])
  {
    assert d'[..lo] == d[..lo] && d'[hi..] == d[hi..];
    InThree(d, lo, hi);
    InThree(d', lo, hi);
    var rest := multiset(d[..lo]) + multiset(d[hi..]);
    assert multiset(d[lo..hi]) == multiset(d) - rest && multiset(d'[lo..hi]) == multiset(d') - rest;
  }

  lemma InThree<T>(d: seq<T>, lo: nat, hi: nat)
    requires lo <= hi <= |d|
    ensures multiset(d) == multiset(d[lo..hi]) + (multiset(d[..lo]) + multiset(d[hi..]))
  {
    assert d == d[..lo] + d[lo..hi] + d[hi..];
  }

  method Swap<T>(a: array<T>, i: nat, j: nat)
    requires i < a.Length && j < a.Length
    modifies a
    ensures a[..] == Swapped(old(a[..]), i, j)
  {
    a[i], a[j] := a[j], a[i];
  }

  // ---------------------------------------------------------------- split_range

  /**
   What the partition loop keeps: the pivot at begin, everything up to i not above it, everything from
   j on not below it.
   */
  ghost predicate Parted<T>(less: Less<T>, d: seq<T>, begin: nat, size: nat, i: nat, j: nat) {
    && begin + size <= |d| && i < size && j <= size
    && (forall x | begin < x <= begin + i :: !less(d[begin], d[x]))
    && (forall x | begin + j <= x < begin + size :: !less(d[x], d[begin]))
  }

  /** The range of that size at begin has been split around position begin + j. */
  ghost predicate SplitAt<T>(less: Less<T>, d: seq<T>, d': seq<T>, begin: nat, size: nat, j: nat) {
    Rearranged(d, d', begin, begin + size) && Around(less, d', begin, size, j)
  }

  /** Nothing before position begin + j is above its element, and nothing after it is below. */
  ghost predicate Around<T>(less: Less<T>, d: seq<T>, begin: nat, size: nat, j: nat) {
    && begin + size <= |d| && j < size
    && (forall x | begin <= x < begin + j :: !less(d[begin + j], d[x]))
    && (forall x | begin + j < x < begin + size :: !less(d[x], d[begin + j]))
  }

  /** The state of the loop, from the elements d0 before. */
  ghost predicate Splitting<T>(less: Less<T>, d0: seq<T>, d: seq<T>, begin: nat, size: nat, i: nat, j: nat) {
    Rearranged(d0, d, begin, begin + size) && Parted(less, d, begin, size, i, j)
  }

  lemma PivotChosen<T>(less: Less<T>, d: seq<T>, begin: nat, size: nat, m: nat)
    requires m < size && begin + size <= |d|
    ensures Splitting(less, d, Swapped(d, begin, begin + m), begin, size, 0, size)
  {
    var d' := Swapped(d, begin, begin + m);
    SwapRearranges(d, begin, begin + size, begin, begin + m);
    assert Rearranged(d, d', begin, begin + size);
    FirstOrder(less, d', begin, size);
  }

  lemma PairSwapped<T>(less: Less<T>, d0: seq<T>, d: seq<T>, begin: nat, size: nat, i: nat, j: nat)
    requires 0 < i < j && Splitting(less, d0, d, begin, size, i - 1, j + 1)
    requires !less(d[begin], d[begin + j]) && !less(d[begin + i], d[begin])
    ensures Splitting(less, d0, Swapped(d, begin + i, begin + j), begin, size, i, j)
  {
    PairOrder(less, d, begin, size, i, j);
    SwapWithin(d0, d, begin, begin + size, begin + i, begin + j);
  }

  lemma PivotPlaced<T(!new)>(less: Less<T>, d0: seq<T>, d: seq<T>, begin: nat, size: nat, j: nat)
    requires StrictWeakOrder(less) && Splitting(less, d0, d, begin, size, j, j + 1)
    ensures SplitAt(less, d0, Swapped(d, begin + j, begin), begin, size, j)
  {
    SwapWithin(d0, d, begin, begin + size, begin + j, begin);
    PivotOrder(less, d, begin, size, j);
  }

  lemma PairOrder<T>(less: Less<T>, d: seq<T>, begin: nat, size: nat, i: nat, j: nat)
    requires 0 < i < j && Parted(less, d, begin, size, i - 1, j + 1)
    requires !less(d[begin], d[begin + j]) && !less(d[begin + i], d[begin])
    ensures Parted(less, Swapped(d, begin + i, begin + j), begin, size, i, j)
  {
  }

  lemma PivotOrder<T(!new)>(less: Less<T>, d: seq<T>, begin: nat, size: nat, j: nat)
    requires StrictWeakOrder(less) && Parted(less, d, begin, size, j, j + 1)
    ensures var d' := Swapped(d, begin + j, begin);
      Around(less, d', begin, size, j)
  {
  }

  lemma FirstOrder<T>(less: Less<T>, d: seq<T>, begin: nat, size: nat)
    requires 0 < size && begin + size <= |d|
    ensures Parted(less, d, begin, size, 0, size)
  {
  }

  method PivotFirst<T>(a: array<T>, less: Less<T>, begin: nat, size: nat)
    requires 0 < size && begin + size <= a.Length
    modifies a
    ensures Splitting(less, old(a[..]), a[..], begin, size, 0, size)
    ensures a[begin] == old(a[..])[begin + PseudoMedianOfNine(less, old(a[..]), begin, size)]
  {
    var m := PseudoMedianOfNine(less, a[..], begin, size);
    PivotChosen(less, a[..], begin, size, m);
    if m != 0 {
      Swap(a, begin, begin + m);
    }
    assert a[..] == Swapped(old(a[..]), begin, begin + m);
  }

  /** The partition loop; it leaves at j an element not above the pivot. */
  method Partition<T(!new)>(a: array<T>, less: Less<T>, ghost d0: seq<T>, begin: nat, size: nat) returns (j: nat)
    requires StrictWeakOrder(less) && 0 < size && Splitting(less, d0, a[..], begin, size, 0, size)
    modifies a
    ensures Splitting(less, d0, a[..], begin, size, j, j + 1) && a[begin] == old(a[begin])
  {
    var i := 0;
    j := size;
    while true
      invariant i < j && Splitting(less, d0, a[..], begin, size, i, j) && a[begin] == old(a[begin])
      decreases j - i
    {
      i, j := NextSwap(a, less, d0, begin, size, i, j);
      if i == j {
        return;
      }
    }
  }

  /** One round of the loop: find two elements on the wrong sides, and exchange them. */
  method NextSwap<T(!new)>(a: array<T>, less: Less<T>, ghost d0: seq<T>, begin: nat, size: nat, i0: nat, j0: nat)
    returns (i: nat, j: nat)
    requires StrictWeakOrder(less) && i0 < j0 && Splitting(less, d0, a[..], begin, size, i0, j0)
    modifies a
    ensures i0 <= i <= j < j0 && a[begin] == old(a[begin])
    ensures i == j ==> Splitting(less, d0, a[..], begin, size, i, j + 1)
    ensures i != j ==> Splitting(less, d0, a[..], begin, size, i, j)
  {
    i, j := NextPair(a, less, begin, size, i0, j0);
    if i != j {
      SwapPair(a, less, d0, begin, size, i, j);
    }
  }

  method SwapPair<T(!new)>(a: array<T>, less: Less<T>, ghost d0: seq<T>, begin: nat, size: nat, i: nat, j: nat)
    requires 0 < i < j && Splitting(less, d0, a[..], begin, size, i - 1, j + 1)
    requires !less(a[begin], a[begin + j]) && !less(a[begin + i], a[begin])
    modifies a
    ensures Splitting(less, d0, a[..], begin, size, i, j) && a[begin] == old(a[begin])
  {
    ghost var d := a[..];
    assert d[begin] == a[begin] && d[begin + i] == a[begin + i] && d[begin + j] == a[begin + j];
    PairSwapped(less, d0, d, begin, size, i, j);
    Swap(a, begin + i, begin + j);
    assert a[..] == Swapped(d, begin + i, begin + j);
  }

  method SplitRange<T(!new)>(a: array<T>, less: Less<T>, begin: nat, size: nat) returns (j: nat)
    requires StrictWeakOrder(less) && 0 < size && begin + size <= a.Length
    modifies a
    ensures SplitAt(less, old(a[..]), a[..], begin, size, j)
    ensures a[begin + j] == old(a[..])[begin + PseudoMedianOfNine(less, old(a[..]), begin, size)]
  {
    PivotFirst(a, less, begin, size);
    j := Partition(a, less, old(a[..]), begin, size);
    PlacePivot(a, less, old(a[..]), begin, size, j);
  }

  method PlacePivot<T(!new)>(a: array<T>, less: Less<T>, ghost d0: seq<T>, begin: nat, size: nat, j: nat)
    requires StrictWeakOrder(less) && Splitting(less, d0, a[..], begin, size, j, j + 1)
    modifies a
    ensures SplitAt(less, d0, a[..], begin, size, j) && a[begin + j] == old(a[begin])
  {
    ghost var d := a[..];
    PivotPlaced(less, d0, d, begin, size, j);
    Swap(a, begin + j, begin);
    assert a[..] == Swapped(d, begin + j, begin);
  }

  /** The two scans: from the right for an element not above the pivot, from the left for one not below it. */
  method NextPair<T(!new)>(a: array<T>, less: Less<T>, begin: nat, size: nat, i0: nat, j0: nat) returns (i: nat, j: nat)
    requires StrictWeakOrder(less) && Parted(less, a[..], begin, size, i0, j0) && i0 < j0
    ensures i0 <= i <= j < j0 && !less(a[begin], a[begin + j])
    ensures if i == j then Parted(less, a[..], begin, size, i, j + 1)
            else i0 < i && Parted(less, a[..], begin, size, i - 1, j + 1) && !less(a[begin + i], a[begin])
  {
    i, j := i0, j0 - 1;
    while less(a[begin], a[begin + j])
      invariant i0 <= j < j0 && forall x | begin + j < x < begin + size :: !less(a[x], a[begin])
      decreases j
    {
      assert j > i0;
      j := j - 1;
    }
    while true
      invariant i0 <= i <= j && forall x | begin < x <= begin + i :: !less(a[begin], a[x])
      decreases j - i
    {
      if i == j {
        return;
      }
      i := i + 1;
      if !less(a[begin + i], a[begin]) {
        return;
      }
    }
  }

  // ---------------------------------------------------------------- sorting by ranges

  const GRAIN := 500

  datatype Range = Range(begin: nat, size: nat)

  predicate In(r: Range, x: int) { r.begin <= x < r.begin + r.size }

  /** x and y are in one pending range. */
  ghost predicate Together(pending: seq<Range>, x: int, y: int) {
    exists k :: 0 <= k < |pending| && In(pending[k], x) && In(pending[k], y)
  }

  ghost predicate Disjoint(pending: seq<Range>) {
    forall k, l, x | 0 <= k < l < |pending| && In(pending[k], x) :: !In(pending[l], x)
  }

  /** Two elements stand in the right order unless they are in one range that is still to be sorted. */
  ghost predicate OrderedBut<T>(less: Less<T>, d: seq<T>, pending: seq<Range>) {
    forall x, y | 0 <= x < y < |d| && !Together(pending, x, y) :: !less(d[y], d[x])
  }

  ghost predicate Sorted<T>(less: Less<T>, d: seq<T>) {
    forall x, y | 0 <= x < y < |d| :: !less(d[y], d[x])
  }

  ghost predicate PartSorted<T>(less: Less<T>, d: seq<T>, lo: nat, hi: nat) {
    hi <= |d| && forall x, y | lo <= x < y < hi :: !less(d[y], d[x])
  }

  ghost predicate Pending<T>(less: Less<T>, d: seq<T>, pending: seq<Range>) {
    && Disjoint(pending) && OrderedBut(less, d, pending)
    && forall k | 0 <= k < |pending| :: pending[k].begin + pending[k].size <= |d|
  }

  function Without(pending: seq<Range>, k: nat): seq<Range>
    requires k < |pending|
  {
    pending[..k] + pending[k + 1..]
  }

  /** Rearranging one pending range disturbs no pair that is not within it. */
  lemma RearrangedPending<T(!new)>(less: Less<T>, d: seq<T>, d': seq<T>, pending: seq<Range>, k: nat, x: int, y: int)
    requires Pending(less, d, pending) && k < |pending|
    requires Rearranged(d, d', pending[k].begin, pending[k].begin + pending[k].size)
    requires 0 <= x < y < |d| && !Together(pending, x, y)
    ensures !less(d'[y], d'[x])
  {
    var r := pending[k];
    if In(r, x) {
      var x' := FromThere(d, d', r.begin, r.begin + r.size, x);
      OtherPair(pending, k, x', x, y);
    } else if In(r, y) {
      var y' := FromThere(d, d', r.begin, r.begin + r.size, y);
      OtherPair(pending, k, y', y, x);
    }
  }

  lemma OtherPair(pending: seq<Range>, k: nat, x': int, x: int, y: int)
    requires Disjoint(pending) && k < |pending| && In(pending[k], x') && In(pending[k], x) && !Together(pending, x, y)
    ensures !Together(pending, x', y) && !In(pending[k], y)
  {
    forall l | 0 <= l < |pending| && In(pending[l], x') ensures !In(pending[l], y) {
      assert l == k;
    }
  }

  /** After splitting, the two parts are pending instead; the pivot is in its place. */
  lemma SplitKeepsPending<T(!new)>(less: Less<T>, d: seq<T>, d': seq<T>, pending: seq<Range>, k: nat, j: nat)
    requires StrictWeakOrder(less) && Pending(less, d, pending) && k < |pending|
    requires SplitAt(less, d, d', pending[k].begin, pending[k].size, j)
    ensures var r := pending[k];
      Pending(less, d', Without(pending, k) + [Range(r.begin, j), Range(r.begin + j + 1, r.size - j - 1)])
  {
    var r := pending[k];
    var rest := Without(pending, k) + [Range(r.begin, j), Range(r.begin + j + 1, r.size - j - 1)];
    SplitDisjoint(pending, k, j);
    forall x, y | 0 <= x < y < |d'| && !Together(rest, x, y) ensures !less(d'[y], d'[x]) {
      if In(r, x) && In(r, y) {
        assert !(In(rest[|rest| - 2], x) && In(rest[|rest| - 2], y));
        assert !(In(rest[|rest| - 1], x) && In(rest[|rest| - 1], y));
      } else {
        StillApart(pending, rest, k, x, y);
        RearrangedPending(less, d, d', pending, k, x, y);
      }
    }
  }

  lemma StillApart(pending: seq<Range>, rest: seq<Range>, k: nat, x: int, y: int)
    requires k < |pending| && Without(pending, k) <= rest && !Together(rest, x, y)
    requires !(In(pending[k], x) && In(pending[k], y))
    ensures !Together(pending, x, y)
  {
    forall l | 0 <= l < |pending| && In(pending[l], x) ensures !In(pending[l], y) {
      if l != k {
        assert pending[l] == rest[if l < k then l else l - 1];
      }
    }
  }

  lemma SplitDisjoint(pending: seq<Range>, k: nat, j: nat)
    requires Disjoint(pending) && k < |pending| && j < pending[k].size
    ensures var r := pending[k];
            Disjoint(Without(pending, k) + [Range(r.begin, j), Range(r.begin + j + 1, r.size - j - 1)])
    ensures Disjoint(Without(pending, k))
  {
    var r := pending[k];
    var w := Without(pending, k);
    assert forall l | 0 <= l < |w| :: w[l] == pending[if l < k then l else l + 1];
  }

  lemma SortKeepsPending<T(!new)>(less: Less<T>, d: seq<T>, d': seq<T>, pending: seq<Range>, k: nat)
    requires Pending(less, d, pending) && k < |pending|
    requires var r := pending[k];
             Rearranged(d, d', r.begin, r.begin + r.size) && PartSorted(less, d', r.begin, r.begin + r.size)
    ensures Pending(less, d', Without(pending, k))
  {
    var r := pending[k];
    var rest := Without(pending, k);
    assert forall l | 0 <= l < |rest| :: rest[l] == pending[if l < k then l else l + 1];
    forall x, y | 0 <= x < y < |d'| && !Together(rest, x, y) ensures !less(d'[y], d'[x]) {
      if !(In(r, x) && In(r, y)) {
        StillApart(pending, rest, k, x, y);
        RearrangedPending(less, d, d', pending, k, x, y);
      }
    }
  }

  /** std::sort on part of the array; any sort would do, only what it promises is used. */
  method SortPart<T(!new)>(a: array<T>, less: Less<T>, lo: nat, hi: nat)
    requires StrictWeakOrder(less) && lo <= hi <= a.Length
    modifies a
    ensures Rearranged(old(a[..]), a[..], lo, hi) && PartSorted(less, a[..], lo, hi)
  {
    var n := lo;
    while n < hi
      invariant lo <= n <= hi && Rearranged(old(a[..]), a[..], lo, hi) && PartSorted(less, a[..], lo, n)
    {
      SortIn(a, less, old(a[..]), lo, hi, n);
      n := n + 1;
    }
  }

  /** Sort the element at n into the sorted part before it. */
  method SortIn<T(!new)>(a: array<T>, less: Less<T>, ghost d0: seq<T>, lo: nat, hi: nat, n: nat)
    requires StrictWeakOrder(less) && lo <= n < hi && Rearranged(d0, a[..], lo, hi) && PartSorted(less, a[..], lo, n)
    modifies a
    ensures Rearranged(d0, a[..], lo, hi) && PartSorted(less, a[..], lo, n + 1)
  {
    var p := n;
    while p > lo && less(a[p], a[p - 1])
      invariant lo <= p <= n && SortingIn(less, d0, a[..], lo, hi, n, p)
    {
      ghost var d := a[..];
      assert d[p] == a[p] && d[p - 1] == a[p - 1];
      assert !less(d[p - 1], d[p]);
      SinksOne(less, d0, d, lo, hi, n, p);
      Swap(a, p, p - 1);
      assert a[..] == Swapped(d, p, p - 1);
      p := p - 1;
    }
    ghost var d := a[..];
    assert p > lo ==> d[p] == a[p] && d[p - 1] == a[p - 1];
    SortedNow(less, d, lo, n + 1, p);
  }

  ghost predicate SortingIn<T>(less: Less<T>, d0: seq<T>, d: seq<T>, lo: nat, hi: nat, n: nat, p: nat) {
    Rearranged(d0, d, lo, hi) && n < hi && SortedBut(less, d, lo, n + 1, p)
  }

  /** Sorted, except that the element at p may belong further left. */
  ghost predicate SortedBut<T>(less: Less<T>, d: seq<T>, lo: nat, hi: nat, p: nat) {
    && lo <= p < hi <= |d|
    && (forall x, y | lo <= x < y < hi && y != p :: !less(d[y], d[x]))
  }

  lemma SinksOne<T(!new)>(less: Less<T>, d0: seq<T>, d: seq<T>, lo: nat, hi: nat, n: nat, p: nat)
    requires SortingIn(less, d0, d, lo, hi, n, p) && p > lo && !less(d[p - 1], d[p])
    ensures SortingIn(less, d0, Swapped(d, p, p - 1), lo, hi, n, p - 1)
  {
    SwapWithin(d0, d, lo, hi, p, p - 1);
    OneFurther(less, d, lo, n + 1, p);
  }

  lemma OneFurther<T(!new)>(less: Less<T>, d: seq<T>, lo: nat, hi: nat, p: nat)
    requires SortedBut(less, d, lo, hi, p) && p > lo && !less(d[p - 1], d[p])
    ensures SortedBut(less, Swapped(d, p, p - 1), lo, hi, p - 1)
  {
  }

  lemma SortedNow<T(!new)>(less: Less<T>, d: seq<T>, lo: nat, hi: nat, p: nat)
    requires StrictWeakOrder(less) && SortedBut(less, d, lo, hi, p) && (p > lo ==> !less(d[p], d[p - 1]))
    ensures PartSorted(less, d, lo, hi)
  {
    forall x, y | lo <= x < y < hi ensures !less(d[y], d[x]) {
      if y == p && x < p - 1 {
        assert !less(d[p - 1], d[x]);
      }
    }
  }

  /** A range can always be sorted. */
  lemma {:induction false} SortedVersion<T(!new)>(less: Less<T>, d: seq<T>, lo: nat, hi: nat) returns (d': seq<T>)
    requires StrictWeakOrder(less) && lo <= hi <= |d|
    ensures Rearranged(d, d', lo, hi) && PartSorted(less, d', lo, hi)
  {
    d' := d;
    if lo < hi {
      d' := SortedVersion(less, d, lo, hi - 1);
      d' := Sunk(less, d, d', lo, hi, hi - 1, hi - 1);
    }
  }

  lemma {:induction false} Sunk<T(!new)>(less: Less<T>, d0: seq<T>, d: seq<T>, lo: nat, hi: nat, n: nat, p: nat)
    returns (d': seq<T>)
    requires StrictWeakOrder(less) && SortingIn(less, d0, d, lo, hi, n, p)
    ensures Rearranged(d0, d', lo, hi) && PartSorted(less, d', lo, n + 1)
    decreases p
  {
    if p > lo && less(d[p], d[p - 1]) {
      assert !less(d[p - 1], d[p]);
      SinksOne(less, d0, d, lo, hi, n, p);
      d' := Sunk(less, d0, Swapped(d, p, p - 1), lo, hi, n, p - 1);
    } else {
      d' := d;
      SortedNow(less, d, lo, n + 1, p);
    }
  }

  ghost function Work(pending: seq<Range>): nat {
    if pending == [] then 0 else Work(pending[..|pending| - 1]) + 2 * pending[|pending| - 1].size + 1
  }

  lemma {:induction false} WorkWithout(pending: seq<Range>, k: nat)
    requires k < |pending|
    ensures Work(pending) == Work(Without(pending, k)) + 2 * pending[k].size + 1
  {
    var n := |pending| - 1;
    if k == n {
      assert Without(pending, k) == pending[..n];
    } else {
      WorkWithout(pending[..n], k);
      assert pending[k + 1..][..n - 1 - k] == pending[..n][k + 1..];
      assert Without(pending, k)[..n - 1] == Without(pending[..n], k);
    }
  }

  lemma WorkAppend(pending: seq<Range>, r: Range, q: Range)
    ensures Work(pending + [r, q]) == Work(pending) + 2 * r.size + 2 * q.size + 2
  {
    assert (pending + [r, q])[..|pending| + 1] == pending + [r];
    assert (pending + [r])[..|pending|] == pending;
  }

  /** Which pending range is taken up next, and whether it is split further if it can be. */
  datatype Choice = Choice(which: nat, split: bool)

  /** The elements have been sorted and none lost. */
  ghost predicate SortedPermutation<T>(less: Less<T>, d: seq<T>, d': seq<T>) {
    Sorted(less, d') && multiset(d') == multiset(d) && |d'| == |d|
  }

  /**
   do_parallel_quick_sort: tasks take up the ranges in any order and split them or not, as the
   partitioner likes. SortTasks has the tasks interleaved.
   */
  method DoParallelQuickSort<T(!new)>(a: array<T>, less: Less<T>, choices: nat -> Choice)
    requires StrictWeakOrder(less)
    modifies a
    ensures SortedPermutation(less, old(a[..]), a[..])
  {
    var pending := [Range(0, a.Length)];
    forall x, y | 0 <= x < y < a.Length ensures Together(pending, x, y) {
      assert In(pending[0], x) && In(pending[0], y);
    }
    var step := 0;
    while pending != []
      invariant Pending(less, a[..], pending) && multiset(a[..]) == multiset(old(a[..]))
      decreases Work(pending)
    {
      var c := choices(step);
      step := step + 1;
      pending := TakeUp(a, less, pending, c.which % |pending|, c.split);
    }
    assert forall x, y :: !Together(pending, x, y);
  }

  method TakeUp<T(!new)>(a: array<T>, less: Less<T>, pending: seq<Range>, k: nat, split: bool)
    returns (rest: seq<Range>)
    requires StrictWeakOrder(less) && k < |pending| && Pending(less, a[..], pending)
    modifies a
    ensures Pending(less, a[..], rest) && multiset(a[..]) == multiset(old(a[..])) && Work(rest) < Work(pending)
    ensures if pending[k].size >= GRAIN && split
            then exists j: nat :: j < pending[k].size && rest == Halved(pending, k, j)
            else rest == Without(pending, k)
  {
    WorkWithout(pending, k);
    if pending[k].size >= GRAIN && split {
      rest := SplitPending(a, less, pending, k);
    } else {
      SortPart(a, less, pending[k].begin, pending[k].begin + pending[k].size);
      SortKeepsPending(less, old(a[..]), a[..], pending, k);
      rest := Without(pending, k);
    }
  }

  /** The splitting constructor of quick_sort_range: two ranges for one. */
  method SplitPending<T(!new)>(a: array<T>, less: Less<T>, pending: seq<Range>, k: nat) returns (rest: seq<Range>)
    requires StrictWeakOrder(less) && k < |pending| && Pending(less, a[..], pending) && pending[k].size > 0
    modifies a
    ensures Pending(less, a[..], rest) && multiset(a[..]) == multiset(old(a[..]))
    ensures Work(rest) == Work(Without(pending, k)) + 2 * (pending[k].size - 1) + 2
    ensures exists j: nat :: j < pending[k].size && rest == Halved(pending, k, j)
  {
    var r := pending[k];
    ghost var before := a[..];
    var j := SplitRange(a, less, r.begin, r.size);
    ghost var after := a[..];
    SplitOutcome(less, before, after, pending, k, j);
    rest := Halved(pending, k, j);
    assert a[..] == after;
  }

  /** The range of number k without its pivot, in two. */
  function Halved(pending: seq<Range>, k: nat, j: nat): seq<Range>
    requires k < |pending| && j < pending[k].size
  {
    var r := pending[k];
    Without(pending, k) + [Range(r.begin, j), Range(r.begin + j + 1, r.size - j - 1)]
  }

  lemma SplitOutcome<T(!new)>(less: Less<T>, d: seq<T>, d': seq<T>, pending: seq<Range>, k: nat, j: nat)
    requires StrictWeakOrder(less) && Pending(less, d, pending) && k < |pending|
    requires SplitAt(less, d, d', pending[k].begin, pending[k].size, j)
    ensures multiset(d') == multiset(d)
    ensures var rest := Halved(pending, k, j);
            Pending(less, d', rest) && Work(rest) == Work(Without(pending, k)) + 2 * (pending[k].size - 1) + 2
  {
    var r := pending[k];
    SplitKeepsPending(less, d, d', pending, k, j);
    WorkAppend(Without(pending, k), Range(r.begin, j), Range(r.begin + j + 1, r.size - j - 1));
  }

  // ---------------------------------------------------------------- the pre-test

  const SERIAL_CUTOFF := 9

  /** No adjacent pair that ends between lo and hi is in the wrong order. */
  ghost predicate NoDrop<T>(less: Less<T>, d: seq<T>, lo: int, hi: int) {
    forall k | lo <= k < hi && 0 < k < |d| :: !less(d[k], d[k - 1])
  }

  /** quick_sort_pretest_body on [lo, hi); cancelled says that the group has been cancelled. */
  method PretestBody<T>(a: array<T>, less: Less<T>, lo: nat, hi: nat, cancelled: bool) returns (cancelled': bool)
    requires 0 < lo <= hi <= a.Length
    ensures cancelled ==> cancelled'
    ensures cancelled' && !cancelled ==> !NoDrop(less, a[..], lo, hi)
    ensures !cancelled' ==> NoDrop(less, a[..], lo, hi)
  {
    cancelled' := cancelled;
    var k, i := lo, 0;
    while k != hi
      invariant lo <= k <= hi && cancelled' == cancelled && NoDrop(less, a[..], lo, k)
      decreases hi - k
    {
      if i % 64 == 0 && cancelled' {
        return;
      }
      if less(a[k], a[k - 1]) {
        cancelled' := true;
        assert !(less(a[..][k], a[..][k - 1])) ==> false;
        return;
      }
      k, i := k + 1, i + 1;
    }
  }

  /** The pieces, in the order in which they are taken up, cover [lo, hi) and stay within it. */
  ghost predicate Cover(pieces: seq<Range>, lo: nat, hi: nat) {
    && (forall p | p in pieces :: lo <= p.begin && p.begin + p.size <= hi)
    && (forall x | lo <= x < hi :: Covered(pieces, x))
  }

  ghost predicate Covered(pieces: seq<Range>, x: int) {
    exists m :: 0 <= m < |pieces| && In(pieces[m], x)
  }

  /** The parallel part of the pre-test, over any pieces that cover what the serial part has left. */
  method Pretest<T>(a: array<T>, less: Less<T>, pieces: seq<Range>) returns (cancelled: bool)
    requires SERIAL_CUTOFF + 1 <= a.Length && Cover(pieces, SERIAL_CUTOFF + 1, a.Length)
    ensures cancelled <==> !NoDrop(less, a[..], SERIAL_CUTOFF + 1, a.Length)
  {
    cancelled := false;
    var n := 0;
    while n < |pieces|
      invariant 0 <= n <= |pieces|
      invariant cancelled ==> !NoDrop(less, a[..], SERIAL_CUTOFF + 1, a.Length)
      invariant !cancelled ==>
                forall m | 0 <= m < n :: NoDrop(less, a[..], pieces[m].begin, pieces[m].begin + pieces[m].size)
    {
      var p := pieces[n];
      assert p in pieces;
      cancelled := PretestBody(a, less, p.begin, p.begin + p.size, cancelled);
      n := n + 1;
    }
    if !cancelled {
      forall k | SERIAL_CUTOFF + 1 <= k < a.Length ensures !less(a[..][k], a[..][k - 1]) {
        assert Covered(pieces, k);
        var m :| 0 <= m < |pieces| && In(pieces[m], k);
      }
    }
  }

  lemma {:induction false} NoDropSorted<T(!new)>(less: Less<T>, d: seq<T>, x: nat, y: nat)
    requires StrictWeakOrder(less) && NoDrop(less, d, 0, |d|) && x < y < |d|
    ensures !less(d[y], d[x])
  {
    if x < y - 1 {
      NoDropSorted(less, d, x, y - 1);
      assert !less(d[y], d[y - 1]);
    }
  }

  method ParallelQuickSort<T(!new)>(a: array<T>, less: Less<T>, choices: nat -> Choice, pieces: seq<Range>)
    requires StrictWeakOrder(less) && SERIAL_CUTOFF + 1 <= a.Length && Cover(pieces, SERIAL_CUTOFF + 1, a.Length)
    modifies a
    ensures SortedPermutation(less, old(a[..]), a[..])
  {
    var k := 0;
    while k != SERIAL_CUTOFF
      invariant 0 <= k <= SERIAL_CUTOFF && NoDrop(less, a[..], 0, k + 1) && a[..] == old(a[..])
      decreases SERIAL_CUTOFF - k
    {
      if less(a[k + 1], a[k]) {
        DoParallelQuickSort(a, less, choices);
        return;
      }
      k := k + 1;
    }
    var cancelled := Pretest(a, less, pieces);
    if cancelled {
      DoParallelQuickSort(a, less, choices);
    } else {
      forall x, y | 0 <= x < y < a.Length ensures !less(a[..][y], a[..][x]) {
        NoDropSorted(less, a[..], x, y);
      }
    }
  }

  const MIN_PARALLEL_SIZE := 500

  /** parallel_sort: for any strict weak order, the result is the elements in order. */
  method ParallelSort<T(!new)>(a: array<T>, less: Less<T>, choices: nat -> Choice, pieces: seq<Range>)
    requires StrictWeakOrder(less) && (MIN_PARALLEL_SIZE <= a.Length ==> Cover(pieces, SERIAL_CUTOFF + 1, a.Length))
    modifies a
    ensures SortedPermutation(less, old(a[..]), a[..])
  {
    if a.Length > 0 {
      if a.Length < MIN_PARALLEL_SIZE {
        SortPart(a, less, 0, a.Length);
      } else {
        ParallelQuickSort(a, less, choices, pieces);
      }
    }
  }
}
