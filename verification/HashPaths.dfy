/**
 Index arithmetic of the lazily rehashed table (include/oneapi/tbb/concurrent_hash_map.h): segments
 of buckets, and the path of buckets through which a hash code is refined as the table grows. A mask
 2^j - 1 is given by its level j.
 */
module HashPaths {

  function Pow2(n: nat): (r: nat)
    ensures r >= 1 && r > n
  {
    if n == 0 then 1 else 2 * Pow2(n - 1)
  }

  /** The j lowest bits of h: h & (2^j - 1). */
  function Low(h: nat, j: nat): nat {
    if j == 0 then 0 else h % 2 + 2 * Low(h / 2, j - 1)
  }

  /** log2(i | 1) */
  function SegmentIndexOf(i: nat): nat {
    if i < 2 then 0 else 1 + SegmentIndexOf(i / 2)
  }

  function SegmentBase(k: nat): nat {
    if k == 0 then 0 else Pow2(k)
  }

  /** segment_size, which callers ask for segment 1 in place of segment 0. */
  function SegmentSpan(k: nat): nat {
    if k == 0 then 2 else Pow2(k)
  }

  lemma {:induction false} SegmentBounds(i: nat)
    ensures SegmentBase(SegmentIndexOf(i)) <= i < Pow2(SegmentIndexOf(i) + 1)
  {
    if i >= 2 {
      SegmentBounds(i / 2);
      assert Pow2(SegmentIndexOf(i) + 1) == 2 * Pow2(SegmentIndexOf(i / 2) + 1);
    }
  }

  lemma {:induction false} PowersGrow(a: nat, b: nat)
    requires a <= b
    ensures Pow2(a) <= Pow2(b)
  {
    if a < b {
      PowersGrow(a, b - 1);
    }
  }

  /** Every index is in exactly one segment. */
  lemma SegmentsTile(i: nat, k: nat)
    ensures (SegmentBase(k) <= i < SegmentBase(k) + SegmentSpan(k)) <==> k == SegmentIndexOf(i)
  {
    var s := SegmentIndexOf(i);
    SegmentBounds(i);
    if k < s {
      PowersGrow(k + 1, s);
    } else if k > s {
      PowersGrow(s + 1, k);
    }
  }

  /** The parent of bucket i: i without its top bit. */
  function Parent(i: nat): nat {
    Low(i, SegmentIndexOf(i))
  }

  /** Some mask takes h to i. */
  predicate OnPath(i: nat, h: nat) {
    Low(h, SegmentIndexOf(i) + 1) == i
  }

  lemma {:induction false} LowBounds(h: nat, j: nat)
    ensures Low(h, j) < Pow2(j) && Low(h, j) <= h
  {
    if j > 0 {
      LowBounds(h / 2, j - 1);
    }
  }

  /** The rest of h is a multiple of 2^j. */
  lemma {:induction false} LowIsRest(h: nat, j: nat) returns (q: nat)
    ensures h == q * Pow2(j) + Low(h, j)
  {
    if j == 0 {
      q := h;
    } else {
      q := LowIsRest(h / 2, j - 1);
      assert q * Pow2(j) == 2 * (q * Pow2(j - 1));
    }
  }

  lemma {:induction false} LowOfSmall(i: nat, j: nat)
    requires i < Pow2(j)
    ensures Low(i, j) == i
  {
    if j > 0 {
      LowOfSmall(i / 2, j - 1);
    }
  }

  /** Masking twice is masking once, and a longer mask leaves no less. */
  lemma {:induction false} MasksNest(h: nat, a: nat, b: nat)
    requires a <= b
    ensures Low(Low(h, b), a) == Low(h, a) <= Low(h, b)
  {
    if a > 0 {
      MasksNest(h / 2, a - 1, b - 1);
    }
  }

  /** What a mask leaves of h is on the path of h, and shorter masks leave no more. */
  lemma MaskedOnPath(h: nat, j: nat)
    requires j >= 1
    ensures OnPath(Low(h, j), h)
  {
    var i := Low(h, j);
    var k := SegmentIndexOf(i);
    SegmentBounds(i);
    LowBounds(h, j);
    if k + 1 > j {
      PowersGrow(j, k);
      assert false;
    }
    MasksNest(h, k + 1, j);
    LowOfSmall(i, k + 1);
  }

  lemma ParentLess(i: nat)
    requires i > 1
    ensures Parent(i) < i
  {
    SegmentBounds(i);
    LowBounds(i, SegmentIndexOf(i));
  }

  /** The parent of a bucket on the path is on the path, and there is nothing on the path between the two. */
  lemma ParentOnPath(d: nat, h: nat)
    requires d > 1 && OnPath(d, h)
    ensures Parent(d) < d && OnPath(Parent(d), h)
    ensures forall i: nat | i < d && OnPath(i, h) :: i <= Parent(d)
  {
    var k := SegmentIndexOf(d);
    SegmentBounds(d);
    LowBounds(d, k);
    MasksNest(h, k, k + 1);
    MaskedOnPath(h, k);
    forall i: nat | i < d && OnPath(i, h) ensures i <= Parent(d) {
      SegmentBounds(i);
      var l := SegmentIndexOf(i);
      if l > k {
        PowersGrow(k + 1, l);
        assert false;
      }
      if l < k {
        MasksNest(h, l + 1, k);
      }
    }
  }

  /** Below level j, the path of h ends at h masked to level j. */
  lemma PathWithin(i: nat, h: nat, j: nat)
    requires j >= 1 && OnPath(i, h) && i < Pow2(j)
    ensures i <= Low(h, j)
  {
    var k := SegmentIndexOf(i);
    SegmentBounds(i);
    if k + 1 > j {
      PowersGrow(j, k);
      assert false;
    }
    MasksNest(h, k + 1, j);
  }

  /** The level of the next mask after level j that keeps more of h. */
  function NextLevel(h: nat, j: nat, limit: nat): nat
    requires j < limit && Low(h, j) != Low(h, limit)
    decreases limit - j
  {
    if Low(h, j + 1) != Low(h, j) then j + 1 else NextLevel(h, j + 1, limit)
  }

  lemma {:induction false} NextIsNext(h: nat, j: nat, limit: nat)
    requires 1 <= j < limit && Low(h, j) != Low(h, limit)
    ensures var l := NextLevel(h, j, limit); var c := Low(h, l);
      && j < l <= limit && OnPath(c, h) && Low(h, j) < c < Pow2(limit)
      && forall i: nat | OnPath(i, h) && i > Low(h, j) :: i >= c
    decreases limit - j
  {
    if Low(h, j + 1) == Low(h, j) {
      NextIsNext(h, j + 1, limit);
    } else {
      var c := Low(h, j + 1);
      MaskedOnPath(h, j + 1);
      MasksNest(h, j, j + 1);
      LowBounds(h, j + 1);
      PowersGrow(j + 1, limit);
      forall i: nat | OnPath(i, h) && i > Low(h, j) ensures i >= c {
        if i < c {
          PathWithin(i, h, j + 1);
          PathBetween(i, h, j);
        }
      }
    }
  }

  /** Nothing on the path lies strictly between two successive masked codes. */
  lemma PathBetween(i: nat, h: nat, j: nat)
    requires j >= 1 && OnPath(i, h) && i < Low(h, j + 1)
    ensures i <= Low(h, j)
  {
    var k := SegmentIndexOf(i);
    SegmentBounds(i);
    LowBounds(h, j + 1);
    if k > j {
      PowersGrow(j + 1, k);
      assert false;
    }
    if k < j {
      MasksNest(h, k + 1, j);
    }
  }
}
