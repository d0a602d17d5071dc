/**
 Serial completion of a partly rehashed table (concurrent_hash_map::rehash and what it calls in
 include/oneapi/tbb/concurrent_hash_map.h), with nothing else running.
 */
module HashRehash {
  import opened HashPaths

  type Hash = int -> nat

  datatype Node = Node(key: int, value: int)

  datatype Chain = Required | Rehashed(nodes: seq<Node>)

  predicate Ready(bs: seq<Chain>, i: nat) {
    i < |bs| && bs[i].Rehashed?
  }

  ghost predicate Contains(bs: seq<Chain>, i: nat, n: Node) {
    Ready(bs, i) && n in bs[i].nodes
  }

  ghost predicate Deepest(bs: seq<Chain>, i: nat, x: nat) {
    forall d: nat | d > i && Ready(bs, d) :: !OnPath(d, x)
  }

  /** The parent of a rehashed bucket is rehashed. */
  ghost predicate Closed(bs: seq<Chain>, level: nat) {
    && level >= 1 && |bs| == Pow2(level) && Ready(bs, 0) && Ready(bs, 1)
    && forall i: nat | i > 1 && Ready(bs, i) :: Ready(bs, Parent(i))
  }

  /** Every node is in the deepest rehashed bucket of its path. */
  ghost predicate Sound(h: Hash, bs: seq<Chain>, level: nat) {
    && Closed(bs, level)
    && forall i: nat, n | Contains(bs, i, n) :: OnPath(i, h(n.key)) && Deepest(bs, i, h(n.key))
  }

  /** Nothing is left to rehash: every node is in the bucket that the full mask gives. */
  ghost predicate Complete(h: Hash, bs: seq<Chain>, level: nat) {
    && (forall i: nat | i < |bs| :: Ready(bs, i))
    && (forall i: nat, n | Contains(bs, i, n) :: i == Low(h(n.key), level))
  }

  ghost function NodesOf(c: Chain): multiset<Node> {
    if c.Rehashed? then multiset(c.nodes) else multiset{}
  }

  ghost function AllNodes(bs: seq<Chain>): multiset<Node> {
    if bs == [] then multiset{} else AllNodes(bs[..|bs| - 1]) + NodesOf(bs[|bs| - 1])
  }

  // ---------------------------------------------------------------- counting nodes

  lemma {:induction false} AllNodesUpdate(bs: seq<Chain>, i: nat, c: Chain)
    requires i < |bs|
    ensures AllNodes(bs[i := c]) + NodesOf(bs[i]) == AllNodes(bs) + NodesOf(c)
  {
    var init, last := bs[..|bs| - 1], bs[|bs| - 1];
    assert bs == init + [last];
    if i == |init| {
      assert bs[i := c] == init + [c];
      AllNodesLast(init, c);
      AllNodesLast(init, last);
      Commute(AllNodes(init), NodesOf(c), NodesOf(last));
    } else {
      assert bs[i := c] == init[i := c] + [last];
      AllNodesUpdate(init, i, c);
      AllNodesLast(init, last);
      AllNodesLast(init[i := c], last);
      Exchange(AllNodes(init[i := c]), AllNodes(init), NodesOf(last), NodesOf(init[i]), NodesOf(c));
    }
  }

  lemma AllNodesLast(bs: seq<Chain>, c: Chain)
    ensures AllNodes(bs + [c]) == AllNodes(bs) + NodesOf(c)
  {
    assert (bs + [c])[..|bs|] == bs;
  }

  lemma Commute(a: multiset<Node>, x: multiset<Node>, y: multiset<Node>)
    ensures (a + x) + y == (a + y) + x
  {
  }

  lemma Exchange(a: multiset<Node>, b: multiset<Node>, m: multiset<Node>, x: multiset<Node>, y: multiset<Node>)
    requires a + x == b + y
    ensures (a + m) + x == (b + m) + y
  {
    assert (a + m) + x == (a + x) + m;
    assert (b + m) + y == (b + y) + m;
  }

  lemma {:induction false} AllNodesExtend(bs: seq<Chain>, more: seq<Chain>)
    requires forall k | 0 <= k < |more| :: NodesOf(more[k]) == multiset{}
    ensures AllNodes(bs + more) == AllNodes(bs)
  {
    if more == [] {
      assert bs + more == bs;
    } else {
      assert (bs + more)[..|bs + more| - 1] == bs + more[..|more| - 1];
      AllNodesExtend(bs, more[..|more| - 1]);
    }
  }

  lemma {:induction false} NoNodes(bs: seq<Chain>, i: nat, n: Node)
    requires Contains(bs, i, n)
    ensures n in AllNodes(bs)
  {
    if i < |bs| - 1 {
      assert Contains(bs[..|bs| - 1], i, n);
      NoNodes(bs[..|bs| - 1], i, n);
    }
  }

  // ---------------------------------------------------------------- marking

  /** Between bs and bs', i has been marked as rehashed. */
  predicate Marked(bs: seq<Chain>, bs': seq<Chain>, i: nat) {
    i < |bs| == |bs'| && bs[i].Required? && bs'[i].Rehashed?
  }

  /** Only marking has happened between bs and bs', and only of buckets that hang from r through marked ones. */
  ghost predicate MarkedFrom(bs: seq<Chain>, bs': seq<Chain>, r: nat) {
    && |bs'| == |bs|
    && (forall i | 0 <= i < |bs| :: bs'[i] == bs[i] || (bs[i].Required? && bs'[i] == Rehashed([])))
    && (forall i: nat | Marked(bs, bs', i) :: i > 1)
    && (forall i: nat {:trigger Parent(i)} | Marked(bs, bs', i) :: Parent(i) == r || Marked(bs, bs', Parent(i)))
  }

  /** No bucket that still needs rehashing hangs from r, below segment k, or from a marked bucket. */
  ghost predicate Exhausted(bs: seq<Chain>, bs': seq<Chain>, r: nat, k: nat) {
    forall i: nat {:trigger Parent(i)} | 1 < i < |bs'| && bs'[i].Required? ::
      !Marked(bs, bs', Parent(i)) && (Parent(i) == r ==> SegmentIndexOf(i) >= k)
  }

  /** The child of r in segment k. */
  lemma ChildIn(r: nat, k: nat, i: nat)
    requires SegmentIndexOf(r) < k
    ensures i > 1 && SegmentIndexOf(i) == k && Parent(i) == r <==> i == r + Pow2(k)
  {
    SegmentBounds(r);
    PowersGrow(SegmentIndexOf(r) + 1, k);
    if Pow2(k) <= i < Pow2(k + 1) { TopBit(i, k); }
    SegmentsTile(i, k);
    LowAbove(r, k);
  }

  /** An index is its top bit and the rest. */
  lemma {:induction false} TopBit(i: nat, k: nat)
    requires Pow2(k) <= i < Pow2(k + 1)
    ensures i == Low(i, k) + Pow2(k)
  {
    if k > 0 {
      TopBit(i / 2, k - 1);
    }
  }

  lemma {:induction false} LowAbove(r: nat, k: nat)
    requires r < Pow2(k)
    ensures Low(r + Pow2(k), k) == r
  {
    if k > 0 {
      assert (r + Pow2(k)) / 2 == r / 2 + Pow2(k - 1);
      LowAbove(r / 2, k - 1);
    }
  }

  /** One child of r has been dealt with, together with everything below it. */
  lemma ChildMarked(bs: seq<Chain>, mid: seq<Chain>, end: seq<Chain>, r: nat, k: nat, level: nat)
    requires MarkedFrom(bs, mid, r) && Exhausted(bs, mid, r, k) && r < |bs| && Ready(bs, r) && SegmentIndexOf(r) < k
    requires var c := r + Pow2(k);
      c < |mid| && mid[c].Required? && MarkedFrom(mid[c := Rehashed([])], end, c)
        && Exhausted(mid[c := Rehashed([])], end, c, level)
    requires forall i: nat | i < |bs| :: SegmentIndexOf(i) < level
    ensures MarkedFrom(bs, end, r) && Exhausted(bs, end, r, k + 1)
  {
    var c := r + Pow2(k);
    ChildIn(r, k, c);
    MarkedUnion(bs, mid, end, r, c);
    UnionHangs(bs, mid, end, r, c);
    forall i: nat | 1 < i < |end| && end[i].Required?
      ensures !Marked(bs, end, Parent(i)) && (Parent(i) == r ==> SegmentIndexOf(i) >= k + 1)
    {
      ParentLess(i);
      assert mid[i].Required? && i != c;
      ChildExhausted(bs, mid, end, r, k, level, i);
    }
  }

  lemma ChildExhausted(bs: seq<Chain>, mid: seq<Chain>, end: seq<Chain>, r: nat, k: nat, level: nat, i: nat)
    requires SegmentIndexOf(r) < k && r + Pow2(k) < |mid| == |end|
    requires !Marked(bs, mid, Parent(i)) && (Parent(i) == r ==> SegmentIndexOf(i) >= k)
    requires !Marked(mid[r + Pow2(k) := Rehashed([])], end, Parent(i))
    requires Parent(i) == r + Pow2(k) ==> SegmentIndexOf(i) >= level
    requires 1 < i < |end| && i != r + Pow2(k) && SegmentIndexOf(i) < level
    requires Marked(bs, end, Parent(i)) ==>
             || Marked(bs, mid, Parent(i))
             || Parent(i) == r + Pow2(k)
             || Marked(mid[r + Pow2(k) := Rehashed([])], end, Parent(i))
    ensures !Marked(bs, end, Parent(i)) && (Parent(i) == r ==> SegmentIndexOf(i) >= k + 1)
  {
    ChildIn(r, k, i);
  }

  lemma MarkedUnion(bs: seq<Chain>, mid: seq<Chain>, end: seq<Chain>, r: nat, c: nat)
    requires MarkedFrom(bs, mid, r) && c < |mid| && mid[c].Required? && MarkedFrom(mid[c := Rehashed([])], end, c)
    ensures |end| == |bs|
    ensures forall i: nat | i < |bs| ::
            Marked(bs, end, i) <==> Marked(bs, mid, i) || i == c || Marked(mid[c := Rehashed([])], end, i)
    ensures forall i | 0 <= i < |bs| :: end[i] == bs[i] || (bs[i].Required? && end[i] == Rehashed([]))
  {
  }

  lemma UnionHangs(bs: seq<Chain>, mid: seq<Chain>, end: seq<Chain>, r: nat, c: nat)
    requires MarkedFrom(bs, mid, r) && c > 1 && Parent(c) == r && c < |mid| && mid[c].Required?
    requires MarkedFrom(mid[c := Rehashed([])], end, c) && |end| == |bs|
    requires forall i: nat | i < |bs| ::
             Marked(bs, end, i) <==> Marked(bs, mid, i) || i == c || Marked(mid[c := Rehashed([])], end, i)
    requires forall i | 0 <= i < |bs| :: end[i] == bs[i] || (bs[i].Required? && end[i] == Rehashed([]))
    ensures MarkedFrom(bs, end, r)
  {
    forall i: nat | Marked(bs, end, i) ensures i > 1 && (Parent(i) == r || Marked(bs, end, Parent(i))) {
      if Marked(mid[c := Rehashed([])], end, i) {
        ParentLess(i);
      }
      assert i != c && !Marked(mid[c := Rehashed([])], end, i) ==> Marked(bs, mid, i);
    }
  }

  class HashMap {
    const hash: Hash
    /** my_mask is 2^level - 1. */
    var level: nat
    var buckets: seq<Chain>
    var size: nat

    constructor (hash: Hash)
      ensures this.hash == hash && level == 1 && buckets == [Rehashed([]), Rehashed([])] && size == 0
    {
      this.hash, level, buckets, size := hash, 1, [Rehashed([]), Rehashed([])], 0;
    }

    /** Mark all children of r that need rehashing, and theirs, across all segments. */
    method MarkRehashedLevels(r: nat)
      requires level >= 1 && |buckets| == Pow2(level) && Ready(buckets, r)
      modifies this`buckets
      ensures MarkedFrom(old(buckets), buckets, r) && Exhausted(old(buckets), buckets, r, level)
      decreases Pow2(level) - r
    {
      SegmentWithin(r, level);
      var s := SegmentIndexOf(r) + 1;
      ghost var before := buckets;
      ChildrenComeLater(buckets, r);
      while s < level
        invariant SegmentIndexOf(r) < s <= level
        invariant MarkedFrom(before, buckets, r) && Exhausted(before, buckets, r, s)
      {
        var c := r + Pow2(s);
        ChildBound(r, s, level);
        ghost var mid := buckets;
        if buckets[c].Required? {
          buckets := buckets[c := Rehashed([])];
          MarkRehashedLevels(c);
          AllWithin(before, level);
          ChildMarked(before, mid, buckets, r, s, level);
        } else {
          ChildSkipped(before, buckets, r, s);
        }
        s := s + 1;
      }
    }

    /** Move the nodes of r that belong further on to the buckets that the full mask gives. */
    method Redistribute(r: nat)
      requires Spread(hash, buckets, level, r)
      modifies this`buckets
      ensures Sound(hash, buckets, level) && SameReady(old(buckets), buckets)
      ensures AllNodes(buckets) == AllNodes(old(buckets))
    {
      ghost var before := buckets;
      var p := 0;
      while p < |buckets[r].nodes|
        invariant Spreading(hash, before, buckets, level, r, p)
        decreases |buckets[r].nodes| - p
      {
        var chain := buckets[r].nodes;
        var n := chain[p];
        var f := Low(hash(n.key), level);
        if f != r {
          SpreadsFurther(hash, before, buckets, level, r, p);
          buckets := buckets[r := Rehashed(chain[..p] + chain[p + 1..])];
          buckets := buckets[f := Rehashed([n] + buckets[f].nodes)];
        } else {
          p := p + 1;
        }
      }
      SpreadDone(hash, buckets, level, r);
    }

    /** The first rehashed ancestor of b. */
    method RootOf(b: nat) returns (r: nat)
      requires Closed(buckets, level) && b < |buckets| && buckets[b].Required?
      ensures Ready(buckets, r) && Hangs(buckets, b, r)
    {
      ParentLess(b);
      r := Parent(b);
      while buckets[r].Required?
        invariant r < b && Hangs(buckets, b, r)
        decreases r
      {
        HangsFurther(buckets, b, r);
        ParentLess(r);
        r := Parent(r);
      }
    }

    /** Bucket b needs rehashing: rehash everything that hangs from its root. */
    method RehashFrom(b: nat)
      requires Sound(hash, buckets, level) && b < |buckets| && buckets[b].Required?
      modifies this`buckets
      ensures Sound(hash, buckets, level) && Ready(buckets, b) && MoreReady(old(buckets), buckets)
      ensures AllNodes(buckets) == AllNodes(old(buckets))
    {
      var r := RootOf(b);
      ghost var before := buckets;
      MarkRehashedLevels(r);
      HangingIsMarked(before, buckets, b, r, level);
      MarkingSpreads(hash, before, buckets, level, r);
      MarkingKeepsNodes(before, buckets);
      Redistribute(r);
    }

    /**
     Scan the last segment for buckets that need rehashing. This completes the whole table unless the
     map is empty, some bucket still needs rehashing, and segments were added: the new last segment is
     then born rehashed, and hides the older buckets from the scan.
     */
    method Rehash(count: nat)
      requires Sound(hash, buckets, level) && size == |AllNodes(buckets)|
      modifies this`level, this`buckets
      ensures AllNodes(buckets) == AllNodes(old(buckets)) && level >= old(level) && |buckets| == Pow2(level)
      ensures count <= |buckets| && JustEnough(old(level), level, count)
      ensures Complete(hash, buckets, level) <==>
              !(size == 0 && count > Pow2(old(level))
                && exists i: nat :: i < |old(buckets)| && old(buckets)[i].Required?)
    {
      Reserve(count);
      ReservedNodes(old(buckets), buckets, size);
      ghost var hidden := size == 0 && level != old(level);
      if hidden {
        BornReady(old(buckets), old(level), buckets, level);
        HiddenOutcome(hash, old(buckets), buckets, level);
      } else {
        ReservedSound(hash, old(buckets), old(level), buckets, level);
      }
      ScanLastSegment(hidden);
      if !hidden {
        ScanCompletes(hash, buckets, level);
      }
    }

    method ScanLastSegment(ghost hidden: bool)
      requires |buckets| == Pow2(level)
      requires if hidden then LastReady(buckets, level, Pow2(level)) else Sound(hash, buckets, level)
      modifies this`buckets
      ensures if hidden then buckets == old(buckets) else Sound(hash, buckets, level)
      ensures |buckets| == |old(buckets)| && LastReady(buckets, level, Pow2(level))
      ensures AllNodes(buckets) == AllNodes(old(buckets))
    {
      var b := Pow2(level) / 2;
      while b <= Pow2(level) - 1
        invariant Pow2(level) / 2 <= b <= Pow2(level) && |buckets| == Pow2(level)
        invariant if hidden then buckets == old(buckets) else Sound(hash, buckets, level)
        invariant LastReady(buckets, level, b) && AllNodes(buckets) == AllNodes(old(buckets))
      {
        assert hidden ==> Ready(buckets, b);
        ghost var before := buckets;
        if buckets[b].Required? {
          RehashFrom(b);
        }
        OneMoreReady(before, buckets, level, b);
        b := b + 1;
      }
    }

    /** Enable segments until there are enough buckets; those added to an empty map are born rehashed. */
    method Reserve(count: nat)
      requires level >= 1 && |buckets| == Pow2(level)
      modifies this`level, this`buckets
      ensures level >= 1 && |buckets| == Pow2(level) && old(level) <= level
      ensures old(buckets) <= buckets && (level == old(level) <==> count <= Pow2(old(level)))
      ensures count <= Pow2(level) && JustEnough(old(level), level, count)
      ensures forall i | |old(buckets)| <= i < |buckets| :: buckets[i] == if size == 0 then Rehashed([]) else Required
    {
      if count == 0 {
        PowersGrow(0, level);
        return;
      }
      while count - 1 > Pow2(level) - 1
        invariant level >= 1 && |buckets| == Pow2(level) && old(level) <= level && old(buckets) <= buckets
        invariant level == old(level) || count > Pow2(old(level))
        invariant JustEnough(old(level), level, count)
        invariant forall i | |old(buckets)| <= i < |buckets| ::
                  buckets[i] == if size == 0 then Rehashed([]) else Required
        decreases count - level
      {
        EnableSegment();
      }
    }

    method EnableSegment()
      requires level >= 1 && |buckets| == Pow2(level)
      modifies this`level, this`buckets
      ensures level == if old(level) < 8 then 8 else old(level) + 1
      ensures |buckets| == Pow2(level) && old(buckets) <= buckets
      ensures forall i | |old(buckets)| <= i < |buckets| :: buckets[i] == if size == 0 then Rehashed([]) else Required
    {
      var l := if level < 8 then 8 else level + 1;
      PowersGrow(level, l);
      var empty := if size == 0 then Rehashed([]) else Required;
      buckets := buckets + seq(Pow2(l) - Pow2(level), _ => empty);
      level := l;
    }
  }

  /** Growing stops as soon as there are enough buckets; the first time it enables a block of segments. */
  ghost predicate JustEnough(level: nat, level': nat, count: nat) {
    level' == level || level' == 8 || (level' > 0 && count > Pow2(level' - 1))
  }

  ghost predicate SameReady(bs: seq<Chain>, bs': seq<Chain>) {
    |bs'| == |bs| && forall i: nat :: Ready(bs', i) == Ready(bs, i)
  }

  ghost predicate MoreReady(bs: seq<Chain>, bs': seq<Chain>) {
    |bs'| == |bs| && forall i: nat | Ready(bs, i) :: Ready(bs', i)
  }

  // ---------------------------------------------------------------- redistributing

  /** Every node is in the deepest rehashed bucket of its path, except that those of r may belong further on. */
  ghost predicate Spread(h: Hash, bs: seq<Chain>, level: nat, r: nat) {
    && Closed(bs, level) && Ready(bs, r)
    && forall i: nat, n | Contains(bs, i, n) ::
         && OnPath(i, h(n.key))
         && if i == r then Ready(bs, Low(h(n.key), level)) else Deepest(bs, i, h(n.key))
  }

  /** The first p nodes of r belong there, and nothing but nodes has moved since before. */
  ghost predicate Spreading(h: Hash, before: seq<Chain>, bs: seq<Chain>, level: nat, r: nat, p: nat) {
    && Spread(h, bs, level, r) && SameReady(before, bs) && AllNodes(bs) == AllNodes(before)
    && p <= |bs[r].nodes| && forall k | 0 <= k < p :: Low(h(bs[r].nodes[k].key), level) == r
  }

  /** The bs that results when the node at p of r has moved to the front of f. */
  function Relinked(bs: seq<Chain>, r: nat, p: nat, f: nat): seq<Chain>
    requires Ready(bs, r) && Ready(bs, f) && p < |bs[r].nodes|
  {
    var mid := bs[r := Rehashed(bs[r].nodes[..p] + bs[r].nodes[p + 1..])];
    mid[f := Rehashed([bs[r].nodes[p]] + mid[f].nodes)]
  }

  lemma SpreadsFurther(h: Hash, before: seq<Chain>, bs: seq<Chain>, level: nat, r: nat, p: nat)
    requires Spreading(h, before, bs, level, r, p) && p < |bs[r].nodes|
    requires Low(h(bs[r].nodes[p].key), level) != r
    ensures Ready(bs, Low(h(bs[r].nodes[p].key), level))
    ensures var end := Relinked(bs, r, p, Low(h(bs[r].nodes[p].key), level));
            Spreading(h, before, end, level, r, p) && |end[r].nodes| < |bs[r].nodes|
  {
    Relinks(h, bs, level, r, p);
  }

  lemma Relinks(h: Hash, bs: seq<Chain>, level: nat, r: nat, p: nat)
    requires Spread(h, bs, level, r) && p < |bs[r].nodes| && Low(h(bs[r].nodes[p].key), level) != r
    ensures Ready(bs, Low(h(bs[r].nodes[p].key), level))
    ensures var end := Relinked(bs, r, p, Low(h(bs[r].nodes[p].key), level));
            Spread(h, end, level, r) && SameReady(bs, end) && AllNodes(end) == AllNodes(bs)
  {
    var chain := bs[r].nodes;
    var n := chain[p];
    assert Contains(bs, r, n);
    var f := Low(h(n.key), level);
    var end := Relinked(bs, r, p, f);
    assert SameReady(bs, end);
    RelinkKeepsNodes(bs, r, p, f);
    MaskedOnPath(h(n.key), level);
    TopIsDeepest(bs, level, h(n.key));
    forall i: nat, m | Contains(end, i, m)
      ensures OnPath(i, h(m.key)) && if i == r then Ready(end, Low(h(m.key), level)) else Deepest(end, i, h(m.key))
    {
      assert (m == n && i == f) || Contains(bs, i, m);
    }
  }

  /** Nothing is deeper than what the full mask gives. */
  lemma TopIsDeepest(bs: seq<Chain>, level: nat, x: nat)
    requires level >= 1 && |bs| == Pow2(level)
    ensures Deepest(bs, Low(x, level), x)
  {
    forall d: nat | d > Low(x, level) && Ready(bs, d) ensures !OnPath(d, x) {
      if OnPath(d, x) { PathWithin(d, x, level); }
    }
  }

  lemma RelinkKeepsNodes(bs: seq<Chain>, r: nat, p: nat, f: nat)
    requires Ready(bs, r) && Ready(bs, f) && f != r && p < |bs[r].nodes|
    ensures AllNodes(Relinked(bs, r, p, f)) == AllNodes(bs)
  {
    var n := bs[r].nodes[p];
    var rest := Rehashed(bs[r].nodes[..p] + bs[r].nodes[p + 1..]);
    var more := Rehashed([n] + bs[f].nodes);
    var mid := bs[r := rest];
    AllNodesUpdate(bs, r, rest);
    AllNodesUpdate(mid, f, more);
    OneOut(bs[r].nodes, p);
    Transfer(AllNodes(bs), AllNodes(mid), AllNodes(mid[f := more]), NodesOf(rest), NodesOf(bs[f]), n);
  }

  lemma OneOut(nodes: seq<Node>, p: nat)
    requires p < |nodes|
    ensures multiset(nodes) == multiset(nodes[..p] + nodes[p + 1..]) + multiset{nodes[p]}
  {
    assert nodes == nodes[..p] + [nodes[p]] + nodes[p + 1..];
  }

  lemma Transfer(a: multiset<Node>, b: multiset<Node>, c: multiset<Node>, rest: multiset<Node>, more: multiset<Node>,
                 n: Node)
    requires b + (rest + multiset{n}) == a + rest
    requires c + more == b + (multiset{n} + more)
    ensures c == a
  {
    assert b + multiset{n} == a by {
      assert b + multiset{n} == b + (rest + multiset{n}) - rest;
      assert a == a + rest - rest;
    }
    assert c == c + more - more;
    assert b + multiset{n} == b + (multiset{n} + more) - more;
  }

  lemma SpreadDone(h: Hash, bs: seq<Chain>, level: nat, r: nat)
    requires Spread(h, bs, level, r)
    requires forall k | 0 <= k < |bs[r].nodes| :: Low(h(bs[r].nodes[k].key), level) == r
    ensures Sound(h, bs, level)
  {
    forall i: nat, n | Contains(bs, i, n) ensures Deepest(bs, i, h(n.key)) {
      if i == r { TopIsDeepest(bs, level, h(n.key)); }
    }
  }

  // ---------------------------------------------------------------- marking from the root of b

  /** From b up to r there are only buckets that need rehashing, r excluded. */
  ghost predicate Hangs(bs: seq<Chain>, b: nat, r: nat)
    decreases b
  {
    b < |bs| && b > 1 && bs[b].Required? && (Parent(b) == r || (Parent(b) < b && Hangs(bs, Parent(b), r)))
  }

  lemma {:induction false} HangsFurther(bs: seq<Chain>, b: nat, r: nat)
    requires Hangs(bs, b, r) && 1 < r < |bs| && bs[r].Required?
    ensures Hangs(bs, b, Parent(r))
    decreases b
  {
    ParentLess(r);
    if Parent(b) != r {
      HangsFurther(bs, Parent(b), r);
    } else {
      ParentLess(b);
    }
  }

  lemma {:induction false} HangingIsMarked(bs: seq<Chain>, bs': seq<Chain>, b: nat, r: nat, level: nat)
    requires MarkedFrom(bs, bs', r) && Exhausted(bs, bs', r, level) && Hangs(bs, b, r) && level >= 1
    requires |bs| == Pow2(level)
    ensures Marked(bs, bs', b)
    decreases b
  {
    SegmentWithin(b, level);
    if Parent(b) != r {
      HangingIsMarked(bs, bs', Parent(b), r, level);
    }
  }

  /** A newly marked bucket hangs from r: all of its path from there on is newly marked. */
  lemma {:induction false} MarkedPath(bs: seq<Chain>, bs': seq<Chain>, r: nat, d: nat, x: nat)
    requires MarkedFrom(bs, bs', r) && Marked(bs, bs', d) && OnPath(d, x) && Ready(bs, r)
    ensures r < d && OnPath(r, x)
    ensures forall i: nat | r < i <= d && OnPath(i, x) :: Marked(bs, bs', i)
    decreases d
  {
    ParentOnPath(d, x);
    if Parent(d) != r {
      MarkedPath(bs, bs', r, Parent(d), x);
    }
  }

  lemma MarkingSpreads(h: Hash, bs: seq<Chain>, bs': seq<Chain>, level: nat, r: nat)
    requires Sound(h, bs, level) && MarkedFrom(bs, bs', r) && Exhausted(bs, bs', r, level) && Ready(bs, r)
    ensures Spread(h, bs', level, r) && MoreReady(bs, bs')
  {
    assert forall i: nat :: Ready(bs', i) <==> Ready(bs, i) || Marked(bs, bs', i);
    forall i: nat, n | Contains(bs', i, n)
      ensures OnPath(i, h(n.key)) && if i == r then Ready(bs', Low(h(n.key), level)) else Deepest(bs', i, h(n.key))
    {
      assert Contains(bs, i, n);
      if i == r {
        TopIsMarked(bs, bs', level, r, h(n.key));
      } else {
        forall d: nat | d > i && Ready(bs', d) ensures !OnPath(d, h(n.key)) {
          if Marked(bs, bs', d) && OnPath(d, h(n.key)) {
            MarkedPath(bs, bs', r, d, h(n.key));
          }
        }
      }
    }
  }

  /** If r is the deepest rehashed bucket of a path, marking from r marks the rest of the path. */
  lemma TopIsMarked(bs: seq<Chain>, bs': seq<Chain>, level: nat, r: nat, x: nat)
    requires Closed(bs, level) && MarkedFrom(bs, bs', r) && Exhausted(bs, bs', r, level) && Ready(bs, r)
    requires OnPath(r, x) && Deepest(bs, r, x)
    ensures Ready(bs', Low(x, level))
  {
    var f := Low(x, level);
    LowBounds(x, level);
    MaskedOnPath(x, level);
    PathWithin(r, x, level);
    if f != r {
      HangsOnPath(bs, f, r, x);
      HangingIsMarked(bs, bs', f, r, level);
    }
  }

  lemma {:induction false} HangsOnPath(bs: seq<Chain>, d: nat, r: nat, x: nat)
    requires r < d < |bs| && OnPath(d, x) && OnPath(r, x) && Deepest(bs, r, x) && Ready(bs, 0) && Ready(bs, 1)
    ensures Hangs(bs, d, r)
    decreases d
  {
    assert !Ready(bs, d);
    ParentOnPath(d, x);
    if Parent(d) != r {
      HangsOnPath(bs, Parent(d), r, x);
    }
  }

  lemma {:induction false} MarkingKeepsNodes(bs: seq<Chain>, bs': seq<Chain>)
    requires |bs'| == |bs| && forall i | 0 <= i < |bs| :: bs'[i] == bs[i] || (bs[i].Required? && bs'[i] == Rehashed([]))
    ensures AllNodes(bs') == AllNodes(bs)
  {
    if bs != [] {
      MarkingKeepsNodes(bs[..|bs| - 1], bs'[..|bs| - 1]);
    }
  }

  lemma SegmentWithin(i: nat, level: nat)
    requires level >= 1 && i < Pow2(level)
    ensures SegmentIndexOf(i) < level
  {
    SegmentBounds(i);
    if SegmentIndexOf(i) >= level {
      PowersGrow(level, SegmentIndexOf(i));
    }
  }

  lemma AllWithin(bs: seq<Chain>, level: nat)
    requires level >= 1 && |bs| == Pow2(level)
    ensures forall i: nat | i < |bs| :: SegmentIndexOf(i) < level
  {
    forall i: nat | i < |bs| ensures SegmentIndexOf(i) < level {
      SegmentWithin(i, level);
    }
  }

  lemma ChildBound(r: nat, k: nat, level: nat)
    requires SegmentIndexOf(r) < k < level
    ensures r < r + Pow2(k) < Pow2(level)
  {
    SegmentBounds(r);
    PowersGrow(SegmentIndexOf(r) + 1, k);
    PowersGrow(k + 1, level);
  }

  lemma ChildrenComeLater(bs: seq<Chain>, r: nat)
    ensures MarkedFrom(bs, bs, r) && Exhausted(bs, bs, r, SegmentIndexOf(r) + 1)
  {
    forall i: nat | 1 < i < |bs| && Parent(i) == r ensures SegmentIndexOf(i) >= SegmentIndexOf(r) + 1 {
      SegmentBounds(i);
      LowBounds(i, SegmentIndexOf(i));
      SegmentBounds(r);
      if SegmentIndexOf(i) < SegmentIndexOf(r) {
        PowersGrow(SegmentIndexOf(i), SegmentIndexOf(r));
      }
    }
  }

  lemma ChildSkipped(bs: seq<Chain>, mid: seq<Chain>, r: nat, k: nat)
    requires Exhausted(bs, mid, r, k) && SegmentIndexOf(r) < k && Ready(mid, r + Pow2(k))
    ensures Exhausted(bs, mid, r, k + 1)
  {
    forall i: nat | 1 < i < |mid| && mid[i].Required? && Parent(i) == r ensures SegmentIndexOf(i) >= k + 1 {
      ChildIn(r, k, i);
    }
  }

  // ---------------------------------------------------------------- what the scan achieves

  /** The buckets of the last segment up to b are rehashed. */
  ghost predicate LastReady(bs: seq<Chain>, level: nat, b: nat) {
    forall k: nat | Pow2(level) / 2 <= k < b :: Ready(bs, k)
  }

  lemma OneMoreReady(bs: seq<Chain>, bs': seq<Chain>, level: nat, b: nat)
    requires LastReady(bs, level, b) && MoreReady(bs, bs') && Ready(bs', b)
    ensures LastReady(bs', level, b + 1)
  {
  }

  lemma ReservedNodes(bs: seq<Chain>, bs': seq<Chain>, size: nat)
    requires bs <= bs' && forall i | |bs| <= i < |bs'| :: bs'[i] == if size == 0 then Rehashed([]) else Required
    ensures AllNodes(bs') == AllNodes(bs)
  {
    assert bs' == bs + bs'[|bs|..];
    AllNodesExtend(bs, bs'[|bs|..]);
  }

  lemma ReservedSound(h: Hash, bs: seq<Chain>, level: nat, bs': seq<Chain>, level': nat)
    requires Sound(h, bs, level) && level <= level' && |bs'| == Pow2(level') && bs <= bs'
    requires forall i | |bs| <= i < |bs'| :: bs'[i].Required?
    ensures Sound(h, bs', level')
  {
    assert forall i: nat :: Ready(bs', i) == Ready(bs, i);
    assert forall i: nat, n :: Contains(bs', i, n) == Contains(bs, i, n);
  }

  /** Scanning the last segment is enough: below every other bucket hangs one of the last segment. */
  lemma ScanCompletes(h: Hash, bs: seq<Chain>, level: nat)
    requires Sound(h, bs, level) && LastReady(bs, level, Pow2(level))
    ensures Complete(h, bs, level)
  {
    forall i: nat | i < |bs| ensures Ready(bs, i) {
      if 1 < i < Pow2(level) / 2 {
        SegmentWithin(i, level - 1);
        ChildBound(i, level - 1, level);
        ChildIn(i, level - 1, i + Pow2(level - 1));
      }
    }
    forall i: nat, n | Contains(bs, i, n) ensures i == Low(h(n.key), level) {
      PathWithin(i, h(n.key), level);
      MaskedOnPath(h(n.key), level);
      LowBounds(h(n.key), level);
    }
  }

  /** After growth, the last segment is new. */
  lemma BornReady(bs: seq<Chain>, level: nat, bs': seq<Chain>, level': nat)
    requires level < level' && |bs| == Pow2(level) && |bs'| == Pow2(level') && bs <= bs'
    requires forall i | |bs| <= i < |bs'| :: bs'[i].Rehashed?
    ensures LastReady(bs', level', Pow2(level'))
  {
    PowersGrow(level, level' - 1);
  }

  lemma HiddenOutcome(h: Hash, bs: seq<Chain>, bs': seq<Chain>, level: nat)
    requires bs <= bs' && |AllNodes(bs')| == 0 && forall i | |bs| <= i < |bs'| :: bs'[i].Rehashed?
    ensures Complete(h, bs', level) <==> !exists i: nat :: i < |bs| && bs[i].Required?
  {
    forall i: nat, n ensures !Contains(bs', i, n) {
      if Contains(bs', i, n) { NoNodes(bs', i, n); }
    }
    forall i: nat | i < |bs| && bs[i].Required? ensures !Complete(h, bs', level) {
      assert !Ready(bs', i);
    }
  }

  /** Such a state: 256 buckets after the first growth, everything erased again. */
  lemma IncompleteAfterRehash(h: Hash) returns (bs: seq<Chain>)
    ensures Sound(h, bs, 8) && |AllNodes(bs)| == 0 && bs[2].Required?
  {
    bs := seq(256, i => if i < 2 then Rehashed([]) else Required);
    assert Pow2(8) == 256;
    var start := [Rehashed([]), Rehashed([])];
    assert bs == start + bs[2..];
    AllNodesExtend(start, bs[2..]);
    assert start[..1] == [Rehashed([])] && start[..1][..0] == [];
    assert forall i: nat :: Ready(bs, i) <==> i < 2;
  }
}
