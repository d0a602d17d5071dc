/**
 The range pool of a dynamic partitioner (include/oneapi/tbb/partitioner.h), over blocked ranges
 (include/oneapi/tbb/blocked_range.h): a task splits its range lazily, runs the leftmost piece itself
 and offers the rightmost one whenever there is demand.
 */
module RangePool {

  import H = HashPaths

  const POOL_CAPACITY := 8

  /** blocked_range; the grain size is at least 1. */
  datatype Range = Range(lo: int, hi: int, grain: nat)

  predicate Proper(r: Range) { r.lo < r.hi && r.grain >= 1 }

  predicate Divisible(r: Range) { r.grain < r.hi - r.lo }

  /** The splitting constructor: what is left of the old range, and the new one. */
  function Middle(r: Range): int { r.lo + (r.hi - r.lo) / 2 }
  function FirstPart(r: Range): Range { r.(hi := Middle(r)) }
  function SecondPart(r: Range): Range { r.(lo := Middle(r)) }

  lemma PartsTile(r: Range)
    requires Proper(r) && Divisible(r)
    ensures Proper(FirstPart(r)) && Proper(SecondPart(r)) && FirstPart(r).hi == SecondPart(r).lo
  {
  }

  datatype Piece = Piece(range: Range, depth: nat)

  /** The pieces tile [lo, hi) from left to right. */
  ghost predicate Tiles(pieces: seq<Piece>, lo: int, hi: int) {
    if pieces == [] then lo == hi
    else Proper(pieces[0].range) && pieces[0].range.lo == lo && Tiles(pieces[1..], pieces[0].range.hi, hi)
  }

  /** Depths never increase from the leftmost piece to the rightmost, and stay within the maximum. */
  ghost predicate Deepening(pieces: seq<Piece>, max: nat) {
    && (forall a, b | 0 <= a <= b < |pieces| :: pieces[b].depth <= pieces[a].depth)
    && (forall a | 0 <= a < |pieces| :: pieces[a].depth <= max)
  }

  /** The position k steps behind the head. */
  function Slot(head: nat, k: nat): nat
    requires head < POOL_CAPACITY && k <= POOL_CAPACITY
  {
    if k <= head then head - k else head + POOL_CAPACITY - k
  }

  /** The buffer holds these pieces, from the back (at the head) to the front (at the tail). */
  ghost predicate Stores(pool: seq<Range>, depth: seq<nat>, head: nat, pieces: seq<Piece>) {
    && |pool| == POOL_CAPACITY == |depth| && head < POOL_CAPACITY && |pieces| <= POOL_CAPACITY
    && forall k | 0 <= k < |pieces| :: pieces[k] == Piece(pool[Slot(head, k)], depth[Slot(head, k)])
  }

  /** The buffer after its back has been split into positions head and prev. */
  ghost function SplitPool(pool: seq<Range>, prev: nat, head: nat): seq<Range>
    requires prev < |pool| && head < |pool|
  {
    pool[head := FirstPart(pool[prev])][prev := SecondPart(pool[prev])]
  }

  ghost function SplitDepth(depth: seq<nat>, prev: nat, head: nat): seq<nat>
    requires prev < |depth| && head < |depth|
  {
    depth[head := depth[prev] + 1][prev := depth[prev] + 1]
  }

  lemma StoresSplit(pool: seq<Range>, depth: seq<nat>, head: nat, pieces: seq<Piece>)
    requires Stores(pool, depth, head, pieces) && 0 < |pieces| < POOL_CAPACITY
    ensures var h := (head + 1) % POOL_CAPACITY;
            Stores(SplitPool(pool, head, h), SplitDepth(depth, head, h), h, Split(pieces))
  {
    var h := (head + 1) % POOL_CAPACITY;
    var split := Split(pieces);
    forall k | 0 <= k < |split|
      ensures split[k] == Piece(SplitPool(pool, head, h)[Slot(h, k)], SplitDepth(depth, head, h)[Slot(h, k)])
    {
      if k >= 2 {
        assert split[k] == pieces[k - 1] && Slot(h, k) == Slot(head, k - 1);
      }
    }
  }

  lemma StoresPop(pool: seq<Range>, depth: seq<nat>, head: nat, pieces: seq<Piece>)
    requires Stores(pool, depth, head, pieces) && pieces != []
    ensures Stores(pool, depth, Slot(head, 1), pieces[1..])
    ensures |pieces| == 1 ==> Slot(Slot(head, 1), POOL_CAPACITY - 1) == Slot(head, 0)
    ensures |pieces| > 1 ==> Slot(Slot(head, 1), |pieces| - 2) == Slot(head, |pieces| - 1)
  {
    var rest := pieces[1..];
    forall k | 0 <= k < |rest| ensures rest[k] == Piece(pool[Slot(Slot(head, 1), k)], depth[Slot(Slot(head, 1), k)]) {
      assert rest[k] == pieces[k + 1] && Slot(Slot(head, 1), k) == Slot(head, k + 1);
    }
  }

  /** range_vector: a circular buffer, leftmost piece at the head, rightmost at the tail. */
  class RangeVector {
    var head: nat
    var tail: nat
    var size: nat
    const depth: array<nat>
    const pool: array<Range>
    ghost var pieces: seq<Piece>

    ghost predicate Valid()
      reads this, depth, pool
    {
      && Stores(pool[..], depth[..], head, pieces) && size == |pieces|
      && tail == (if size == 0 then Slot(head, POOL_CAPACITY - 1) else Slot(head, size - 1))
    }

    constructor (range: Range)
      ensures Valid() && fresh(depth) && fresh(pool) && pieces == [Piece(range, 0)]
    {
      head, tail, size := 0, 0, 1;
      depth := new nat[POOL_CAPACITY](_ => 0);
      pool := new Range[POOL_CAPACITY](_ => range);
      pieces := [Piece(range, 0)];
    }

    method Back() returns (r: Range)
      requires Valid() && size > 0
      ensures r == pieces[0].range
    {
      r := pool[head];
    }

    method Front() returns (r: Range, d: nat)
      requires Valid() && size > 0
      ensures Piece(r, d) == pieces[|pieces| - 1]
    {
      r, d := pool[tail], depth[tail];
    }

    method IsDivisible(max: nat) returns (b: bool)
      requires Valid() && size > 0
      ensures b == CanSplit(pieces, max)
    {
      b := depth[head] < max && Divisible(pool[head]);
    }

    /** The body of split_to_fill's loop. */
    method SplitBack()
      requires Valid() && 0 < size < POOL_CAPACITY
      modifies this, depth, pool
      ensures Valid() && pieces == Split(old(pieces))
    {
      var prev := head;
      StoresSplit(pool[..], depth[..], head, pieces);
      assert tail == Slot((head + 1) % POOL_CAPACITY, size);
      head := (head + 1) % POOL_CAPACITY;
      pool[head] := pool[prev];
      pool[prev] := SecondPart(pool[head]);
      pool[head] := FirstPart(pool[head]);
      assert pool[..] == SplitPool(old(pool[..]), prev, head);
      depth[prev] := depth[prev] + 1;
      depth[head] := depth[prev];
      assert depth[..] == SplitDepth(old(depth[..]), prev, head);
      size := size + 1;
      pieces := Split(pieces);
    }

    method SplitToFill(max: nat)
      requires Valid() && size > 0
      modifies this, depth, pool
      ensures Valid() && pieces == Filled(old(pieces), max)
    {
      ghost var before := pieces;
      while true
        invariant Valid() && 0 < size && Filled(pieces, max) == Filled(before, max)
        decreases POOL_CAPACITY - size
      {
        if size >= POOL_CAPACITY {
          break;
        }
        var more := IsDivisible(max);
        if !more {
          break;
        }
        SplitBack();
      }
    }

    method PopBack()
      requires Valid() && size > 0
      modifies this
      ensures Valid() && pieces == old(pieces)[1..]
    {
      StoresPop(pool[..], depth[..], head, pieces);
      assert (head + POOL_CAPACITY - 1) % POOL_CAPACITY == Slot(head, 1);
      size := size - 1;
      head := (head + POOL_CAPACITY - 1) % POOL_CAPACITY;
      pieces := pieces[1..];
    }

    method PopFront()
      requires Valid() && size > 0
      modifies this
      ensures Valid() && pieces == old(pieces)[..|old(pieces)| - 1]
    {
      size := size - 1;
      tail := (tail + 1) % POOL_CAPACITY;
      pieces := pieces[..|pieces| - 1];
    }
  }

  /** range_vector::is_divisible */
  ghost predicate CanSplit(pieces: seq<Piece>, max: nat)
    requires pieces != []
  {
    pieces[0].depth < max && Divisible(pieces[0].range)
  }

  /** The pool after split_to_fill. */
  ghost function Filled(pieces: seq<Piece>, max: nat): seq<Piece>
    requires pieces != []
    decreases POOL_CAPACITY - |pieces|
  {
    if |pieces| >= POOL_CAPACITY || !CanSplit(pieces, max) then pieces else Filled(Split(pieces), max)
  }

  /** The leftmost piece in two, both one level deeper. */
  ghost function Split(pieces: seq<Piece>): seq<Piece>
    requires pieces != []
  {
    var p := pieces[0];
    [Piece(FirstPart(p.range), p.depth + 1), Piece(SecondPart(p.range), p.depth + 1)] + pieces[1..]
  }

  // ---------------------------------------------------------------- what the pool keeps

  lemma SplitKeeps(pieces: seq<Piece>, lo: int, hi: int, max: nat)
    requires pieces != [] && CanSplit(pieces, max) && Tiles(pieces, lo, hi) && Deepening(pieces, max)
    ensures Tiles(Split(pieces), lo, hi) && Deepening(Split(pieces), max)
  {
    var p := pieces[0].range;
    PartsTile(p);
    assert Split(pieces)[1..][1..] == pieces[1..];
    assert Split(pieces)[1..][0] == Piece(SecondPart(p), pieces[0].depth + 1);
  }

  /** Filling the pool keeps it a tiling with depths in order; afterwards it is full or its back cannot be split. */
  lemma {:induction false} FilledKeeps(pieces: seq<Piece>, lo: int, hi: int, max: nat)
    requires pieces != [] && Tiles(pieces, lo, hi) && Deepening(pieces, max)
    ensures var f := Filled(pieces, max);
      && f != [] && Tiles(f, lo, hi) && Deepening(f, max) && |f| >= |pieces|
      && (|f| >= POOL_CAPACITY || !CanSplit(f, max)) && (f == pieces || |f| > |pieces|)
    decreases POOL_CAPACITY - |pieces|
  {
    if |pieces| < POOL_CAPACITY && CanSplit(pieces, max) {
      SplitKeeps(pieces, lo, hi, max);
      FilledKeeps(Split(pieces), lo, hi, max);
    }
  }

  lemma {:induction false} TilesBounds(pieces: seq<Piece>, lo: int, hi: int)
    requires Tiles(pieces, lo, hi)
    ensures lo <= hi && (pieces != [] ==> lo < hi)
  {
    if pieces != [] {
      TilesBounds(pieces[1..], pieces[0].range.hi, hi);
    }
  }

  /** Without its rightmost piece, the rest tiles what is to the left of it. */
  lemma {:induction false} TilesFront(pieces: seq<Piece>, lo: int, hi: int)
    requires Tiles(pieces, lo, hi) && pieces != []
    ensures var p := pieces[|pieces| - 1].range;
            Proper(p) && p.hi == hi && lo <= p.lo && Tiles(pieces[..|pieces| - 1], lo, p.lo)
  {
    if |pieces| > 1 {
      TilesFront(pieces[1..], pieces[0].range.hi, hi);
      assert pieces[1..][..|pieces| - 2] == pieces[..|pieces| - 1][1..];
    }
  }

  /** Ranges that follow on each other from left to right. */
  ghost predicate RunsOn(ranges: seq<Range>, lo: int, hi: int) {
    if ranges == [] then lo == hi
    else
      var last := ranges[|ranges| - 1];
      Proper(last) && last.hi == hi && RunsOn(ranges[..|ranges| - 1], lo, last.lo)
  }

  /** Ranges that follow on each other from right to left. */
  ghost predicate RunsBack(ranges: seq<Range>, lo: int, hi: int) {
    if ranges == [] then lo == hi
    else
      var last := ranges[|ranges| - 1];
      Proper(last) && last.lo == lo && RunsBack(ranges[..|ranges| - 1], last.hi, hi)
  }

  /** How many of the ranges contain i. */
  function Covering(ranges: seq<Range>, i: int): nat {
    if ranges == [] then 0
    else Covering(ranges[..|ranges| - 1], i) + (if ranges[|ranges| - 1].lo <= i < ranges[|ranges| - 1].hi then 1 else 0)
  }

  lemma {:induction false} RunsOnCovers(ranges: seq<Range>, lo: int, hi: int, i: int)
    requires RunsOn(ranges, lo, hi)
    ensures lo <= hi && Covering(ranges, i) == if lo <= i < hi then 1 else 0
  {
    if ranges != [] {
      RunsOnCovers(ranges[..|ranges| - 1], lo, ranges[|ranges| - 1].lo, i);
    }
  }

  lemma {:induction false} RunsBackCovers(ranges: seq<Range>, lo: int, hi: int, i: int)
    requires RunsBack(ranges, lo, hi)
    ensures lo <= hi && Covering(ranges, i) == if lo <= i < hi then 1 else 0
  {
    if ranges != [] {
      RunsBackCovers(ranges[..|ranges| - 1], ranges[|ranges| - 1].hi, hi, i);
    }
  }

  /** Every index is run here or offered, exactly once; the offered ones are to the right of those run here. */
  lemma EveryIndexOnce(ran: seq<Range>, offered: seq<Range>, lo: int, cut: int, hi: int, i: int)
    requires RunsOn(ran, lo, cut) && RunsBack(offered, cut, hi)
    ensures lo <= cut <= hi && Covering(ran, i) + Covering(offered, i) == if lo <= i < hi then 1 else 0
    ensures Covering(ran, i) > 0 ==> i < cut
    ensures Covering(offered, i) > 0 ==> i >= cut
  {
    RunsOnCovers(ran, lo, cut, i);
    RunsBackCovers(offered, cut, hi, i);
  }

  // ---------------------------------------------------------------- the balancing loop

  /** What check_for_demand answers, and by how much it raises the maximum depth. */
  datatype Demand = Demand(asked: bool, raise: nat)

  /** A piece that is offered, with the maximum depth of the new task. */
  datatype Offer = Offer(range: Range, depthLeft: int)

  function RangesOf(offers: seq<Offer>): (r: seq<Range>)
    ensures |r| == |offers| && forall k | 0 <= k < |offers| :: r[k] == offers[k].range
  {
    seq(|offers|, k requires 0 <= k < |offers| => offers[k].range)
  }

  /** Where the loop stands: the pool, the maximum depth, and what has been run and offered. */
  datatype Stage = Stage(pieces: seq<Piece>, max: nat, ran: seq<Range>, offers: seq<Offer>)

  /** How demand is answered out of a filled pool. */
  ghost function Answered(s: Stage, asked: bool): Stage
    requires s.pieces != []
  {
    var p, n := s.pieces, |s.pieces|;
    if asked && n > 1 then
      s.(pieces := p[..n - 1], offers := s.offers + [Offer(p[n - 1].range, s.max - p[n - 1].depth)])
    else if asked && CanSplit(p, s.max) then s
    else s.(pieces := p[1..], ran := s.ran + [p[0].range])
  }

  /** One pass of the loop. */
  ghost function Pass(s: Stage, demand: Demand): Stage
    requires s.pieces != []
  {
    FilledIsFull(s.pieces, s.max);
    Answered(Fill(s, demand.raise), demand.asked)
  }

  /** The pool is filled, and then the maximum raised. */
  ghost function Fill(s: Stage, raise: nat): Stage
    requires s.pieces != []
  {
    s.(pieces := Filled(s.pieces, s.max), max := s.max + raise)
  }

  /** After k passes, or as many as there are. */
  ghost function After(range: Range, max: nat, demands: nat -> Demand, k: nat): Stage {
    if k == 0 then Stage([Piece(range, 0)], max, [], [])
    else
      var s := After(range, max, demands, k - 1);
      if s.pieces == [] then s else Pass(s, demands(k - 1))
  }

  /** The pool is empty, and this has been run and offered. */
  ghost predicate EndsAt(s: Stage, max: nat, ran: seq<Range>, offers: seq<Offer>) {
    s.pieces == [] && s.max == max && s.ran == ran && s.offers == offers
  }

  /** A pool is filled until it is full or its leftmost piece is indivisible or deep enough. */
  lemma {:induction false} FilledIsFull(pieces: seq<Piece>, max: nat)
    requires pieces != []
    ensures Filled(pieces, max) != [] && (|Filled(pieces, max)| >= POOL_CAPACITY || !CanSplit(Filled(pieces, max), max))
    ensures |Filled(pieces, max)| >= |pieces| && (|Filled(pieces, max)| == |pieces| ==> Filled(pieces, max) == pieces)
    decreases POOL_CAPACITY - |pieces|
  {
    if |pieces| < POOL_CAPACITY && CanSplit(pieces, max) {
      FilledIsFull(Split(pieces), max);
    }
  }

  /** What is run is the leftmost piece, and only if it is indivisible, as deep as allowed, or out of a full pool. */
  lemma RunForAReason(s: Stage, demand: Demand)
    requires s.pieces != [] && Pass(s, demand).ran != s.ran
    ensures var p := Filled(s.pieces, s.max);
            && p != [] && Pass(s, demand).ran == s.ran + [p[0].range]
            && (|p| >= POOL_CAPACITY || !Divisible(p[0].range) || p[0].depth >= s.max)
  {
    FilledIsFull(s.pieces, s.max);
  }

  /** What is offered is the rightmost of several pieces, and only on demand; then nothing is run. */
  lemma OfferedOnDemand(s: Stage, demand: Demand)
    requires s.pieces != []
    ensures var p, s' := Filled(s.pieces, s.max), Pass(s, demand);
            if demand.asked && |p| > 1 then
              RangesOf(s'.offers) == RangesOf(s.offers) + [p[|p| - 1].range] && s'.ran == s.ran
            else s'.offers == s.offers
  {
    FilledIsFull(s.pieces, s.max);
  }

  /** Without demand nothing is offered. */
  lemma {:induction false} NoDemandNoOffers(range: Range, max: nat, demands: nat -> Demand, k: nat)
    requires forall j: nat :: !demands(j).asked
    ensures After(range, max, demands, k).offers == []
  {
    if k > 0 {
      NoDemandNoOffers(range, max, demands, k - 1);
    }
  }

  lemma PassOnDemand(s: Stage, demand: Demand)
    requires s.pieces != [] && demand.asked
    ensures |Pass(s, demand).ran| == |s.ran| + if Pass(s, demand).pieces == [] then 1 else 0
  {
    FilledIsFull(s.pieces, s.max);
  }

  /** Under constant demand everything is offered but the one piece that is left in the end. */
  lemma {:induction false} ConstantDemand(range: Range, max: nat, demands: nat -> Demand, k: nat)
    requires forall j: nat :: demands(j).asked
    ensures var s := After(range, max, demands, k); |s.ran| == if s.pieces == [] then 1 else 0
  {
    if k > 0 {
      ConstantDemand(range, max, demands, k - 1);
      var s := After(range, max, demands, k - 1);
      if s.pieces != [] {
        PassOnDemand(s, demands(k - 1));
      }
    }
  }

  /** A piece of depth d is the 2^d-th part of the range, rounded up or down. */
  ghost predicate Sized(range: Range, p: Piece) {
    var n, size, parts := range.hi - range.lo, p.range.hi - p.range.lo, H.Pow2(p.depth);
    (size - 1) * parts < n < (size + 1) * parts
  }

  lemma HalvesSized(range: Range, p: Piece)
    requires Sized(range, p)
    ensures Sized(range, Piece(FirstPart(p.range), p.depth + 1))
    ensures Sized(range, Piece(SecondPart(p.range), p.depth + 1))
  {
    var size, half, parts := p.range.hi - p.range.lo, (p.range.hi - p.range.lo) / 2, H.Pow2(p.depth);
    assert H.Pow2(p.depth + 1) == 2 * parts;
    HalfBounds(size, half, parts, range.hi - range.lo);
    HalfBounds(size, size - half, parts, range.hi - range.lo);
  }

  lemma HalfBounds(size: int, half: int, parts: nat, n: int)
    requires (size - 1) * parts < n < (size + 1) * parts && size - 1 <= 2 * half <= size + 1
    ensures (half - 1) * (2 * parts) < n < (half + 1) * (2 * parts)
  {
    Scaled(half - 1, size - 1, parts);
    Scaled(-(half + 1), -(size + 1), parts);
    assert (size + 1) * parts == -(-(size + 1) * parts) && (half + 1) * (2 * parts) == -(-(half + 1) * (2 * parts));
  }

  lemma Scaled(x: int, y: int, parts: nat)
    requires 2 * x <= y
    ensures x * (2 * parts) <= y * parts
  {
    assert x * (2 * parts) == 2 * x * parts;
  }

  lemma {:induction false} FilledSized(range: Range, pieces: seq<Piece>, max: nat)
    requires pieces != [] && forall p | p in pieces :: Sized(range, p)
    ensures forall p | p in Filled(pieces, max) :: Sized(range, p)
    decreases POOL_CAPACITY - |pieces|
  {
    if |pieces| < POOL_CAPACITY && CanSplit(pieces, max) {
      assert pieces[0] in pieces;
      HalvesSized(range, pieces[0]);
      assert forall p | p in pieces[1..] :: p in pieces;
      FilledSized(range, Split(pieces), max);
    }
  }

  /** So what the pool ever holds has been halved as often as its depth says. */
  lemma {:induction false} AlwaysSized(range: Range, max: nat, demands: nat -> Demand, k: nat)
    ensures forall p | p in After(range, max, demands, k).pieces :: Sized(range, p)
  {
    if k == 0 {
      assert H.Pow2(0) == 1;
    } else {
      AlwaysSized(range, max, demands, k - 1);
      var s := After(range, max, demands, k - 1);
      if s.pieces != [] {
        FilledSized(range, s.pieces, s.max);
        FilledIsFull(s.pieces, s.max);
        var filled := Filled(s.pieces, s.max);
        assert forall p | p in filled[1..] || p in filled[..|filled| - 1] :: p in filled;
      }
    }
  }

  /** Up to where the range has been run, and from where on it has been offered. */
  ghost function LeftEnd(range: Range, s: Stage): int {
    if s.ran == [] then range.lo else s.ran[|s.ran| - 1].hi
  }

  ghost function RightEnd(range: Range, s: Stage): int {
    if s.offers == [] then range.hi else s.offers[|s.offers| - 1].range.lo
  }

  ghost function ToDo(range: Range, s: Stage): int { RightEnd(range, s) - LeftEnd(range, s) }

  /** What has been run, the pool, and what has been offered follow on each other. */
  ghost predicate InPlace(range: Range, s: Stage) {
    && RunsOn(s.ran, range.lo, LeftEnd(range, s)) && RunsBack(RangesOf(s.offers), RightEnd(range, s), range.hi)
    && Tiles(s.pieces, LeftEnd(range, s), RightEnd(range, s)) && Deepening(s.pieces, s.max)
  }

  /** Answering takes a piece from either end of the pool, unless the only piece is kept to be split. */
  lemma AnswerKeeps(range: Range, s: Stage, asked: bool)
    requires s.pieces != [] && InPlace(range, s)
    ensures InPlace(range, Answered(s, asked)) && ToDo(range, Answered(s, asked)) >= 0
    ensures Answered(s, asked) == s || ToDo(range, Answered(s, asked)) < ToDo(range, s)
  {
    var p, s' := s.pieces, Answered(s, asked);
    TilesFront(p, LeftEnd(range, s), RightEnd(range, s));
    TilesBounds(p, LeftEnd(range, s), RightEnd(range, s));
    TilesBounds(p[1..], p[0].range.hi, RightEnd(range, s));
    if asked && |p| > 1 {
      assert RangesOf(s'.offers)[..|s.offers|] == RangesOf(s.offers);
    } else if s' != s {
      assert s'.ran[..|s.ran|] == s.ran;
    }
  }

  lemma PassKeeps(range: Range, s: Stage, demand: Demand)
    requires s.pieces != [] && InPlace(range, s)
    ensures InPlace(range, Pass(s, demand)) && 0 <= ToDo(range, Pass(s, demand)) <= ToDo(range, s)
    ensures ToDo(range, Pass(s, demand)) < ToDo(range, s) || (Splittable(Pass(s, demand)) && !Splittable(s))
  {
    FillKeeps(range, s, demand.raise);
    FilledIsFull(s.pieces, s.max);
    AnswerKeeps(range, Fill(s, demand.raise), demand.asked);
  }

  lemma FillKeeps(range: Range, s: Stage, raise: nat)
    requires s.pieces != [] && InPlace(range, s)
    ensures InPlace(range, Fill(s, raise)) && ToDo(range, Fill(s, raise)) == ToDo(range, s)
    ensures Fill(s, raise).pieces != [] && Deepening(Fill(s, raise).pieces, s.max)
  {
    FilledKeeps(s.pieces, LeftEnd(range, s), RightEnd(range, s), s.max);
  }

  /** The pool is down to one piece, which can be split. */
  ghost predicate Splittable(s: Stage) { |s.pieces| == 1 && CanSplit(s.pieces, s.max) }

  lemma {:induction false} AlwaysInPlace(range: Range, max: nat, demands: nat -> Demand, k: nat)
    requires Proper(range)
    ensures InPlace(range, After(range, max, demands, k))
  {
    if k == 0 {
      assert After(range, max, demands, 0).pieces[1..] == [];
    } else {
      AlwaysInPlace(range, max, demands, k - 1);
      var s := After(range, max, demands, k - 1);
      if s.pieces != [] {
        PassKeeps(range, s, demands(k - 1));
      }
    }
  }

  lemma NextPass(range: Range, max: nat, demands: nat -> Demand, k: nat)
    requires Proper(range) && After(range, max, demands, k).pieces != []
    ensures var s := After(range, max, demands, k);
            var s', p := Pass(s, demands(k)), Filled(s.pieces, s.max);
            && After(range, max, demands, k + 1) == s'
            && p != [] && p[|p| - 1].depth <= s.max
            && 0 <= ToDo(range, s') <= ToDo(range, s)
            && (ToDo(range, s') < ToDo(range, s) || (Splittable(s') && !Splittable(s)))
  {
    var s := After(range, max, demands, k);
    AlwaysInPlace(range, max, demands, k);
    FillKeeps(range, s, demands(k).raise);
    PassKeeps(range, s, demands(k));
  }

  /** A task: what it has run itself, and what it has offered, with the maximum depth of the new tasks. */
  class Task {
    var maxDepth: nat
    var ran: seq<Range>
    var offers: seq<Offer>

    constructor (maxDepth: nat)
      ensures this.maxDepth == maxDepth && ran == [] && offers == []
    {
      this.maxDepth, ran, offers := maxDepth, [], [];
    }

    method RunBody(r: Range)
      modifies this`ran
      ensures ran == old(ran) + [r]
    {
      ran := ran + [r];
    }

    /** align_depth in the new task needs the depth to be within the maximum. */
    method OfferWork(r: Range, depth: nat)
      requires depth <= maxDepth
      modifies this`offers
      ensures offers == old(offers) + [Offer(r, maxDepth - depth)]
    {
      offers := offers + [Offer(r, maxDepth - depth)];
    }

    /** Demand number k. */
    method CheckForDemand(demands: nat -> Demand, k: nat) returns (asked: bool)
      modifies this`maxDepth
      ensures asked == demands(k).asked && maxDepth == old(maxDepth) + demands(k).raise
    {
      asked := demands(k).asked;
      maxDepth := maxDepth + demands(k).raise;
    }

    /** simple_partition_type::execute: offer the second half as long as possible, run the rest. */
    method ExecuteSimply(range: Range) returns (cut: int)
      requires Proper(range) && ran == [] && offers == []
      modifies this`ran, this`offers
      ensures RunsOn(ran, range.lo, cut) && RunsBack(RangesOf(offers), cut, range.hi)
      ensures |ran| == 1 && !Divisible(ran[0])
    {
      var left := range;
      while Divisible(left)
        invariant Proper(left) && left.lo == range.lo && ran == [] && RunsBack(RangesOf(offers), left.hi, range.hi)
        decreases left.hi - left.lo
      {
        PartsTile(left);
        ghost var before := RangesOf(offers);
        OfferWork(SecondPart(left), 0);
        assert RangesOf(offers) == before + [SecondPart(left)];
        left := FirstPart(left);
      }
      cut := left.hi;
      RunBody(left);
      assert ran[..0] == [];
    }

    /** The part of the loop's body that answers to demand. */
    method Balance(vector: RangeVector, asked: bool)
      requires vector.Valid() && vector.pieces != [] && vector.pieces[|vector.pieces| - 1].depth <= maxDepth
      modifies this`ran, this`offers, vector
      ensures vector.Valid()
      ensures Stage(vector.pieces, maxDepth, ran, offers) ==
              Answered(Stage(old(vector.pieces), maxDepth, old(ran), old(offers)), asked)
    {
      if asked && vector.size > 1 {
        var r, d := vector.Front();
        OfferWork(r, d);
        vector.PopFront();
        return;
      }
      if asked {
        var again := vector.IsDivisible(maxDepth);
        if again {
          return;
        }
      }
      var r := vector.Back();
      RunBody(r);
      vector.PopBack();
    }

    /**
     Whatever the demand, the loop ends; what it has run are the pieces from the left in order, what it
     has offered are the pieces from the right, and together they are the whole range. Each pass answers
     to the demand found in it.
     */
    method WorkBalance(range: Range, demands: nat -> Demand) returns (ghost cut: int, ghost passes: nat)
      requires Proper(range) && ran == [] && offers == []
      modifies this
      ensures RunsOn(ran, range.lo, cut) && RunsBack(RangesOf(offers), cut, range.hi)
      ensures if !Divisible(range) || old(maxDepth) == 0 then ran == [range] && offers == []
              else EndsAt(After(range, old(maxDepth), demands, passes), maxDepth, ran, offers)
    {
      if !Divisible(range) || maxDepth == 0 {
        RunBody(range);
        cut, passes := range.hi, 0;
        assert ran[..0] == [];
      } else {
        passes := UsePool(range, demands);
        ghost var end := After(range, old(maxDepth), demands, passes);
        AlwaysInPlace(range, old(maxDepth), demands, passes);
        cut := LeftEnd(range, end);
      }
    }

    /** Fill the pool, look for demand, and answer it. */
    method OnePass(vector: RangeVector, demands: nat -> Demand, k: nat, ghost s: Stage)
      requires vector.Valid() && Stage(vector.pieces, maxDepth, ran, offers) == s && s.pieces != []
      requires var p := Filled(s.pieces, s.max); p != [] && p[|p| - 1].depth <= s.max
      modifies this, vector, vector.pool, vector.depth
      ensures vector.Valid() && Stage(vector.pieces, maxDepth, ran, offers) == Pass(s, demands(k))
    {
      vector.SplitToFill(maxDepth);
      var asked := CheckForDemand(demands, k);
      Balance(vector, asked);
    }

    /** The range pool: fill it and answer to demand, until it is empty. */
    method UsePool(range: Range, demands: nat -> Demand) returns (ghost passes: nat)
      requires Proper(range) && ran == [] && offers == []
      modifies this
      ensures EndsAt(After(range, old(maxDepth), demands, passes), maxDepth, ran, offers)
    {
      ghost var max, s := maxDepth, After(range, maxDepth, demands, 0);
      var vector := new RangeVector(range);
      var k := 0;
      while true
        invariant fresh(vector) && fresh(vector.pool) && fresh(vector.depth) && vector.Valid() && vector.pieces != []
        invariant Stage(vector.pieces, maxDepth, ran, offers) == s == After(range, max, demands, k)
        decreases ToDo(range, s), if Splittable(s) then 0 else 1
      {
        NextPass(range, max, demands, k);
        OnePass(vector, demands, k, s);
        k, s := k + 1, Pass(s, demands(k));
        if vector.size == 0 {
          break;
        }
      }
      assert vector.pieces == [];
      passes := k;
    }
  }
}
