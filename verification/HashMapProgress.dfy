/**
 No operation of the hash map (include/oneapi/tbb/concurrent_hash_map.h) is ever stuck: whatever has
 happened, all operations under way can be brought to their answers.
 */
module HashMapProgress {
  import opened HashPaths
  import opened ConcurrentHashMap

  // ---------------------------------------------------------------- whose the locks are

  function Front(chain: seq<nat>): seq<nat> {
    if chain == [] then [] else chain[..|chain| - 1]
  }

  /** Standing at pc, a thread holds the lock of bucket i, in write mode if w. */
  predicate HoldsAt(pc: Pc, i: nat, w: bool) {
    match pc
    case Idle => false
    case Acquire(_, _, chain, _) => w && i in Front(chain)
    case Fetch(_, _, chain, w') => chain != [] && ((w && i in Front(chain)) || (i == Last(chain) && w == w'))
    case Reacquire(_, _, chain) => w && i in Front(chain)
    case Holding(_, _, k, w') => i == k && w == w'
    case Checking(_, _, k, w', _) => i == k && w == w'
    case Flag(_, _, k, w', _, _) => i == k && w == w'
    case Cleared(_, _, k) => i == k && w
  }

  /** Every lock belongs to a thread that stands where it holds it. */
  ghost predicate OwnedBucket(s: State, i: nat)
    requires i < |s.buckets|
  {
    var b := s.buckets[i];
    && (b.writer.Some? ==> b.writer.value < |s.threads| && HoldsAt(s.threads[b.writer.value], i, true))
    && (forall u | u in b.readers :: u < |s.threads| && HoldsAt(s.threads[u], i, false))
  }

  ghost predicate Owned(s: State) {
    forall i: nat {:trigger OwnedBucket(s, i)} | i < |s.buckets| :: OwnedBucket(s, i)
  }

  /** What t may do to the lock of bucket i when it goes to pc. */
  ghost predicate OwnLock(b: Bucket, b': Bucket, t: nat, pc: Pc, i: nat) {
    && (b'.writer.Some? ==> if b'.writer.value == t then HoldsAt(pc, i, true) else b'.writer == b.writer)
    && (forall u | u in b'.readers :: if u == t then HoldsAt(pc, i, false) else u in b.readers)
  }

  /** Going from pc to pc', t goes on holding every other bucket. */
  ghost predicate HoldsOn(pc: Pc, pc': Pc, i: nat) {
    forall k: nat, w: bool | k != i && HoldsAt(pc, k, w) :: HoldsAt(pc', k, w)
  }

  lemma OwnedStep(s: State, t: nat, pc: Pc, i: nat, b: Bucket)
    requires Owned(s) && t < |s.threads| && i < |s.buckets|
    requires OwnLock(s.buckets[i], b, t, pc, i) && HoldsOn(s.threads[t], pc, i)
    ensures Owned(With(s, t, pc, i, b))
  {
    var s' := With(s, t, pc, i, b);
    forall k: nat | k < |s'.buckets| ensures OwnedBucket(s', k) {
      assert OwnedBucket(s, k);
    }
  }

  lemma OwnedGoes(s: State, t: nat, pc: Pc)
    requires Owned(s) && t < |s.threads| && forall k: nat, w: bool | HoldsAt(s.threads[t], k, w) :: HoldsAt(pc, k, w)
    ensures Owned(Goes(s, t, pc))
  {
    var s' := Goes(s, t, pc);
    forall k: nat | k < |s'.buckets| ensures OwnedBucket(s', k) {
      assert OwnedBucket(s, k);
    }
  }

  lemma EnteredHolds(op: Op, j: nat, chain: seq<nat>, w: bool)
    requires chain != []
    ensures HoldsAt(Entered(op, j, chain, w), Last(chain), w)
    ensures forall k: nat | k in Front(chain) :: HoldsAt(Entered(op, j, chain, w), k, true)
  {
    if |chain| == 1 {
      assert Front(chain) == [];
    }
  }

  lemma FrontOfLonger(chain: seq<nat>, i: nat)
    ensures Front(chain + [i]) == chain
  {
  }

  lemma EnteringOwns(s: State, t: nat, op: Op, j: nat, chain: seq<nat>, b: Bucket, w: bool)
    requires t < |s.threads| && Owned(s) && chain != [] && Last(chain) < |s.buckets|
    requires forall k: nat, v: bool | HoldsAt(s.threads[t], k, v) :: v && k in Front(chain)
    requires s.buckets[Last(chain)].writer == None
    requires if w then b.writer == Some(t) && b.readers == {} else
             b.writer == None && b.readers == s.buckets[Last(chain)].readers + {t}
    ensures Owned(With(s, t, Entered(op, j, chain, w), Last(chain), b))
  {
    EnteredHolds(op, j, chain, w);
    OwnedStep(s, t, Entered(op, j, chain, w), Last(chain), b);
  }

  /** t lets go of bucket i. */
  lemma ReleasingOwns(s: State, t: nat, pc: Pc, i: nat)
    requires Owned(s) && t < |s.threads| && i < |s.buckets| && BucketOk(s.buckets[i]) && HoldsOn(s.threads[t], pc, i)
    ensures Owned(With(s, t, pc, i, Released(s.buckets[i], t)))
  {
    assert OwnedBucket(s, i);
    OwnedStep(s, t, pc, i, Released(s.buckets[i], t));
  }

  lemma StepKeepsOwned(h: Hash, s: State, t: nat, s': State, e: Event)
    requires Inv(h, s) && Owned(s) && t < |s.threads| && ThreadStep(h, s, t, s', e)
    ensures Owned(s')
  {
    var pc := s.threads[t];
    assert ThreadOk(h, s, t, pc);
    match pc {
      case Idle => OwnedGoes(s, t, s'.threads[t]);
      case Acquire(_, _, _, _) => AcquireOwns(h, s, t, s', e);
      case Fetch(_, _, _, _) => FetchOwns(h, s, t, s', e);
      case Reacquire(op, j, chain) =>
        var b := s.buckets[Last(chain)].(writer := Some(t));
        if |chain| == 1 && op.Erase? {
          assert Front(chain) == [];
          OwnedStep(s, t, s'.threads[t], Last(chain), b);
        } else {
          EnteringOwns(s, t, op, j, chain, b, true);
        }
      case Holding(_, _, _, _) => HoldingOwns(h, s, t, s', e);
      case Checking(op, _, i, _, _) =>
        assert BucketOk(s.buckets[i]);
        if s' == Goes(s, t, s'.threads[t]) { OwnedGoes(s, t, s'.threads[t]); } else { ReleasingOwns(s, t, Idle, i); }
      case Flag(op, _, i, _, _, now) =>
        assert BucketOk(s.buckets[i]);
        if s' == Goes(s, t, s'.threads[t]) {
          OwnedGoes(s, t, s'.threads[t]);
        } else {
          ReleasingOwns(s, t, s'.threads[t], i);
        }
      case Cleared(op, _, i) =>
        assert BucketOk(s.buckets[i]) && OwnedBucket(s, i);
        OwnedStep(s, t, Idle, i, s'.buckets[i]);
    }
  }

  lemma AcquireOwns(h: Hash, s: State, t: nat, s': State, e: Event)
    requires Inv(h, s) && Owned(s) && t < |s.threads| && ThreadStep(h, s, t, s', e) && s.threads[t].Acquire?
    ensures Owned(s')
  {
    var pc := s.threads[t];
    assert ThreadOk(h, s, t, pc);
    var i := Last(pc.chain);
    assert BucketOk(s.buckets[i]);
    if pc.look == Unknown || (pc.look == SawRequired && !Free(s.buckets[i])) {
      OwnedGoes(s, t, s'.threads[t]);
    } else if pc.look == SawRequired && s.buckets[i].status == Required {
      FrontOfLonger(pc.chain, Parent(i));
      OwnedStep(s, t, s'.threads[t], i, s'.buckets[i]);
    } else {
      var w := pc.look == SawRequired || (|pc.chain| == 1 && pc.op.Exclude?);
      EnteringOwns(s, t, pc.op, pc.j, pc.chain, s'.buckets[i], w);
    }
  }

  lemma FetchOwns(h: Hash, s: State, t: nat, s': State, e: Event)
    requires Inv(h, s) && Owned(s) && t < |s.threads| && ThreadStep(h, s, t, s', e) && s.threads[t].Fetch?
    ensures Owned(s')
  {
    var pc := s.threads[t];
    assert ThreadOk(h, s, t, pc);
    var p := Last(pc.chain);
    assert BucketOk(s.buckets[p]) && OwnedBucket(s, p);
    if Upgrades(s, t, s') {
      OwnedStep(s, t, s'.threads[t], p, s'.buckets[p]);
    } else if LosesUpgrade(s, t, s') {
      ReleasingOwns(s, t, s'.threads[t], p);
    } else if Fetches(h, s, t, s') {
      FetchedOwns(s, t, s', pc.op, pc.j, pc.chain);
    } else {
      SameLocksOwned(s, s');
    }
  }

  lemma SameLocksOwned(s: State, s': State)
    requires Owned(s) && s'.threads == s.threads && |s'.buckets| == |s.buckets|
    requires forall k | 0 <= k < |s.buckets| ::
               s'.buckets[k].writer == s.buckets[k].writer && s'.buckets[k].readers == s.buckets[k].readers
    ensures Owned(s')
  {
    forall k: nat | k < |s'.buckets| ensures OwnedBucket(s', k) {
      assert OwnedBucket(s, k);
    }
  }

  lemma FetchedOwns(s: State, t: nat, s': State, op: Op, j: nat, chain: seq<nat>)
    requires Owned(s) && t < |s.threads| && |chain| >= 2
    requires forall k: nat, w: bool | k != Last(chain) && HoldsAt(s.threads[t], k, w) :: w && k in Front(chain)
    requires Last(chain) < |s.buckets| && chain[|chain| - 2] < |s.buckets| && BucketOk(s.buckets[Last(chain)])
    requires s' == s.(threads := s.threads[t := Entered(op, j, AllButLast(chain), true)],
                      buckets := s.buckets[Last(chain) := Released(s.buckets[Last(chain)], t)]
                                 [chain[|chain| - 2] := s.buckets[chain[|chain| - 2]].(status := Settled)])
    requires chain[|chain| - 2] != Last(chain)
    ensures Owned(s')
  {
    var rest := AllButLast(chain);
    var pc := Entered(op, j, rest, true);
    EnteredHolds(op, j, rest, true);
    forall k: nat | k in Front(chain) ensures HoldsAt(pc, k, true) {
      assert k == Last(rest) || k in Front(rest);
    }
    ReleasingOwns(s, t, pc, Last(chain));
    var mid := With(s, t, pc, Last(chain), Released(s.buckets[Last(chain)], t));
    forall k: nat | k < |s'.buckets| ensures OwnedBucket(s', k) {
      assert OwnedBucket(mid, k);
    }
  }

  lemma HoldingOwns(h: Hash, s: State, t: nat, s': State, e: Event)
    requires Inv(h, s) && Owned(s) && t < |s.threads| && ThreadStep(h, s, t, s', e) && s.threads[t].Holding?
    ensures Owned(s')
  {
    var pc := s.threads[t];
    assert ThreadOk(h, s, t, pc);
    var i := pc.i;
    assert BucketOk(s.buckets[i]) && OwnedBucket(s, i);
    if Misses(s, t, s') {
      OwnedGoes(s, t, s'.threads[t]);
    } else if Upgrades(s, t, s') {
      OwnedStep(s, t, s'.threads[t], i, s'.buckets[i]);
    } else if LosesUpgrade(s, t, s') {
      assert Front([i]) == [];
      ReleasingOwns(s, t, s'.threads[t], i);
    } else {
      DoneOwns(s, t, i, s'.buckets[i].nodes);
    }
  }

  /** t lets go of bucket i, whose list it may have changed, and is done. */
  lemma DoneOwns(s: State, t: nat, i: nat, nodes: seq<Node>)
    requires Owned(s) && t < |s.threads| && i < |s.buckets| && BucketOk(s.buckets[i])
    requires forall k: nat, w: bool | k != i :: !HoldsAt(s.threads[t], k, w)
    ensures Owned(With(s, t, Idle, i, Released(s.buckets[i], t).(nodes := nodes)))
  {
    assert OwnedBucket(s, i);
    OwnedStep(s, t, Idle, i, Released(s.buckets[i], t).(nodes := nodes));
  }

  lemma GrowsOwned(s: State, s': State)
    requires Owned(s) && Grows(s, s')
    ensures Owned(s')
  {
    forall k: nat | k < |s'.buckets| ensures OwnedBucket(s', k) {
      assert k < |s.buckets| ==> OwnedBucket(s, k);
    }
  }

  // ---------------------------------------------------------------- what is left to do

  function Total<T>(f: T -> nat, items: seq<T>): nat {
    if items == [] then 0 else Total(f, items[..|items| - 1]) + f(items[|items| - 1])
  }

  lemma {:induction false} TotalUpdate<T>(f: T -> nat, items: seq<T>, i: nat, x: T)
    requires i < |items|
    ensures Total(f, items[i := x]) == Total(f, items) - f(items[i]) + f(x)
  {
    var n := |items| - 1;
    if i == n {
      assert items[i := x][..n] == items[..n];
    } else {
      assert items[i := x][..n] == items[..n][i := x];
      TotalUpdate(f, items[..n], i, x);
    }
  }

  lemma {:induction false} TotalAtLeast<T>(f: T -> nat, items: seq<T>, i: nat)
    requires i < |items|
    ensures Total(f, items) >= f(items[i])
  {
    if i < |items| - 1 {
      TotalAtLeast(f, items[..|items| - 1], i);
    }
  }

  lemma {:induction false} TotalSome<T>(f: T -> nat, items: seq<T>) returns (i: nat)
    requires Total(f, items) > 0
    ensures i < |items| && f(items[i]) > 0
  {
    var n := |items| - 1;
    if f(items[n]) > 0 {
      i := n;
    } else {
      i := TotalSome(f, items[..n]);
    }
  }

  function Busy(pc: Pc): nat { if pc.Idle? then 0 else 1 }
  function Unmarked(b: Bucket): nat { if b.status == Required then 1 else 0 }
  function Unfilled(b: Bucket): nat { if b.status == Moving then 1 else 0 }
  function Unmoved(b: Bucket): nat { if b.status == Settled then |b.nodes| else 0 }

  /** How far a thread is from the end of its attempt, rehashing aside. */
  function Phase(pc: Pc): nat {
    match pc
    case Idle => 0
    case Acquire(_, _, _, look) => if look == Unknown then 12 else if look == SawRequired then 11 else 10
    case Fetch(_, _, _, w) => if w then 5 else 9
    case Reacquire(_, _, _) => 8
    case Holding(_, _, _, w) => if w then 5 else 9
    case Checking(_, _, _, _, why) => if why == Contended then 7 else 4
    case Flag(_, _, _, _, why, _) => if why == Contended then 6 else 3
    case Cleared(_, _, _) => 2
  }

  /** An attempt is given up only for one with a newer mask. */
  function Rank(level: nat): Pc -> nat {
    (pc: Pc) => if pc.Idle? then 0 else (if pc.j <= level then 13 * (level - pc.j) else 0) + Phase(pc)
  }

  /** Operations under way, buckets to mark, to fill, nodes to move, and the way that the threads have to go. */
  datatype Measure = Measure(busy: nat, unmarked: nat, unfilled: nat, unmoved: nat, rank: nat)

  function Remaining(s: State): Measure {
    Measure(Total(Busy, s.threads), Total(Unmarked, s.buckets), Total(Unfilled, s.buckets), Total(Unmoved, s.buckets),
            Total(Rank(s.level), s.threads))
  }

  predicate Less(a: Measure, b: Measure) {
    || a.busy < b.busy
    || (a.busy == b.busy
        && (|| a.unmarked < b.unmarked
            || (a.unmarked == b.unmarked
                && (|| a.unfilled < b.unfilled
                    || (a.unfilled == b.unfilled
                        && (|| a.unmoved < b.unmoved
                            || (a.unmoved == b.unmoved && a.rank < b.rank)))))))
  }

  /** One answer, if any. */
  function Given(e: Event): nat { if e == Silent then 0 else 1 }

  /** A step towards the end: of an operation, which answers, or within it. */
  ghost predicate Nearer(s: State, s': State, e: Event) {
    && s'.level == s.level && Less(Remaining(s'), Remaining(s))
    && Total(Busy, s'.threads) + Given(e) == Total(Busy, s.threads)
  }

  /** What With does to the measure. */
  lemma RemainingWith(s: State, t: nat, pc: Pc, i: nat, b: Bucket)
    requires t < |s.threads| && i < |s.buckets|
    ensures var m, m' := Remaining(s), Remaining(With(s, t, pc, i, b));
            && m'.busy == m.busy - Busy(s.threads[t]) + Busy(pc)
            && m'.unmarked == m.unmarked - Unmarked(s.buckets[i]) + Unmarked(b)
            && m'.unfilled == m.unfilled - Unfilled(s.buckets[i]) + Unfilled(b)
            && m'.unmoved == m.unmoved - Unmoved(s.buckets[i]) + Unmoved(b)
            && m'.rank == m.rank - Rank(s.level)(s.threads[t]) + Rank(s.level)(pc)
  {
    TotalUpdate(Busy, s.threads, t, pc);
    TotalUpdate(Unmarked, s.buckets, i, b);
    TotalUpdate(Unfilled, s.buckets, i, b);
    TotalUpdate(Unmoved, s.buckets, i, b);
    TotalUpdate(Rank(s.level), s.threads, t, pc);
  }

  /** A step of t that leaves statuses and lists alone. */
  lemma NearerLocks(s: State, t: nat, pc: Pc, i: nat, b: Bucket)
    requires t < |s.threads| && i < |s.buckets| && !s.threads[t].Idle? && !pc.Idle?
    requires b.status == s.buckets[i].status && b.nodes == s.buckets[i].nodes
    requires Rank(s.level)(pc) < Rank(s.level)(s.threads[t])
    ensures Nearer(s, With(s, t, pc, i, b), Silent)
  {
    RemainingWith(s, t, pc, i, b);
  }

  lemma NearerGoes(s: State, t: nat, pc: Pc)
    requires t < |s.threads| && !s.threads[t].Idle? && !pc.Idle? && s.buckets != []
    requires Rank(s.level)(pc) < Rank(s.level)(s.threads[t])
    ensures Nearer(s, Goes(s, t, pc), Silent)
  {
    assert s.buckets[0 := s.buckets[0]] == s.buckets;
    NearerLocks(s, t, pc, 0, s.buckets[0]);
  }

  /** A step with which t is done. */
  lemma NearerDone(s: State, t: nat, i: nat, b: Bucket, e: Event)
    requires t < |s.threads| && i < |s.buckets| && !s.threads[t].Idle? && e != Silent
    ensures Nearer(s, With(s, t, Idle, i, b), e)
  {
    RemainingWith(s, t, Idle, i, b);
  }

  // ---------------------------------------------------------------- who can move

  /** The lock that t is about to take is not to be had. */
  ghost predicate Blocked(s: State, t: nat)
    requires t < |s.threads|
  {
    match s.threads[t]
    case Acquire(op, _, chain, look) =>
      && look == Blocking && chain != [] && Last(chain) < |s.buckets|
      && if |chain| == 1 && op.Exclude? then !Free(s.buckets[Last(chain)]) else s.buckets[Last(chain)].writer.Some?
    case Reacquire(_, _, chain) => chain != [] && Last(chain) < |s.buckets| && !Free(s.buckets[Last(chain)])
    case _ => false
  }

  lemma EnteredRank(s: State, op: Op, j: nat, chain: seq<nat>, w: bool)
    requires chain != []
    ensures Rank(s.level)(Entered(op, j, chain, w)) ==
            (if j <= s.level then 13 * (s.level - j) else 0) + (if w then 5 else 9)
  {
  }

  lemma AcquireMoves(h: Hash, s: State, t: nat) returns (s': State)
    requires Inv(h, s) && t < |s.threads| && s.threads[t].Acquire? && !Blocked(s, t)
    ensures ThreadStep(h, s, t, s', Silent) && Nearer(s, s', Silent)
  {
    var pc := s.threads[t];
    assert ThreadOk(h, s, t, pc);
    var i := Last(pc.chain);
    var b := s.buckets[i];
    if pc.look == Unknown {
      var pc' := pc.(look := if b.status == Required then SawRequired else Blocking);
      s' := Goes(s, t, pc');
      NearerGoes(s, t, pc');
    } else if pc.look == SawRequired && !Free(b) {
      s' := Goes(s, t, pc.(look := Blocking));
      NearerGoes(s, t, pc.(look := Blocking));
    } else if pc.look == SawRequired && b.status == Required {
      var pc' := pc.(chain := pc.chain + [Parent(i)], look := Unknown);
      var b' := b.(status := Moving, nodes := [], writer := Some(t));
      s' := With(s, t, pc', i, b');
      RemainingWith(s, t, pc', i, b');
    } else {
      var w := pc.look == SawRequired || (|pc.chain| == 1 && pc.op.Exclude?);
      var b' := if w then b.(writer := Some(t)) else b.(readers := b.readers + {t});
      var pc' := Entered(pc.op, pc.j, pc.chain, w);
      s' := With(s, t, pc', i, b');
      EnteredRank(s, pc.op, pc.j, pc.chain, w);
      NearerLocks(s, t, pc', i, b');
    }
  }

  lemma FetchMoves(h: Hash, s: State, t: nat) returns (s': State)
    requires Inv(h, s) && t < |s.threads| && s.threads[t].Fetch?
    ensures ThreadStep(h, s, t, s', Silent) && Nearer(s, s', Silent)
  {
    var pc := s.threads[t];
    assert ThreadOk(h, s, t, pc);
    var p, c := Last(pc.chain), pc.chain[|pc.chain| - 2];
    var b := s.buckets[p];
    if q: nat :| q < |b.nodes| && OnPath(c, h(b.nodes[q].key)) {
      if pc.w {
        s' := MoveOne(h, s, t, q);
      } else if b.readers == {t} {
        s' := With(s, t, Fetch(pc.op, pc.j, pc.chain, true), p, b.(readers := {}, writer := Some(t)));
        NearerLocks(s, t, Fetch(pc.op, pc.j, pc.chain, true), p, b.(readers := {}, writer := Some(t)));
        assert Upgrades(s, t, s');
      } else {
        s' := With(s, t, Reacquire(pc.op, pc.j, pc.chain), p, Released(b, t));
        NearerLocks(s, t, Reacquire(pc.op, pc.j, pc.chain), p, Released(b, t));
        assert LosesUpgrade(s, t, s');
      }
    } else {
      s' := FetchAll(h, s, t);
    }
  }

  lemma MoveOne(h: Hash, s: State, t: nat, q: nat) returns (s': State)
    requires Inv(h, s) && t < |s.threads| && s.threads[t].Fetch? && s.threads[t].w
    requires |s.threads[t].chain| >= 2 && Last(s.threads[t].chain) < |s.buckets|
    requires q < |s.buckets[Last(s.threads[t].chain)].nodes|
    requires OnPath(s.threads[t].chain[|s.threads[t].chain| - 2], h(s.buckets[Last(s.threads[t].chain)].nodes[q].key))
    ensures ThreadStep(h, s, t, s', Silent) && Nearer(s, s', Silent)
  {
    var pc := s.threads[t];
    assert ThreadOk(h, s, t, pc);
    var p, c := Last(pc.chain), pc.chain[|pc.chain| - 2];
    ParentLess(c);
    var b := s.buckets[p];
    var b' := b.(nodes := b.nodes[..q] + b.nodes[q + 1..]);
    var c' := s.buckets[c].(nodes := [b.nodes[q]] + s.buckets[c].nodes);
    s' := s.(buckets := s.buckets[p := b'][c := c']);
    assert MovesNode(h, s, t, s', q);
    assert s.threads[t := pc] == s.threads;
    var mid := With(s, t, pc, p, b');
    RemainingWith(s, t, pc, p, b');
    RemainingWith(mid, t, pc, c, c');
  }

  lemma FetchAll(h: Hash, s: State, t: nat) returns (s': State)
    requires Inv(h, s) && t < |s.threads| && s.threads[t].Fetch?
    requires |s.threads[t].chain| >= 2 && Last(s.threads[t].chain) < |s.buckets|
    requires forall n | n in s.buckets[Last(s.threads[t].chain)].nodes ::
               !OnPath(s.threads[t].chain[|s.threads[t].chain| - 2], h(n.key))
    ensures ThreadStep(h, s, t, s', Silent) && Nearer(s, s', Silent)
  {
    var pc := s.threads[t];
    assert ThreadOk(h, s, t, pc);
    var p, c := Last(pc.chain), pc.chain[|pc.chain| - 2];
    ParentLess(c);
    var pc' := Entered(pc.op, pc.j, AllButLast(pc.chain), true);
    var b', c' := Released(s.buckets[p], t), s.buckets[c].(status := Settled);
    s' := s.(threads := s.threads[t := pc'], buckets := s.buckets[p := b'][c := c']);
    assert Fetches(h, s, t, s');
    var mid := With(s, t, pc', p, b');
    RemainingWith(s, t, pc', p, b');
    assert With(mid, t, pc', c, c') == s';
    RemainingWith(mid, t, pc', c, c');
  }

  lemma ReacquireMoves(h: Hash, s: State, t: nat) returns (s': State)
    requires Inv(h, s) && t < |s.threads| && s.threads[t].Reacquire? && !Blocked(s, t)
    ensures ThreadStep(h, s, t, s', Silent) && Nearer(s, s', Silent)
  {
    var pc := s.threads[t];
    assert ThreadOk(h, s, t, pc);
    var i := Last(pc.chain);
    var b := s.buckets[i].(writer := Some(t));
    var pc' := if |pc.chain| == 1 && pc.op.Erase? then Checking(pc.op, pc.j, i, true, Contended)
               else Entered(pc.op, pc.j, pc.chain, true);
    s' := With(s, t, pc', i, b);
    EnteredRank(s, pc.op, pc.j, pc.chain, true);
    NearerLocks(s, t, pc', i, b);
    assert Regains(s, t, s');
  }

  lemma HoldingMoves(h: Hash, s: State, t: nat) returns (s': State, e: Event)
    requires Inv(h, s) && t < |s.threads| && s.threads[t].Holding?
    ensures ThreadStep(h, s, t, s', e) && Nearer(s, s', e)
  {
    var pc := s.threads[t];
    assert ThreadOk(h, s, t, pc);
    var b := s.buckets[pc.i];
    e := Silent;
    if Lacks(s, pc.i, pc.op) && (pc.op.Insert? ==> pc.w) {
      s' := Goes(s, t, Checking(pc.op, pc.j, pc.i, pc.w, Missed));
      NearerGoes(s, t, Checking(pc.op, pc.j, pc.i, pc.w, Missed));
      assert Misses(s, t, s');
    } else if !pc.w && (Lacks(s, pc.i, pc.op) || pc.op.Erase? || pc.op.Exclude?) {
      s' := HoldingUpgrades(h, s, t);
    } else {
      var q: nat :| q < |b.nodes| && Matches(pc.op, b.nodes[q]);
      var rest := if pc.op.Erase? || pc.op.Exclude? then b.nodes[..q] + b.nodes[q + 1..] else b.nodes;
      e := match pc.op
           case Find(k) => Found(k, b.nodes[q].value)
           case Insert(k, _) => Existed(k)
           case Erase(k) => Erased(k, b.nodes[q].value)
           case Exclude(k, v) => Erased(k, v);
      s' := With(s, t, Idle, pc.i, Released(b, t).(nodes := rest));
      assert Released(b, t).(nodes := b.nodes) == Released(b, t);
      NearerDone(s, t, pc.i, Released(b, t).(nodes := rest), e);
      assert Hits(s, t, s', e);
    }
  }

  lemma HoldingUpgrades(h: Hash, s: State, t: nat) returns (s': State)
    requires Inv(h, s) && t < |s.threads| && s.threads[t].Holding? && !s.threads[t].w && !s.threads[t].op.Find?
    ensures ThreadStep(h, s, t, s', Silent) && Nearer(s, s', Silent)
  {
    var pc := s.threads[t];
    assert ThreadOk(h, s, t, pc);
    var b := s.buckets[pc.i];
    if b.readers == {t} {
      s' := With(s, t, Holding(pc.op, pc.j, pc.i, true), pc.i, b.(readers := {}, writer := Some(t)));
      NearerLocks(s, t, Holding(pc.op, pc.j, pc.i, true), pc.i, b.(readers := {}, writer := Some(t)));
      assert Upgrades(s, t, s');
    } else {
      s' := With(s, t, Reacquire(pc.op, pc.j, [pc.i]), pc.i, Released(b, t));
      NearerLocks(s, t, Reacquire(pc.op, pc.j, [pc.i]), pc.i, Released(b, t));
      assert LosesUpgrade(s, t, s');
    }
  }

  /** The mask has not moved on. */
  lemma NoRaceMoves(h: Hash, s: State, t: nat, op: Op, j: nat, i: nat, w: bool, why: Why)
    returns (s': State, e: Event)
    requires t < |s.threads| && i < |s.buckets| && !s.threads[t].Idle? && s.threads[t].j <= j <= s.level
    requires Phase(s.threads[t]) > if why == Contended then 5 else 2
    requires why == Contended ==> w
    ensures NoRace(s, t, s', e, op, j, i, w, why) && Nearer(s, s', e)
  {
    if why == Contended {
      s', e := Goes(s, t, Holding(op, j, i, w)), Silent;
      NearerGoes(s, t, Holding(op, j, i, w));
    } else if op.Insert? {
      s', e := Goes(s, t, Cleared(op, j, i)), Silent;
      NearerGoes(s, t, Cleared(op, j, i));
    } else {
      s', e := With(s, t, Idle, i, Released(s.buckets[i], t)), Absent(op);
      NearerDone(s, t, i, Released(s.buckets[i], t), e);
    }
  }

  lemma CheckingMoves(h: Hash, s: State, t: nat) returns (s': State, e: Event)
    requires Inv(h, s) && t < |s.threads| && s.threads[t].Checking?
    ensures ThreadStep(h, s, t, s', e) && Nearer(s, s', e)
  {
    var pc := s.threads[t];
    assert ThreadOk(h, s, t, pc);
    if Low(h(pc.op.key), s.level) == Low(h(pc.op.key), pc.j) {
      s', e := NoRaceMoves(h, s, t, pc.op, s.level, pc.i, pc.w, pc.why);
    } else {
      s', e := Goes(s, t, Flag(pc.op, pc.j, pc.i, pc.w, pc.why, s.level)), Silent;
      NearerGoes(s, t, Flag(pc.op, pc.j, pc.i, pc.w, pc.why, s.level));
    }
    assert ReadsMask(h, s, t, s', e);
  }

  lemma FlagMoves(h: Hash, s: State, t: nat) returns (s': State, e: Event)
    requires Inv(h, s) && t < |s.threads| && s.threads[t].Flag?
    ensures ThreadStep(h, s, t, s', e) && Nearer(s, s', e)
  {
    var pc := s.threads[t];
    assert ThreadOk(h, s, t, pc);
    AccessesAreSound(h, s, t);
    var c := Low(h(pc.op.key), NextLevel(h(pc.op.key), pc.j, pc.now));
    if s.buckets[c].status == Required {
      s', e := NoRaceMoves(h, s, t, pc.op, pc.now, pc.i, pc.w, pc.why);
    } else {
      var pc' := Acquire(pc.op, pc.now, [Low(h(pc.op.key), pc.now)], Unknown);
      s', e := With(s, t, pc', pc.i, Released(s.buckets[pc.i], t)), Silent;
      NearerLocks(s, t, pc', pc.i, Released(s.buckets[pc.i], t));
    }
    assert ReadsFlag(h, s, t, s', e);
  }

  lemma ClearedMoves(h: Hash, s: State, t: nat) returns (s': State, e: Event)
    requires Inv(h, s) && t < |s.threads| && s.threads[t].Cleared?
    ensures ThreadStep(h, s, t, s', e) && Nearer(s, s', e)
  {
    var pc := s.threads[t];
    assert ThreadOk(h, s, t, pc);
    var b := s.buckets[pc.i];
    var b' := Released(b, t).(nodes := [Node(pc.op.key, pc.op.value)] + b.nodes);
    s', e := With(s, t, Idle, pc.i, b'), Inserted(pc.op.key, pc.op.value);
    NearerDone(s, t, pc.i, b', e);
    assert Inserts(s, t, s', e);
  }

  /** Whoever is not blocked can take a step towards the end. */
  lemma MovesOn(h: Hash, s: State, t: nat) returns (s': State, e: Event)
    requires Inv(h, s) && t < |s.threads| && !s.threads[t].Idle? && !Blocked(s, t)
    ensures ThreadStep(h, s, t, s', e) && Nearer(s, s', e)
  {
    e := Silent;
    match s.threads[t] {
      case Acquire(_, _, _, _) => s' := AcquireMoves(h, s, t);
      case Fetch(_, _, _, _) => s' := FetchMoves(h, s, t);
      case Reacquire(_, _, _) => s' := ReacquireMoves(h, s, t);
      case Holding(_, _, _, _) => s', e := HoldingMoves(h, s, t);
      case Checking(_, _, _, _, _) => s', e := CheckingMoves(h, s, t);
      case Flag(_, _, _, _, _, _) => s', e := FlagMoves(h, s, t);
      case Cleared(_, _, _) => s', e := ClearedMoves(h, s, t);
    }
  }

  /** Somebody holds the lock that a blocked thread waits for: one who is not blocked, or waits further up the tree. */
  lemma {:induction false} SomebodyFree(h: Hash, s: State, t: nat) returns (u: nat)
    requires Inv(h, s) && Owned(s) && t < |s.threads| && !s.threads[t].Idle?
    ensures u < |s.threads| && !s.threads[u].Idle? && !Blocked(s, u)
    decreases if Blocked(s, t) then 1 + Last(s.threads[t].chain) else 0
  {
    if Blocked(s, t) {
      var i := Last(s.threads[t].chain);
      var b := s.buckets[i];
      assert OwnedBucket(s, i);
      if b.writer.Some? {
        u := b.writer.value;
      } else {
        u :| u in b.readers;
      }
      if Blocked(s, u) {
        WaitsAbove(h, s, u, i);
        u := SomebodyFree(h, s, u);
      }
    } else {
      u := t;
    }
  }

  lemma BlockedClimbs(h: Hash, s: State, u: nat)
    requires Inv(h, s) && u < |s.threads| && Blocked(s, u)
    ensures var chain := s.threads[u].chain;
            forall k | 0 <= k < |chain| - 1 :: chain[k] > 1 && chain[k + 1] == Parent(chain[k])
  {
    assert ThreadOk(h, s, u, s.threads[u]);
  }

  /** A blocked thread waits for a bucket above all those that it holds. */
  lemma WaitsAbove(h: Hash, s: State, u: nat, i: nat)
    requires Inv(h, s) && u < |s.threads| && Blocked(s, u) && exists w: bool :: HoldsAt(s.threads[u], i, w)
    ensures Last(s.threads[u].chain) < i
  {
    var chain := s.threads[u].chain;
    BlockedClimbs(h, s, u);
    var a: nat :| a < |chain| - 1 && chain[a] == i;
    ChainDescends(chain, a, |chain| - 1);
  }

  // ---------------------------------------------------------------- whole runs

  /** The answers that an operation can give. */
  predicate Fits(op: Op, e: Event) {
    match op
    case Find(k) => e == Missing(k) || (e.Found? && e.key == k)
    case Insert(k, v) => e == Inserted(k, v) || e == Existed(k)
    case Erase(k) => e == Missing(k) || (e.Erased? && e.key == k)
    case Exclude(k, v) => e == Erased(k, v) || e == Gone(k, v)
  }

  /** A thread answers for the operation that it is in, and is done with it then. */
  lemma AnswersFit(h: Hash, s: State, t: nat, s': State, e: Event)
    requires Inv(h, s) && t < |s.threads| && ThreadStep(h, s, t, s', e) && e != Silent
    ensures |s'.threads| == |s.threads|
    ensures !s.threads[t].Idle? && Fits(s.threads[t].op, e) && s'.threads[t].Idle?
  {
    assert ThreadOk(h, s, t, s.threads[t]);
  }

  /** Until then it stays in it; it begins anew only to let somebody else have the item. */
  lemma OperationStays(h: Hash, s: State, t: nat, s': State)
    requires t < |s.threads| && ThreadStep(h, s, t, s', Silent) && !s.threads[t].Idle?
    ensures |s'.threads| == |s.threads|
    ensures GivesWay(s, t, s') || (!s'.threads[t].Idle? && s'.threads[t].op == s.threads[t].op)
  {
  }

  lemma {:induction false} EveryStateIsGood(h: Hash, states: seq<State>, events: seq<Event>, k: nat)
    requires IsRun(h, states, events) && k < |states|
    ensures Inv(h, states[k]) && Owned(states[k])
  {
    if k == 0 {
      StartIsGood(h, states[0]);
      forall i: nat | i < |states[0].buckets| ensures OwnedBucket(states[0], i) {
      }
    } else {
      EveryStateIsGood(h, states, events, k - 1);
      var s, s', e := states[k - 1], states[k], events[k - 1];
      assert Step(h, s, s', e);
      StepKeeps(h, s, s', e);
      if e == Silent && Grows(s, s') {
        GrowsOwned(s, s');
      } else {
        var t: nat :| t < |s.threads| && ThreadStep(h, s, t, s', e);
        StepKeepsOwned(h, s, t, s', e);
      }
    }
  }

  function Answers(events: seq<Event>): nat {
    Total(Given, events)
  }

  lemma LongerRun(h: Hash, states: seq<State>, events: seq<Event>, t: nat, s': State, e: Event)
    requires IsRun(h, states, events) && t < |states[|events|].threads|
    requires ThreadStep(h, states[|events|], t, s', e)
    ensures IsRun(h, states + [s'], events + [e])
    ensures Answers(events + [e]) == Answers(events) + Given(e)
  {
    assert Step(h, states[|events|], s', e);
    assert (events + [e])[..|events|] == events;
  }

  /**
   Every run can be continued until no operation is under way, each of them answering once: whatever
   lookups, insertions, erasures, exclusions and growth have done to the table, nobody waits in vain.
   */
  lemma {:induction false} EveryOperationCompletes(h: Hash, states: seq<State>, events: seq<Event>)
    returns (states': seq<State>, events': seq<Event>)
    requires IsRun(h, states, events)
    ensures IsRun(h, states', events') && states <= states' && events <= events'
    ensures forall t | 0 <= t < |states'[|events'|].threads| :: states'[|events'|].threads[t].Idle?
    ensures Answers(events') == Answers(events) + Total(Busy, states[|events|].threads)
    decreases Remaining(states[|events|]).busy, Remaining(states[|events|]).unmarked,
              Remaining(states[|events|]).unfilled, Remaining(states[|events|]).unmoved,
              Remaining(states[|events|]).rank
  {
    var s := states[|events|];
    if Total(Busy, s.threads) == 0 {
      states', events' := states, events;
      forall t: nat | t < |s.threads| ensures s.threads[t].Idle? {
        TotalAtLeast(Busy, s.threads, t);
      }
    } else {
      EveryStateIsGood(h, states, events, |events|);
      var t := TotalSome(Busy, s.threads);
      t := SomebodyFree(h, s, t);
      var s', e := MovesOn(h, s, t);
      LongerRun(h, states, events, t, s', e);
      states', events' := EveryOperationCompletes(h, states + [s'], events + [e]);
    }
  }
}
