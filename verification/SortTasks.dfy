/**
 The tasks of a parallel sort as they interleave (include/oneapi/tbb/parallel_sort.h): tasks of the
 quicksort that write to their ranges while others write to theirs, and bodies of the pre-test that
 poll the cancellation flag while others set it.
 */
module SortTasks {
  import opened ParallelSort

  // ---------------------------------------------------------------- quicksort

  /** A range that waits, or that a task is splitting or sorting. */
  datatype Job =
    | Waiting(range: Range)
    | Running(range: Range, splits: bool)

  /**
   data is the array. History: agreed is the array with every running range as its task found it.
   */
  datatype State<T> = State(data: seq<T>, agreed: seq<T>, jobs: seq<Job>)

  function RangesOf(jobs: seq<Job>): (r: seq<Range>)
    ensures |r| == |jobs| && forall k | 0 <= k < |jobs| :: r[k] == jobs[k].range
  {
    seq(|jobs|, k requires 0 <= k < |jobs| => jobs[k].range)
  }

  function WithoutJob(jobs: seq<Job>, k: nat): seq<Job>
    requires k < |jobs|
  {
    jobs[..k] + jobs[k + 1..]
  }

  /** agreed, with the part of data that lies in r. */
  function Patched<T>(agreed: seq<T>, data: seq<T>, r: Range): (p: seq<T>)
    requires |agreed| == |data|
    ensures |p| == |data| && forall x | 0 <= x < |data| :: p[x] == if In(r, x) then data[x] else agreed[x]
  {
    seq(|data|, x requires 0 <= x < |data| => if In(r, x) then data[x] else agreed[x])
  }

  /** A task takes up a range; one that is large enough may be split. */
  ghost predicate Begins<T>(s: State<T>, k: nat, s': State<T>)
    requires k < |s.jobs|
  {
    s.jobs[k].Waiting? &&
    exists splits ::
      (splits ==> s.jobs[k].range.size >= GRAIN) && s' == s.(jobs := s.jobs[k := Running(s.jobs[k].range, splits)])
  }

  /** A running task writes anything anywhere in its own range. */
  ghost predicate Writes<T>(s: State<T>, k: nat, s': State<T>)
    requires k < |s.jobs|
  {
    && s.jobs[k].Running? && s'.jobs == s.jobs && s'.agreed == s.agreed && |s'.data| == |s.data|
    && forall x | 0 <= x < |s.data| && !In(s.jobs[k].range, x) :: s'.data[x] == s.data[x]
  }

  /** The range is split around position j: as split_range leaves it, judged by what the task found. */
  ghost predicate EndsSplit<T>(less: Less<T>, s: State<T>, k: nat, j: nat, s': State<T>)
    requires k < |s.jobs|
  {
    var r := s.jobs[k].range;
    && s.jobs[k].Running? && s.jobs[k].splits && j < r.size && |s.agreed| == |s.data| && s'.data == s.data
    && s'.agreed == Patched(s.agreed, s.data, r) && SplitAt(less, s.agreed, s'.agreed, r.begin, r.size, j)
    && s'.jobs == WithoutJob(s.jobs, k) + [Waiting(Range(r.begin, j)), Waiting(Range(r.begin + j + 1, r.size - j - 1))]
  }

  /** The range is sorted, as std::sort promises. */
  ghost predicate EndsSort<T>(less: Less<T>, s: State<T>, k: nat, s': State<T>)
    requires k < |s.jobs|
  {
    var r := s.jobs[k].range;
    && s.jobs[k].Running? && !s.jobs[k].splits && |s.agreed| == |s.data| && s'.data == s.data
    && s'.agreed == Patched(s.agreed, s.data, r) && Rearranged(s.agreed, s'.agreed, r.begin, r.begin + r.size)
    && PartSorted(less, s'.agreed, r.begin, r.begin + r.size) && s'.jobs == WithoutJob(s.jobs, k)
  }

  ghost predicate JobMoves<T>(less: Less<T>, s: State<T>, k: nat, s': State<T>) {
    && k < |s.jobs|
    && (|| Begins(s, k, s')
        || Writes(s, k, s')
        || EndsSort(less, s, k, s')
        || exists j: nat :: EndsSplit(less, s, k, j, s'))
  }

  ghost predicate Step<T>(less: Less<T>, s: State<T>, s': State<T>) {
    exists k: nat :: JobMoves(less, s, k, s')
  }

  ghost predicate Consistent<T>(less: Less<T>, d: seq<T>, s: State<T>) {
    && |s.data| == |s.agreed| && multiset(s.agreed) == multiset(d) && Pending(less, s.agreed, RangesOf(s.jobs))
    && (forall x | 0 <= x < |s.data| && !Busy(s.jobs, x) :: s.data[x] == s.agreed[x])
    && (forall k | 0 <= k < |s.jobs| && s.jobs[k].Running? && s.jobs[k].splits :: s.jobs[k].range.size >= GRAIN)
  }

  /** Some task is working on x. */
  ghost predicate Busy(jobs: seq<Job>, x: int) {
    exists k :: 0 <= k < |jobs| && jobs[k].Running? && In(jobs[k].range, x)
  }

  /** A position where nobody works any more after job k has been replaced by waiting ones. */
  lemma BusyElsewhere(jobs: seq<Job>, k: nat, more: seq<Job>, x: int)
    requires k < |jobs| && !In(jobs[k].range, x) && forall l | 0 <= l < |more| :: more[l].Waiting?
    ensures Busy(WithoutJob(jobs, k) + more, x) <==> Busy(jobs, x)
  {
    var rest := WithoutJob(jobs, k) + more;
    forall l | 0 <= l < |jobs| && l != k ensures jobs[l] == rest[if l < k then l else l - 1] {
    }
    if Busy(jobs, x) {
      var l :| 0 <= l < |jobs| && jobs[l].Running? && In(jobs[l].range, x);
      assert rest[if l < k then l else l - 1] == jobs[l];
    }
    if Busy(rest, x) {
      var l :| 0 <= l < |rest| && rest[l].Running? && In(rest[l].range, x);
      assert rest[l] == jobs[if l < k then l else l + 1];
    }
  }

  lemma RangesWithout(jobs: seq<Job>, k: nat, more: seq<Job>)
    requires k < |jobs|
    ensures RangesOf(WithoutJob(jobs, k) + more) == Without(RangesOf(jobs), k) + RangesOf(more)
  {
  }

  lemma EndsSplitKeeps<T(!new)>(less: Less<T>, d: seq<T>, s: State<T>, k: nat, j: nat, s': State<T>)
    requires StrictWeakOrder(less) && Consistent(less, d, s) && k < |s.jobs| && EndsSplit(less, s, k, j, s')
    ensures Consistent(less, d, s')
  {
    var r := s.jobs[k].range;
    var more := [Waiting(Range(r.begin, j)), Waiting(Range(r.begin + j + 1, r.size - j - 1))];
    SplitKeepsPending(less, s.agreed, s'.agreed, RangesOf(s.jobs), k, j);
    RangesWithout(s.jobs, k, more);
    assert RangesOf(more) == [Range(r.begin, j), Range(r.begin + j + 1, r.size - j - 1)];
    forall x | 0 <= x < |s'.data| && !Busy(s'.jobs, x) ensures s'.data[x] == s'.agreed[x] {
      if !In(r, x) { BusyElsewhere(s.jobs, k, more, x); }
    }
  }

  lemma EndsSortKeeps<T(!new)>(less: Less<T>, d: seq<T>, s: State<T>, k: nat, s': State<T>)
    requires StrictWeakOrder(less) && Consistent(less, d, s) && k < |s.jobs| && EndsSort(less, s, k, s')
    ensures Consistent(less, d, s')
  {
    var r := s.jobs[k].range;
    SortKeepsPending(less, s.agreed, s'.agreed, RangesOf(s.jobs), k);
    RangesWithout(s.jobs, k, []);
    assert WithoutJob(s.jobs, k) + [] == s'.jobs
           && Without(RangesOf(s.jobs), k) + RangesOf([]) == Without(RangesOf(s.jobs), k);
    forall x | 0 <= x < |s'.data| && !Busy(s'.jobs, x) ensures s'.data[x] == s'.agreed[x] {
      if !In(r, x) { BusyElsewhere(s.jobs, k, [], x); }
    }
  }

  lemma StillBusy(jobs: seq<Job>, jobs': seq<Job>, x: int)
    requires |jobs'| == |jobs| && forall l | 0 <= l < |jobs| && jobs[l].Running? :: jobs'[l] == jobs[l]
    ensures Busy(jobs, x) ==> Busy(jobs', x)
  {
    if Busy(jobs, x) {
      var l :| 0 <= l < |jobs| && jobs[l].Running? && In(jobs[l].range, x);
      assert jobs'[l] == jobs[l];
    }
  }

  /** Beginning and writing leave what has been agreed as it is. */
  lemma WorkKeeps<T(!new)>(less: Less<T>, d: seq<T>, s: State<T>, k: nat, s': State<T>)
    requires Consistent(less, d, s) && k < |s.jobs| && (Begins(s, k, s') || Writes(s, k, s'))
    ensures Consistent(less, d, s')
  {
    assert RangesOf(s'.jobs) == RangesOf(s.jobs);
    forall x | 0 <= x < |s'.data| && !Busy(s'.jobs, x) ensures s'.data[x] == s'.agreed[x] {
      StillBusy(s.jobs, s'.jobs, x);
      assert !Busy(s.jobs, x) && !In(s'.jobs[k].range, x);
    }
  }

  ghost predicate IsRun<T(!new)>(less: Less<T>, d: seq<T>, run: seq<State<T>>) {
    && run != [] && run[0] == State(d, d, [Waiting(Range(0, |d|))])
    && forall k | 0 <= k < |run| - 1 :: Step(less, run[k], run[k + 1])
  }

  lemma {:induction false} EveryStateIsConsistent<T(!new)>(less: Less<T>, d: seq<T>, run: seq<State<T>>)
    requires StrictWeakOrder(less) && IsRun(less, d, run)
    ensures Consistent(less, d, run[|run| - 1])
  {
    var n := |run| - 1;
    if n == 0 {
      forall x, y | 0 <= x < y < |d| ensures Together(RangesOf(run[0].jobs), x, y) {
        assert In(RangesOf(run[0].jobs)[0], x) && In(RangesOf(run[0].jobs)[0], y);
      }
    } else {
      EveryStateIsConsistent(less, d, run[..n]);
      var s, s' := run[n - 1], run[n];
      assert Step(less, s, s');
      var k: nat :| JobMoves(less, s, k, s');
      if Begins(s, k, s') || Writes(s, k, s') {
        WorkKeeps(less, d, s, k, s');
      } else if EndsSort(less, s, k, s') {
        EndsSortKeeps(less, d, s, k, s');
      } else {
        var j: nat :| EndsSplit(less, s, k, j, s');
        EndsSplitKeeps(less, d, s, k, j, s');
      }
    }
  }

  /** However the writes of the tasks interleave, when none is left the array is sorted and nothing is lost. */
  lemma InterleavedSortsSort<T(!new)>(less: Less<T>, d: seq<T>, run: seq<State<T>>)
    requires StrictWeakOrder(less) && IsRun(less, d, run) && run[|run| - 1].jobs == []
    ensures SortedPermutation(less, d, run[|run| - 1].data)
  {
    EveryStateIsConsistent(less, d, run);
    var s := run[|run| - 1];
    assert forall x :: !Busy(s.jobs, x);
    assert s.data == s.agreed;
    assert forall x, y :: !Together(RangesOf(s.jobs), x, y);
    assert |s.agreed| == |d| by {
      assert |multiset(s.agreed)| == |multiset(d)|;
    }
  }

  lemma GoesOn<T(!new)>(less: Less<T>, d: seq<T>, run: seq<State<T>>, k: nat, s': State<T>)
    requires IsRun(less, d, run) && JobMoves(less, run[|run| - 1], k, s')
    ensures IsRun(less, d, run + [s'])
  {
    assert Step(less, run[|run| - 1], s');
  }

  function Split(jobs: seq<Job>): nat {
    if jobs == [] then 0
    else Split(jobs[..|jobs| - 1]) + if jobs[|jobs| - 1].Running? && jobs[|jobs| - 1].splits then 1 else 0
  }

  lemma {:induction false} SplitWithout(jobs: seq<Job>, k: nat)
    requires k < |jobs|
    ensures Split(jobs) == Split(WithoutJob(jobs, k)) + if jobs[k].Running? && jobs[k].splits then 1 else 0
  {
    var n := |jobs| - 1;
    if k == n {
      assert WithoutJob(jobs, k) == jobs[..n];
    } else {
      SplitWithout(jobs[..n], k);
      assert WithoutJob(jobs, k)[..n - 1] == WithoutJob(jobs[..n], k);
    }
  }

  lemma {:induction false} SomeSplit(jobs: seq<Job>) returns (k: nat)
    requires Split(jobs) > 0
    ensures k < |jobs| && jobs[k].Running? && jobs[k].splits
  {
    k := |jobs| - 1;
    if !(jobs[k].Running? && jobs[k].splits) {
      k := SomeSplit(jobs[..k]);
    }
  }

  lemma SplitMore(jobs: seq<Job>, r: Range, q: Range)
    ensures Split(jobs + [Waiting(r), Waiting(q)]) == Split(jobs)
  {
    assert (jobs + [Waiting(r), Waiting(q)])[..|jobs| + 1] == jobs + [Waiting(r)];
    assert (jobs + [Waiting(r)])[..|jobs|] == jobs;
  }

  /** A running task can write what sorts its range, and with it be done. */
  lemma Finishes<T(!new)>(less: Less<T>, d: seq<T>, s: State<T>, k: nat) returns (written: State<T>, s': State<T>)
    requires StrictWeakOrder(less) && Consistent(less, d, s) && k < |s.jobs| && s.jobs[k].Running?
    ensures JobMoves(less, s, k, written) && JobMoves(less, written, k, s')
    ensures (s.jobs[k].splits ==> s.jobs[k].range.size > 0) && s'.jobs == DoneWith(s.jobs, k)
  {
    var r := s.jobs[k].range;
    assert r == RangesOf(s.jobs)[k];
    var sorted := SortedVersion(less, s.agreed, r.begin, r.begin + r.size);
    written := s.(data := Patched(s.data, sorted, r));
    assert Patched(s.agreed, written.data, r) == sorted;
    s' := State(written.data, sorted, DoneWith(s.jobs, k));
    if s.jobs[k].splits {
      assert EndsSplit(less, written, k, 0, s');
    } else {
      assert EndsSort(less, written, k, s');
    }
  }

  /** Every run can be continued until no task is left, whatever has been split and written until now. */
  lemma {:induction false} EverySortCompletes<T(!new)>(less: Less<T>, d: seq<T>, run: seq<State<T>>)
    returns (full: seq<State<T>>)
    requires StrictWeakOrder(less) && IsRun(less, d, run)
    ensures IsRun(less, d, full) && run <= full && full[|full| - 1].jobs == []
    decreases Split(run[|run| - 1].jobs), |run[|run| - 1].jobs|
  {
    var s := run[|run| - 1];
    full := run;
    if s.jobs != [] {
      var k := 0;
      if Split(s.jobs) > 0 {
        k := SomeSplit(s.jobs);
      }
      full := OneLess(less, d, run, k);
      full := EverySortCompletes(less, d, full);
    }
  }

  /** What is left of the tasks when running task k is done, as Finishes has it. */
  function DoneWith(jobs: seq<Job>, k: nat): seq<Job>
    requires k < |jobs| && jobs[k].Running? && (jobs[k].splits ==> jobs[k].range.size > 0)
  {
    var r := jobs[k].range;
    WithoutJob(jobs, k) +
    if jobs[k].splits then [Waiting(Range(r.begin, 0)), Waiting(Range(r.begin + 1, r.size - 1))] else []
  }

  lemma FewerLeft(jobs: seq<Job>, k: nat)
    requires k < |jobs| && jobs[k].Running? && (jobs[k].splits ==> jobs[k].range.size > 0)
    ensures var left := DoneWith(jobs, k);
            if jobs[k].splits then Split(left) < Split(jobs) else Split(left) == Split(jobs) && |left| < |jobs|
  {
    var r := jobs[k].range;
    var rest := WithoutJob(jobs, k);
    SplitWithout(jobs, k);
    if jobs[k].splits {
      SplitMore(rest, Range(r.begin, 0), Range(r.begin + 1, r.size - 1));
    } else {
      assert rest + [] == rest;
    }
  }

  /** Task k goes on until it is done. */
  lemma OneLess<T(!new)>(less: Less<T>, d: seq<T>, run: seq<State<T>>, k: nat) returns (full: seq<State<T>>)
    requires StrictWeakOrder(less) && IsRun(less, d, run) && k < |run[|run| - 1].jobs|
    requires var job := run[|run| - 1].jobs[k];
             (job.Running? && job.splits) || Split(run[|run| - 1].jobs) == 0
    ensures IsRun(less, d, full) && run <= full
    ensures var jobs, jobs' := run[|run| - 1].jobs, full[|full| - 1].jobs;
            Split(jobs') < Split(jobs) || (Split(jobs') == Split(jobs) && |jobs'| < |jobs|)
  {
    full := run;
    var s := run[|run| - 1];
    SplitWithout(s.jobs, k);
    if s.jobs[k].Waiting? {
      var s' := s.(jobs := s.jobs[k := Running(s.jobs[k].range, false)]);
      assert Begins(s, k, s');
      GoesOn(less, d, run, k, s');
      full := run + [s'];
      SplitWithout(s'.jobs, k);
      assert WithoutJob(s'.jobs, k) == WithoutJob(s.jobs, k);
    }
    full := RunsOut(less, d, full, k);
  }

  lemma RunsOut<T(!new)>(less: Less<T>, d: seq<T>, run: seq<State<T>>, k: nat) returns (full: seq<State<T>>)
    requires StrictWeakOrder(less) && IsRun(less, d, run)
    requires k < |run[|run| - 1].jobs| && run[|run| - 1].jobs[k].Running?
    ensures IsRun(less, d, full) && run <= full
    ensures var jobs, jobs' := run[|run| - 1].jobs, full[|full| - 1].jobs;
            if jobs[k].splits then Split(jobs') < Split(jobs) else Split(jobs') == Split(jobs) && |jobs'| < |jobs|
  {
    EveryStateIsConsistent(less, d, run);
    var s := run[|run| - 1];
    var written, s' := Finishes(less, d, s, k);
    FewerLeft(s.jobs, k);
    GoesOn(less, d, run, k, written);
    GoesOn(less, d, run + [written], k, s');
    full := run + [written] + [s'];
  }

  // ---------------------------------------------------------------- pre-test

  /** Where a body of the pre-test stands: before its first step, at the head of the loop, at the comparison, ... */
  datatype Pc = Unstarted | Head | Compare | Cancels | Finished

  datatype Body = Body(lo: nat, hi: nat, k: nat, pc: Pc)

  datatype Group = Group(cancelled: bool, bodies: seq<Body>)

  /** One step of body b while the flag is c, leaving the flag c' and the body b'. */
  predicate BodyMoves<T>(less: Less<T>, d: seq<T>, b: Body, c: bool, b': Body, c': bool) {
    match b.pc
    case Unstarted => c' == c && (b' == b.(pc := Head) || (c && b' == b.(pc := Finished)))
    case Head =>
      c' == c && b' == b.(pc := if b.k >= b.hi || ((b.k - b.lo) % 64 == 0 && c) then Finished else Compare)
    case Compare =>
      && 0 < b.k < |d| && c' == c
      && b' == (if less(d[b.k], d[b.k - 1]) then b.(pc := Cancels) else b.(k := b.k + 1, pc := Head))
    case Cancels => c' && b' == b.(pc := Finished)
    case Finished => false
  }

  ghost predicate GroupMoves<T>(less: Less<T>, d: seq<T>, g: Group, g': Group) {
    exists n: nat :: n < |g.bodies| && n < |g'.bodies| && g'.bodies == g.bodies[n := g'.bodies[n]] &&
      BodyMoves(less, d, g.bodies[n], g.cancelled, g'.bodies[n], g'.cancelled)
  }

  ghost predicate IsPretest<T>(less: Less<T>, d: seq<T>, pieces: seq<Range>, run: seq<Group>) {
    && run != [] && !run[0].cancelled && |run[0].bodies| == |pieces|
    && (forall n | 0 <= n < |pieces| ::
          run[0].bodies[n] == Body(pieces[n].begin, pieces[n].begin + pieces[n].size, pieces[n].begin, Unstarted))
    && forall k | 0 <= k < |run| - 1 :: GroupMoves(less, d, run[k], run[k + 1])
  }

  /** A body has found no drop up to k; it ends early only once the group is cancelled, and cancels only for a drop. */
  ghost predicate BodyOk<T>(less: Less<T>, d: seq<T>, b: Body, cancelled: bool) {
    && 0 < b.lo <= b.k && b.hi <= |d| && (b.k <= b.hi || b.k == b.lo) && NoDrop(less, d, b.lo, b.k)
    && (b.pc == Compare ==> b.k < b.hi)
    && (b.pc == Cancels ==> b.k < b.hi && !NoDrop(less, d, b.lo, b.hi))
    && (b.pc == Finished ==> cancelled || NoDrop(less, d, b.lo, b.hi))
  }

  ghost predicate GroupOk<T>(less: Less<T>, d: seq<T>, pieces: seq<Range>, g: Group) {
    && |g.bodies| == |pieces|
    && (forall n | 0 <= n < |pieces| ::
          g.bodies[n].lo == pieces[n].begin && g.bodies[n].hi == pieces[n].begin + pieces[n].size
            && BodyOk(less, d, g.bodies[n], g.cancelled))
    && (g.cancelled ==> !NoDrop(less, d, SERIAL_CUTOFF + 1, |d|))
  }

  lemma BodyMoveOk<T>(less: Less<T>, d: seq<T>, b: Body, c: bool, b': Body, c': bool)
    requires BodyOk(less, d, b, c) && BodyMoves(less, d, b, c, b', c')
    ensures BodyOk(less, d, b', c') && b'.lo == b.lo && b'.hi == b.hi
    ensures (c ==> c') && (c' ==> c || b.pc == Cancels)
  {
  }

  lemma MoveKeepsGroup<T>(less: Less<T>, d: seq<T>, pieces: seq<Range>, g: Group, g': Group)
    requires Cover(pieces, SERIAL_CUTOFF + 1, |d|) && GroupOk(less, d, pieces, g) && GroupMoves(less, d, g, g')
    ensures GroupOk(less, d, pieces, g')
  {
    var n: nat :| n < |g.bodies| && n < |g'.bodies| && g'.bodies == g.bodies[n := g'.bodies[n]] &&
      BodyMoves(less, d, g.bodies[n], g.cancelled, g'.bodies[n], g'.cancelled);
    assert pieces[n] in pieces && BodyOk(less, d, g.bodies[n], g.cancelled);
    BodyMoveOk(less, d, g.bodies[n], g.cancelled, g'.bodies[n], g'.cancelled);
    forall l | 0 <= l < |pieces|
      ensures g'.bodies[l].lo == pieces[l].begin && g'.bodies[l].hi == pieces[l].begin + pieces[l].size
           && BodyOk(less, d, g'.bodies[l], g'.cancelled)
    {
      assert BodyOk(less, d, g.bodies[l], g.cancelled);
    }
  }

  lemma {:induction false} EveryGroupIsOk<T>(less: Less<T>, d: seq<T>, pieces: seq<Range>, run: seq<Group>)
    requires Cover(pieces, SERIAL_CUTOFF + 1, |d|) && IsPretest(less, d, pieces, run)
    ensures GroupOk(less, d, pieces, run[|run| - 1])
  {
    var n := |run| - 1;
    if n == 0 {
      forall l | 0 <= l < |pieces| ensures BodyOk(less, d, run[0].bodies[l], false) {
        assert pieces[l] in pieces;
      }
    } else {
      EveryGroupIsOk(less, d, pieces, run[..n]);
      MoveKeepsGroup(less, d, pieces, run[n - 1], run[n]);
    }
  }

  /**
   However the bodies interleave and whenever they poll the flag: once all have finished, the group is
   cancelled exactly if some adjacent pair is in the wrong order.
   */
  lemma InterleavedPretestDecides<T>(less: Less<T>, d: seq<T>, pieces: seq<Range>, run: seq<Group>)
    requires Cover(pieces, SERIAL_CUTOFF + 1, |d|) && IsPretest(less, d, pieces, run)
    requires forall b | b in run[|run| - 1].bodies :: b.pc == Finished
    ensures run[|run| - 1].cancelled <==> !NoDrop(less, d, SERIAL_CUTOFF + 1, |d|)
  {
    EveryGroupIsOk(less, d, pieces, run);
    var g := run[|run| - 1];
    if !g.cancelled {
      forall k | SERIAL_CUTOFF + 1 <= k < |d| ensures !less(d[k], d[k - 1]) {
        assert Covered(pieces, k);
        var n :| 0 <= n < |pieces| && In(pieces[n], k);
        assert g.bodies[n] in g.bodies && BodyOk(less, d, g.bodies[n], g.cancelled);
      }
    }
  }

  /** How far a body is from its end, with nobody else at work. */
  function Rest(b: Body): nat {
    (if b.k < b.hi then 3 * (b.hi - b.k) else 0) + Ahead(b.pc)
  }

  function Ahead(pc: Pc): nat {
    match pc
    case Unstarted => 4
    case Head => 3
    case Compare => 2
    case Cancels => 1
    case Finished => 0
  }

  /** A body that has not finished can move. */
  lemma BodyGoes<T>(less: Less<T>, d: seq<T>, b: Body, c: bool) returns (b': Body, c': bool)
    requires BodyOk(less, d, b, c) && b.pc != Finished
    ensures BodyMoves(less, d, b, c, b', c') && Rest(b') < Rest(b)
  {
    c' := c || b.pc == Cancels;
    match b.pc
    case Unstarted => b' := b.(pc := Head);
    case Head => b' := b.(pc := if b.k >= b.hi || ((b.k - b.lo) % 64 == 0 && c) then Finished else Compare);
    case Compare => b' := if less(d[b.k], d[b.k - 1]) then b.(pc := Cancels) else b.(k := b.k + 1, pc := Head);
    case Cancels => b' := b.(pc := Finished);
  }

  /** Body n by itself goes on to its end. */
  lemma {:induction false} BodyFinishes<T>(less: Less<T>, d: seq<T>, pieces: seq<Range>, run: seq<Group>, n: nat)
    returns (full: seq<Group>)
    requires Cover(pieces, SERIAL_CUTOFF + 1, |d|) && IsPretest(less, d, pieces, run) && n < |run[|run| - 1].bodies|
    ensures IsPretest(less, d, pieces, full) && run <= full
    ensures var bodies, bodies' := run[|run| - 1].bodies, full[|full| - 1].bodies;
            |bodies'| == |bodies| && bodies' == bodies[n := bodies'[n]] && bodies'[n].pc == Finished
    decreases Rest(run[|run| - 1].bodies[n])
  {
    var g := run[|run| - 1];
    full := run;
    if g.bodies[n].pc != Finished {
      EveryGroupIsOk(less, d, pieces, run);
      var b', c' := BodyGoes(less, d, g.bodies[n], g.cancelled);
      var g' := Group(c', g.bodies[n := b']);
      assert GroupMoves(less, d, g, g');
      full := BodyFinishes(less, d, pieces, run + [g'], n);
    }
  }

  /** Every run of the pre-test can be continued until all bodies have finished. */
  lemma {:induction false} EveryPretestCompletes<T>(less: Less<T>, d: seq<T>, pieces: seq<Range>, run: seq<Group>,
                                                    n: nat)
    returns (full: seq<Group>)
    requires Cover(pieces, SERIAL_CUTOFF + 1, |d|) && IsPretest(less, d, pieces, run)
    requires n <= |run[|run| - 1].bodies| && forall b | b in run[|run| - 1].bodies[..n] :: b.pc == Finished
    ensures IsPretest(less, d, pieces, full) && run <= full
    ensures forall b | b in full[|full| - 1].bodies :: b.pc == Finished
    decreases |run[|run| - 1].bodies| - n
  {
    full := run;
    if n < |run[|run| - 1].bodies| {
      full := BodyFinishes(less, d, pieces, run, n);
      assert full[|full| - 1].bodies[..n + 1] == run[|run| - 1].bodies[..n] + [full[|full| - 1].bodies[n]];
      full := EveryPretestCompletes(less, d, pieces, full, n + 1);
    }
  }
}
