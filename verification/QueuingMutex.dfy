/**
 The queue lock (include/oneapi/tbb/queuing_mutex.h), one atomic access at a time, for any number of
 scoped_lock objects. A scoped_lock is named by its index.
 */
module QueuingMutex {

  datatype Option<T> = None | Some(value: T)

  /** Where the thread that uses a scoped_lock stands. */
  datatype Pc =
    | Idle
    | Clearing(trying: bool)      // m_next has been cleared
    | Ready(trying: bool)         // m_going too
    | Linking(pred: nat)          // the exchange has returned a predecessor
    | Spinning
    | Holding
    | Closing                     // m_next was null; about to try to empty the queue
    | WaitingNext                 // somebody is behind, but not linked yet
    | HandingOff

  datatype ScopedLock = ScopedLock(pc: Pc, next: Option<nat>, going: bool)

  /** tail is q_tail. History: who has entered the queue, in order, and how many of them have left it. */
  datatype State = State(locks: seq<ScopedLock>, tail: Option<nat>, joined: seq<nat>, left: nat)

  // ---------------------------------------------------------------- steps

  predicate Step(s: State, i: nat, s': State)
    requires i < |s.locks|
  {
    var me := s.locks[i];
    match me.pc
    case Idle =>
      || s' == s.(locks := s.locks[i := ScopedLock(Clearing(false), None, me.going)])
      || s' == s.(locks := s.locks[i := ScopedLock(Clearing(true), None, me.going)])
    case Clearing(trying) => s' == s.(locks := s.locks[i := ScopedLock(Ready(trying), me.next, false)])
    case Ready(false) =>
      s' == Join(s, i, if s.tail.None? then Holding else Linking(s.tail.value))
    case Ready(true) =>
      if s.tail.None? then s' == Join(s, i, Holding) else s' == Go(s, i, Idle)
    case Linking(pred) =>
      pred < |s.locks| && s' == Go(s.(locks := s.locks[pred := s.locks[pred].(next := Some(i))]), i, Spinning)
    case Spinning => me.going && s' == Go(s, i, Holding)
    case Holding => s' == Go(s, i, if me.next.None? then Closing else HandingOff)
    case Closing =>
      if s.tail == Some(i) then s' == Go(s, i, Idle).(tail := None, left := s.left + 1) else s' == Go(s, i, WaitingNext)
    case WaitingNext => me.next.Some? && s' == Go(s, i, HandingOff)
    case HandingOff =>
      && me.next.Some? && me.next.value < |s.locks|
      && s' == Go(s.(locks := s.locks[me.next.value := s.locks[me.next.value].(going := true)]), i,
                  Idle).(left := s.left + 1)
  }

  function Go(s: State, i: nat, pc: Pc): State
    requires i < |s.locks|
  {
    s.(locks := s.locks[i := s.locks[i].(pc := pc)])
  }

  /** q_tail is exchanged for i. */
  function Join(s: State, i: nat, pc: Pc): State
    requires i < |s.locks|
  {
    Go(s, i, pc).(tail := Some(i), joined := s.joined + [i])
  }

  ghost predicate Starts(s: State) {
    && s.tail == None && s.joined == [] && s.left == 0
    && forall i | 0 <= i < |s.locks| :: s.locks[i].pc == Idle
  }

  ghost predicate IsRun(run: seq<State>) {
    && run != [] && Starts(run[0])
    && forall k: nat {:trigger MovesAt(run, k)} | k < |run| - 1 :: MovesAt(run, k)
  }

  ghost predicate MovesAt(run: seq<State>, k: nat)
    requires k < |run| - 1
  {
    Moves(run[k], run[k + 1])
  }

  ghost predicate Moves(s: State, s': State) {
    exists i: nat :: i < |s.locks| && Step(s, i, s')
  }

  // ---------------------------------------------------------------- invariant

  predicate Owns(pc: Pc) {
    pc.Holding? || pc.Closing? || pc.WaitingNext? || pc.HandingOff?
  }

  predicate Queued(pc: Pc) {
    pc.Linking? || pc.Spinning? || Owns(pc)
  }

  /** Those who have joined and not left: the owner, then the waiters. */
  function Queue(s: State): seq<nat>
    requires s.left <= |s.joined|
  {
    s.joined[s.left..]
  }

  /** The element at position p of the queue, and the link to it from the one before. */
  ghost predicate Placed(s: State, p: nat)
    requires s.left <= |s.joined| && p < |Queue(s)|
  {
    var q := Queue(s);
    var i := q[p];
    && i < |s.locks|
    && if p == 0 then Owns(s.locks[i].pc) || (s.locks[i].pc == Spinning && s.locks[i].going)
       else
         && !s.locks[i].going && q[p - 1] < |s.locks|
         && (|| (s.locks[i].pc == Linking(q[p - 1]) && s.locks[q[p - 1]].next == None)
             || (s.locks[i].pc == Spinning && s.locks[q[p - 1]].next == Some(i)))
  }

  /** The queue is the chain of links from the owner to the tail. */
  ghost predicate QueueOk(s: State) {
    && s.left <= |s.joined|
    && var q := Queue(s);
       && (forall a, b | 0 <= a < b < |q| :: q[a] != q[b])
       && (forall p | 0 <= p < |q| :: Placed(s, p))
       && s.tail == (if q == [] then None else Some(q[|q| - 1]))
       && (q != [] ==> q[|q| - 1] < |s.locks| && s.locks[q[|q| - 1]].next == None)
  }

  /** A scoped_lock by itself. */
  ghost predicate LockOk(s: State, i: nat)
    requires s.left <= |s.joined| && i < |s.locks|
  {
    var l := s.locks[i];
    && (Queued(l.pc) ==> i in Queue(s))
    && (l.pc.Clearing? ==> l.next == None)
    && (l.pc.Ready? ==> l.next == None && !l.going)
    && (l.pc.HandingOff? ==> l.next.Some?)
    && (l.pc.WaitingNext? ==> |Queue(s)| > 1)
  }

  ghost predicate Inv(s: State) {
    QueueOk(s) && forall i | 0 <= i < |s.locks| :: LockOk(s, i)
  }

  /** Whoever owns the lock is at the front. */
  lemma OwnerIsFront(s: State, i: nat)
    requires Inv(s) && i < |s.locks| && Owns(s.locks[i].pc)
    ensures s.left < |s.joined| && i == s.joined[s.left] && Queue(s)[0] == i
  {
    assert LockOk(s, i);
    var p: nat :| p < |Queue(s)| && Queue(s)[p] == i;
    assert Placed(s, p);
  }

  /** Behind an owner with a link stands whoever it links to. */
  lemma LinkedNext(s: State, i: nat)
    requires Inv(s) && i < |s.locks| && Owns(s.locks[i].pc) && s.locks[i].next.Some?
    ensures |Queue(s)| > 1 && s.locks[i].next == Some(Queue(s)[1])
  {
    OwnerIsFront(s, i);
    assert |Queue(s)| > 1 ==> Placed(s, 1);
  }

  // ---------------------------------------------------------------- preservation

  /** A step that changes only a lock outside the queue. */
  lemma OutsideKeeps(s: State, i: nat, l: ScopedLock)
    requires Inv(s) && i < |s.locks| && !Queued(s.locks[i].pc) && !Queued(l.pc)
    requires (l.pc.Clearing? ==> l.next == None) && (l.pc.Ready? ==> l.next == None && !l.going)
    ensures Inv(s.(locks := s.locks[i := l]))
  {
    var s' := s.(locks := s.locks[i := l]);
    NotQueued(s, i);
    forall p: nat | p < |Queue(s)| ensures Placed(s', p) {
      assert Placed(s, p);
      assert p > 0 ==> Placed(s, p - 1);
    }
    forall k: nat | k < |s'.locks| ensures LockOk(s', k) {
      assert LockOk(s, k);
    }
  }

  lemma NotQueued(s: State, i: nat)
    requires Inv(s) && i < |s.locks| && !Queued(s.locks[i].pc)
    ensures i !in Queue(s)
  {
    forall p: nat | p < |Queue(s)| ensures Queue(s)[p] != i {
      assert Placed(s, p);
    }
  }

  lemma JoinKeeps(s: State, i: nat, pc: Pc)
    requires Inv(s) && i < |s.locks| && s.locks[i].pc.Ready?
    requires pc == (if s.tail.None? then Holding else Linking(s.tail.value))
    ensures Inv(Join(s, i, pc))
  {
    var s' := Join(s, i, pc);
    var q := Queue(s);
    assert LockOk(s, i);
    NotQueued(s, i);
    assert Queue(s') == q + [i];
    forall p: nat | p < |q| + 1 ensures Placed(s', p) {
      assert p < |q| ==> Placed(s, p);
      assert 0 < p <= |q| ==> Placed(s, p - 1);
    }
    forall k: nat | k < |s'.locks| ensures LockOk(s', k) {
      assert LockOk(s, k);
    }
  }

  lemma LinkKeeps(s: State, i: nat, s': State)
    requires Inv(s) && i < |s.locks| && s.locks[i].pc.Linking? && Step(s, i, s')
    ensures Inv(s') && s.locks[s.locks[i].pc.pred].next == None
  {
    var q := Queue(s);
    assert LockOk(s, i);
    var a: nat :| a < |q| && q[a] == i;
    assert Placed(s, a) && a > 0 && Placed(s, a - 1);
    assert Queue(s') == q;
    forall p: nat | p < |q| ensures Placed(s', p) {
      assert Placed(s, p);
      assert p > 0 ==> q[p - 1] != q[a - 1] || p == a;
    }
    forall k: nat | k < |s'.locks| ensures LockOk(s', k) {
      assert LockOk(s, k);
    }
  }

  /** The owner's or a woken waiter's own moves. */
  lemma FrontKeeps(s: State, i: nat, pc: Pc)
    requires Inv(s) && i < |s.locks| && Owns(pc)
    requires Owns(s.locks[i].pc) || (s.locks[i].pc.Spinning? && s.locks[i].going)
    requires pc.HandingOff? ==> s.locks[i].next.Some?
    requires pc.WaitingNext? ==> s.tail != Some(i)
    ensures Inv(Go(s, i, pc)) && Queue(s) != [] && Queue(s)[0] == i
  {
    var s' := Go(s, i, pc);
    var q := Queue(s);
    assert LockOk(s, i);
    var a: nat :| a < |q| && q[a] == i;
    assert Placed(s, a);
    forall p: nat | p < |q| ensures Placed(s', p) {
      assert Placed(s, p);
      assert p > 0 ==> q[p] != q[0];
    }
    forall k: nat | k < |s'.locks| ensures LockOk(s', k) {
      assert LockOk(s, k);
    }
  }

  lemma EmptyKeeps(s: State, i: nat, s': State)
    requires Inv(s) && i < |s.locks| && s.locks[i].pc.Closing? && s.tail == Some(i) && Step(s, i, s')
    ensures Inv(s') && Queue(s) == [i] && Queue(s') == []
  {
    OwnerIsFront(s, i);
    var q := Queue(s);
    assert |q| == 1;
    assert Queue(s') == q[1..];
    forall k: nat | k < |s'.locks| ensures LockOk(s', k) {
      assert LockOk(s, k);
    }
  }

  lemma HandOffKeeps(s: State, i: nat, s': State)
    requires Inv(s) && i < |s.locks| && s.locks[i].pc.HandingOff? && Step(s, i, s')
    ensures Inv(s') && |Queue(s)| > 1 && Queue(s') == Queue(s)[1..]
    ensures forall k | 0 <= k < |s.locks| :: s'.locks[k].going == (s.locks[k].going || k == Queue(s')[0])
  {
    OwnerIsFront(s, i);
    LinkedNext(s, i);
    var q := Queue(s);
    assert Placed(s, 1);
    assert Queue(s') == q[1..];
    forall p: nat | p < |q| - 1 ensures Placed(s', p) {
      assert Placed(s, p + 1);
    }
    forall k: nat | k < |s'.locks| ensures LockOk(s', k) {
      assert LockOk(s, k);
      if k in q && k != i {
        var a: nat :| a < |q| && q[a] == k;
        assert q[1..][a - 1] == k;
      }
    }
  }

  lemma StepKeepsInv(s: State, i: nat, s': State)
    requires Inv(s) && i < |s.locks| && Step(s, i, s')
    ensures Inv(s')
  {
    var me := s.locks[i];
    assert LockOk(s, i);
    match me.pc
    case Idle => OutsideKeeps(s, i, s'.locks[i]);
    case Clearing(_) => OutsideKeeps(s, i, s'.locks[i]);
    case Ready(trying) =>
      if trying && s.tail.Some? {
        OutsideKeeps(s, i, me.(pc := Idle));
      } else {
        JoinKeeps(s, i, s'.locks[i].pc);
      }
    case Linking(_) => LinkKeeps(s, i, s');
    case Spinning => FrontKeeps(s, i, Holding);
    case Holding => FrontKeeps(s, i, s'.locks[i].pc);
    case Closing =>
      if s.tail == Some(i) {
        EmptyKeeps(s, i, s');
      } else {
        FrontKeeps(s, i, WaitingNext);
      }
    case WaitingNext => FrontKeeps(s, i, HandingOff);
    case HandingOff => HandOffKeeps(s, i, s');
  }

  // ---------------------------------------------------------------- whole runs

  lemma {:induction false} EveryStateIsOk(run: seq<State>, k: nat)
    requires IsRun(run) && k < |run|
    ensures Inv(run[k])
  {
    if k > 0 {
      EveryStateIsOk(run, k - 1);
      assert MovesAt(run, k - 1);
      var i: nat :| i < |run[k - 1].locks| && Step(run[k - 1], i, run[k]);
      StepKeepsInv(run[k - 1], i, run[k]);
    }
  }

  /**
   At most one thread holds the lock, whatever the interleaving; and the one that does is the first of
   those who have entered the queue and not left it: holders follow the order of their tail updates.
   */
  lemma OneHolderInOrder(run: seq<State>, k: nat, i: nat, j: nat)
    requires IsRun(run) && k < |run| && i < |run[k].locks| && j < |run[k].locks|
    requires Owns(run[k].locks[i].pc) && Owns(run[k].locks[j].pc)
    ensures i == j && run[k].left < |run[k].joined| && i == run[k].joined[run[k].left]
  {
    EveryStateIsOk(run, k);
    OwnerIsFront(run[k], i);
    OwnerIsFront(run[k], j);
  }

  /** The order of entry is never rewritten, and leaving goes through it one by one. */
  lemma {:induction false} HistoryGrows(run: seq<State>, k: nat)
    requires IsRun(run) && k < |run| - 1
    ensures run[k].joined <= run[k + 1].joined && run[k].left <= run[k + 1].left <= run[k].left + 1
    ensures |run[k + 1].joined| <= |run[k].joined| + 1
  {
    assert MovesAt(run, k);
  }

  /** A release either empties the queue or wakes the next waiter and nobody else. */
  lemma ReleaseWakesNext(run: seq<State>, k: nat)
    requires IsRun(run) && k < |run| - 1 && run[k + 1].left > run[k].left
    ensures var s, s' := run[k], run[k + 1];
      && s.left < |s.joined| && s'.left == s.left + 1 && s'.joined == s.joined && |s'.locks| == |s.locks|
      && (if s'.left == |s'.joined| then s'.tail == None
          && forall i | 0 <= i < |s.locks| :: s'.locks[i].going == s.locks[i].going
          else
            && s.joined[s'.left] < |s.locks| && !s.locks[s.joined[s'.left]].going
            && forall i | 0 <= i < |s.locks| :: s'.locks[i].going == (s.locks[i].going || i == s.joined[s'.left]))
  {
    EveryStateIsOk(run, k);
    var s, s' := run[k], run[k + 1];
    assert MovesAt(run, k);
    var i: nat :| i < |s.locks| && Step(s, i, s');
    if s.locks[i].pc.Closing? {
      EmptyKeeps(s, i, s');
    } else {
      HandOffKeeps(s, i, s');
      assert Placed(s, 1);
    }
  }

  /** try_acquire succeeds exactly when nobody is in the queue. */
  lemma TryAcquireMeansEmpty(run: seq<State>, k: nat, i: nat)
    requires IsRun(run) && k < |run| - 1 && i < |run[k].locks| && run[k].locks[i].pc == Ready(true)
    requires Step(run[k], i, run[k + 1])
    ensures run[k + 1].locks[i].pc.Holding? <==> run[k].left == |run[k].joined|
    ensures run[k + 1].locks[i].pc.Holding? || run[k + 1].locks[i].pc.Idle?
  {
    EveryStateIsOk(run, k);
  }

  /** While somebody is in the queue, somebody in it can take a step: no run gets stuck. */
  lemma SomebodyMoves(s: State) returns (i: nat, s': State)
    requires Inv(s) && Queue(s) != []
    ensures i < |s.locks| && Queued(s.locks[i].pc) && Step(s, i, s')
  {
    i := Queue(s)[0];
    assert Placed(s, 0) && LockOk(s, i);
    if s.locks[i].pc.WaitingNext? && s.locks[i].next.None? {
      i := Queue(s)[1];
      assert Placed(s, 1);
    } else if s.locks[i].pc.HandingOff? {
      LinkedNext(s, i);
      assert Placed(s, 1);
    }
    var me := s.locks[i];
    match me.pc {
      case Linking(pred) => s' := Go(s.(locks := s.locks[pred := s.locks[pred].(next := Some(i))]), i, Spinning);
      case Spinning => s' := Go(s, i, Holding);
      case Holding => s' := Go(s, i, if me.next.None? then Closing else HandingOff);
      case Closing =>
        s' := if s.tail == Some(i) then Go(s, i, Idle).(tail := None, left := s.left + 1) else Go(s, i, WaitingNext);
      case WaitingNext => s' := Go(s, i, HandingOff);
      case HandingOff =>
        s' := Go(s.(locks := s.locks[me.next.value := s.locks[me.next.value].(going := true)]), i,
                 Idle).(left := s.left + 1);
    }
  }

  // ---------------------------------------------------------------- every acquire succeeds

  lemma GoesOn(run: seq<State>, i: nat, s': State)
    requires IsRun(run) && i < |run[|run| - 1].locks| && Step(run[|run| - 1], i, s')
    ensures IsRun(run + [s'])
  {
    var longer := run + [s'];
    forall k: nat | k < |longer| - 1 ensures MovesAt(longer, k) {
      assert k < |run| - 1 ==> MovesAt(run, k);
      assert k == |run| - 1 ==> Moves(run[k], s');
    }
  }

  predicate Waits(pc: Pc) { pc.Linking? || pc.Spinning? }

  /** How far the front of the queue is from leaving it. */
  ghost function FrontRank(s: State): nat
    requires s.left < |s.joined| && Queue(s)[0] < |s.locks|
  {
    Rank(s.locks[Queue(s)[0]])
  }

  function Rank(l: ScopedLock): nat {
    match l.pc
    case Spinning => 6
    case Holding => 5
    case Closing => 4
    case WaitingNext => if l.next.None? then 3 else 2
    case _ => 1
  }

  /** Behind the front, i comes nearer: some thread of the queue can take the step that is needed for that. */
  lemma Nearer(s: State, i: nat, p: nat) returns (j: nat, s': State)
    requires Inv(s) && 0 < p < |Queue(s)| && Queue(s)[p] == i && i < |s.locks| && Waits(s.locks[i].pc)
    requires Queue(s)[0] < |s.locks|
    ensures j < |s.locks| && Step(s, j, s') && Inv(s') && |s'.locks| == |s.locks| && Waits(s'.locks[i].pc)
    ensures || (Queue(s') == Queue(s)[1..])
            || (Queue(s') == Queue(s) && Queue(s)[0] < |s'.locks| && FrontRank(s') < FrontRank(s))
  {
    var q := Queue(s);
    j := q[0];
    assert Placed(s, 0) && Placed(s, 1) && LockOk(s, j) && Placed(s, p);
    var me := s.locks[j];
    if me.pc.HandingOff? {
      s' := HandsOff(s, j);
      assert j != i;
    } else if me.pc.WaitingNext? && me.next.None? {
      j := q[1];
      s' := Links(s, j, q[0]);
      assert Rank(s'.locks[q[0]]) < Rank(s.locks[q[0]]);
    } else {
      s' := FrontGoes(s, j);
      assert j != i;
    }
    StepKeepsInv(s, j, s');
  }

  lemma FrontGoes(s: State, j: nat) returns (s': State)
    requires j < |s.locks| && s.left <= |s.joined|
    requires var me := s.locks[j];
             || (me.pc.Spinning? && me.going) || me.pc.Holding?
             || (me.pc.Closing? && s.tail != Some(j)) || (me.pc.WaitingNext? && me.next.Some?)
    ensures Step(s, j, s') && |s'.locks| == |s.locks| && Queue(s') == Queue(s)
    ensures Rank(s'.locks[j]) < Rank(s.locks[j])
    ensures forall k | 0 <= k < |s.locks| && k != j :: s'.locks[k].pc == s.locks[k].pc
  {
    var me := s.locks[j];
    s' := Go(s, j, if me.pc.Spinning? then Holding
                   else if me.pc.Holding? && me.next.None? then Closing
                   else if me.pc.Closing? then WaitingNext else HandingOff);
  }

  lemma HandsOff(s: State, j: nat) returns (s': State)
    requires Inv(s) && j < |s.locks| && s.locks[j].pc.HandingOff?
    ensures Step(s, j, s') && |s'.locks| == |s.locks| && |Queue(s)| > 1 && Queue(s') == Queue(s)[1..]
    ensures forall k | 0 <= k < |s.locks| && k != j :: s'.locks[k].pc == s.locks[k].pc
  {
    assert LockOk(s, j);
    OwnerIsFront(s, j);
    LinkedNext(s, j);
    assert Placed(s, 1);
    var next := s.locks[j].next.value;
    s' := Go(s.(locks := s.locks[next := s.locks[next].(going := true)]), j, Idle).(left := s.left + 1);
    HandOffKeeps(s, j, s');
  }

  lemma Links(s: State, j: nat, pred: nat) returns (s': State)
    requires Inv(s) && j < |s.locks| && s.locks[j].pc == Linking(pred) && pred < |s.locks| && pred != j
    ensures Step(s, j, s') && |s'.locks| == |s.locks| && Queue(s') == Queue(s)
    ensures s'.locks[pred] == s.locks[pred].(next := Some(j)) && s'.locks[j].pc.Spinning?
    ensures forall k | 0 <= k < |s.locks| && k != j :: s'.locks[k].pc == s.locks[k].pc
  {
    s' := Go(s.(locks := s.locks[pred := s.locks[pred].(next := Some(j))]), j, Spinning);
  }

  /** Whoever waits at the front of the queue can take the lock at once. */
  lemma FrontGetsIn(run: seq<State>, i: nat) returns (full: seq<State>)
    requires IsRun(run) && Inv(run[|run| - 1]) && i < |run[|run| - 1].locks| && Waits(run[|run| - 1].locks[i].pc)
    requires |Queue(run[|run| - 1])| > 0 && Queue(run[|run| - 1])[0] == i
    ensures IsRun(full) && run <= full && i < |full[|full| - 1].locks| && full[|full| - 1].locks[i].pc.Holding?
  {
    var s := run[|run| - 1];
    assert Placed(s, 0);
    GoesOn(run, i, Go(s, i, Holding));
    full := run + [Go(s, i, Holding)];
  }

  /** Whoever waits in the queue can get the lock, whatever has happened until now. */
  lemma {:induction false} WaiterGetsIn(run: seq<State>, i: nat, p: nat) returns (full: seq<State>)
    requires IsRun(run) && Inv(run[|run| - 1]) && i < |run[|run| - 1].locks| && Waits(run[|run| - 1].locks[i].pc)
    requires p < |Queue(run[|run| - 1])| && Queue(run[|run| - 1])[p] == i
    requires Queue(run[|run| - 1])[0] < |run[|run| - 1].locks|
    ensures IsRun(full) && run <= full && i < |full[|full| - 1].locks| && full[|full| - 1].locks[i].pc.Holding?
    decreases p, FrontRank(run[|run| - 1])
  {
    var s := run[|run| - 1];
    if p == 0 {
      full := FrontGetsIn(run, i);
    } else {
      var j, s' := Nearer(s, i, p);
      GoesOn(run, j, s');
      assert Placed(s', 0);
      full := WaiterGetsIn(run + [s'], i, if Queue(s') == Queue(s) then p else p - 1);
    }
  }

  /** acquire has been called and the lock is not held yet. */
  predicate Acquiring(pc: Pc) {
    pc == Clearing(false) || pc == Ready(false) || Waits(pc)
  }

  /** Every acquire can be completed, whatever has happened until now. */
  lemma {:induction false} AcquireCompletes(run: seq<State>, i: nat) returns (full: seq<State>)
    requires IsRun(run) && i < |run[|run| - 1].locks| && Acquiring(run[|run| - 1].locks[i].pc)
    ensures IsRun(full) && run <= full && i < |full[|full| - 1].locks| && full[|full| - 1].locks[i].pc.Holding?
    decreases match run[|run| - 1].locks[i].pc case Clearing(_) => 2 case Ready(_) => 1 case _ => 0
  {
    var s := run[|run| - 1];
    var me := s.locks[i];
    EveryStateIsOk(run, |run| - 1);
    if me.pc.Clearing? {
      var s' := s.(locks := s.locks[i := ScopedLock(Ready(false), me.next, false)]);
      GoesOn(run, i, s');
      full := AcquireCompletes(run + [s'], i);
    } else if me.pc.Ready? {
      var s' := Join(s, i, if s.tail.None? then Holding else Linking(s.tail.value));
      GoesOn(run, i, s');
      full := run + [s'];
      if s.tail.Some? {
        full := AcquireCompletes(full, i);
      }
    } else {
      assert LockOk(s, i);
      var p: nat :| p < |Queue(s)| && Queue(s)[p] == i;
      assert Placed(s, 0);
      full := WaiterGetsIn(run, i, p);
    }
  }
}
