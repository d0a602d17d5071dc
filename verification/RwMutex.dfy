/**
 The reader-writer lock that lives in one word (include/oneapi/tbb/rw_mutex.h), one atomic access at
 a time, for any number of threads. Bit 0 of the word says that a writer holds the lock, bit 1 that
 one is waiting, and the rest count readers.
 */
module RwMutex {

  // ---------------------------------------------------------------- the word

  const WRITER := 1
  const WRITER_PENDING := 2
  const ONE_READER := 4

  function Writer(w: int): int { w % 2 }
  function Pending(w: int): int { w / 2 % 2 }
  function Readers(w: int): int { w / 4 }

  /** w & BUSY */
  predicate Busy(w: int) { Writer(w) == 1 || Readers(w) != 0 }

  /** w & (WRITER | WRITER_PENDING) */
  predicate HasWriter(w: int) { Writer(w) == 1 || Pending(w) == 1 }

  /** w | WRITER_PENDING */
  function OrPending(w: int): int { if Pending(w) == 1 then w else w + WRITER_PENDING }

  /** w | WRITER | WRITER_PENDING */
  function OrBoth(w: int): int { if Writer(w) == 1 then OrPending(w) else OrPending(w) + WRITER }

  /** w & (READERS | WRITER_PENDING) */
  function DropWriter(w: int): int { w - Writer(w) }

  /** The word is its three fields side by side. */
  lemma FieldsAre(w: int, r: int, p: int, b: int)
    requires 0 <= p <= 1 && 0 <= b <= 1
    ensures w == 4 * r + 2 * p + b <==> Readers(w) == r && Pending(w) == p && Writer(w) == b
  {
    assert w == 2 * (w / 2) + w % 2 && w / 2 == 2 * (w / 2 / 2) + w / 2 % 2;
    assert w / 4 == w / 2 / 2;
  }

  /** Adding or taking away readers leaves the two low bits alone. */
  lemma AddReaders(w: int, n: int)
    ensures Writer(w + n * ONE_READER) == Writer(w) && Pending(w + n * ONE_READER) == Pending(w)
    ensures Readers(w + n * ONE_READER) == Readers(w) + n
  {
    FieldsAre(w, Readers(w), Pending(w), Writer(w));
    FieldsAre(w + n * ONE_READER, Readers(w) + n, Pending(w), Writer(w));
  }

  lemma SetPending(w: int)
    ensures Writer(OrPending(w)) == Writer(w) && Pending(OrPending(w)) == 1 && Readers(OrPending(w)) == Readers(w)
    ensures Writer(OrBoth(w)) == 1 && Pending(OrBoth(w)) == 1 && Readers(OrBoth(w)) == Readers(w)
  {
    FieldsAre(w, Readers(w), Pending(w), Writer(w));
    FieldsAre(OrPending(w), Readers(w), 1, Writer(w));
    FieldsAre(OrBoth(w), Readers(w), 1, 1);
  }

  lemma ClearBits(w: int)
    ensures Writer(DropWriter(w)) == 0 && Pending(DropWriter(w)) == Pending(w) && Readers(DropWriter(w)) == Readers(w)
    ensures Pending(w) == 1 ==> var v := w - WRITER_PENDING;
            Writer(v) == Writer(w) && Pending(v) == 0 && Readers(v) == Readers(w)
  {
    FieldsAre(w, Readers(w), Pending(w), Writer(w));
    FieldsAre(DropWriter(w), Readers(w), Pending(w), 0);
    FieldsAre(w - WRITER_PENDING, Readers(w), 0, Writer(w));
  }

  // ---------------------------------------------------------------- threads

  datatype Pc =
    | Idle
    // try_lock by itself, and as part of lock
    | TryLoad(inLock: bool)
    | TryCas(s: int, inLock: bool)
    | LockFailed                       // about to see whether a writer is pending
    | LockMark                         // about to set WRITER_PENDING
    | LockWait
    // try_lock_shared by itself, and as part of lock_shared
    | SharedLoad(inLock: bool)
    | SharedAdd(inLock: bool)
    | BackOff(inLock: bool)            // counted as a reader, about to undo that
    | SharedWait
    | HoldsRead
    | HoldsWrite
    // upgrade
    | UpgradeCheck(s: int)
    | UpgradeCas(s: int)
    | UpgradeSlow                      // about to unlock_shared, then lock
    | UpgradeWait                      // for the other readers to leave
    | UpgradeTake                      // they have left

  datatype State = State(word: int, threads: seq<Pc>)

  /** One step of a thread at pc, from word w to word w'. */
  predicate Moves(w: int, pc: Pc, w': int, pc': Pc) {
    match pc
    case Idle => w' == w && pc' in {TryLoad(true), TryLoad(false), SharedLoad(true), SharedLoad(false)}
    case TryLoad(inLock) =>
      w' == w && pc' == if !Busy(w) then TryCas(w, inLock) else if inLock then LockFailed else Idle
    case TryCas(seen, inLock) =>
      if w == seen then w' == WRITER && pc' == HoldsWrite
      else w' == w && pc' == if inLock then LockFailed else Idle
    case LockFailed => w' == w && pc' == if Pending(w) == 1 then LockWait else LockMark
    case LockMark => w' == OrPending(w) && pc' == LockWait
    case LockWait => !Busy(w) && w' == w && pc' == TryLoad(true)
    case SharedLoad(inLock) =>
      w' == w && pc' == if !HasWriter(w) then SharedAdd(inLock) else if inLock then SharedWait else Idle
    case SharedAdd(inLock) => w' == w + ONE_READER && pc' == if HasWriter(w) then BackOff(inLock) else HoldsRead
    case BackOff(inLock) => w' == w - ONE_READER && pc' == if inLock then SharedWait else Idle
    case SharedWait => !HasWriter(w) && w' == w && pc' == SharedLoad(true)
    case HoldsRead =>
      || (w' == w - ONE_READER && pc' == Idle)
      || (w' == w && pc' == UpgradeCheck(w))
    case HoldsWrite =>
      || (w' == DropWriter(w) && pc' == Idle)
      || (w' == w + ONE_READER - WRITER && pc' == HoldsRead)
    case UpgradeCheck(seen) =>
      w' == w && pc' == if Readers(seen) == 1 || Pending(seen) == 0 then UpgradeCas(seen) else UpgradeSlow
    case UpgradeCas(seen) =>
      if w == seen then w' == OrBoth(w) && pc' == UpgradeWait else w' == w && pc' == UpgradeCheck(w)
    case UpgradeSlow => w' == w - ONE_READER && pc' == TryLoad(true)
    case UpgradeWait => Readers(w) == 1 && w' == w && pc' == UpgradeTake
    case UpgradeTake => w' == w - (ONE_READER + WRITER_PENDING) && pc' == HoldsWrite
  }

  predicate Step(s: State, i: nat, s': State)
    requires i < |s.threads|
  {
    && i < |s'.threads| && s'.threads == s.threads[i := s'.threads[i]]
    && Moves(s.word, s.threads[i], s'.word, s'.threads[i])
  }

  // ---------------------------------------------------------------- who is where

  predicate Reading(pc: Pc) { pc.HoldsRead? || pc.UpgradeCheck? || pc.UpgradeCas? || pc.UpgradeSlow? }
  predicate BackingOff(pc: Pc) { pc.BackOff? }
  predicate Writing(pc: Pc) { pc.HoldsWrite? }
  predicate Upgrading(pc: Pc) { pc.UpgradeWait? || pc.UpgradeTake? }
  predicate Locking(pc: Pc) {
    (pc.TryLoad? && pc.inLock) || (pc.TryCas? && pc.inLock) || pc.LockFailed? || pc.LockMark? || pc.LockWait?
  }

  function Count(f: Pc -> bool, threads: seq<Pc>): nat {
    if threads == [] then 0
    else Count(f, threads[..|threads| - 1]) + (if f(threads[|threads| - 1]) then 1 else 0)
  }

  function One(f: Pc -> bool, pc: Pc): int { if f(pc) then 1 else 0 }

  lemma {:induction false} CountUpdate(f: Pc -> bool, threads: seq<Pc>, i: nat, pc: Pc)
    requires i < |threads|
    ensures Count(f, threads[i := pc]) == Count(f, threads) - One(f, threads[i]) + One(f, pc)
  {
    var n := |threads| - 1;
    if i == n {
      assert threads[i := pc][..n] == threads[..n];
    } else {
      assert threads[i := pc][..n] == threads[..n][i := pc];
      CountUpdate(f, threads[..n], i, pc);
    }
  }

  lemma {:induction false} CountAtLeast(f: Pc -> bool, threads: seq<Pc>, i: nat)
    requires i < |threads| && f(threads[i])
    ensures Count(f, threads) >= 1
    ensures forall j: nat | j < |threads| && j != i && f(threads[j]) :: Count(f, threads) >= 2
  {
    var n := |threads| - 1;
    if i < n {
      CountAtLeast(f, threads[..n], i);
      assert forall j: nat | j < n :: threads[..n][j] == threads[j];
    } else {
      forall j: nat | j < n && f(threads[j]) ensures Count(f, threads) >= 2 {
        CountAtLeast(f, threads[..n], j);
      }
    }
  }

  lemma {:induction false} CountSome(f: Pc -> bool, threads: seq<Pc>) returns (i: nat)
    requires Count(f, threads) > 0
    ensures i < |threads| && f(threads[i])
  {
    var n := |threads| - 1;
    if f(threads[n]) {
      i := n;
    } else {
      i := CountSome(f, threads[..n]);
    }
  }

  // ---------------------------------------------------------------- invariant

  datatype Census = Census(reading: int, backing: int, writing: int, upgrading: int, locking: int)

  function Take(threads: seq<Pc>): Census {
    Census(Count(Reading, threads), Count(BackingOff, threads), Count(Writing, threads), Count(Upgrading, threads),
           Count(Locking, threads))
  }

  /** What the census becomes when a thread goes from one place to another. */
  function Moved(c: Census, from: Pc, to: Pc): Census {
    Census(c.reading - One(Reading, from) + One(Reading, to), c.backing - One(BackingOff, from) + One(BackingOff, to),
           c.writing - One(Writing, from) + One(Writing, to), c.upgrading - One(Upgrading, from) + One(Upgrading, to),
           c.locking - One(Locking, from) + One(Locking, to))
  }

  lemma TakeMoved(threads: seq<Pc>, i: nat, pc: Pc)
    requires i < |threads|
    ensures Take(threads[i := pc]) == Moved(Take(threads), threads[i], pc)
  {
    CountUpdate(Reading, threads, i, pc);
    CountUpdate(BackingOff, threads, i, pc);
    CountUpdate(Writing, threads, i, pc);
    CountUpdate(Upgrading, threads, i, pc);
    CountUpdate(Locking, threads, i, pc);
  }

  lemma Present(threads: seq<Pc>, i: nat)
    requires i < |threads|
    ensures Includes(Take(threads), threads[i])
  {
    var pc := threads[i];
    if Reading(pc) { CountAtLeast(Reading, threads, i); }
    if BackingOff(pc) { CountAtLeast(BackingOff, threads, i); }
    if Writing(pc) { CountAtLeast(Writing, threads, i); }
    if Upgrading(pc) { CountAtLeast(Upgrading, threads, i); }
    if Locking(pc) { CountAtLeast(Locking, threads, i); }
  }

  /**
   The fields of the word say who is where: its readers are the holders, those about to back off and
   a waiting upgrader; the writer bit is the writer's or the upgrader's; nobody reads beside a writer.
   */
  ghost predicate Agrees(w: int, c: Census) {
    && w >= 0
    && Readers(w) == c.reading + c.backing + c.upgrading
    && Writer(w) == c.writing + c.upgrading
    && (c.writing > 0 ==> c.reading == 0)
    && (c.upgrading > 0 ==> Pending(w) == 1)
    && (Pending(w) == 1 ==> c.locking + c.upgrading > 0)
  }

  /** What a thread remembers or has seen. */
  ghost predicate PcOk(pc: Pc, c: Census) {
    && (pc.TryCas? ==> !Busy(pc.s) && pc.s >= 0)
    && (pc.UpgradeCheck? ==> pc.s >= 0)
    && (pc.UpgradeCas? ==> pc.s >= 0 && (Readers(pc.s) == 1 || Pending(pc.s) == 0))
    && (pc.UpgradeTake? ==> c.reading == 0)
  }

  /** A census of threads among which pc is one. */
  ghost predicate Includes(c: Census, pc: Pc) {
    && c.reading >= One(Reading, pc) && c.backing >= One(BackingOff, pc) && c.writing >= One(Writing, pc)
    && c.upgrading >= One(Upgrading, pc) && c.locking >= One(Locking, pc)
  }

  /** The fields of the word after each update: no carry, no borrow. */
  lemma NoCarry(w: int, c: Census, pc: Pc, w': int, pc': Pc)
    requires Agrees(w, c) && PcOk(pc, c) && Includes(c, pc) && Moves(w, pc, w', pc')
    ensures w' >= 0
    ensures Readers(w') - Readers(w) ==
            match pc case SharedAdd(_) => 1 case BackOff(_) => -1
                     case HoldsRead => (if pc'.Idle? then -1 else 0) case UpgradeSlow => -1
                     case HoldsWrite => (if pc'.HoldsRead? then 1 else 0) case UpgradeTake => -1 case _ => 0
    ensures Writer(w') - Writer(w) ==
            match pc case TryCas(_, _) => (if pc'.HoldsWrite? then 1 else 0) case HoldsWrite => -1
                     case UpgradeCas(_) => (if pc'.UpgradeWait? then 1 else 0) case _ => 0
    ensures Pending(w') ==
            match pc case TryCas(_, _) => (if pc'.HoldsWrite? then 0 else Pending(w)) case LockMark => 1
                     case UpgradeCas(_) => (if pc'.UpgradeWait? then 1 else Pending(w))
                     case UpgradeTake => 0 case _ => Pending(w)
  {
    match pc
    case SharedAdd(_) => AddReaders(w, 1);
    case BackOff(_) => AddReaders(w, -1);
    case HoldsRead => AddReaders(w, -1);
    case UpgradeSlow => AddReaders(w, -1);
    case LockMark => SetPending(w);
    case UpgradeCas(_) => SetPending(w);
    case HoldsWrite =>
      ClearBits(w);
      AddReaders(DropWriter(w), 1);
    case UpgradeTake =>
      ClearBits(w);
      AddReaders(w - WRITER_PENDING, -1);
    case _ =>
  }

  lemma MoveKeeps(w: int, c: Census, pc: Pc, w': int, pc': Pc)
    requires Agrees(w, c) && PcOk(pc, c) && Includes(c, pc) && Moves(w, pc, w', pc')
    ensures Agrees(w', Moved(c, pc, pc')) && PcOk(pc', Moved(c, pc, pc'))
    ensures Upgrading(pc) || c.upgrading == 0 || Moved(c, pc, pc').reading <= c.reading
  {
    NoCarry(w, c, pc, w', pc');
  }

  // ---------------------------------------------------------------- whole runs

  ghost predicate Inv(s: State) {
    && Agrees(s.word, Take(s.threads))
    && forall i | 0 <= i < |s.threads| :: PcOk(s.threads[i], Take(s.threads))
  }

  lemma StepKeepsInv(s: State, i: nat, s': State)
    requires Inv(s) && i < |s.threads| && Step(s, i, s')
    ensures Inv(s')
  {
    var c := Take(s.threads);
    var pc, pc' := s.threads[i], s'.threads[i];
    Present(s.threads, i);
    TakeMoved(s.threads, i, pc');
    MoveKeeps(s.word, c, pc, s'.word, pc');
    forall j: nat | j < |s.threads| && j != i ensures PcOk(s.threads[j], Moved(c, pc, pc')) {
      if s.threads[j].UpgradeTake? {
        CountAtLeast(Upgrading, s.threads, j);
      }
    }
  }

  ghost predicate Starts(s: State) {
    s.word == 0 && forall i | 0 <= i < |s.threads| :: s.threads[i] == Idle
  }

  ghost predicate Goes(s: State, s': State) {
    exists i: nat :: i < |s.threads| && Step(s, i, s')
  }

  ghost predicate IsRun(run: seq<State>) {
    run != [] && Starts(run[0]) && forall k | 0 <= k < |run| - 1 :: Goes(run[k], run[k + 1])
  }

  lemma {:induction false} AllIdle(threads: seq<Pc>)
    requires forall i | 0 <= i < |threads| :: threads[i] == Idle
    ensures Take(threads) == Census(0, 0, 0, 0, 0)
  {
    if threads != [] {
      AllIdle(threads[..|threads| - 1]);
    }
  }

  lemma {:induction false} EveryStateIsOk(run: seq<State>)
    requires IsRun(run)
    ensures Inv(run[|run| - 1])
  {
    var n := |run| - 1;
    if n == 0 {
      AllIdle(run[0].threads);
    } else {
      EveryStateIsOk(run[..n]);
      assert Goes(run[n - 1], run[n]);
      var i: nat :| i < |run[n - 1].threads| && Step(run[n - 1], i, run[n]);
      StepKeepsInv(run[n - 1], i, run[n]);
    }
  }

  /** A writer never coexists with another holder, transient readers and upgrades included. */
  lemma WriterIsAlone(run: seq<State>, k: nat, i: nat, j: nat)
    requires IsRun(run) && k < |run| && i < |run[k].threads| && j < |run[k].threads| && i != j
    requires Writing(run[k].threads[i])
    ensures !Writing(run[k].threads[j]) && !Reading(run[k].threads[j]) && !Upgrading(run[k].threads[j])
  {
    EveryStateIsOk(run[..k + 1]);
    var threads := run[k].threads;
    CountAtLeast(Writing, threads, i);
    Present(threads, j);
  }

  /** The reader field is the number of holders and of readers about to back off or to take over as writer. */
  lemma ReaderFieldCounts(run: seq<State>, k: nat)
    requires IsRun(run) && k < |run|
    ensures run[k].word >= 0
    ensures Readers(run[k].word) ==
            Count(Reading, run[k].threads) + Count(BackingOff, run[k].threads) + Count(Upgrading, run[k].threads)
    ensures Writer(run[k].word) == Count(Writing, run[k].threads) + Count(Upgrading, run[k].threads)
  {
    EveryStateIsOk(run[..k + 1]);
  }

  /** An upgrade that does not let go in between becomes the writer with everybody else gone. */
  lemma UpgradeTakesOver(run: seq<State>, k: nat, i: nat, j: nat)
    requires IsRun(run) && k < |run| && i < |run[k].threads| && j < |run[k].threads| && i != j
    requires run[k].threads[i].UpgradeTake?
    ensures !Writing(run[k].threads[j]) && !Reading(run[k].threads[j]) && !Upgrading(run[k].threads[j])
  {
    EveryStateIsOk(run[..k + 1]);
    var threads := run[k].threads;
    assert PcOk(threads[i], Take(threads));
    CountAtLeast(Upgrading, threads, i);
    Present(threads, j);
  }

  /** Nobody has to move but to begin a new operation or to let go of the lock. */
  predicate Waiting(pc: Pc) { pc.LockWait? || pc.SharedWait? || pc.UpgradeWait? }

  predicate Resting(pc: Pc) { pc.Idle? || pc.HoldsRead? || pc.HoldsWrite? }

  /**
   No deadlock: while an operation is under way and nobody holds the lock, some operation can take a
   step. In particular the pending bit never shuts readers out with no writer there to clear it.
   */
  lemma SomeOperationMoves(run: seq<State>, k: nat, i: nat) returns (j: nat, s': State)
    requires IsRun(run) && k < |run| && i < |run[k].threads| && !Resting(run[k].threads[i])
    requires forall j | 0 <= j < |run[k].threads| :: !run[k].threads[j].HoldsRead? && !run[k].threads[j].HoldsWrite?
    ensures j < |run[k].threads| && !Resting(run[k].threads[j]) && Step(run[k], j, s')
  {
    EveryStateIsOk(run[..k + 1]);
    var s := run[k];
    var c := Take(s.threads);
    if exists j: nat :: j < |s.threads| && !Resting(s.threads[j]) && !Waiting(s.threads[j]) {
      j :| j < |s.threads| && !Resting(s.threads[j]) && !Waiting(s.threads[j]);
      s' := FreeMove(s, j);
    } else {
      j, s' := SomeWaiterMoves(s, i);
    }
  }

  /** Whoever is not waiting can move. */
  lemma FreeMove(s: State, j: nat) returns (s': State)
    requires Inv(s) && j < |s.threads| && !Resting(s.threads[j]) && !Waiting(s.threads[j])
    ensures Step(s, j, s')
  {
    var w', pc' := Next(s.word, s.threads[j]);
    s' := State(w', s.threads[j := pc']);
  }

  lemma Next(w: int, pc: Pc) returns (w': int, pc': Pc)
    requires !Resting(pc) && !Waiting(pc)
    ensures Moves(w, pc, w', pc')
  {
    w', pc' := w, Idle;
    match pc {
      case TryLoad(inLock) => pc' := if !Busy(w) then TryCas(w, inLock) else if inLock then LockFailed else Idle;
      case TryCas(seen, inLock) =>
        if w == seen { w', pc' := WRITER, HoldsWrite; } else { pc' := if inLock then LockFailed else Idle; }
      case LockFailed => pc' := if Pending(w) == 1 then LockWait else LockMark;
      case LockMark => w', pc' := OrPending(w), LockWait;
      case SharedLoad(inLock) =>
        pc' := if !HasWriter(w) then SharedAdd(inLock) else if inLock then SharedWait else Idle;
      case SharedAdd(inLock) => w', pc' := w + ONE_READER, if HasWriter(w) then BackOff(inLock) else HoldsRead;
      case BackOff(inLock) => w', pc' := w - ONE_READER, if inLock then SharedWait else Idle;
      case UpgradeCheck(seen) =>
        pc' := if Readers(seen) == 1 || Pending(seen) == 0 then UpgradeCas(seen) else UpgradeSlow;
      case UpgradeCas(seen) => if w == seen { w', pc' := OrBoth(w), UpgradeWait; } else { pc' := UpgradeCheck(w); }
      case UpgradeSlow => w', pc' := w - ONE_READER, TryLoad(true);
      case UpgradeTake => w', pc' := w - (ONE_READER + WRITER_PENDING), HoldsWrite;
    }
  }

  /** If everybody is idle or waits, and somebody waits, some waiting condition holds. */
  lemma SomeWaiterMoves(s: State, i: nat) returns (j: nat, s': State)
    requires Inv(s) && i < |s.threads| && Waiting(s.threads[i])
    requires forall k | 0 <= k < |s.threads| :: s.threads[k].Idle? || Waiting(s.threads[k])
    ensures j < |s.threads| && Waiting(s.threads[j]) && Step(s, j, s')
  {
    var c := Take(s.threads);
    OnlyWaiters(s.threads);
    if c.upgrading > 0 {
      j := CountSome(Upgrading, s.threads);
      s' := State(s.word, s.threads[j := UpgradeTake]);
    } else if c.locking > 0 {
      j := CountSome(Locking, s.threads);
      s' := State(s.word, s.threads[j := TryLoad(true)]);
    } else {
      j := i;
      Present(s.threads, i);
      s' := State(s.word, s.threads[j := SharedLoad(true)]);
    }
  }

  lemma {:induction false} OnlyWaiters(threads: seq<Pc>)
    requires forall k | 0 <= k < |threads| :: threads[k].Idle? || Waiting(threads[k])
    ensures var c := Take(threads); c.reading == 0 && c.backing == 0 && c.writing == 0
  {
    if threads != [] {
      OnlyWaiters(threads[..|threads| - 1]);
    }
  }

  // ---------------------------------------------------------------- one thread by itself

  /** The word and the place of a thread while no other thread moves. */
  datatype View = View(word: int, pc: Pc)

  ghost predicate Alone(views: seq<View>) {
    forall k | 0 <= k < |views| - 1 :: MovesAt(views, k)
  }

  ghost predicate MovesAt(views: seq<View>, k: nat)
    requires k < |views| - 1
  {
    Moves(views[k].word, views[k].pc, views[k + 1].word, views[k + 1].pc)
  }

  /** Undisturbed, try_lock succeeds exactly if the lock is free, and so does lock without waiting. */
  lemma TryLockAlone(views: seq<View>)
    requires Alone(views) && |views| >= 3 && views[0].pc.TryLoad?
    ensures !Busy(views[0].word) ==> views[2] == View(WRITER, HoldsWrite)
    ensures Busy(views[0].word) ==> views[1] == View(views[0].word, if views[0].pc.inLock then LockFailed else Idle)
  {
    assert MovesAt(views, 0) && MovesAt(views, 1);
  }

  /** Undisturbed, try_lock_shared succeeds exactly if no writer holds the lock or waits for it. */
  lemma TrySharedAlone(views: seq<View>)
    requires Alone(views) && |views| >= 3 && views[0].pc.SharedLoad?
    ensures !HasWriter(views[0].word) ==> views[2] == View(views[0].word + ONE_READER, HoldsRead)
    ensures HasWriter(views[0].word) ==>
              views[1] == View(views[0].word, if views[0].pc.inLock then SharedWait else Idle)
  {
    assert MovesAt(views, 0) && MovesAt(views, 1);
  }

  /** The only reader becomes the writer, and is a holder all the way. */
  lemma UpgradeAlone(views: seq<View>)
    requires Alone(views) && |views| >= 6 && views[0].pc.HoldsRead? && views[1].pc.UpgradeCheck?
    requires Readers(views[0].word) == 1 && Writer(views[0].word) == 0
    ensures views[5] == View(WRITER, HoldsWrite)
    ensures forall k | 0 <= k < 5 :: Reading(views[k].pc) || Upgrading(views[k].pc)
  {
    assert MovesAt(views, 0) && MovesAt(views, 1) && MovesAt(views, 2) && MovesAt(views, 3) && MovesAt(views, 4);
    var w := views[0].word;
    FieldsAre(w, 1, Pending(w), 0);
    assert OrBoth(w) == ONE_READER + WRITER_PENDING + WRITER;
  }

  /** An upgrade lets go of the lock exactly if there are other readers and a writer waits. */
  lemma UpgradeGivesWay(views: seq<View>)
    requires Alone(views) && |views| >= 3 && views[0].pc.HoldsRead? && views[1].pc.UpgradeCheck?
    ensures views[2].pc.UpgradeSlow? <==> Readers(views[0].word) != 1 && Pending(views[0].word) != 0
  {
    assert MovesAt(views, 0) && MovesAt(views, 1);
  }

  /** release and downgrade. */
  lemma LetsGoAlone(views: seq<View>)
    requires Alone(views) && |views| >= 2 && views[1].pc.Idle?
    ensures views[0].pc.HoldsRead? ==> Readers(views[1].word) == Readers(views[0].word) - 1
    ensures views[0].pc.HoldsWrite? ==> Writer(views[1].word) == 0
  {
    assert MovesAt(views, 0);
    AddReaders(views[0].word, -1);
    ClearBits(views[0].word);
  }

  // ---------------------------------------------------------------- somebody always gets in

  predicate Holds(pc: Pc) { pc.HoldsRead? || pc.HoldsWrite? }

  predicate Active(pc: Pc) { !Resting(pc) && !Waiting(pc) }

  /** An operation that does not end without the lock: lock, lock_shared, or an upgrade. */
  predicate Committed(pc: Pc) {
    || Locking(pc) || pc.SharedWait? || ((pc.SharedLoad? || pc.SharedAdd? || pc.BackOff?) && pc.inLock)
    || pc.UpgradeCheck? || pc.UpgradeCas? || pc.UpgradeSlow? || Upgrading(pc)
  }

  ghost predicate SomebodyHolds(s: State) {
    exists j :: 0 <= j < |s.threads| && Holds(s.threads[j])
  }

  /** How far a thread is from resting or waiting, if nobody else moves. */
  function Rank(w: int, pc: Pc): nat {
    match pc
    case TryLoad(_) => 4
    case TryCas(_, _) => 3
    case LockFailed => 2
    case LockMark => 1
    case SharedLoad(_) => 3
    case SharedAdd(_) => 2
    case BackOff(_) => 1
    case UpgradeCheck(seen) => if seen == w then 7 else 9
    case UpgradeCas(seen) => if seen == w then 6 else 8
    case UpgradeSlow => 5
    case UpgradeTake => 1
    case _ => 0
  }

  lemma GoesOn(run: seq<State>, j: nat, w: int, pc: Pc)
    requires IsRun(run) && j < |run[|run| - 1].threads|
    requires Moves(run[|run| - 1].word, run[|run| - 1].threads[j], w, pc)
    ensures IsRun(run + [State(w, run[|run| - 1].threads[j := pc])])
  {
    var s := run[|run| - 1];
    assert Step(s, j, State(w, s.threads[j := pc]));
  }

  /** Thread j moves by itself until it rests or waits. */
  lemma {:induction false} Drive(run: seq<State>, j: nat) returns (full: seq<State>)
    requires IsRun(run) && j < |run[|run| - 1].threads| && Active(run[|run| - 1].threads[j])
    ensures IsRun(full) && run <= full
    ensures var s, s' := run[|run| - 1], full[|full| - 1];
            && |s'.threads| == |s.threads| && s'.threads == s.threads[j := s'.threads[j]]
            && !Active(s'.threads[j])
            && (Committed(s.threads[j]) ==> Committed(s'.threads[j]) || Holds(s'.threads[j]))
    decreases Rank(run[|run| - 1].word, run[|run| - 1].threads[j])
  {
    var s := run[|run| - 1];
    var w, pc := Next(s.word, s.threads[j]);
    var s' := State(w, s.threads[j := pc]);
    GoesOn(run, j, w, pc);
    full := run + [s'];
    if Active(pc) {
      full := Drive(full, j);
    }
  }

  /** All threads that can move by themselves do so, until somebody holds the lock or all rest or wait. */
  lemma {:induction false} Settle(run: seq<State>, i: nat) returns (full: seq<State>)
    requires IsRun(run) && i < |run[|run| - 1].threads| && Committed(run[|run| - 1].threads[i])
    ensures IsRun(full) && run <= full
    ensures var s' := full[|full| - 1];
            || SomebodyHolds(s')
            || (i < |s'.threads| && Committed(s'.threads[i]) && Count(Active, s'.threads) == 0)
    decreases Count(Active, run[|run| - 1].threads)
  {
    var s := run[|run| - 1];
    if Count(Active, s.threads) == 0 {
      full := run;
    } else {
      var j := CountSome(Active, s.threads);
      full := Drive(run, j);
      var s' := full[|full| - 1];
      CountUpdate(Active, s.threads, j, s'.threads[j]);
      if Holds(s'.threads[j]) {
        assert SomebodyHolds(s');
      } else {
        full := Settle(full, i);
      }
    }
  }

  /** While lock, lock_shared or an upgrade is under way, every run can be continued until somebody holds the lock. */
  lemma SomebodyGetsIn(run: seq<State>, i: nat) returns (full: seq<State>)
    requires IsRun(run) && i < |run[|run| - 1].threads| && Committed(run[|run| - 1].threads[i])
    ensures IsRun(full) && run <= full && SomebodyHolds(full[|full| - 1])
  {
    full := Settle(run, i);
    if !SomebodyHolds(full[|full| - 1]) {
      full := WaiterGetsIn(full, i);
    }
  }

  /** Nobody holds the lock or is active, and i waits. */
  lemma WaiterGetsIn(run: seq<State>, i: nat) returns (full: seq<State>)
    requires IsRun(run) && i < |run[|run| - 1].threads| && Committed(run[|run| - 1].threads[i])
    requires Count(Active, run[|run| - 1].threads) == 0 && !SomebodyHolds(run[|run| - 1])
    ensures IsRun(full) && run <= full && SomebodyHolds(full[|full| - 1])
  {
    EveryStateIsOk(run);
    var j, t1, t2, t3 := SomeoneCanGetIn(run[|run| - 1], i);
    full := GoesOnThrice(run, j, t1, t2, t3);
    assert Holds(full[|full| - 1].threads[j]);
  }

  /** An upgrade that waits comes first, then writers, then readers. */
  lemma SomeoneCanGetIn(s: State, i: nat) returns (j: nat, t1: View, t2: View, t3: View)
    requires Inv(s) && i < |s.threads| && Committed(s.threads[i])
    requires Count(Active, s.threads) == 0 && !SomebodyHolds(s)
    ensures j < |s.threads| && Moves(s.word, s.threads[j], t1.word, t1.pc)
    ensures Moves(t1.word, t1.pc, t2.word, t2.pc) && (t2 == t3 || Moves(t2.word, t2.pc, t3.word, t3.pc))
    ensures Holds(t3.pc)
  {
    forall k: nat | k < |s.threads| ensures s.threads[k].Idle? || Waiting(s.threads[k]) {
      if Active(s.threads[k]) { CountAtLeast(Active, s.threads, k); }
    }
    OnlyWaiters(s.threads);
    var c, w := Take(s.threads), s.word;
    if c.upgrading > 0 {
      j := CountSome(Upgrading, s.threads);
      t1, t2 := View(w, UpgradeTake), View(w - (ONE_READER + WRITER_PENDING), HoldsWrite);
      t3 := t2;
    } else if c.locking > 0 {
      j := CountSome(Locking, s.threads);
      t1, t2, t3 := View(w, TryLoad(true)), View(w, TryCas(w, true)), View(WRITER, HoldsWrite);
    } else {
      j := i;
      Present(s.threads, i);
      t1, t2, t3 := View(w, SharedLoad(true)), View(w, SharedAdd(true)), View(w + ONE_READER, HoldsRead);
    }
  }

  /** The third step may be none. */
  lemma GoesOnThrice(run: seq<State>, j: nat, a: View, b: View, c: View) returns (full: seq<State>)
    requires IsRun(run) && j < |run[|run| - 1].threads|
    requires Moves(run[|run| - 1].word, run[|run| - 1].threads[j], a.word, a.pc)
    requires Moves(a.word, a.pc, b.word, b.pc) && (b == c || Moves(b.word, b.pc, c.word, c.pc))
    ensures IsRun(full) && run <= full
    ensures j < |full[|full| - 1].threads| && full[|full| - 1].threads[j] == c.pc
  {
    var threads := run[|run| - 1].threads;
    GoesOn(run, j, a.word, a.pc);
    full := run + [State(a.word, threads[j := a.pc])];
    GoesOn(full, j, b.word, b.pc);
    full := full + [State(b.word, threads[j := a.pc][j := b.pc])];
    if b != c {
      GoesOn(full, j, c.word, c.pc);
      full := full + [State(c.word, threads[j := a.pc][j := b.pc][j := c.pc])];
    }
  }
}
