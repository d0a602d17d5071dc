/** The bounded blocking queue behind each channel (runtime/queue.c). */
module BoundedQueue {

  const QUEUE_MAXLEN: nat := 1024

  // ---------------------------------------------------------------- the ring buffer

  /** The n slots from head on, going round. */
  function Window<V>(slots: seq<V>, head: nat, n: nat): (w: seq<V>)
    requires |slots| == QUEUE_MAXLEN
    ensures |w| == n && forall i | 0 <= i < n :: w[i] == slots[(head + i) % QUEUE_MAXLEN]
  {
    seq(n, i requires 0 <= i < n => slots[(head + i) % QUEUE_MAXLEN])
  }

  lemma WindowGrows<V>(slots: seq<V>, head: nat, n: nat, elem: V)
    requires |slots| == QUEUE_MAXLEN && head < QUEUE_MAXLEN && n < QUEUE_MAXLEN
    ensures Window(slots[(head + n) % QUEUE_MAXLEN := elem], head, n + 1) == Window(slots, head, n) + [elem]
  {
  }

  lemma WindowShrinks<V>(slots: seq<V>, head: nat, n: nat)
    requires |slots| == QUEUE_MAXLEN && head < QUEUE_MAXLEN && 0 < n <= QUEUE_MAXLEN
    ensures Window(slots, (head + 1) % QUEUE_MAXLEN, n - 1) == Window(slots, head, n)[1..]
    ensures Window(slots, head, n)[0] == slots[head]
  {
    var w := Window(slots, (head + 1) % QUEUE_MAXLEN, n - 1);
    forall i | 0 <= i < n - 1 ensures w[i] == Window(slots, head, n)[1..][i] {
      assert ((head + 1) % QUEUE_MAXLEN + i) % QUEUE_MAXLEN == (head + (i + 1)) % QUEUE_MAXLEN;
    }
  }

  /** What one section of queue_push leaves in the queue, and one of queue_pop. */
  function AfterPush<V>(contents: seq<V>, elem: V): seq<V> {
    if |contents| < QUEUE_MAXLEN then contents + [elem] else contents
  }

  function AfterPop<V>(contents: seq<V>): seq<V> {
    if contents != [] then contents[1..] else contents
  }

  class RingQueue<V(0)> {
    var arr: array<V>
    var head: nat
    var tail: nat
    var size: nat

    ghost predicate Valid()
      reads this
    {
      && arr.Length == QUEUE_MAXLEN
      && head < QUEUE_MAXLEN && size <= QUEUE_MAXLEN
      && tail == (head + size) % QUEUE_MAXLEN
    }

    /** The queued elements, oldest first. */
    ghost function Contents(): (s: seq<V>)
      requires Valid()
      reads this, arr
    {
      Window(arr[..], head, size)
    }

    /** queue_init */
    constructor ()
      ensures Valid() && fresh(arr) && Contents() == []
    {
      arr := new V[QUEUE_MAXLEN];
      head, tail, size := 0, 0, 0;
    }

    /** What queue_push does each time it holds the mutex: it stores the element, or finds no room and must wait. */
    method TryPush(elem: V) returns (stored: bool)
      requires Valid()
      modifies this, arr
      ensures Valid() && arr == old(arr)
      ensures stored == (|old(Contents())| < QUEUE_MAXLEN)
      ensures Contents() == AfterPush(old(Contents()), elem)
    {
      if size == QUEUE_MAXLEN {
        return false;
      }
      WindowGrows(arr[..], head, size, elem);
      ghost var before := arr[..];
      arr[tail] := elem;
      assert arr[..] == before[tail := elem];
      tail := (tail + 1) % QUEUE_MAXLEN;
      size := size + 1;
      stored := true;
    }

    /** What queue_pop does each time it holds the mutex: it takes the oldest element, or must wait. */
    method TryPop() returns (taken: bool, elem: V)
      requires Valid()
      modifies this
      ensures Valid() && arr == old(arr)
      ensures taken == (old(Contents()) != [])
      ensures taken ==> elem == old(Contents())[0]
      ensures Contents() == AfterPop(old(Contents()))
    {
      if size == 0 {
        return false, arr[0];
      }
      WindowShrinks(arr[..], head, size);
      elem := arr[head];
      head := (head + 1) % QUEUE_MAXLEN;
      size := size - 1;
      taken := true;
    }
  }

  // ---------------------------------------------------------------- the monitor

  type Thread = int

  datatype Option<T> = None | Some(value: T)

  /**
   Between two critical sections: the queue, who waits on which condition variable, and who has been
   woken but has not yet got the mutex back. brought holds the element each blocked producer came
   with; pushed and popped record everything that ever went in and out.
   */
  datatype Monitor<V> = Monitor(
    contents: seq<V>,
    consumers: Crowd,
    producers: Crowd,
    brought: map<Thread, V>,
    pushed: seq<V>,
    popped: seq<V>)

  datatype Crowd = Crowd(waiting: set<Thread>, woken: set<Thread>)

  /** One critical section, up to the release of the mutex; wakes names the thread that a signal reaches. */
  datatype Event<V> =
    | Push(t: Thread, elem: V, wakes: Option<Thread>)
    | ResumePush(t: Thread, wakes: Option<Thread>)
    | Pop(t: Thread, wakes: Option<Thread>)
    | ResumePop(t: Thread, wakes: Option<Thread>)
    | SpuriousWakeup(t: Thread)

  ghost predicate Outside(crowd: Crowd, t: Thread) {
    t !in crowd.waiting && t !in crowd.woken
  }

  /** A signal wakes one of the waiters if there are any. */
  ghost predicate Signals(waiting: set<Thread>, wakes: Option<Thread>) {
    match wakes
    case None => waiting == {}
    case Some(w) => w in waiting
  }

  ghost predicate Possible<V>(m: Monitor<V>, e: Event<V>) {
    match e
    case Push(t, _, wakes) =>
      Outside(m.producers, t) && (|m.contents| < QUEUE_MAXLEN ==> Signals(m.consumers.waiting, wakes))
    case ResumePush(t, wakes) =>
      t in m.producers.woken && t in m.brought && (|m.contents| < QUEUE_MAXLEN ==> Signals(m.consumers.waiting, wakes))
    case Pop(t, wakes) => Outside(m.consumers, t) && (m.contents != [] ==> Signals(m.producers.waiting, wakes))
    case ResumePop(t, wakes) => t in m.consumers.woken && (m.contents != [] ==> Signals(m.producers.waiting, wakes))
    case SpuriousWakeup(t) => t in m.consumers.waiting || t in m.producers.waiting
  }

  /** A signal can always be given. */
  lemma SomeSignal(waiting: set<Thread>) returns (wakes: Option<Thread>)
    ensures Signals(waiting, wakes)
  {
    if forall w :: w !in waiting {
      assert waiting == {};
      wakes := None;
    } else {
      var w :| w in waiting;
      wakes := Some(w);
    }
  }

  ghost function Wake(crowd: Crowd, wakes: Option<Thread>): Crowd {
    match wakes
    case None => crowd
    case Some(w) => Crowd(crowd.waiting - {w}, crowd.woken + {w})
  }

  ghost function Leave(crowd: Crowd, t: Thread): Crowd {
    crowd.(woken := crowd.woken - {t})
  }

  ghost function Wait(crowd: Crowd, t: Thread): Crowd {
    crowd.(waiting := crowd.waiting + {t})
  }

  /** The body of queue_push with the mutex held. */
  ghost function PushSection<V>(m: Monitor<V>, t: Thread, elem: V, wakes: Option<Thread>): Monitor<V> {
    if |m.contents| == QUEUE_MAXLEN then m.(producers := Wait(m.producers, t), brought := m.brought[t := elem])
    else m.(contents := m.contents + [elem], pushed := m.pushed + [elem], consumers := Wake(m.consumers, wakes))
  }

  /** The body of queue_pop with the mutex held. */
  ghost function PopSection<V>(m: Monitor<V>, t: Thread, wakes: Option<Thread>): Monitor<V> {
    if m.contents == [] then m.(consumers := Wait(m.consumers, t))
    else m.(contents := m.contents[1..], popped := m.popped + [m.contents[0]], producers := Wake(m.producers, wakes))
  }

  /**
   The sections do to the abstract queue, and wait, exactly as the ring buffer does when it is asked
   with the mutex held.
   */
  lemma SectionsAreOperations<V>(m: Monitor<V>, t: Thread, elem: V, wakes: Option<Thread>)
    requires |m.contents| <= QUEUE_MAXLEN
    ensures PushSection(m, t, elem, wakes).contents == AfterPush(m.contents, elem)
    ensures PopSection(m, t, wakes).contents == AfterPop(m.contents)
    ensures Outside(m.producers, t) ==>
              (t in PushSection(m, t, elem, wakes).producers.waiting <==> !(|m.contents| < QUEUE_MAXLEN))
    ensures Outside(m.consumers, t) ==> (t in PopSection(m, t, wakes).consumers.waiting <==> m.contents == [])
  {
  }

  ghost function Occur<V>(m: Monitor<V>, e: Event<V>): Monitor<V>
    requires Possible(m, e)
  {
    match e
    case Push(t, elem, wakes) => PushSection(m, t, elem, wakes)
    case ResumePush(t, wakes) => PushSection(m.(producers := Leave(m.producers, t)), t, m.brought[t], wakes)
    case Pop(t, wakes) => PopSection(m, t, wakes)
    case ResumePop(t, wakes) => PopSection(m.(consumers := Leave(m.consumers, t)), t, wakes)
    case SpuriousWakeup(t) =>
      if t in m.consumers.waiting then m.(consumers := Wake(m.consumers, Some(t)))
      else m.(producers := Wake(m.producers, Some(t)))
  }

  datatype Outcome<T> = Impossible | Reached(state: T)

  ghost function Run<V>(events: seq<Event<V>>): Outcome<Monitor<V>> {
    if events == [] then Reached(Monitor([], Crowd({}, {}), Crowd({}, {}), map[], [], []))
    else
      var before := Run(events[..|events| - 1]);
      var e := events[|events| - 1];
      if before.Reached? && Possible(before.state, e) then Reached(Occur(before.state, e)) else Impossible
  }

  /** Waiting threads are not woken, and while one waits there are at most slack more uses for it than woken threads. */
  ghost predicate Enough(crowd: Crowd, uses: int, slack: int) {
    crowd.waiting !! crowd.woken && (crowd.waiting != {} ==> uses <= |crowd.woken| + slack)
  }

  /** No wakeup is lost: the woken consumers suffice for the elements, the woken producers for the free slots. */
  ghost predicate MonitorInv<V>(m: Monitor<V>) {
    && |m.contents| <= QUEUE_MAXLEN
    && m.pushed == m.popped + m.contents
    && Enough(m.consumers, |m.contents|, 0)
    && Enough(m.producers, QUEUE_MAXLEN - |m.contents|, 0)
    && m.producers.waiting + m.producers.woken <= m.brought.Keys
  }

  lemma WakeKeepsEnough(crowd: Crowd, uses: int, wakes: Option<Thread>)
    requires Enough(crowd, uses, 0) && Signals(crowd.waiting, wakes)
    ensures Enough(Wake(crowd, wakes), uses + 1, 0)
  {
    if wakes.Some? {
      assert wakes.value !in crowd.woken;
      assert |crowd.woken + {wakes.value}| == |crowd.woken| + 1;
    }
  }

  lemma SpuriousKeepsEnough(crowd: Crowd, uses: int, t: Thread)
    requires Enough(crowd, uses, 0) && t in crowd.waiting
    ensures Enough(Wake(crowd, Some(t)), uses, 0)
  {
    WakeKeepsEnough(crowd, uses, Some(t));
  }

  lemma LeaveKeepsEnough(crowd: Crowd, uses: int, t: Thread)
    requires Enough(crowd, uses, 0) && t in crowd.woken
    ensures Enough(Leave(crowd, t), uses, 1)
  {
    assert crowd.woken == (crowd.woken - {t}) + {t};
  }

  lemma PushSectionKeeps<V>(m: Monitor<V>, t: Thread, elem: V, wakes: Option<Thread>)
    requires |m.contents| <= QUEUE_MAXLEN && m.pushed == m.popped + m.contents
    requires Enough(m.consumers, |m.contents|, 0) && Enough(m.producers, QUEUE_MAXLEN - |m.contents|, 1)
    requires Outside(m.producers, t) && m.producers.waiting + m.producers.woken <= m.brought.Keys
    requires |m.contents| < QUEUE_MAXLEN ==> Signals(m.consumers.waiting, wakes)
    ensures MonitorInv(PushSection(m, t, elem, wakes))
  {
    if |m.contents| < QUEUE_MAXLEN {
      WakeKeepsEnough(m.consumers, |m.contents|, wakes);
      assert m.popped + m.contents + [elem] == m.popped + (m.contents + [elem]);
    }
  }

  lemma PopSectionKeeps<V>(m: Monitor<V>, t: Thread, wakes: Option<Thread>)
    requires |m.contents| <= QUEUE_MAXLEN && m.pushed == m.popped + m.contents
    requires Enough(m.consumers, |m.contents|, 1) && Enough(m.producers, QUEUE_MAXLEN - |m.contents|, 0)
    requires Outside(m.consumers, t) && m.producers.waiting + m.producers.woken <= m.brought.Keys
    requires m.contents != [] ==> Signals(m.producers.waiting, wakes)
    ensures MonitorInv(PopSection(m, t, wakes))
  {
    if m.contents != [] {
      WakeKeepsEnough(m.producers, QUEUE_MAXLEN - |m.contents|, wakes);
      assert m.popped + m.contents == m.popped + [m.contents[0]] + m.contents[1..];
    }
  }

  lemma OccurKeepsInv<V>(m: Monitor<V>, e: Event<V>)
    requires MonitorInv(m) && Possible(m, e)
    ensures MonitorInv(Occur(m, e))
  {
    match e
    case Push(t, elem, wakes) =>
      PushSectionKeeps(m, t, elem, wakes);
    case ResumePush(t, wakes) =>
      LeaveKeepsEnough(m.producers, QUEUE_MAXLEN - |m.contents|, t);
      PushSectionKeeps(m.(producers := Leave(m.producers, t)), t, m.brought[t], wakes);
    case Pop(t, wakes) =>
      PopSectionKeeps(m, t, wakes);
    case ResumePop(t, wakes) =>
      LeaveKeepsEnough(m.consumers, |m.contents|, t);
      PopSectionKeeps(m.(consumers := Leave(m.consumers, t)), t, wakes);
    case SpuriousWakeup(t) =>
      if t in m.consumers.waiting {
        SpuriousKeepsEnough(m.consumers, |m.contents|, t);
      } else {
        SpuriousKeepsEnough(m.producers, QUEUE_MAXLEN - |m.contents|, t);
      }
  }

  /** Over every run: first in, first out, bounded, and no wakeup lost. */
  lemma {:induction false} EveryRunKeepsInv<V>(events: seq<Event<V>>)
    requires Run(events).Reached?
    ensures MonitorInv(Run(events).state)
  {
    if events != [] {
      EveryRunKeepsInv(events[..|events| - 1]);
      OccurKeepsInv(Run(events[..|events| - 1]).state, events[|events| - 1]);
    }
  }

  /**
   When nobody who was woken is left to run, consumers wait only on an empty queue and producers only
   on a full one; so never both.
   */
  lemma QuietMeansJustified<V>(events: seq<Event<V>>)
    requires Run(events).Reached?
    requires Run(events).state.consumers.woken == {} && Run(events).state.producers.woken == {}
    ensures var m := Run(events).state;
            && (m.consumers.waiting != {} ==> m.contents == [])
            && (m.producers.waiting != {} ==> |m.contents| == QUEUE_MAXLEN)
            && (m.consumers.waiting == {} || m.producers.waiting == {})
  {
    EveryRunKeepsInv(events);
  }
}
