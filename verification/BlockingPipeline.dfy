/**
 The stages of a split loop over real queues: every channel is a monitor as in runtime/queue.c, so
 that a stage may be blocked, signalled, or woken for no reason.
 */
module BlockingPipeline {
  import opened Pipeline
  import Q = BoundedQueue

  /** The stages, and one monitor for each channel. Threads of the monitors are stages. */
  datatype System<L, V> = System(stages: State<L, V>, queues: seq<Q.Monitor<V>>)

  ghost predicate FitsTogether<L, V>(cfg: Config<L, V>, p: System<L, V>) {
    Shaped(cfg, p.stages) && |p.queues| == |cfg.wires|
  }

  /** Stage t stands at this item and has not finished. */
  ghost predicate StandsAt<L, V>(cfg: Config<L, V>, s: State<L, V>, t: nat, item: Item) {
    && Shaped(cfg, s) && t < |cfg.code| && !Finished(cfg, s, t)
    && s.stages[t].pc < |cfg.code[t]| && cfg.code[t][s.stages[t].pc] == item
  }

  // ---------------------------------------------------------------- steps

  /** The section of queue_push that stage t runs with the mutex held: its first, or the next after a wakeup. */
  ghost function PushEvent<V>(m: Q.Monitor<V>, t: nat, elem: V, wakes: Q.Option<Q.Thread>): Q.Event<V> {
    if t in m.producers.woken then Q.ResumePush(t, wakes) else Q.Push(t, elem, wakes)
  }

  ghost function PopEvent<V>(m: Q.Monitor<V>, t: nat, wakes: Q.Option<Q.Thread>): Q.Event<V> {
    if t in m.consumers.woken then Q.ResumePop(t, wakes) else Q.Pop(t, wakes)
  }

  /** Stage t runs an instruction, or one critical section of queue_push or queue_pop. */
  ghost predicate StageMoves<L, V>(cfg: Config<L, V>, p: System<L, V>, t: nat, p': System<L, V>) {
    && FitsTogether(cfg, p) && t < |cfg.code| && !Finished(cfg, p.stages, t)
    && p.stages.stages[t].pc < |cfg.code[t]|
    && match cfg.code[t][p.stages.stages[t].pc] {
         case Inst(_) =>
           && CanStep(cfg, Q.QUEUE_MAXLEN, p.stages, t)
           && p' == p.(stages := Step(cfg, Q.QUEUE_MAXLEN, p.stages, t))
         case Produce(c) => c < |p.queues| && exists wakes :: Pushes(cfg, p, t, c, wakes, p')
         case Consume(c) => c < |p.queues| && exists wakes :: Pops(cfg, p, t, c, wakes, p')
       }
  }

  /** The section moves the stage on unless the queue is full; then it ends in a wait. */
  ghost predicate Pushes<L, V>(cfg: Config<L, V>, p: System<L, V>, t: nat, c: nat, wakes: Q.Option<Q.Thread>,
                               p': System<L, V>)
    requires Shaped(cfg, p.stages) && t < |cfg.code| && c < |p.queues|
  {
    var m := p.queues[c];
    var e := PushEvent(m, t, cfg.machine.out(c, p.stages.stages[t].local), wakes);
    && Q.Possible(m, e) && p'.queues == p.queues[c := Q.Occur(m, e)]
    && StageGoesOn(cfg, p, t, |m.contents| < Q.QUEUE_MAXLEN, p')
  }

  /** Unless the queue is empty. */
  ghost predicate Pops<L, V>(cfg: Config<L, V>, p: System<L, V>, t: nat, c: nat, wakes: Q.Option<Q.Thread>,
                             p': System<L, V>)
    requires c < |p.queues|
  {
    var m := p.queues[c];
    && Q.Possible(m, PopEvent(m, t, wakes)) && p'.queues == p.queues[c := Q.Occur(m, PopEvent(m, t, wakes))]
    && StageGoesOn(cfg, p, t, m.contents != [], p')
  }

  ghost predicate StageGoesOn<L, V>(cfg: Config<L, V>, p: System<L, V>, t: nat, done: bool, p': System<L, V>) {
    if done then CanStep(cfg, Q.QUEUE_MAXLEN, p.stages, t) && p'.stages == Step(cfg, Q.QUEUE_MAXLEN, p.stages, t)
    else p'.stages == p.stages
  }

  ghost predicate WakesForNoReason<L, V>(p: System<L, V>, p': System<L, V>) {
    exists c: nat, t :: c < |p.queues| && Q.Possible(p.queues[c], Q.SpuriousWakeup(t)) &&
      p' == p.(queues := p.queues[c := Q.Occur(p.queues[c], Q.SpuriousWakeup(t))])
  }

  ghost predicate Moves<L, V>(cfg: Config<L, V>, p: System<L, V>, p': System<L, V>) {
    WakesForNoReason(p, p') || exists t: nat :: StageMoves(cfg, p, t, p')
  }

  ghost function EmptyQueue<V>(): Q.Monitor<V> {
    Q.Monitor([], Q.Crowd({}, {}), Q.Crowd({}, {}), map[], [], [])
  }

  ghost predicate IsRun<L, V(!new)>(cfg: Config<L, V>, run: seq<System<L, V>>) {
    && run != [] && run[0] == System(Begin(cfg), seq(|cfg.wires|, _ => EmptyQueue()))
    && forall k | 0 <= k < |run| - 1 :: Moves(cfg, run[k], run[k + 1])
  }

  // ---------------------------------------------------------------- invariant

  /** In the crowd there is at most the stage t, and only while it stands at this item. */
  ghost predicate OnlyAt<L, V>(cfg: Config<L, V>, s: State<L, V>, crowd: Q.Crowd, t: nat, item: Item) {
    && crowd.waiting <= {t} && crowd.woken <= {t}
    && (t in crowd.waiting || t in crowd.woken ==> StandsAt(cfg, s, t, item))
  }

  /** Queue c holds what has been sent and not been received, and blocks only the two stages of its wire. */
  ghost predicate QueueOk<L, V>(cfg: Config<L, V>, s: State<L, V>, c: nat, m: Q.Monitor<V>) {
    && Shaped(cfg, s) && c < |cfg.wires| && Q.MonitorInv(m)
    && s.received[c] <= |s.sent[c]| && m.contents == s.sent[c][s.received[c]..]
    && OnlyAt(cfg, s, m.producers, cfg.wires[c].from, Produce(c))
    && OnlyAt(cfg, s, m.consumers, cfg.wires[c].to, Consume(c))
    && (StandsAt(cfg, s, cfg.wires[c].from, Produce(c))
        && cfg.wires[c].from in m.producers.waiting + m.producers.woken ==>
          m.brought[cfg.wires[c].from] == cfg.machine.out(c, s.stages[cfg.wires[c].from].local))
  }

  ghost predicate Coupled<L, V>(cfg: Config<L, V>, p: System<L, V>) {
    && FitsTogether(cfg, p) && Counted(cfg, Q.QUEUE_MAXLEN, p.stages)
    && forall c: nat | c < |cfg.wires| :: QueueOk(cfg, p.stages, c, p.queues[c])
  }

  // ---------------------------------------------------------------- preservation

  /** A stage that moves leaves the queues alone that it does not stand at. */
  lemma OtherQueue<L, V>(cfg: Config<L, V>, s: State<L, V>, t: nat, c: nat, m: Q.Monitor<V>)
    requires CanStep(cfg, Q.QUEUE_MAXLEN, s, t) && QueueOk(cfg, s, c, m)
    requires cfg.code[t][s.stages[t].pc] != Produce(c) && cfg.code[t][s.stages[t].pc] != Consume(c)
    ensures QueueOk(cfg, Step(cfg, Q.QUEUE_MAXLEN, s, t), c, m)
  {
  }

  /** A channel that can take a value is a queue that is not full, and likewise for the other end. */
  lemma RoomIsRoom<L, V>(cfg: Config<L, V>, s: State<L, V>, t: nat, c: nat, m: Q.Monitor<V>)
    requires WellWired(cfg.code, cfg.wires) && QueueOk(cfg, s, c, m)
    ensures StandsAt(cfg, s, t, Produce(c)) ==> (CanStep(cfg, Q.QUEUE_MAXLEN, s, t) <==> |m.contents| < Q.QUEUE_MAXLEN)
    ensures StandsAt(cfg, s, t, Consume(c)) ==> (CanStep(cfg, Q.QUEUE_MAXLEN, s, t) <==> m.contents != [])
  {
  }

  /** Only the stage at the start of a wire produces on it, only the one at its end consumes. */
  lemma SiteOwner<L, V>(cfg: Config<L, V>, s: State<L, V>, t: nat, c: nat)
    requires WellWired(cfg.code, cfg.wires) && c < |cfg.wires|
    ensures StandsAt(cfg, s, t, Produce(c)) ==> cfg.wires[c].from == t
    ensures StandsAt(cfg, s, t, Consume(c)) ==> cfg.wires[c].to == t
  {
    if StandsAt(cfg, s, t, Produce(c)) || StandsAt(cfg, s, t, Consume(c)) {
      var item := cfg.code[t][s.stages[t].pc];
      assert item in multiset(cfg.code[t]);
      assert RunsOnce(cfg.code[t], Produce(c), cfg.wires[c].from == t);
      assert RunsOnce(cfg.code[t], Consume(c), cfg.wires[c].to == t);
    }
  }

  lemma PushKeepsQueue<L, V>(cfg: Config<L, V>, p: System<L, V>, t: nat, c: nat, wakes: Q.Option<Q.Thread>,
                             p': System<L, V>)
    requires WellWired(cfg.code, cfg.wires) && Coupled(cfg, p) && c < |cfg.wires|
    requires StandsAt(cfg, p.stages, t, Produce(c))
    requires Pushes(cfg, p, t, c, wakes, p')
    ensures QueueOk(cfg, p'.stages, c, p'.queues[c])
  {
    var m, s := p.queues[c], p.stages;
    var elem := cfg.machine.out(c, s.stages[t].local);
    var e := PushEvent(m, t, elem, wakes);
    assert QueueOk(cfg, s, c, m);
    SiteOwner(cfg, s, t, c);
    Q.OccurKeepsInv(m, e);
    if |m.contents| < Q.QUEUE_MAXLEN {
      PushedQueue(cfg, s, t, c, m, wakes);
    }
  }

  /** The queue takes the value that the stage has computed, also if the stage had to wait with it. */
  lemma PushedQueue<L, V>(cfg: Config<L, V>, s: State<L, V>, t: nat, c: nat, m: Q.Monitor<V>, wakes: Q.Option<Q.Thread>)
    requires CanStep(cfg, Q.QUEUE_MAXLEN, s, t) && QueueOk(cfg, s, c, m) && StandsAt(cfg, s, t, Produce(c))
    requires cfg.wires[c].from == t
    requires cfg.wires[c].to != t && |m.contents| < Q.QUEUE_MAXLEN
    requires Q.Possible(m, PushEvent(m, t, cfg.machine.out(c, s.stages[t].local), wakes))
    requires Q.MonitorInv(Q.Occur(m, PushEvent(m, t, cfg.machine.out(c, s.stages[t].local), wakes)))
    ensures QueueOk(cfg, Step(cfg, Q.QUEUE_MAXLEN, s, t), c,
                    Q.Occur(m, PushEvent(m, t, cfg.machine.out(c, s.stages[t].local), wakes)))
  {
    var elem := cfg.machine.out(c, s.stages[t].local);
    var m', s' := Q.Occur(m, PushEvent(m, t, elem, wakes)), Step(cfg, Q.QUEUE_MAXLEN, s, t);
    assert m'.contents == m.contents + [elem];
    assert s'.sent[c] == s.sent[c] + [elem];
    assert m'.producers.waiting == {} && m'.producers.woken == {};
    assert OnlyAt(cfg, s', m'.consumers, cfg.wires[c].to, Consume(c));
  }

  lemma PopKeepsQueue<L, V>(cfg: Config<L, V>, p: System<L, V>, t: nat, c: nat, wakes: Q.Option<Q.Thread>,
                            p': System<L, V>)
    requires WellWired(cfg.code, cfg.wires) && Coupled(cfg, p) && c < |cfg.wires|
    requires StandsAt(cfg, p.stages, t, Consume(c))
    requires Pops(cfg, p, t, c, wakes, p')
    ensures QueueOk(cfg, p'.stages, c, p'.queues[c])
  {
    var m, s := p.queues[c], p.stages;
    assert QueueOk(cfg, s, c, m);
    SiteOwner(cfg, s, t, c);
    Q.OccurKeepsInv(m, PopEvent(m, t, wakes));
    if m.contents != [] {
      assert m.contents[1..] == s.sent[c][s.received[c] + 1..];
    }
  }

  /** A step of a stage keeps stages and queues coupled, and is a step of the stages or changes nothing there. */
  lemma StageKeepsCoupled<L, V>(cfg: Config<L, V>, p: System<L, V>, t: nat, p': System<L, V>)
    requires WellWired(cfg.code, cfg.wires) && Coupled(cfg, p) && StageMoves(cfg, p, t, p')
    ensures Coupled(cfg, p')
    ensures p'.stages == p.stages ||
            (CanStep(cfg, Q.QUEUE_MAXLEN, p.stages, t) && p'.stages == Step(cfg, Q.QUEUE_MAXLEN, p.stages, t))
  {
    var s := p.stages;
    if CanStep(cfg, Q.QUEUE_MAXLEN, s, t) {
      StepIsCounted(cfg, Q.QUEUE_MAXLEN, s, t);
    }
    var item := cfg.code[t][s.stages[t].pc];
    assert StandsAt(cfg, s, t, item);
    match item {
      case Inst(_) =>
      case Produce(c) =>
        var wakes :| Pushes(cfg, p, t, c, wakes, p');
        PushKeepsQueue(cfg, p, t, c, wakes, p');
      case Consume(c) =>
        var wakes :| Pops(cfg, p, t, c, wakes, p');
        PopKeepsQueue(cfg, p, t, c, wakes, p');
    }
    forall d: nat | d < |cfg.wires| ensures QueueOk(cfg, p'.stages, d, p'.queues[d]) {
      assert QueueOk(cfg, s, d, p.queues[d]);
      if p'.stages != s && item != Produce(d) && item != Consume(d) {
        OtherQueue(cfg, s, t, d, p.queues[d]);
      }
    }
  }

  lemma WakingKeepsQueue<L, V>(cfg: Config<L, V>, s: State<L, V>, c: nat, m: Q.Monitor<V>, t: Q.Thread)
    requires QueueOk(cfg, s, c, m) && Q.Possible(m, Q.SpuriousWakeup(t))
    ensures QueueOk(cfg, s, c, Q.Occur(m, Q.SpuriousWakeup(t)))
  {
    Q.OccurKeepsInv(m, Q.SpuriousWakeup(t));
  }

  lemma WakingKeepsCoupled<L, V>(cfg: Config<L, V>, p: System<L, V>, p': System<L, V>)
    requires Coupled(cfg, p) && WakesForNoReason(p, p')
    ensures Coupled(cfg, p') && p'.stages == p.stages
  {
    var c: nat, t :| c < |p.queues| && Q.Possible(p.queues[c], Q.SpuriousWakeup(t)) &&
      p' == p.(queues := p.queues[c := Q.Occur(p.queues[c], Q.SpuriousWakeup(t))]);
    WakingKeepsQueue(cfg, p.stages, c, p.queues[c], t);
    forall d: nat | d < |cfg.wires| ensures QueueOk(cfg, p'.stages, d, p'.queues[d]) {
      assert QueueOk(cfg, p.stages, d, p.queues[d]);
    }
  }

  // ---------------------------------------------------------------- whole runs

  /** Every run over real queues is, as far as the stages go, a run over channels. */
  lemma {:induction false} RunIsPipelineRun<L, V(!new)>(cfg: Config<L, V>, run: seq<System<L, V>>)
    returns (schedule: seq<nat>)
    requires WellWired(cfg.code, cfg.wires) && IsRun(cfg, run)
    ensures Coupled(cfg, run[|run| - 1])
    ensures Run(cfg, Q.QUEUE_MAXLEN, schedule) == Reached(run[|run| - 1].stages)
  {
    var n := |run| - 1;
    if n == 0 {
      schedule := [];
      BeginIsCounted(cfg, Q.QUEUE_MAXLEN);
    } else {
      var front := RunIsPipelineRun(cfg, run[..n]);
      assert Moves(cfg, run[n - 1], run[n]);
      if WakesForNoReason(run[n - 1], run[n]) {
        WakingKeepsCoupled(cfg, run[n - 1], run[n]);
        schedule := front;
      } else {
        var t: nat :| StageMoves(cfg, run[n - 1], t, run[n]);
        StageKeepsCoupled(cfg, run[n - 1], t, run[n]);
        schedule := if run[n].stages == run[n - 1].stages then front else front + [t];
        assert (front + [t])[..|front|] == front;
      }
    }
  }

  /** A stage whose channel lets it go on is not blocked in the queue: its next critical section moves it on. */
  lemma EnabledStageMoves<L, V>(cfg: Config<L, V>, p: System<L, V>, t: nat) returns (p': System<L, V>)
    requires WellWired(cfg.code, cfg.wires) && Coupled(cfg, p) && CanStep(cfg, Q.QUEUE_MAXLEN, p.stages, t)
    ensures StageMoves(cfg, p, t, p') && p'.stages == Step(cfg, Q.QUEUE_MAXLEN, p.stages, t)
  {
    var s := p.stages;
    var s' := Step(cfg, Q.QUEUE_MAXLEN, s, t);
    match cfg.code[t][s.stages[t].pc]
    case Inst(_) =>
      p' := p.(stages := s');
    case Produce(c) =>
      var m := p.queues[c];
      assert StandsAt(cfg, s, t, Produce(c)) && QueueOk(cfg, s, c, m);
      SiteOwner(cfg, s, t, c);
      NotWaiting(m.producers, t, Q.QUEUE_MAXLEN - |m.contents|);
      var wakes := Q.SomeSignal(m.consumers.waiting);
      p' := System(s', p.queues[c := Q.Occur(m, PushEvent(m, t, cfg.machine.out(c, s.stages[t].local), wakes))]);
      assert Pushes(cfg, p, t, c, wakes, p');
    case Consume(c) =>
      var m := p.queues[c];
      assert StandsAt(cfg, s, t, Consume(c)) && QueueOk(cfg, s, c, m);
      SiteOwner(cfg, s, t, c);
      NotWaiting(m.consumers, t, |m.contents|);
      var wakes := Q.SomeSignal(m.producers.waiting);
      p' := System(s', p.queues[c := Q.Occur(m, PopEvent(m, t, wakes))]);
      assert Pops(cfg, p, t, c, wakes, p');
  }

  /** No wakeup is lost: where there is a use for it, the only thread of a crowd does not wait. */
  lemma NotWaiting(crowd: Q.Crowd, t: Q.Thread, uses: int)
    requires Q.Enough(crowd, uses, 0) && crowd.woken <= {t} && uses > 0
    ensures t !in crowd.waiting
  {
    assert t in crowd.waiting ==> crowd.woken == {};
  }

  ghost function WorkLeft<L, V>(cfg: Config<L, V>, p: System<L, V>): int {
    if Shaped(cfg, p.stages) then Work(cfg, p.stages, |cfg.code|) else 0
  }

  lemma LessWorkLeft<L, V>(cfg: Config<L, V>, p: System<L, V>, t: nat, p': System<L, V>)
    requires Coupled(cfg, p) && CanStep(cfg, Q.QUEUE_MAXLEN, p.stages, t)
    requires p'.stages == Step(cfg, Q.QUEUE_MAXLEN, p.stages, t)
    ensures WorkLeft(cfg, p') < WorkLeft(cfg, p)
  {
    StepWorks(cfg, Q.QUEUE_MAXLEN, p.stages, t, |cfg.code|);
  }

  lemma LongerRun<L, V(!new)>(cfg: Config<L, V>, run: seq<System<L, V>>, t: nat, p': System<L, V>)
    requires IsRun(cfg, run) && StageMoves(cfg, run[|run| - 1], t, p')
    ensures IsRun(cfg, run + [p'])
  {
    assert Moves(cfg, run[|run| - 1], p');
  }

  /**
   Stages over real queues never get stuck: whatever has happened, the run can be continued until every
   stage is done.
   */
  lemma {:induction false} EveryBlockingRunCompletes<L, V(!new)>(cfg: Config<L, V>, run: seq<System<L, V>>)
    returns (full: seq<System<L, V>>)
    requires WellWired(cfg.code, cfg.wires) && IsRun(cfg, run)
    ensures IsRun(cfg, full) && run <= full && AllFinished(cfg, full[|full| - 1].stages)
    decreases WorkLeft(cfg, run[|run| - 1])
  {
    var p := run[|run| - 1];
    var schedule := RunIsPipelineRun(cfg, run);
    FinishedMeansNoWork(cfg, Q.QUEUE_MAXLEN, p.stages, |cfg.code|);
    if AllFinished(cfg, p.stages) {
      full := run;
    } else {
      var t := SomeStageCanStep(cfg, Q.QUEUE_MAXLEN, p.stages);
      var p' := EnabledStageMoves(cfg, p, t);
      LessWorkLeft(cfg, p, t, p');
      LongerRun(cfg, run, t, p');
      full := EveryBlockingRunCompletes(cfg, run + [p']);
    }
  }

  /** All complete runs over real queues end alike, and as every run over channels of any capacity does. */
  lemma BlockingRunsAgree<L, V(!new)>(cfg: Config<L, V>, run: seq<System<L, V>>, capacity: nat, schedule: seq<nat>)
    requires WellWired(cfg.code, cfg.wires) && IsRun(cfg, run) && AllFinished(cfg, run[|run| - 1].stages)
    requires Run(cfg, capacity, schedule).Reached? && AllFinished(cfg, Run(cfg, capacity, schedule).state)
    ensures run[|run| - 1].stages == Run(cfg, capacity, schedule).state
  {
    var mine := RunIsPipelineRun(cfg, run);
    CompleteRunsAreEqual(cfg, Q.QUEUE_MAXLEN, mine, capacity, schedule);
  }
}
