/**
 The split loop at run time: one stage per thread, each repeating its own code, with a bounded
 blocking channel for every produce/consume pair (CodeTransformation.cpp, runtime/simple_sync.c).
 */
module Pipeline {

  /** One step of a stage's loop body. */
  datatype Item =
    | Inst(i: int)
    | Produce(channel: nat)
    | Consume(channel: nat)

  datatype Wire = Wire(from: nat, to: nat)

  /** What instructions do to a stage's private state, and which values go over the wires. */
  datatype Machine<!L, !V> = Machine(
    start: nat -> L,
    inst: (nat, int, L) -> L,
    out: (nat, L) -> V,
    into: (nat, L, V) -> L)

  datatype Config<!L, !V> = Config(
    code: seq<seq<Item>>,
    wires: seq<Wire>,
    machine: Machine<L, V>,
    iterations: nat)

  datatype Stage<L> = Stage(iter: nat, pc: nat, local: L)

  /** sent[c] is everything ever produced on channel c; the first received[c] of it has been consumed. */
  datatype State<L, V> = State(stages: seq<Stage<L>>, sent: seq<seq<V>>, received: seq<nat>)

  ghost predicate RunsOnce(code: seq<Item>, item: Item, here: bool) {
    multiset(code)[item] == if here then 1 else 0
  }

  /** Every wire goes upward, and both of its sites stand once in the code of their stages and nowhere else. */
  ghost predicate WellWired(code: seq<seq<Item>>, wires: seq<Wire>) {
    && (forall c | 0 <= c < |wires| :: wires[c].from < wires[c].to < |code|)
    && (forall t, c | 0 <= t < |code| && 0 <= c < |wires| ::
          RunsOnce(code[t], Produce(c), wires[c].from == t) && RunsOnce(code[t], Consume(c), wires[c].to == t))
    && (forall t, k | 0 <= t < |code| && 0 <= k < |code[t]| && !code[t][k].Inst? :: code[t][k].channel < |wires|)
  }

  ghost predicate Shaped<L, V>(cfg: Config<L, V>, s: State<L, V>) {
    && |s.stages| == |cfg.code| && |s.sent| == |s.received| == |cfg.wires|
  }

  ghost predicate Finished<L, V>(cfg: Config<L, V>, s: State<L, V>, t: nat)
    requires Shaped(cfg, s) && t < |cfg.code|
  {
    s.stages[t].iter >= cfg.iterations || cfg.code[t] == []
  }

  ghost predicate AllFinished<L, V>(cfg: Config<L, V>, s: State<L, V>) {
    Shaped(cfg, s) && forall t | 0 <= t < |cfg.code| :: Finished(cfg, s, t)
  }

  ghost function Begin<L, V>(cfg: Config<L, V>): State<L, V> {
    State(seq(|cfg.code|, t requires 0 <= t => Stage(0, 0, cfg.machine.start(t))),
          seq(|cfg.wires|, c => []), seq(|cfg.wires|, c => 0))
  }

  function Advance<L>(stage: Stage<L>, length: nat, local: L): Stage<L> {
    if stage.pc + 1 < length then Stage(stage.iter, stage.pc + 1, local) else Stage(stage.iter + 1, 0, local)
  }

  /** The stage can execute its next item: it does not wait for a full or an empty channel. */
  ghost predicate CanStep<L, V>(cfg: Config<L, V>, capacity: nat, s: State<L, V>, t: nat) {
    && Shaped(cfg, s) && WellWired(cfg.code, cfg.wires) && t < |cfg.code|
    && !Finished(cfg, s, t) && s.stages[t].pc < |cfg.code[t]|
    && match cfg.code[t][s.stages[t].pc] {
         case Inst(_) => true
         case Produce(c) => |s.sent[c]| < s.received[c] + capacity
         case Consume(c) => s.received[c] < |s.sent[c]|
       }
  }

  ghost function Step<L, V>(cfg: Config<L, V>, capacity: nat, s: State<L, V>, t: nat): State<L, V>
    requires CanStep(cfg, capacity, s, t)
  {
    var stage, length := s.stages[t], |cfg.code[t]|;
    match cfg.code[t][stage.pc]
    case Inst(i) =>
      s.(stages := s.stages[t := Advance(stage, length, cfg.machine.inst(t, i, stage.local))])
    case Produce(c) =>
      s.(stages := s.stages[t := Advance(stage, length, stage.local)],
         sent := s.sent[c := s.sent[c] + [cfg.machine.out(c, stage.local)]])
    case Consume(c) =>
      s.(stages := s.stages[t := Advance(stage, length, cfg.machine.into(c, stage.local, s.sent[c][s.received[c]]))],
         received := s.received[c := s.received[c] + 1])
  }

  datatype Outcome<T> = Blocked | Reached(state: T)

  /** The state after a schedule, which lists the stage that moves next; Blocked if one of them could not. */
  ghost function Run<L, V>(cfg: Config<L, V>, capacity: nat, schedule: seq<nat>): Outcome<State<L, V>> {
    if schedule == [] then Reached(Begin(cfg))
    else
      var before := Run(cfg, capacity, schedule[..|schedule| - 1]);
      var t := schedule[|schedule| - 1];
      if before.Reached? && CanStep(cfg, capacity, before.state, t) then Reached(Step(cfg, capacity, before.state, t))
      else Blocked
  }

  // ---------------------------------------------------------------- counting invariant

  /** How often a stage has passed an item that stands once in its code. */
  ghost function Passed<L>(code: seq<Item>, stage: Stage<L>, item: Item): nat {
    stage.iter + if stage.pc <= |code| then multiset(code[..stage.pc])[item] else 0
  }

  ghost predicate PositionOk<L, V>(cfg: Config<L, V>, s: State<L, V>, t: nat)
    requires Shaped(cfg, s) && t < |cfg.code|
  {
    var stage := s.stages[t];
    && stage.iter <= cfg.iterations
    && (stage.iter == cfg.iterations ==> stage.pc == 0)
    && if cfg.code[t] == [] then stage.iter == stage.pc == 0 else stage.pc < |cfg.code[t]|
  }

  ghost predicate Counted<L, V>(cfg: Config<L, V>, capacity: nat, s: State<L, V>) {
    && Shaped(cfg, s)
    && (forall t | 0 <= t < |cfg.code| :: PositionOk(cfg, s, t))
    && (forall c | 0 <= c < |cfg.wires| && cfg.wires[c].from < |cfg.code| && cfg.wires[c].to < |cfg.code| ::
          ChannelOk(cfg, capacity, s, c))
  }

  /** The channel has been written and read as often as its two stages have passed its sites. */
  ghost predicate ChannelOk<L, V>(cfg: Config<L, V>, capacity: nat, s: State<L, V>, c: nat)
    requires Shaped(cfg, s) && c < |cfg.wires| && cfg.wires[c].from < |cfg.code| && cfg.wires[c].to < |cfg.code|
    requires PositionOk(cfg, s, cfg.wires[c].from) && PositionOk(cfg, s, cfg.wires[c].to)
  {
    var w := cfg.wires[c];
    && |s.sent[c]| == Passed(cfg.code[w.from], s.stages[w.from], Produce(c))
    && s.received[c] == Passed(cfg.code[w.to], s.stages[w.to], Consume(c))
    && s.received[c] <= |s.sent[c]| <= s.received[c] + capacity
  }

  /** Moving past one item counts that item once and no other. */
  lemma AdvanceCounts<L>(code: seq<Item>, stage: Stage<L>, local: L, item: Item)
    requires stage.pc < |code|
    requires item == code[stage.pc] ==> multiset(code)[item] == 1
    requires multiset(code)[item] <= 1
    ensures multiset(code)[item] == 1 ==>
              Passed(code, Advance(stage, |code|, local), item) ==
              Passed(code, stage, item) + if item == code[stage.pc] then 1 else 0
    ensures item == code[stage.pc] ==> Passed(code, stage, item) == stage.iter
  {
    var pc := stage.pc;
    assert code[..pc + 1] == code[..pc] + [code[pc]];
    assert code == code[..pc + 1] + code[pc + 1..];
    assert code[..0] == [];
    assert code[..|code|] == code;
  }

  lemma BeginIsCounted<L, V>(cfg: Config<L, V>, capacity: nat)
    requires WellWired(cfg.code, cfg.wires)
    ensures Counted(cfg, capacity, Begin(cfg))
  {
    forall t | 0 <= t < |cfg.code| ensures cfg.code[t][..0] == [] {
    }
  }

  lemma StepIsCounted<L, V>(cfg: Config<L, V>, capacity: nat, s: State<L, V>, t: nat)
    requires WellWired(cfg.code, cfg.wires) && Counted(cfg, capacity, s) && CanStep(cfg, capacity, s, t)
    ensures Counted(cfg, capacity, Step(cfg, capacity, s, t))
  {
    var s' := Step(cfg, capacity, s, t);
    forall u | 0 <= u < |cfg.code| ensures PositionOk(cfg, s', u) {
      PositionStays(cfg, capacity, s, t, u);
    }
    forall c | 0 <= c < |cfg.wires| ensures ChannelOk(cfg, capacity, s', c) {
      ChannelIsCounted(cfg, capacity, s, t, c);
    }
  }

  lemma PositionStays<L, V>(cfg: Config<L, V>, capacity: nat, s: State<L, V>, t: nat, u: nat)
    requires Counted(cfg, capacity, s) && CanStep(cfg, capacity, s, t) && u < |cfg.code|
    ensures Shaped(cfg, Step(cfg, capacity, s, t)) && PositionOk(cfg, Step(cfg, capacity, s, t), u)
  {
    assert PositionOk(cfg, s, u);
  }

  lemma ChannelIsCounted<L, V>(cfg: Config<L, V>, capacity: nat, s: State<L, V>, t: nat, c: nat)
    requires WellWired(cfg.code, cfg.wires) && Counted(cfg, capacity, s) && CanStep(cfg, capacity, s, t)
    requires c < |cfg.wires|
    ensures var s', w := Step(cfg, capacity, s, t), cfg.wires[c];
            && PositionOk(cfg, s', w.from) && PositionOk(cfg, s', w.to) && ChannelOk(cfg, capacity, s', c)
  {
    var code, stage, local := cfg.code[t], s.stages[t], Step(cfg, capacity, s, t).stages[t].local;
    assert RunsOnce(code, Produce(c), cfg.wires[c].from == t) && RunsOnce(code, Consume(c), cfg.wires[c].to == t);
    AdvanceCounts(code, stage, local, Produce(c));
    AdvanceCounts(code, stage, local, Consume(c));
    PositionStays(cfg, capacity, s, t, cfg.wires[c].from);
    PositionStays(cfg, capacity, s, t, cfg.wires[c].to);
  }

  // ---------------------------------------------------------------- progress

  /** Among unfinished stages, one in the earliest iteration, and the lowest such. */
  lemma {:induction false} MostBehind<L, V>(cfg: Config<L, V>, s: State<L, V>, t: nat) returns (m: nat)
    requires Shaped(cfg, s) && t < |cfg.code| && !Finished(cfg, s, t)
    ensures m < |cfg.code| && !Finished(cfg, s, m)
    ensures forall u | 0 <= u < |cfg.code| && !Finished(cfg, s, u) ::
              s.stages[m].iter < s.stages[u].iter || (s.stages[m].iter == s.stages[u].iter && m <= u)
    decreases s.stages[t].iter, t
  {
    if u :| 0 <= u < |cfg.code| && !Finished(cfg, s, u) &&
            (s.stages[u].iter < s.stages[t].iter || (s.stages[u].iter == s.stages[t].iter && u < t)) {
      m := MostBehind(cfg, s, u);
    } else {
      m := t;
    }
  }

  /** No reachable state before completion is deadlocked, whatever the capacity. */
  lemma SomeStageCanStep<L, V>(cfg: Config<L, V>, capacity: nat, s: State<L, V>) returns (m: nat)
    requires capacity >= 1 && WellWired(cfg.code, cfg.wires) && Counted(cfg, capacity, s)
    requires !AllFinished(cfg, s)
    ensures CanStep(cfg, capacity, s, m)
  {
    var t :| 0 <= t < |cfg.code| && !Finished(cfg, s, t);
    m := MostBehind(cfg, s, t);
    assert PositionOk(cfg, s, m);
    var code, stage := cfg.code[m], s.stages[m];
    var item := code[stage.pc];
    if !item.Inst? {
      var c := item.channel;
      var w := cfg.wires[c];
      assert item in multiset(code);
      assert RunsOnce(code, Produce(c), w.from == m) && RunsOnce(code, Consume(c), w.to == m);
      AdvanceCounts(code, stage, stage.local, item);
      if item.Produce? {
        assert PositionOk(cfg, s, w.to);
        assert RunsOnce(cfg.code[w.to], Consume(c), true);
      } else {
        assert PositionOk(cfg, s, w.from);
        assert RunsOnce(cfg.code[w.from], Produce(c), true);
      }
    }
  }

  /** The items of n iterations. */
  ghost function Items(length: nat, n: nat): nat {
    if n == 0 then 0 else length + Items(length, n - 1)
  }

  lemma {:induction false} NoItems(n: nat)
    ensures Items(0, n) == 0
  {
    if n > 0 {
      NoItems(n - 1);
    }
  }

  ghost function Remaining(length: nat, iterations: nat, iter: nat, pc: nat): int {
    if iter >= iterations then 0 else Items(length, iterations - iter) - pc
  }

  /** Items that the stages below bound still have to execute. */
  ghost function Work<L, V>(cfg: Config<L, V>, s: State<L, V>, bound: nat): int
    requires Shaped(cfg, s) && bound <= |cfg.code|
  {
    if bound == 0 then 0
    else Work(cfg, s, bound - 1) +
         Remaining(|cfg.code[bound - 1]|, cfg.iterations, s.stages[bound - 1].iter, s.stages[bound - 1].pc)
  }

  lemma StageStepWorks(length: nat, iterations: nat, iter: nat, pc: nat)
    requires iter < iterations && pc < length
    ensures pc + 1 < length ==>
            Remaining(length, iterations, iter, pc + 1) == Remaining(length, iterations, iter, pc) - 1
    ensures pc + 1 == length ==>
            Remaining(length, iterations, iter + 1, 0) == Remaining(length, iterations, iter, pc) - 1
    ensures Remaining(length, iterations, iter, pc) > 0
  {
    assert Items(length, iterations - iter) == length + Items(length, iterations - iter - 1);
  }

  lemma {:induction false} StepWorks<L, V>(cfg: Config<L, V>, capacity: nat, s: State<L, V>, t: nat, bound: nat)
    requires CanStep(cfg, capacity, s, t) && bound <= |cfg.code|
    ensures Work(cfg, Step(cfg, capacity, s, t), bound) == Work(cfg, s, bound) - if t < bound then 1 else 0
  {
    if bound > 0 {
      StepWorks(cfg, capacity, s, t, bound - 1);
      if t == bound - 1 {
        StageStepWorks(|cfg.code[t]|, cfg.iterations, s.stages[t].iter, s.stages[t].pc);
      }
    }
  }

  lemma {:induction false} FinishedMeansNoWork<L, V>(cfg: Config<L, V>, capacity: nat, s: State<L, V>, bound: nat)
    requires Counted(cfg, capacity, s) && bound <= |cfg.code|
    ensures Work(cfg, s, bound) >= 0
    ensures Work(cfg, s, bound) == 0 <==> forall t | 0 <= t < bound :: Finished(cfg, s, t)
  {
    if bound > 0 {
      FinishedMeansNoWork(cfg, capacity, s, bound - 1);
      var t := bound - 1;
      assert PositionOk(cfg, s, t);
      if !Finished(cfg, s, t) {
        StageStepWorks(|cfg.code[t]|, cfg.iterations, s.stages[t].iter, s.stages[t].pc);
      } else if s.stages[t].iter < cfg.iterations {
        NoItems(cfg.iterations - s.stages[t].iter);
      }
    }
  }

  lemma {:induction false} RunIsCounted<L, V>(cfg: Config<L, V>, capacity: nat, schedule: seq<nat>)
    requires WellWired(cfg.code, cfg.wires) && Run(cfg, capacity, schedule).Reached?
    ensures Counted(cfg, capacity, Run(cfg, capacity, schedule).state)
    ensures Work(cfg, Run(cfg, capacity, schedule).state, |cfg.code|) == Work(cfg, Begin(cfg), |cfg.code|) - |schedule|
  {
    if schedule == [] {
      BeginIsCounted(cfg, capacity);
    } else {
      var front, t := schedule[..|schedule| - 1], schedule[|schedule| - 1];
      RunIsCounted(cfg, capacity, front);
      StepIsCounted(cfg, capacity, Run(cfg, capacity, front).state, t);
      StepWorks(cfg, capacity, Run(cfg, capacity, front).state, t, |cfg.code|);
    }
  }

  lemma RunOneMore<L, V>(cfg: Config<L, V>, capacity: nat, schedule: seq<nat>, t: nat)
    requires WellWired(cfg.code, cfg.wires) && Run(cfg, capacity, schedule).Reached?
    requires CanStep(cfg, capacity, Run(cfg, capacity, schedule).state, t)
    ensures Run(cfg, capacity, schedule + [t]).Reached?
    ensures |schedule| < |schedule + [t]| <= Work(cfg, Begin(cfg), |cfg.code|)
  {
    assert (schedule + [t])[..|schedule + [t]| - 1] == schedule;
    RunIsCounted(cfg, capacity, schedule + [t]);
    FinishedMeansNoWork(cfg, capacity, Run(cfg, capacity, schedule + [t]).state, |cfg.code|);
  }

  /**
   Progress. Whatever has happened so far, the run can be continued until every stage is done, and
   every run has the same length: it stops exactly when every stage has finished.
   */
  lemma {:induction false} EveryRunCompletes<L, V>(cfg: Config<L, V>, capacity: nat, schedule: seq<nat>)
    returns (full: seq<nat>)
    requires capacity >= 1 && WellWired(cfg.code, cfg.wires) && Run(cfg, capacity, schedule).Reached?
    ensures schedule <= full && Run(cfg, capacity, full).Reached?
    ensures AllFinished(cfg, Run(cfg, capacity, full).state)
    ensures |full| == Work(cfg, Begin(cfg), |cfg.code|)
    decreases Work(cfg, Begin(cfg), |cfg.code|) - |schedule|
  {
    var s := Run(cfg, capacity, schedule).state;
    RunIsCounted(cfg, capacity, schedule);
    FinishedMeansNoWork(cfg, capacity, s, |cfg.code|);
    if AllFinished(cfg, s) {
      full := schedule;
    } else {
      var t := SomeStageCanStep(cfg, capacity, s);
      RunOneMore(cfg, capacity, schedule, t);
      full := EveryRunCompletes(cfg, capacity, schedule + [t]);
    }
  }

  // ---------------------------------------------------------------- determinism

  type History<V> = seq<seq<V>>

  /**
   The private state of stage t at item pc of iteration iter, recomputed from the values that
   went over the channels: in iteration k a consume takes the k-th value produced.
   */
  ghost function Replay<L, V>(cfg: Config<L, V>, hist: History<V>, t: nat, iter: nat, pc: nat): L
    requires t < |cfg.code| && pc <= |cfg.code[t]|
    decreases iter, pc
  {
    if pc > 0 then
      var before := Replay(cfg, hist, t, iter, pc - 1);
      match cfg.code[t][pc - 1]
      case Inst(i) => cfg.machine.inst(t, i, before)
      case Produce(_) => before
      case Consume(c) =>
        if c < |hist| && iter < |hist[c]| then cfg.machine.into(c, before, hist[c][iter]) else before
    else if iter > 0 then Replay(cfg, hist, t, iter - 1, |cfg.code[t]|)
    else cfg.machine.start(t)
  }

  /** Everything that stage t consumes before item pc of iteration iter is in the history. */
  ghost predicate Fed<L, V>(cfg: Config<L, V>, hist: History<V>, t: nat, iter: nat, pc: nat)
    requires t < |cfg.code|
  {
    forall p, c: nat | 0 <= p < |cfg.code[t]| && cfg.code[t][p] == Consume(c) ::
      c < |hist| && iter <= |hist[c]| && (p < pc ==> iter < |hist[c]|)
  }

  ghost predicate EntryExplained<L, V>(cfg: Config<L, V>, hist: History<V>, t: nat, p: nat, c: nat, k: nat)
    requires t < |cfg.code| && p < |cfg.code[t]| && c < |hist| && k < |hist[c]|
  {
    Fed(cfg, hist, t, k, p) && hist[c][k] == cfg.machine.out(c, Replay(cfg, hist, t, k, p))
  }

  /** Each produced value is the one its producer computes from what it has consumed. */
  ghost predicate Explained<L, V>(cfg: Config<L, V>, hist: History<V>) {
    forall t, p, c: nat, k | 0 <= t < |cfg.code| && 0 <= p < |cfg.code[t]| && cfg.code[t][p] == Produce(c) &&
                        c < |hist| && 0 <= k < |hist[c]| ::
      EntryExplained(cfg, hist, t, p, c, k)
  }

  /** The two histories agree, as far as both go, on the channels into stage t. */
  ghost predicate SameInputs<L, V>(cfg: Config<L, V>, h1: History<V>, h2: History<V>, t: nat) {
    && |h1| == |h2| == |cfg.wires|
    && forall c, k | 0 <= c < |cfg.wires| && cfg.wires[c].to == t && 0 <= k < |h1[c]| && k < |h2[c]| ::
       h1[c][k] == h2[c][k]
  }

  lemma {:induction false} SameInputsSameReplay<L, V>(cfg: Config<L, V>, h1: History<V>, h2: History<V>, t: nat,
                                                      iter: nat, pc: nat)
    requires WellWired(cfg.code, cfg.wires) && t < |cfg.code| && pc <= |cfg.code[t]|
    requires SameInputs(cfg, h1, h2, t)
    requires Fed(cfg, h1, t, iter, pc) && Fed(cfg, h2, t, iter, pc)
    ensures Replay(cfg, h1, t, iter, pc) == Replay(cfg, h2, t, iter, pc)
    decreases iter, pc
  {
    if pc > 0 {
      SameInputsSameReplay(cfg, h1, h2, t, iter, pc - 1);
      if cfg.code[t][pc - 1].Consume? {
        var c := cfg.code[t][pc - 1].channel;
        assert cfg.code[t][pc - 1] in multiset(cfg.code[t]);
        assert RunsOnce(cfg.code[t], Consume(c), cfg.wires[c].to == t);
      }
    } else if iter > 0 {
      SameInputsSameReplay(cfg, h1, h2, t, iter - 1, |cfg.code[t]|);
    }
  }

  /** Two explained histories agree as far as both go. */
  lemma {:induction false} HistoriesAgree<L, V>(cfg: Config<L, V>, h1: History<V>, h2: History<V>, c: nat, k: nat)
    requires WellWired(cfg.code, cfg.wires) && |h1| == |h2| == |cfg.wires|
    requires Explained(cfg, h1) && Explained(cfg, h2)
    requires c < |cfg.wires| && k < |h1[c]| && k < |h2[c]|
    ensures h1[c][k] == h2[c][k]
    decreases cfg.wires[c].from
  {
    var t := cfg.wires[c].from;
    assert RunsOnce(cfg.code[t], Produce(c), true);
    assert Produce(c) in cfg.code[t];
    var p :| 0 <= p < |cfg.code[t]| && cfg.code[t][p] == Produce(c);
    forall c', k' | 0 <= c' < |cfg.wires| && cfg.wires[c'].to == t && 0 <= k' < |h1[c']| && k' < |h2[c']|
      ensures h1[c'][k'] == h2[c'][k']
    {
      HistoriesAgree(cfg, h1, h2, c', k');
    }
    assert EntryExplained(cfg, h1, t, p, c, k) && EntryExplained(cfg, h2, t, p, c, k);
    SameInputsSameReplay(cfg, h1, h2, t, k, p);
  }

  /** The private state of stage t is what its position and the history say. */
  ghost predicate StageFaithful<L, V>(cfg: Config<L, V>, hist: History<V>, t: nat, stage: Stage<L>)
    requires t < |cfg.code|
  {
    stage.pc <= |cfg.code[t]| ==>
      Fed(cfg, hist, t, stage.iter, stage.pc) && stage.local == Replay(cfg, hist, t, stage.iter, stage.pc)
  }

  /** The private states and the channel contents of a state are explained by its history. */
  ghost predicate Faithful<L, V>(cfg: Config<L, V>, s: State<L, V>) {
    && Shaped(cfg, s)
    && Explained(cfg, s.sent)
    && forall t | 0 <= t < |cfg.code| :: StageFaithful(cfg, s.sent, t, s.stages[t])
  }

  lemma TwoPlaces(code: seq<Item>, item: Item, i: nat, j: nat)
    requires i < j < |code| && code[i] == code[j] == item
    ensures multiset(code)[item] >= 2
  {
    assert code == code[..i] + [item] + code[i + 1..j] + [item] + code[j + 1..];
  }

  lemma LongerHistorySameReplay<L, V>(cfg: Config<L, V>, h: History<V>, h': History<V>, t: nat, iter: nat, pc: nat)
    requires WellWired(cfg.code, cfg.wires) && t < |cfg.code| && pc <= |cfg.code[t]|
    requires |h| == |h'| == |cfg.wires| && forall c | 0 <= c < |h| :: h[c] <= h'[c]
    requires Fed(cfg, h, t, iter, pc)
    ensures Fed(cfg, h', t, iter, pc)
    ensures Replay(cfg, h', t, iter, pc) == Replay(cfg, h, t, iter, pc)
  {
    SameInputsSameReplay(cfg, h', h, t, iter, pc);
  }

  /** Appending what the producer computes keeps a history explained. */
  lemma ProducingIsExplained<L, V>(cfg: Config<L, V>, h: History<V>, t: nat, pc: nat, c: nat)
    requires WellWired(cfg.code, cfg.wires) && |h| == |cfg.wires| && Explained(cfg, h)
    requires t < |cfg.code| && pc < |cfg.code[t]| && c < |h| && cfg.code[t][pc] == Produce(c)
    requires Fed(cfg, h, t, |h[c]|, pc)
    ensures Explained(cfg, h[c := h[c] + [cfg.machine.out(c, Replay(cfg, h, t, |h[c]|, pc))]])
  {
    var h' := h[c := h[c] + [cfg.machine.out(c, Replay(cfg, h, t, |h[c]|, pc))]];
    forall t', p, c': nat, k | 0 <= t' < |cfg.code| && 0 <= p < |cfg.code[t']| && cfg.code[t'][p] == Produce(c') &&
                               c' < |h'| && 0 <= k < |h'[c']|
      ensures EntryExplained(cfg, h', t', p, c', k)
    {
      if c' == c && k == |h[c]| {
        OnlyProducer(cfg, t, pc, t', p, c);
        LongerHistorySameReplay(cfg, h, h', t, k, pc);
      } else {
        assert EntryExplained(cfg, h, t', p, c', k);
        LongerHistorySameReplay(cfg, h, h', t', k, p);
      }
    }
  }

  lemma OnlyProducer<L, V>(cfg: Config<L, V>, t: nat, p: nat, t': nat, p': nat, c: nat)
    requires WellWired(cfg.code, cfg.wires) && c < |cfg.wires|
    requires t < |cfg.code| && p < |cfg.code[t]| && cfg.code[t][p] == Produce(c)
    requires t' < |cfg.code| && p' < |cfg.code[t']| && cfg.code[t'][p'] == Produce(c)
    ensures t == t' && p == p'
  {
    assert t == t' by {
      assert cfg.code[t'][p'] in multiset(cfg.code[t']) && cfg.code[t][p] in multiset(cfg.code[t]);
      assert RunsOnce(cfg.code[t'], Produce(c), cfg.wires[c].from == t');
      assert RunsOnce(cfg.code[t], Produce(c), cfg.wires[c].from == t);
    }
    if p < p' {
      TwoPlaces(cfg.code[t], Produce(c), p, p');
    } else if p' < p {
      TwoPlaces(cfg.code[t], Produce(c), p', p);
    }
    assert RunsOnce(cfg.code[t], Produce(c), cfg.wires[c].from == t);
  }

  lemma BeginIsFaithful<L, V>(cfg: Config<L, V>)
    requires WellWired(cfg.code, cfg.wires)
    ensures Faithful(cfg, Begin(cfg))
  {
    var s := Begin(cfg);
    forall t | 0 <= t < |cfg.code|
      ensures StageFaithful(cfg, s.sent, t, s.stages[t])
    {
      forall p, c: nat | 0 <= p < |cfg.code[t]| && cfg.code[t][p] == Consume(c) ensures c < |s.sent| {
        assert !cfg.code[t][p].Inst?;
      }
    }
  }

  /** Executing one item keeps the stage faithful, given that a consume finds its value in the history. */
  lemma ItemKeepsStageFaithful<L, V>(cfg: Config<L, V>, hist: History<V>, t: nat, stage: Stage<L>, local: L)
    requires t < |cfg.code| && stage.pc < |cfg.code[t]| && StageFaithful(cfg, hist, t, stage)
    requires match cfg.code[t][stage.pc] {
               case Inst(i) => local == cfg.machine.inst(t, i, stage.local)
               case Produce(_) => local == stage.local
               case Consume(c) =>
                 c < |hist| && stage.iter < |hist[c]| && local == cfg.machine.into(c, stage.local, hist[c][stage.iter])
             }
    ensures StageFaithful(cfg, hist, t, Advance(stage, |cfg.code[t]|, local))
  {
    assert Fed(cfg, hist, t, stage.iter, stage.pc + 1);
    assert local == Replay(cfg, hist, t, stage.iter, stage.pc + 1);
  }

  lemma StepIsFaithful<L, V>(cfg: Config<L, V>, capacity: nat, s: State<L, V>, t: nat)
    requires WellWired(cfg.code, cfg.wires) && Counted(cfg, capacity, s) && CanStep(cfg, capacity, s, t)
    requires Faithful(cfg, s)
    ensures Faithful(cfg, Step(cfg, capacity, s, t))
  {
    var s' := Step(cfg, capacity, s, t);
    var stage := s.stages[t];
    var item := cfg.code[t][stage.pc];
    if !item.Inst? {
      AtSite(cfg, capacity, s, t);
    }
    if item.Produce? {
      ProducingIsExplained(cfg, s.sent, t, stage.pc, item.channel);
    }
    forall u | 0 <= u < |cfg.code|
      ensures StageFaithful(cfg, s'.sent, u, s.stages[u])
    {
      if s.stages[u].pc <= |cfg.code[u]| {
        LongerHistorySameReplay(cfg, s.sent, s'.sent, u, s.stages[u].iter, s.stages[u].pc);
      }
    }
    ItemKeepsStageFaithful(cfg, s'.sent, t, stage, s'.stages[t].local);
    assert forall u | 0 <= u < |cfg.code| :: StageFaithful(cfg, s'.sent, u, s'.stages[u]);
  }

  /** A stage about to produce or consume has done so once per earlier iteration. */
  lemma AtSite<L, V>(cfg: Config<L, V>, capacity: nat, s: State<L, V>, t: nat)
    requires WellWired(cfg.code, cfg.wires) && Counted(cfg, capacity, s) && CanStep(cfg, capacity, s, t)
    requires !cfg.code[t][s.stages[t].pc].Inst?
    ensures var item := cfg.code[t][s.stages[t].pc];
            && item.channel < |cfg.wires|
            && (item.Produce? ==> cfg.wires[item.channel].from == t && |s.sent[item.channel]| == s.stages[t].iter)
            && (item.Consume? ==> cfg.wires[item.channel].to == t && s.received[item.channel] == s.stages[t].iter)
  {
    var item := cfg.code[t][s.stages[t].pc];
    assert item in multiset(cfg.code[t]);
    assert RunsOnce(cfg.code[t], Produce(item.channel), cfg.wires[item.channel].from == t);
    assert RunsOnce(cfg.code[t], Consume(item.channel), cfg.wires[item.channel].to == t);
    AdvanceCounts(cfg.code[t], s.stages[t], s.stages[t].local, item);
  }

  lemma {:induction false} RunIsFaithful<L, V>(cfg: Config<L, V>, capacity: nat, schedule: seq<nat>)
    requires WellWired(cfg.code, cfg.wires) && Run(cfg, capacity, schedule).Reached?
    ensures Faithful(cfg, Run(cfg, capacity, schedule).state)
  {
    if schedule == [] {
      BeginIsFaithful(cfg);
    } else {
      var front, t := schedule[..|schedule| - 1], schedule[|schedule| - 1];
      RunIsFaithful(cfg, capacity, front);
      RunIsCounted(cfg, capacity, front);
      StepIsFaithful(cfg, capacity, Run(cfg, capacity, front).state, t);
    }
  }

  /** The k-th consume on a channel takes the k-th value produced on it. */
  lemma ConsumesInOrder<L, V>(cfg: Config<L, V>, capacity: nat, schedule: seq<nat>, t: nat)
    requires WellWired(cfg.code, cfg.wires) && Run(cfg, capacity, schedule).Reached?
    requires CanStep(cfg, capacity, Run(cfg, capacity, schedule).state, t)
    requires cfg.code[t][Run(cfg, capacity, schedule).state.stages[t].pc].Consume?
    ensures var s := Run(cfg, capacity, schedule).state;
            var c := cfg.code[t][s.stages[t].pc].channel;
            && s.stages[t].iter < |s.sent[c]|
            && Step(cfg, capacity, s, t).stages[t].local ==
               cfg.machine.into(c, s.stages[t].local, s.sent[c][s.stages[t].iter])
  {
    var s := Run(cfg, capacity, schedule).state;
    RunIsCounted(cfg, capacity, schedule);
    AtSite(cfg, capacity, s, t);
  }

  /**
   Determinism. Any two runs, under any schedules and any capacities, have sent the same values as
   far as both have come, and a stage that stands at the same place in both is in the same state.
   */
  lemma RunsAgree<L, V>(cfg: Config<L, V>, capacity1: nat, schedule1: seq<nat>, capacity2: nat, schedule2: seq<nat>)
    requires WellWired(cfg.code, cfg.wires)
    requires Run(cfg, capacity1, schedule1).Reached? && Run(cfg, capacity2, schedule2).Reached?
    ensures var s1, s2 := Run(cfg, capacity1, schedule1).state, Run(cfg, capacity2, schedule2).state;
            && (forall c | 0 <= c < |cfg.wires| :: s1.sent[c] <= s2.sent[c] || s2.sent[c] <= s1.sent[c])
            && (forall t | 0 <= t < |cfg.code| && s1.stages[t].iter == s2.stages[t].iter
                && s1.stages[t].pc == s2.stages[t].pc ::
                  s1.stages[t].local == s2.stages[t].local)
  {
    var s1, s2 := Run(cfg, capacity1, schedule1).state, Run(cfg, capacity2, schedule2).state;
    RunIsFaithful(cfg, capacity1, schedule1);
    RunIsFaithful(cfg, capacity2, schedule2);
    RunIsCounted(cfg, capacity1, schedule1);
    RunIsCounted(cfg, capacity2, schedule2);
    forall c, k | 0 <= c < |cfg.wires| && 0 <= k < |s1.sent[c]| && k < |s2.sent[c]|
      ensures s1.sent[c][k] == s2.sent[c][k]
    {
      HistoriesAgree(cfg, s1.sent, s2.sent, c, k);
    }
    forall t | 0 <= t < |cfg.code| && s1.stages[t].iter == s2.stages[t].iter && s1.stages[t].pc == s2.stages[t].pc
      ensures s1.stages[t].local == s2.stages[t].local
    {
      assert PositionOk(cfg, s1, t);
      assert StageFaithful(cfg, s1.sent, t, s1.stages[t]) && StageFaithful(cfg, s2.sent, t, s2.stages[t]);
      SameInputsSameReplay(cfg, s1.sent, s2.sent, t, s1.stages[t].iter, s1.stages[t].pc);
    }
  }

  /** All complete runs end in the same state: the schedule and the queue capacity do not show. */
  lemma CompleteRunsAreEqual<L, V>(cfg: Config<L, V>, capacity1: nat, schedule1: seq<nat>, capacity2: nat,
                                   schedule2: seq<nat>)
    requires WellWired(cfg.code, cfg.wires)
    requires Run(cfg, capacity1, schedule1).Reached? && Run(cfg, capacity2, schedule2).Reached?
    requires AllFinished(cfg, Run(cfg, capacity1, schedule1).state)
    requires AllFinished(cfg, Run(cfg, capacity2, schedule2).state)
    ensures Run(cfg, capacity1, schedule1).state == Run(cfg, capacity2, schedule2).state
  {
    var s1, s2 := Run(cfg, capacity1, schedule1).state, Run(cfg, capacity2, schedule2).state;
    RunsAgree(cfg, capacity1, schedule1, capacity2, schedule2);
    RunIsCounted(cfg, capacity1, schedule1);
    RunIsCounted(cfg, capacity2, schedule2);
    forall t | 0 <= t < |cfg.code|
      ensures s1.stages[t] == s2.stages[t]
    {
      assert PositionOk(cfg, s1, t) && PositionOk(cfg, s2, t);
      assert Finished(cfg, s1, t) && Finished(cfg, s2, t);
    }
    assert s1.stages == s2.stages;
    forall c | 0 <= c < |cfg.wires|
      ensures s1.sent[c] == s2.sent[c] && s1.received[c] == s2.received[c]
    {
      var w := cfg.wires[c];
      assert s1.stages[w.from] == s2.stages[w.from] && s1.stages[w.to] == s2.stages[w.to];
    }
    assert s1.sent == s2.sent && s1.received == s2.received;
  }
}
