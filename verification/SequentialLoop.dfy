/**
 What a pipeline computes: every complete run of the stages, on any schedule and over channels of any
 capacity, ends as a plain loop does that executes the bodies of the stages one after the other.
 */
module SequentialLoop {
  import B = BlockingPipeline
  import opened Pipeline

  /** The private state of each stage, and the values sent in this iteration. */
  datatype World<L, V> = World(locals: seq<L>, values: map<nat, V>)

  // ---------------------------------------------------------------- the loop

  ghost function Execute<L, V>(cfg: Config<L, V>, t: nat, item: Item, w: World<L, V>): (w': World<L, V>)
    requires t < |w.locals|
    ensures |w'.locals| == |w.locals|
  {
    match item
    case Inst(i) => w.(locals := w.locals[t := cfg.machine.inst(t, i, w.locals[t])])
    case Produce(c) => w.(values := w.values[c := cfg.machine.out(c, w.locals[t])])
    case Consume(c) =>
      if c in w.values then w.(locals := w.locals[t := cfg.machine.into(c, w.locals[t], w.values[c])]) else w
  }

  /** The first pc items of the body of stage t. */
  ghost function Items<L, V>(cfg: Config<L, V>, t: nat, pc: nat, w: World<L, V>): (w': World<L, V>)
    requires t < |cfg.code| == |w.locals| && pc <= |cfg.code[t]|
    ensures |w'.locals| == |w.locals|
  {
    if pc == 0 then w else Execute(cfg, t, cfg.code[t][pc - 1], Items(cfg, t, pc - 1, w))
  }

  /** The bodies of the first t stages, one after the other. */
  ghost function Bodies<L, V>(cfg: Config<L, V>, t: nat, w: World<L, V>): (w': World<L, V>)
    requires t <= |cfg.code| == |w.locals|
    ensures |w'.locals| == |w.locals|
  {
    if t == 0 then w else Items(cfg, t - 1, |cfg.code[t - 1]|, Bodies(cfg, t - 1, w))
  }

  /** After n iterations; the values are those of the last one. */
  ghost function Loop<L, V>(cfg: Config<L, V>, n: nat): (w: World<L, V>)
    ensures |w.locals| == |cfg.code|
    decreases n, 0
  {
    if n == 0 then World(seq(|cfg.code|, t requires 0 <= t => cfg.machine.start(t)), map[])
    else Bodies(cfg, |cfg.code|, Entry(cfg, n - 1))
  }

  /** The beginning of iteration k. */
  ghost function Entry<L, V>(cfg: Config<L, V>, k: nat): (w: World<L, V>)
    ensures |w.locals| == |cfg.code|
    decreases k, 1
  {
    World(Loop(cfg, k).locals, map[])
  }

  /** What the loop sends on channel c in n iterations. */
  ghost function Sent<L, V>(cfg: Config<L, V>, c: nat, n: nat): seq<V> {
    if n == 0 then []
    else Sent(cfg, c, n - 1) + if c in Loop(cfg, n).values then [Loop(cfg, n).values[c]] else []
  }

  ghost function LoopHistory<L, V>(cfg: Config<L, V>, n: nat): History<V> {
    seq(|cfg.wires|, c requires 0 <= c => Sent(cfg, c, n))
  }

  // ---------------------------------------------------------------- what a body leaves alone

  lemma {:induction false} ItemsFrame<L, V>(cfg: Config<L, V>, t: nat, pc: nat, w: World<L, V>, u: nat)
    requires t < |cfg.code| == |w.locals| && pc <= |cfg.code[t]| && u < |w.locals| && u != t
    ensures Items(cfg, t, pc, w).locals[u] == w.locals[u]
  {
    if pc > 0 {
      ItemsFrame(cfg, t, pc - 1, w, u);
    }
  }

  /** The value of channel c is the same in both worlds, if there is one. */
  ghost predicate SameValue<L, V>(w: World<L, V>, w': World<L, V>, c: nat) {
    (c in w.values <==> c in w'.values) && (c in w.values ==> w'.values[c] == w.values[c])
  }

  lemma {:induction false} ItemsValue<L, V>(cfg: Config<L, V>, t: nat, p: nat, pc: nat, w: World<L, V>, c: nat)
    requires t < |cfg.code| == |w.locals| && p <= pc <= |cfg.code[t]|
    requires forall k | p <= k < pc :: cfg.code[t][k] != Produce(c)
    ensures SameValue(Items(cfg, t, p, w), Items(cfg, t, pc, w), c)
  {
    if pc > p {
      ItemsValue(cfg, t, p, pc - 1, w, c);
    }
  }

  /** Later stages do not touch the private state of stage u. */
  lemma {:induction false} BodiesFrame<L, V>(cfg: Config<L, V>, t: nat, t': nat, w: World<L, V>, u: nat)
    requires t <= t' <= |cfg.code| == |w.locals| && u < |w.locals| && !(t <= u < t')
    ensures Bodies(cfg, t', w).locals[u] == Bodies(cfg, t, w).locals[u]
  {
    if t < t' {
      BodiesFrame(cfg, t, t' - 1, w, u);
      ItemsFrame(cfg, t' - 1, |cfg.code[t' - 1]|, Bodies(cfg, t' - 1, w), u);
    }
  }

  lemma NoProduce<L, V>(cfg: Config<L, V>, t: nat, c: nat, k: nat)
    requires WellWired(cfg.code, cfg.wires) && t < |cfg.code| && c < |cfg.wires| && k < |cfg.code[t]|
    requires cfg.wires[c].from != t
    ensures cfg.code[t][k] != Produce(c)
  {
    assert RunsOnce(cfg.code[t], Produce(c), cfg.wires[c].from == t);
    assert cfg.code[t][k] in multiset(cfg.code[t]);
  }

  /** Channel c is written by one stage only. */
  lemma {:induction false} BodiesValue<L, V>(cfg: Config<L, V>, t: nat, t': nat, w: World<L, V>, c: nat)
    requires WellWired(cfg.code, cfg.wires) && c < |cfg.wires|
    requires t <= t' <= |cfg.code| == |w.locals| && !(t <= cfg.wires[c].from < t')
    ensures SameValue(Bodies(cfg, t, w), Bodies(cfg, t', w), c)
  {
    if t < t' {
      BodiesValue(cfg, t, t' - 1, w, c);
      var code := cfg.code[t' - 1];
      forall k: nat | k < |code| ensures code[k] != Produce(c) {
        NoProduce(cfg, t' - 1, c, k);
      }
      ItemsValue(cfg, t' - 1, 0, |cfg.code[t' - 1]|, Bodies(cfg, t' - 1, w), c);
    }
  }

  /** What the only produce on channel c sends is still there when the body of its stage is done. */
  lemma ProducedValue<L, V>(cfg: Config<L, V>, t: nat, p: nat, w: World<L, V>, c: nat)
    requires WellWired(cfg.code, cfg.wires) && c < |cfg.wires| && t < |cfg.code| == |w.locals|
    requires p < |cfg.code[t]| && cfg.code[t][p] == Produce(c)
    ensures var end := Items(cfg, t, |cfg.code[t]|, w);
            c in end.values && end.values[c] == cfg.machine.out(c, Items(cfg, t, p, w).locals[t])
  {
    forall k: nat | p + 1 <= k < |cfg.code[t]| ensures cfg.code[t][k] != Produce(c) {
      if cfg.code[t][k] == Produce(c) {
        OnlyProducer(cfg, t, p, t, k, c);
      }
    }
    ItemsValue(cfg, t, p + 1, |cfg.code[t]|, w, c);
  }

  lemma FindSite<L, V>(cfg: Config<L, V>, c: nat) returns (p: nat)
    requires WellWired(cfg.code, cfg.wires) && c < |cfg.wires|
    ensures p < |cfg.code[cfg.wires[c].from]| && cfg.code[cfg.wires[c].from][p] == Produce(c)
  {
    var t := cfg.wires[c].from;
    assert RunsOnce(cfg.code[t], Produce(c), true);
    assert Produce(c) in cfg.code[t];
    p :| 0 <= p < |cfg.code[t]| && cfg.code[t][p] == Produce(c);
  }

  /** From the end of its stage to the end of the iteration, channel c has the value that was produced there. */
  lemma ValueInIteration<L, V>(cfg: Config<L, V>, k: nat, p: nat, c: nat, t': nat)
    requires WellWired(cfg.code, cfg.wires) && c < |cfg.wires| && cfg.wires[c].from < t' <= |cfg.code|
    requires p < |cfg.code[cfg.wires[c].from]| && cfg.code[cfg.wires[c].from][p] == Produce(c)
    ensures var t, w := cfg.wires[c].from, Entry(cfg, k);
            && c in Bodies(cfg, t', w).values && c in Loop(cfg, k + 1).values
            && Bodies(cfg, t', w).values[c] == Loop(cfg, k + 1).values[c]
            && Loop(cfg, k + 1).values[c] == cfg.machine.out(c, Items(cfg, t, p, Bodies(cfg, t, w)).locals[t])
  {
    ValueInBodies(cfg, Entry(cfg, k), p, c, t');
    ValueInBodies(cfg, Entry(cfg, k), p, c, |cfg.code|);
    assert Loop(cfg, k + 1) == Bodies(cfg, |cfg.code|, Entry(cfg, k));
  }

  lemma ValueInBodies<L, V>(cfg: Config<L, V>, w: World<L, V>, p: nat, c: nat, t': nat)
    requires WellWired(cfg.code, cfg.wires) && c < |cfg.wires| && cfg.wires[c].from < t' <= |cfg.code| == |w.locals|
    requires p < |cfg.code[cfg.wires[c].from]| && cfg.code[cfg.wires[c].from][p] == Produce(c)
    ensures var t := cfg.wires[c].from;
            && c in Bodies(cfg, t', w).values
            && Bodies(cfg, t', w).values[c] == cfg.machine.out(c, Items(cfg, t, p, Bodies(cfg, t, w)).locals[t])
  {
    var t := cfg.wires[c].from;
    ProducedValue(cfg, t, p, Bodies(cfg, t, w), c);
    BodiesValue(cfg, t + 1, t', w, c);
  }

  lemma OneMoreSent<L, V>(cfg: Config<L, V>, c: nat, n: nat)
    requires WellWired(cfg.code, cfg.wires) && c < |cfg.wires|
    ensures c in Loop(cfg, n + 1).values && Sent(cfg, c, n + 1) == Sent(cfg, c, n) + [Loop(cfg, n + 1).values[c]]
  {
    var p := FindSite(cfg, c);
    ValueInIteration(cfg, n, p, c, |cfg.code|);
  }

  lemma {:induction false} SentLength<L, V>(cfg: Config<L, V>, c: nat, n: nat)
    requires WellWired(cfg.code, cfg.wires) && c < |cfg.wires|
    ensures |Sent(cfg, c, n)| == n
  {
    if n > 0 {
      SentLength(cfg, c, n - 1);
      OneMoreSent(cfg, c, n - 1);
    }
  }

  lemma {:induction false} SentIs<L, V>(cfg: Config<L, V>, c: nat, n: nat, k: nat)
    requires WellWired(cfg.code, cfg.wires) && c < |cfg.wires| && k < n
    ensures |Sent(cfg, c, n)| == n && c in Loop(cfg, k + 1).values
    ensures Sent(cfg, c, n)[k] == Loop(cfg, k + 1).values[c]
  {
    SentLength(cfg, c, n - 1);
    OneMoreSent(cfg, c, n - 1);
    if k < n - 1 {
      SentIs(cfg, c, n - 1, k);
    }
  }

  // ---------------------------------------------------------------- the loop and the history

  /** In the loop, the private state of a stage is what Replay computes from the loop's own history. */
  lemma {:induction false} LoopReplays<L, V>(cfg: Config<L, V>, n: nat, t: nat, k: nat, pc: nat)
    requires WellWired(cfg.code, cfg.wires) && t < |cfg.code| && pc <= |cfg.code[t]| && (k < n || (k == n && pc == 0))
    ensures Items(cfg, t, pc, Bodies(cfg, t, Entry(cfg, k))).locals[t] == Replay(cfg, LoopHistory(cfg, n), t, k, pc)
    decreases k, pc
  {
    if pc > 0 {
      LoopReplays(cfg, n, t, k, pc - 1);
      OneMoreItem(cfg, n, t, k, pc - 1);
    } else {
      UntilItsTurn(cfg, t, k);
      if k > 0 {
        LoopReplays(cfg, n, t, k - 1, |cfg.code[t]|);
      }
    }
  }

  /** No other stage touches the private state of t. */
  lemma UntilItsTurn<L, V>(cfg: Config<L, V>, t: nat, k: nat)
    requires WellWired(cfg.code, cfg.wires) && t < |cfg.code|
    ensures Items(cfg, t, 0, Bodies(cfg, t, Entry(cfg, k))).locals[t] ==
            if k == 0 then Entry(cfg, 0).locals[t]
            else Items(cfg, t, |cfg.code[t]|, Bodies(cfg, t, Entry(cfg, k - 1))).locals[t]
  {
    BodiesFrame(cfg, 0, t, Entry(cfg, k), t);
    if k > 0 {
      BodiesFrame(cfg, t + 1, |cfg.code|, Entry(cfg, k - 1), t);
    }
  }

  lemma OneMoreItem<L, V>(cfg: Config<L, V>, n: nat, t: nat, k: nat, pc: nat)
    requires WellWired(cfg.code, cfg.wires) && t < |cfg.code| && pc < |cfg.code[t]| && k < n
    requires Items(cfg, t, pc, Bodies(cfg, t, Entry(cfg, k))).locals[t] == Replay(cfg, LoopHistory(cfg, n), t, k, pc)
    ensures Items(cfg, t, pc + 1, Bodies(cfg, t, Entry(cfg, k))).locals[t] ==
            Replay(cfg, LoopHistory(cfg, n), t, k, pc + 1)
  {
    if cfg.code[t][pc].Consume? {
      ConsumedValue(cfg, n, t, k, pc);
    }
  }

  /** A consume finds the value that the loop's history has for this iteration. */
  lemma ConsumedValue<L, V>(cfg: Config<L, V>, n: nat, t: nat, k: nat, pc: nat)
    requires WellWired(cfg.code, cfg.wires) && t < |cfg.code| && pc < |cfg.code[t]| && k < n
    requires cfg.code[t][pc].Consume?
    ensures var c, w := cfg.code[t][pc].channel, Items(cfg, t, pc, Bodies(cfg, t, Entry(cfg, k)));
            && c < |cfg.wires| && k < |LoopHistory(cfg, n)[c]|
            && c in w.values && w.values[c] == LoopHistory(cfg, n)[c][k]
  {
    var c := cfg.code[t][pc].channel;
    assert cfg.code[t][pc] in multiset(cfg.code[t]);
    assert RunsOnce(cfg.code[t], Consume(c), cfg.wires[c].to == t);
    var p := FindSite(cfg, c);
    ValueInIteration(cfg, k, p, c, t);
    forall j: nat | j < pc ensures cfg.code[t][j] != Produce(c) {
      NoProduce(cfg, t, c, j);
    }
    ItemsValue(cfg, t, 0, pc, Bodies(cfg, t, Entry(cfg, k)), c);
    SentIs(cfg, c, n, k);
  }

  lemma LoopIsExplained<L, V>(cfg: Config<L, V>, n: nat)
    requires WellWired(cfg.code, cfg.wires)
    ensures Explained(cfg, LoopHistory(cfg, n))
  {
    var hist := LoopHistory(cfg, n);
    forall t, p, c: nat, k | 0 <= t < |cfg.code| && 0 <= p < |cfg.code[t]| && cfg.code[t][p] == Produce(c) &&
                             c < |hist| && 0 <= k < |hist[c]|
      ensures EntryExplained(cfg, hist, t, p, c, k)
    {
      EntryIsExplained(cfg, n, t, p, c, k);
    }
  }

  lemma EntryIsExplained<L, V>(cfg: Config<L, V>, n: nat, t: nat, p: nat, c: nat, k: nat)
    requires WellWired(cfg.code, cfg.wires) && t < |cfg.code| && p < |cfg.code[t]| && cfg.code[t][p] == Produce(c)
    requires c < |cfg.wires| && k < |LoopHistory(cfg, n)[c]|
    ensures EntryExplained(cfg, LoopHistory(cfg, n), t, p, c, k)
  {
    SentLength(cfg, c, n);
    if cfg.wires[c].from != t {
      NoProduce(cfg, t, c, p);
    }
    SentIs(cfg, c, n, k);
    ValueInIteration(cfg, k, p, c, |cfg.code|);
    LoopReplays(cfg, n, t, k, p);
    LoopFeeds(cfg, n, t, k, p);
  }

  lemma LoopFeeds<L, V>(cfg: Config<L, V>, n: nat, t: nat, k: nat, pc: nat)
    requires WellWired(cfg.code, cfg.wires) && t < |cfg.code| && (k < n || (k == n && pc == 0))
    ensures Fed(cfg, LoopHistory(cfg, n), t, k, pc)
  {
    forall p, c: nat | 0 <= p < |cfg.code[t]| && cfg.code[t][p] == Consume(c)
      ensures c < |cfg.wires| && |LoopHistory(cfg, n)[c]| == n
    {
      SentLength(cfg, c, n);
    }
  }

  // ---------------------------------------------------------------- pipelines compute what the loop computes

  lemma {:induction false} NothingToReplay<L, V>(cfg: Config<L, V>, hist: History<V>, t: nat, iter: nat)
    requires t < |cfg.code| && cfg.code[t] == []
    ensures Replay(cfg, hist, t, iter, 0) == cfg.machine.start(t)
  {
    if iter > 0 {
      NothingToReplay(cfg, hist, t, iter - 1);
    }
  }

  /**
   Every complete run of the pipeline ends with the private states of the plain loop, and has sent what
   the loop sends, iteration by iteration.
   */
  lemma PipelineIsLoop<L, V>(cfg: Config<L, V>, capacity: nat, schedule: seq<nat>)
    requires WellWired(cfg.code, cfg.wires) && Run(cfg, capacity, schedule).Reached?
    requires AllFinished(cfg, Run(cfg, capacity, schedule).state)
    ensures var s := Run(cfg, capacity, schedule).state;
            && s.sent == LoopHistory(cfg, cfg.iterations)
            && forall t | 0 <= t < |cfg.code| :: s.stages[t].local == Loop(cfg, cfg.iterations).locals[t]
  {
    var n, s := cfg.iterations, Run(cfg, capacity, schedule).state;
    RunIsFaithful(cfg, capacity, schedule);
    RunIsCounted(cfg, capacity, schedule);
    LoopIsExplained(cfg, n);
    forall c: nat | c < |cfg.wires| ensures s.sent[c] == LoopHistory(cfg, n)[c] {
      SentAll(cfg, capacity, s, c);
      SentLength(cfg, c, n);
      forall k: nat | k < n ensures s.sent[c][k] == LoopHistory(cfg, n)[c][k] {
        HistoriesAgree(cfg, s.sent, LoopHistory(cfg, n), c, k);
      }
    }
    assert s.sent == LoopHistory(cfg, n);
    forall t: nat | t < |cfg.code| ensures s.stages[t].local == Loop(cfg, n).locals[t] {
      assert PositionOk(cfg, s, t) && Finished(cfg, s, t) && StageFaithful(cfg, s.sent, t, s.stages[t]);
      FinishedLocal(cfg, t, s.stages[t]);
    }
  }

  lemma FinishedLocal<L, V>(cfg: Config<L, V>, t: nat, stage: Stage<L>)
    requires WellWired(cfg.code, cfg.wires) && t < |cfg.code| && stage.pc == 0
    requires cfg.code[t] == [] || stage.iter == cfg.iterations
    requires stage.local == Replay(cfg, LoopHistory(cfg, cfg.iterations), t, stage.iter, 0)
    ensures stage.local == Loop(cfg, cfg.iterations).locals[t]
  {
    var n := cfg.iterations;
    LoopReplays(cfg, n, t, n, 0);
    BodiesFrame(cfg, 0, t, Entry(cfg, n), t);
    if cfg.code[t] == [] {
      NothingToReplay(cfg, LoopHistory(cfg, n), t, n);
      NothingToReplay(cfg, LoopHistory(cfg, n), t, stage.iter);
    }
  }

  /** A complete run has sent one value an iteration on every channel. */
  lemma SentAll<L, V>(cfg: Config<L, V>, capacity: nat, s: State<L, V>, c: nat)
    requires WellWired(cfg.code, cfg.wires) && Counted(cfg, capacity, s) && AllFinished(cfg, s) && c < |cfg.wires|
    ensures |s.sent[c]| == cfg.iterations
  {
    var t := cfg.wires[c].from;
    assert PositionOk(cfg, s, t) && PositionOk(cfg, s, cfg.wires[c].to) && ChannelOk(cfg, capacity, s, c);
    assert Finished(cfg, s, t);
    var p := FindSite(cfg, c);
    assert cfg.code[t][..0] == [];
  }

  /** The same for stages over the real queues, with all their blocking and signalling. */
  lemma QueuesComputeLoop<L, V(!new)>(cfg: Config<L, V>, run: seq<B.System<L, V>>)
    requires WellWired(cfg.code, cfg.wires) && B.IsRun(cfg, run) && AllFinished(cfg, run[|run| - 1].stages)
    ensures var s := run[|run| - 1].stages;
            && s.sent == LoopHistory(cfg, cfg.iterations)
            && forall t | 0 <= t < |cfg.code| :: s.stages[t].local == Loop(cfg, cfg.iterations).locals[t]
  {
    var schedule := B.RunIsPipelineRun(cfg, run);
    PipelineIsLoop(cfg, B.Q.QUEUE_MAXLEN, schedule);
  }
}
