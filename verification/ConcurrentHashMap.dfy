/**
 The lazily rehashed hash map (include/oneapi/tbb/concurrent_hash_map.h) as a step relation over any
 number of threads that look up, insert, erase and exclude while the table grows. A step is one access
 to shared data, or a stretch of code under a bucket lock that nothing can observe half done.
 */
module ConcurrentHashMap {
  import opened HashPaths

  /** Keys and values, by number. Where the address of a node matters, its value stands for that. */
  type Key = int
  type Value = int
  type Hash = Key -> nat

  datatype Option<T> = None | Some(value: T)

  datatype Node = Node(key: Key, value: Value)

  /** The code's flag only tells Required from the rest; Moving means that its nodes are still being fetched. */
  datatype Status = Required | Moving | Settled

  datatype Bucket = Bucket(status: Status, nodes: seq<Node>, writer: Option<nat>, readers: set<nat>)

  /** Erase takes out whatever has the key; Exclude just the node that an accessor points to. */
  datatype Op =
    | Find(key: Key)
    | Insert(key: Key, value: Value)
    | Erase(key: Key)
    | Exclude(key: Key, value: Value)

  datatype Look = Unknown | SawRequired | Blocking

  /** Why the mask is checked: the key was missing, or upgrading the lock had to let go of it. */
  datatype Why = Missed | Contended

  /**
   Where a thread stands. j is the level of its mask, i the bucket it locked in write mode if w holds.
   A chain lists buckets, each the parent of the one before: all but the last are write-locked and
   marked as rehashed, and wait for their nodes.
   */
  datatype Pc =
    | Idle
    | Acquire(op: Op, j: nat, chain: seq<nat>, look: Look)
    | Fetch(op: Op, j: nat, chain: seq<nat>, w: bool)
    | Reacquire(op: Op, j: nat, chain: seq<nat>)
    | Holding(op: Op, j: nat, i: nat, w: bool)
    | Checking(op: Op, j: nat, i: nat, w: bool, why: Why)
    | Flag(op: Op, j: nat, i: nat, w: bool, why: Why, now: nat)
    | Cleared(op: Op, j: nat, i: nat)

  /** level is that of my_mask. */
  datatype State = State(level: nat, buckets: seq<Bucket>, threads: seq<Pc>)

  /** What a step does to the map that the table stands for. */
  datatype Event =
    | Silent
    | Found(key: Key, value: Value)
    | Missing(key: Key)
    | Inserted(key: Key, value: Value)
    | Existed(key: Key)
    | Erased(key: Key, value: Value)
    | Gone(key: Key, value: Value)

  // ---------------------------------------------------------------- steps

  predicate Free(b: Bucket) {
    b.writer == None && b.readers == {}
  }

  function Released(b: Bucket, t: nat): Bucket {
    if b.writer == Some(t) then b.(writer := None) else b.(readers := b.readers - {t})
  }

  function With(s: State, t: nat, pc: Pc, i: nat, b: Bucket): State
    requires t < |s.threads| && i < |s.buckets|
  {
    s.(threads := s.threads[t := pc], buckets := s.buckets[i := b])
  }

  function Goes(s: State, t: nat, pc: Pc): State
    requires t < |s.threads|
  {
    s.(threads := s.threads[t := pc])
  }

  function Last(chain: seq<nat>): nat
    requires chain != []
  {
    chain[|chain| - 1]
  }

  function AllButLast(chain: seq<nat>): seq<nat>
    requires chain != []
  {
    chain[..|chain| - 1]
  }

  /** The last bucket of the chain has been locked. */
  function Entered(op: Op, j: nat, chain: seq<nat>, w: bool): Pc
    requires chain != []
  {
    if |chain| == 1 then Holding(op, j, chain[0], w) else Fetch(op, j, chain, w)
  }

  /** The mask is loaded and an operation begins. */
  ghost predicate Begins(h: Hash, s: State, t: nat, s': State)
    requires t < |s.threads|
  {
    s.threads[t].Idle? &&
    exists op: Op :: s' == Goes(s, t, Acquire(op, s.level, [Low(h(op.key), s.level)], Unknown))
  }

  /** bucket_accessor::acquire reads the flag. */
  ghost predicate Looks(s: State, t: nat, s': State)
    requires t < |s.threads|
  {
    var pc := s.threads[t];
    && pc.Acquire? && pc.look == Unknown && pc.chain != [] && Last(pc.chain) < |s.buckets|
    && s' == Goes(s, t, pc.(look := if s.buckets[Last(pc.chain)].status == Required then SawRequired else Blocking))
  }

  /** It saw that the bucket needs rehashing, and tries to lock it; rehash_bucket marks it first of all. */
  ghost predicate TriesLock(s: State, t: nat, s': State)
    requires t < |s.threads|
  {
    var pc := s.threads[t];
    && pc.Acquire? && pc.look == SawRequired && pc.chain != [] && Last(pc.chain) < |s.buckets|
    && var i := Last(pc.chain); var b := s.buckets[i];
       if !Free(b) then s' == Goes(s, t, pc.(look := Blocking))
       else if b.status == Required then
         s' == With(s, t, pc.(chain := pc.chain + [Parent(i)], look := Unknown), i,
                    b.(status := Moving, nodes := [], writer := Some(t)))
       else s' == With(s, t, Entered(pc.op, pc.j, pc.chain, true), i, b.(writer := Some(t)))
  }

  ghost predicate Locks(s: State, t: nat, s': State)
    requires t < |s.threads|
  {
    var pc := s.threads[t];
    && pc.Acquire? && pc.look == Blocking && pc.chain != [] && Last(pc.chain) < |s.buckets|
    && var i := Last(pc.chain); var b := s.buckets[i];
       if |pc.chain| == 1 && pc.op.Exclude? then
         Free(b) && s' == With(s, t, Entered(pc.op, pc.j, pc.chain, true), i, b.(writer := Some(t)))
       else
         b.writer == None && s' == With(s, t, Entered(pc.op, pc.j, pc.chain, false), i, b.(readers := b.readers + {t}))
  }

  /** Node p of the parent belongs in its child; both are write-locked. */
  ghost predicate MovesNode(h: Hash, s: State, t: nat, s': State, p: nat)
    requires t < |s.threads|
  {
    var pc := s.threads[t];
    && pc.Fetch? && pc.w && |pc.chain| >= 2 && Last(pc.chain) < |s.buckets| && pc.chain[|pc.chain| - 2] < |s.buckets|
    && var c := pc.chain[|pc.chain| - 2]; var b := s.buckets[Last(pc.chain)];
       && p < |b.nodes| && OnPath(c, h(b.nodes[p].key))
       && s' == s.(buckets := s.buckets[Last(pc.chain) := b.(nodes := b.nodes[..p] + b.nodes[p + 1..])]
                                       [c := s.buckets[c].(nodes := [b.nodes[p]] + s.buckets[c].nodes)])
  }

  /** No node of the parent belongs in the child any more. */
  ghost predicate Fetches(h: Hash, s: State, t: nat, s': State)
    requires t < |s.threads|
  {
    var pc := s.threads[t];
    && pc.Fetch? && |pc.chain| >= 2 && Last(pc.chain) < |s.buckets| && pc.chain[|pc.chain| - 2] < |s.buckets|
    && var c := pc.chain[|pc.chain| - 2]; var b := s.buckets[Last(pc.chain)];
       && (forall n | n in b.nodes :: !OnPath(c, h(n.key)))
       && s' == s.(threads := s.threads[t := Entered(pc.op, pc.j, AllButLast(pc.chain), true)],
                   buckets := s.buckets[Last(pc.chain) := Released(b, t)][c := s.buckets[c].(status := Settled)])
  }

  /** The only reader becomes the writer, to move a node or to change the list it has searched. */
  ghost predicate Upgrades(s: State, t: nat, s': State)
    requires t < |s.threads|
  {
    match s.threads[t]
    case Fetch(op, j, chain, w) =>
      && !w && chain != [] && Last(chain) < |s.buckets| && s.buckets[Last(chain)].readers == {t}
      && s' == With(s, t, Fetch(op, j, chain, true), Last(chain),
                    s.buckets[Last(chain)].(readers := {}, writer := Some(t)))
    case Holding(op, j, i, w) =>
      && !w && !op.Find? && i < |s.buckets| && s.buckets[i].readers == {t}
      && s' == With(s, t, Holding(op, j, i, true), i, s.buckets[i].(readers := {}, writer := Some(t)))
    case _ => false
  }

  /** A contended upgrade lets go of the lock. */
  ghost predicate LosesUpgrade(s: State, t: nat, s': State)
    requires t < |s.threads|
  {
    match s.threads[t]
    case Fetch(op, j, chain, w) =>
      && !w && chain != [] && Last(chain) < |s.buckets|
      && s' == With(s, t, Reacquire(op, j, chain), Last(chain), Released(s.buckets[Last(chain)], t))
    case Holding(op, j, i, w) =>
      && !w && !op.Find? && i < |s.buckets|
      && s' == With(s, t, Reacquire(op, j, [i]), i, Released(s.buckets[i], t))
    case _ => false
  }

  ghost predicate Regains(s: State, t: nat, s': State)
    requires t < |s.threads|
  {
    var pc := s.threads[t];
    && pc.Reacquire? && pc.chain != [] && Last(pc.chain) < |s.buckets|
    && var i := Last(pc.chain); var b := s.buckets[i];
       && Free(b)
       && s' == With(s, t, if |pc.chain| == 1 && pc.op.Erase? then Checking(pc.op, pc.j, i, true, Contended)
                           else Entered(pc.op, pc.j, pc.chain, true),
                     i, b.(writer := Some(t)))
  }

  /** n is what op searches for. */
  predicate Matches(op: Op, n: Node) {
    n.key == op.key && (op.Exclude? ==> n.value == op.value)
  }

  /** The search of the locked bucket finds something. */
  ghost predicate Hits(s: State, t: nat, s': State, e: Event)
    requires t < |s.threads|
  {
    var pc := s.threads[t];
    && pc.Holding? && pc.i < |s.buckets|
    && var b := s.buckets[pc.i];
       exists p: nat :: p < |b.nodes| && Matches(pc.op, b.nodes[p]) &&
         match pc.op
         case Find(k) => e == Found(k, b.nodes[p].value) && s' == With(s, t, Idle, pc.i, Released(b, t))
         case Insert(k, _) => e == Existed(k) && s' == With(s, t, Idle, pc.i, Released(b, t))
         case Erase(k) =>
           pc.w && e == Erased(k, b.nodes[p].value) &&
           s' == With(s, t, Idle, pc.i, Released(b, t).(nodes := b.nodes[..p] + b.nodes[p + 1..]))
         case Exclude(k, v) =>
           pc.w && e == Erased(k, v) &&
           s' == With(s, t, Idle, pc.i, Released(b, t).(nodes := b.nodes[..p] + b.nodes[p + 1..]))
  }

  /**
   A lookup that is to keep an accessor has found its item locked for too long: it lets go of the bucket
   and begins anew.
   */
  ghost predicate GivesWay(s: State, t: nat, s': State)
    requires t < |s.threads|
  {
    var pc := s.threads[t];
    && pc.Holding? && (pc.op.Find? || pc.op.Insert?) && pc.i < |s.buckets|
    && (exists n :: n in s.buckets[pc.i].nodes && Matches(pc.op, n))
    && s' == With(s, t, Idle, pc.i, Released(s.buckets[pc.i], t))
  }

  /** What an operation answers that has searched in vain. */
  function Absent(op: Op): Event {
    match op
    case Exclude(k, v) => Gone(k, v)
    case _ => Missing(op.key)
  }

  /** It does not; an insertion goes on only with the write lock. */
  ghost predicate Misses(s: State, t: nat, s': State)
    requires t < |s.threads|
  {
    var pc := s.threads[t];
    && pc.Holding? && Lacks(s, pc.i, pc.op) && (pc.op.Insert? ==> pc.w)
    && s' == Goes(s, t, Checking(pc.op, pc.j, pc.i, pc.w, Missed))
  }

  /** check_mask_race has returned false. */
  ghost predicate NoRace(s: State, t: nat, s': State, e: Event, op: Op, j: nat, i: nat, w: bool, why: Why)
    requires t < |s.threads|
  {
    if why == Contended then e == Silent && s' == Goes(s, t, Holding(op, j, i, w))
    else if op.Insert? then e == Silent && s' == Goes(s, t, Cleared(op, j, i))
    else e == Absent(op) && i < |s.buckets| && s' == With(s, t, Idle, i, Released(s.buckets[i], t))
  }

  /** check_mask_race reads the mask. */
  ghost predicate ReadsMask(h: Hash, s: State, t: nat, s': State, e: Event)
    requires t < |s.threads|
  {
    var pc := s.threads[t];
    && pc.Checking?
    && if Low(h(pc.op.key), s.level) == Low(h(pc.op.key), pc.j) then
         NoRace(s, t, s', e, pc.op, s.level, pc.i, pc.w, pc.why)
       else
         e == Silent && s' == Goes(s, t, Flag(pc.op, pc.j, pc.i, pc.w, pc.why, s.level))
  }

  /** check_rehashing_collision reads the flag of the next bucket on the path. */
  ghost predicate ReadsFlag(h: Hash, s: State, t: nat, s': State, e: Event)
    requires t < |s.threads|
  {
    var pc := s.threads[t];
    && pc.Flag? && pc.i < |s.buckets| && pc.j < pc.now && Low(h(pc.op.key), pc.j) != Low(h(pc.op.key), pc.now)
    && var c := Low(h(pc.op.key), NextLevel(h(pc.op.key), pc.j, pc.now));
       && c < |s.buckets|
       && if s.buckets[c].status == Required then
            NoRace(s, t, s', e, pc.op, pc.now, pc.i, pc.w, pc.why)
          else
            e == Silent &&
            s' == With(s, t, Acquire(pc.op, pc.now, [Low(h(pc.op.key), pc.now)], Unknown), pc.i,
                       Released(s.buckets[pc.i], t))
  }

  ghost predicate Inserts(s: State, t: nat, s': State, e: Event)
    requires t < |s.threads|
  {
    var pc := s.threads[t];
    && pc.Cleared? && pc.op.Insert? && pc.i < |s.buckets| && e == Inserted(pc.op.key, pc.op.value)
    && var b := s.buckets[pc.i];
       s' == With(s, t, Idle, pc.i, Released(b, t).(nodes := [Node(pc.op.key, pc.op.value)] + b.nodes))
  }

  /** enable_segment: the first time a whole block of segments, later one segment. */
  ghost predicate Grows(s: State, s': State) {
    var level := if s.level < 8 then 8 else s.level + 1;
    && s'.level == level && s'.threads == s.threads && |s'.buckets| == Pow2(level) >= |s.buckets|
    && (forall i | 0 <= i < |s'.buckets| ::
          s'.buckets[i] == if i < |s.buckets| then s.buckets[i] else Bucket(Required, [], None, {}))
  }

  ghost predicate ThreadStep(h: Hash, s: State, t: nat, s': State, e: Event)
    requires t < |s.threads|
  {
    || (e == Silent &&
        (Begins(h, s, t, s') || Looks(s, t, s') || TriesLock(s, t, s') || Locks(s, t, s') || Fetches(h, s, t, s')
         || Upgrades(s, t, s') || LosesUpgrade(s, t, s') || Regains(s, t, s') || Misses(s, t, s') || GivesWay(s, t, s')
         || exists p: nat :: MovesNode(h, s, t, s', p)))
    || Hits(s, t, s', e) || ReadsMask(h, s, t, s', e) || ReadsFlag(h, s, t, s', e) || Inserts(s, t, s', e)
  }

  ghost predicate Step(h: Hash, s: State, s': State, e: Event) {
    (e == Silent && Grows(s, s')) || exists t: nat :: t < |s.threads| && ThreadStep(h, s, t, s', e)
  }

  // ---------------------------------------------------------------- invariant

  ghost predicate IsSettled(s: State, i: nat) {
    i < |s.buckets| && s.buckets[i].status == Settled
  }

  ghost predicate Holds(s: State, t: nat, i: nat, w: bool) {
    i < |s.buckets| && if w then s.buckets[i].writer == Some(t) else t in s.buckets[i].readers
  }

  /** A bucket by itself. */
  ghost predicate BucketOk(b: Bucket) {
    && (b.writer.Some? ==> b.readers == {})
    && (b.status == Required ==> Free(b) && b.nodes == [])
    && (b.status == Moving ==> b.writer.Some?)
    && (forall p, q | 0 <= p < q < |b.nodes| :: b.nodes[p].key != b.nodes[q].key)
  }

  /** The table: a settled bucket has a settled parent. */
  ghost predicate TableOk(s: State) {
    && s.level >= 1 && |s.buckets| == Pow2(s.level)
    && (forall i | 0 <= i < |s.buckets| :: BucketOk(s.buckets[i]))
    && IsSettled(s, 0) && IsSettled(s, 1)
    && (forall i: nat {:trigger Parent(i)} | i > 1 && IsSettled(s, i) :: IsSettled(s, Parent(i)))
  }

  ghost predicate Contains(s: State, i: nat, n: Node) {
    i < |s.buckets| && n in s.buckets[i].nodes
  }

  /** No bucket further along the path of hash code x than i is settled. */
  ghost predicate Deepest(s: State, i: nat, x: nat) {
    forall d: nat | d > i && IsSettled(s, d) :: !OnPath(d, x)
  }

  /** Every node is in the deepest settled bucket of its path, or has just moved from there to a child. */
  ghost predicate Placed(h: Hash, s: State) {
    forall i: nat, n | Contains(s, i, n) ::
      && OnPath(i, h(n.key)) && Deepest(s, i, h(n.key))
      && (!IsSettled(s, i) ==> i > 1 && IsSettled(s, Parent(i)))
  }

  /** t fetches the nodes of bucket c from its parent, which it holds in write mode. */
  ghost predicate FetchesFor(s: State, t: nat, c: nat) {
    && t < |s.threads| && s.threads[t].Fetch? && s.threads[t].w
    && |s.threads[t].chain| >= 2 && s.threads[t].chain[|s.threads[t].chain| - 2] == c
  }

  /** A bucket that already has some of its nodes but is not settled is being filled from its locked parent. */
  ghost predicate InTransit(s: State) {
    forall c: nat {:trigger Parent(c)} | c < |s.buckets| && s.buckets[c].status == Moving && s.buckets[c].nodes != [] ::
      c > 1 && Parent(c) < |s.buckets| && s.buckets[Parent(c)].writer.Some?
        && FetchesFor(s, s.buckets[Parent(c)].writer.value, c)
  }

  ghost predicate ChainOk(h: Hash, s: State, t: nat, op: Op, j: nat, chain: seq<nat>) {
    && chain != [] && 1 <= j <= s.level && chain[0] == Low(h(op.key), j)
    && (forall a | 0 <= a < |chain| :: chain[a] < |s.buckets|)
    && (forall a | 0 <= a < |chain| - 1 ::
          && chain[a] > 1 && chain[a + 1] == Parent(chain[a])
          && s.buckets[chain[a]].status == Moving && s.buckets[chain[a]].writer == Some(t))
  }

  /** The bucket that a thread has locked is the one its mask gives, or is known to be the deepest settled one. */
  ghost predicate At(h: Hash, s: State, t: nat, op: Op, j: nat, i: nat, w: bool) {
    && 1 <= j <= s.level && i < |s.buckets| && IsSettled(s, i) && Holds(s, t, i, w) && OnPath(i, h(op.key))
    && (i == Low(h(op.key), j) || (w && Deepest(s, i, h(op.key))))
  }

  ghost predicate Lacks(s: State, i: nat, op: Op) {
    i < |s.buckets| && forall n | n in s.buckets[i].nodes :: !Matches(op, n)
  }

  ghost predicate ThreadOk(h: Hash, s: State, t: nat, pc: Pc) {
    match pc
    case Idle => true
    case Acquire(op, j, chain, look) =>
      ChainOk(h, s, t, op, j, chain) && (look == Blocking ==> s.buckets[Last(chain)].status != Required)
    case Fetch(op, j, chain, w) =>
      ChainOk(h, s, t, op, j, chain) && |chain| >= 2 && IsSettled(s, Last(chain)) && Holds(s, t, Last(chain), w)
    case Reacquire(op, j, chain) =>
      ChainOk(h, s, t, op, j, chain) && IsSettled(s, Last(chain))
    case Holding(op, j, i, w) => At(h, s, t, op, j, i, w)
    case Checking(op, j, i, w, why) =>
      At(h, s, t, op, j, i, w)
        && (if why == Contended then w && op.Erase? else Lacks(s, i, op) && (op.Insert? ==> w))
    case Flag(op, j, i, w, why, now) =>
      && At(h, s, t, op, j, i, w)
      && (if why == Contended then w && op.Erase? else Lacks(s, i, op) && (op.Insert? ==> w))
      && j < now <= s.level && Low(h(op.key), j) != Low(h(op.key), now)
    case Cleared(op, j, i) =>
      && op.Insert? && At(h, s, t, op, j, i, true) && Lacks(s, i, op) && Deepest(s, i, h(op.key))
  }

  /** No key is in two buckets. */
  ghost predicate NoTwins(s: State) {
    forall i: nat, k: nat, a, b | i != k && Contains(s, i, a) && Contains(s, k, b) :: a.key != b.key
  }

  ghost predicate Inv(h: Hash, s: State) {
    && TableOk(s) && Placed(h, s) && InTransit(s)
    && NoTwins(s)
    && (forall t | 0 <= t < |s.threads| :: ThreadOk(h, s, t, s.threads[t]))
  }

  // ---------------------------------------------------------------- what other threads rely on

  /** A newly settled bucket was filled from a settled parent, which u had not locked for writing. */
  ghost predicate SettlesFairly(s: State, s': State, u: nat, d: nat) {
    d > 1 && IsSettled(s, Parent(d)) && s.buckets[Parent(d)].writer != Some(u)
  }

  ghost predicate KeptFor(b: Bucket, b': Bucket, u: nat) {
    && (b.status != Required ==> b'.status != Required) && (b.status == Settled ==> b'.status == Settled)
    && (b.writer == Some(u) ==> b'.writer == Some(u) && b'.status == b.status)
    && (u in b.readers ==> u in b'.readers)
    && (b.writer == Some(u) || u in b.readers ==> b'.nodes == b.nodes)
  }

  /** The step from s to s' takes nothing from thread u. */
  ghost predicate Undisturbed(s: State, s': State, u: nat) {
    && s.level <= s'.level && |s.buckets| <= |s'.buckets|
    && (forall i | 0 <= i < |s.buckets| :: KeptFor(s.buckets[i], s'.buckets[i], u))
    && (forall d: nat | IsSettled(s', d) && !IsSettled(s, d) :: SettlesFairly(s, s', u, d))
  }

  lemma DeepestStays(s: State, s': State, u: nat, i: nat, x: nat)
    requires Undisturbed(s, s', u) && Deepest(s, i, x) && OnPath(i, x) && i < |s.buckets|
    requires s.buckets[i].writer == Some(u)
    ensures Deepest(s', i, x)
  {
    forall d: nat | d > i && IsSettled(s', d) ensures !OnPath(d, x) {
      if OnPath(d, x) {
        assert SettlesFairly(s, s', u, d);
        ParentOnPath(d, x);
      }
    }
  }

  lemma StaysOk(h: Hash, s: State, s': State, u: nat, pc: Pc)
    requires ThreadOk(h, s, u, pc) && Undisturbed(s, s', u)
    ensures ThreadOk(h, s', u, pc)
  {
    match pc
    case Idle =>
    case Acquire(op, j, chain, _) =>
      assert forall a | 0 <= a < |chain| :: KeptFor(s.buckets[chain[a]], s'.buckets[chain[a]], u);
    case Fetch(op, j, chain, _) =>
      assert forall a | 0 <= a < |chain| :: KeptFor(s.buckets[chain[a]], s'.buckets[chain[a]], u);
    case Reacquire(op, j, chain) =>
      assert forall a | 0 <= a < |chain| :: KeptFor(s.buckets[chain[a]], s'.buckets[chain[a]], u);
    case Holding(op, j, i, w) => AtStays(h, s, s', u, op, j, i, w);
    case Checking(op, j, i, w, _) => AtStays(h, s, s', u, op, j, i, w);
    case Flag(op, j, i, w, _, _) => AtStays(h, s, s', u, op, j, i, w);
    case Cleared(op, j, i) =>
      AtStays(h, s, s', u, op, j, i, true);
      DeepestStays(s, s', u, i, h(op.key));
  }

  lemma AtStays(h: Hash, s: State, s': State, u: nat, op: Op, j: nat, i: nat, w: bool)
    requires At(h, s, u, op, j, i, w) && Undisturbed(s, s', u)
    ensures At(h, s', u, op, j, i, w) && s'.buckets[i].nodes == s.buckets[i].nodes
  {
    assert KeptFor(s.buckets[i], s'.buckets[i], u);
    if w && Deepest(s, i, h(op.key)) {
      DeepestStays(s, s', u, i, h(op.key));
    }
  }

  /** The other threads' part of the invariant. */
  lemma OthersStayOk(h: Hash, s: State, s': State, t: nat)
    requires t < |s.threads| == |s'.threads|
    requires forall u | 0 <= u < |s.threads| :: ThreadOk(h, s, u, s.threads[u])
    requires forall u: nat | u < |s.threads| && u != t :: s'.threads[u] == s.threads[u] && Undisturbed(s, s', u)
    requires ThreadOk(h, s', t, s'.threads[t])
    ensures forall u | 0 <= u < |s'.threads| :: ThreadOk(h, s', u, s'.threads[u])
  {
    forall u: nat | u < |s.threads| && u != t ensures ThreadOk(h, s', u, s'.threads[u]) {
      StaysOk(h, s, s', u, s.threads[u]);
    }
  }

  // ---------------------------------------------------------------- steps that change locks only

  /** Statuses and lists are the same. */
  ghost predicate SameContents(s: State, s': State) {
    && s'.level == s.level && |s'.buckets| == |s.buckets|
    && forall i | 0 <= i < |s.buckets| ::
       s'.buckets[i].status == s.buckets[i].status && s'.buckets[i].nodes == s.buckets[i].nodes
  }

  lemma SameTable(h: Hash, s: State, s': State)
    requires TableOk(s) && Placed(h, s) && NoTwins(s) && SameContents(s, s')
    requires forall i | 0 <= i < |s'.buckets| :: BucketOk(s'.buckets[i])
    ensures TableOk(s') && Placed(h, s') && NoTwins(s')
    ensures forall d: nat :: IsSettled(s', d) == IsSettled(s, d)
    ensures forall i: nat, n :: Contains(s', i, n) == Contains(s, i, n)
  {
    assert forall d: nat :: IsSettled(s', d) == IsSettled(s, d);
    assert forall i: nat, n :: Contains(s', i, n) == Contains(s, i, n);
    forall i: nat, n | Contains(s', i, n) ensures Deepest(s', i, h(n.key)) {
      assert Contains(s, i, n);
    }
  }

  /** What t may do to the locks of a bucket. */
  ghost predicate LocksKept(b: Bucket, b': Bucket, t: nat) {
    && b'.status == b.status && b'.nodes == b.nodes && BucketOk(b')
    && (b.writer.Some? && b.writer != Some(t) ==> b'.writer == b.writer)
    && (forall u | u in b.readers && u != t :: u in b'.readers)
  }

  lemma LockStep(h: Hash, s: State, t: nat, pc: Pc, i: nat, b: Bucket)
    requires Inv(h, s) && t < |s.threads| && i < |s.buckets| && LocksKept(s.buckets[i], b, t)
    requires !(s.threads[t].Fetch? && s.threads[t].w)
    requires ThreadOk(h, With(s, t, pc, i, b), t, pc)
    ensures Inv(h, With(s, t, pc, i, b)) && SameContents(s, With(s, t, pc, i, b))
  {
    var s' := With(s, t, pc, i, b);
    SameTable(h, s, s');
    LockTransit(s, t, pc, i, b);
    forall u: nat | u < |s.threads| && u != t ensures s'.threads[u] == s.threads[u] && Undisturbed(s, s', u) {
      LockUndisturbed(s, t, pc, i, b, u);
    }
    OthersStayOk(h, s, s', t);
  }

  lemma LockTransit(s: State, t: nat, pc: Pc, i: nat, b: Bucket)
    requires InTransit(s) && t < |s.threads| && i < |s.buckets| && LocksKept(s.buckets[i], b, t)
    requires !(s.threads[t].Fetch? && s.threads[t].w)
    ensures InTransit(With(s, t, pc, i, b))
  {
    var s' := With(s, t, pc, i, b);
    forall c: nat | c < |s'.buckets| && s'.buckets[c].status == Moving && s'.buckets[c].nodes != []
      ensures c > 1 && Parent(c) < |s'.buckets| && s'.buckets[Parent(c)].writer.Some?
      ensures FetchesFor(s', s'.buckets[Parent(c)].writer.value, c)
    {
      assert FetchesFor(s, s.buckets[Parent(c)].writer.value, c);
    }
  }

  lemma LockUndisturbed(s: State, t: nat, pc: Pc, i: nat, b: Bucket, u: nat)
    requires t < |s.threads| && i < |s.buckets| && LocksKept(s.buckets[i], b, t) && u != t
    ensures Undisturbed(s, With(s, t, pc, i, b), u)
  {
    assert KeptFor(s.buckets[i], b, u);
  }

  lemma PcStep(h: Hash, s: State, t: nat, pc: Pc)
    requires Inv(h, s) && t < |s.threads| && !(s.threads[t].Fetch? && s.threads[t].w)
    requires ThreadOk(h, Goes(s, t, pc), t, pc)
    ensures Inv(h, Goes(s, t, pc)) && SameContents(s, Goes(s, t, pc))
  {
    assert s.buckets[0 := s.buckets[0]] == s.buckets;
    assert BucketOk(s.buckets[0]);
    LockStep(h, s, t, pc, 0, s.buckets[0]);
  }

  lemma BeginsKeeps(h: Hash, s: State, t: nat, s': State)
    requires Inv(h, s) && t < |s.threads| && Begins(h, s, t, s')
    ensures Inv(h, s') && SameContents(s, s')
  {
    var op: Op :| s' == Goes(s, t, Acquire(op, s.level, [Low(h(op.key), s.level)], Unknown));
    LowBounds(h(op.key), s.level);
    PcStep(h, s, t, Acquire(op, s.level, [Low(h(op.key), s.level)], Unknown));
  }

  lemma LooksKeeps(h: Hash, s: State, t: nat, s': State)
    requires Inv(h, s) && t < |s.threads| && Looks(s, t, s')
    ensures Inv(h, s') && SameContents(s, s')
  {
    assert ThreadOk(h, s, t, s.threads[t]);
    PcStep(h, s, t, s'.threads[t]);
  }

  /** With its last bucket locked and settled, a chain is ready to be worked off. */
  lemma EnteredOk(h: Hash, s: State, t: nat, op: Op, j: nat, chain: seq<nat>, w: bool)
    requires ChainOk(h, s, t, op, j, chain) && IsSettled(s, Last(chain)) && Holds(s, t, Last(chain), w)
    ensures ThreadOk(h, s, t, Entered(op, j, chain, w))
  {
    MaskedOnPath(h(op.key), j);
  }

  /** Locking a bucket beyond the chain leaves the chain as it is. */
  lemma ChainStays(h: Hash, s: State, t: nat, op: Op, j: nat, chain: seq<nat>, pc: Pc, b: Bucket)
    requires t < |s.threads| && ChainOk(h, s, t, op, j, chain) && IsSettled(s, Last(chain)) && b.status == Settled
    ensures ChainOk(h, With(s, t, pc, Last(chain), b), t, op, j, chain)
  {
  }

  lemma LockKeeps(h: Hash, s: State, t: nat, op: Op, j: nat, chain: seq<nat>, b: Bucket, w: bool)
    requires Inv(h, s) && t < |s.threads| && !s.threads[t].Fetch?
    requires ChainOk(h, s, t, op, j, chain) && IsSettled(s, Last(chain)) && LocksKept(s.buckets[Last(chain)], b, t)
    requires if w then b.writer == Some(t) else t in b.readers
    ensures var s' := With(s, t, Entered(op, j, chain, w), Last(chain), b); Inv(h, s') && SameContents(s, s')
  {
    var pc := Entered(op, j, chain, w);
    var s' := With(s, t, pc, Last(chain), b);
    ChainStays(h, s, t, op, j, chain, pc, b);
    EnteredOk(h, s', t, op, j, chain, w);
    LockStep(h, s, t, pc, Last(chain), b);
  }

  lemma TriesLockKeeps(h: Hash, s: State, t: nat, s': State)
    requires Inv(h, s) && t < |s.threads| && TriesLock(s, t, s')
    ensures Inv(h, s') && SameNodes(s, s')
  {
    var pc := s.threads[t];
    var i := Last(pc.chain);
    var b := s.buckets[i];
    assert ThreadOk(h, s, t, pc) && BucketOk(b);
    if !Free(b) {
      PcStep(h, s, t, pc.(look := Blocking));
    } else if b.status == Required {
      MarksKeeps(h, s, t, s');
    } else {
      LockKeeps(h, s, t, pc.op, pc.j, pc.chain, b.(writer := Some(t)), true);
    }
  }

  ghost predicate SameNodes(s: State, s': State) {
    |s'.buckets| == |s.buckets| && forall i | 0 <= i < |s.buckets| :: s'.buckets[i].nodes == s.buckets[i].nodes
  }

  lemma MarksKeeps(h: Hash, s: State, t: nat, s': State)
    requires Inv(h, s) && t < |s.threads| && TriesLock(s, t, s') && s.threads[t].look == SawRequired
    requires Free(s.buckets[Last(s.threads[t].chain)]) && s.buckets[Last(s.threads[t].chain)].status == Required
    ensures Inv(h, s') && SameNodes(s, s')
  {
    var pc := s.threads[t];
    var i := Last(pc.chain);
    assert ThreadOk(h, s, t, pc) && BucketOk(s.buckets[i]);
    ParentLess(i);
    assert BucketOk(s'.buckets[i]);
    MarkedTable(h, s, s', i);
    forall u: nat | u < |s.threads| && u != t ensures s'.threads[u] == s.threads[u] && Undisturbed(s, s', u) {
      OneBucketUndisturbed(s, s', i, u);
    }
    OthersStayOk(h, s, s', t);
  }

  lemma OneBucketUndisturbed(s: State, s': State, i: nat, u: nat)
    requires s'.level == s.level && |s'.buckets| == |s.buckets| && i < |s.buckets|
    requires forall d | 0 <= d < |s.buckets| && d != i :: s'.buckets[d] == s.buckets[d]
    requires KeptFor(s.buckets[i], s'.buckets[i], u)
    requires s'.buckets[i].status == Settled ==> s.buckets[i].status == Settled
    ensures Undisturbed(s, s', u)
  {
  }

  lemma MarkedTable(h: Hash, s: State, s': State, i: nat)
    requires TableOk(s) && Placed(h, s) && InTransit(s) && NoTwins(s) && i < |s.buckets| && Free(s.buckets[i])
    requires s.buckets[i].status == Required
    requires s'.level == s.level && |s'.buckets| == |s.buckets| && |s'.threads| == |s.threads|
    requires forall d | 0 <= d < |s.buckets| && d != i :: s'.buckets[d] == s.buckets[d]
    requires BucketOk(s'.buckets[i]) && s'.buckets[i].status == Moving && s'.buckets[i].nodes == []
    requires forall u | 0 <= u < |s.threads| && s.threads[u].Fetch? :: s'.threads[u] == s.threads[u]
    ensures TableOk(s') && Placed(h, s') && InTransit(s') && NoTwins(s') && SameNodes(s, s')
  {
    assert BucketOk(s.buckets[i]);
    assert forall d: nat :: IsSettled(s', d) == IsSettled(s, d);
    assert forall d: nat, n :: Contains(s', d, n) == Contains(s, d, n);
    forall c: nat | c < |s'.buckets| && s'.buckets[c].status == Moving && s'.buckets[c].nodes != []
      ensures c > 1 && Parent(c) < |s'.buckets| && s'.buckets[Parent(c)].writer.Some?
      ensures FetchesFor(s', s'.buckets[Parent(c)].writer.value, c)
    {
      assert FetchesFor(s, s.buckets[Parent(c)].writer.value, c);
    }
    forall d: nat, n | Contains(s', d, n) ensures Deepest(s', d, h(n.key)) {
      assert Contains(s, d, n);
    }
  }

  lemma LocksKeeps(h: Hash, s: State, t: nat, s': State)
    requires Inv(h, s) && t < |s.threads| && Locks(s, t, s')
    ensures Inv(h, s') && SameContents(s, s')
  {
    var pc := s.threads[t];
    var b := s.buckets[Last(pc.chain)];
    assert ThreadOk(h, s, t, pc) && BucketOk(b);
    if |pc.chain| == 1 && pc.op.Exclude? {
      LockKeeps(h, s, t, pc.op, pc.j, pc.chain, b.(writer := Some(t)), true);
    } else {
      LockKeeps(h, s, t, pc.op, pc.j, pc.chain, b.(readers := b.readers + {t}), false);
    }
  }

  lemma UpgradesKeeps(h: Hash, s: State, t: nat, s': State)
    requires Inv(h, s) && t < |s.threads| && Upgrades(s, t, s')
    ensures Inv(h, s') && SameContents(s, s')
  {
    var pc := s.threads[t];
    var i := if pc.Fetch? then Last(pc.chain) else pc.i;
    var b := s.buckets[i];
    assert ThreadOk(h, s, t, pc) && BucketOk(b);
    LockStep(h, s, t, s'.threads[t], i, b.(readers := {}, writer := Some(t)));
  }

  lemma LosesKeeps(h: Hash, s: State, t: nat, s': State)
    requires Inv(h, s) && t < |s.threads| && LosesUpgrade(s, t, s')
    ensures Inv(h, s') && SameContents(s, s')
  {
    var pc := s.threads[t];
    var i := if pc.Fetch? then Last(pc.chain) else pc.i;
    var b := s.buckets[i];
    assert ThreadOk(h, s, t, pc) && BucketOk(b);
    LockStep(h, s, t, s'.threads[t], i, Released(b, t));
  }

  lemma RegainsKeeps(h: Hash, s: State, t: nat, s': State)
    requires Inv(h, s) && t < |s.threads| && Regains(s, t, s')
    ensures Inv(h, s') && SameContents(s, s')
  {
    var pc := s.threads[t];
    var i := Last(pc.chain);
    var b := s.buckets[i].(writer := Some(t));
    assert ThreadOk(h, s, t, pc) && BucketOk(s.buckets[i]);
    if |pc.chain| == 1 && pc.op.Erase? {
      MaskedOnPath(h(pc.op.key), pc.j);
      LockStep(h, s, t, Checking(pc.op, pc.j, i, true, Contended), i, b);
    } else {
      LockKeeps(h, s, t, pc.op, pc.j, pc.chain, b, true);
    }
  }

  lemma MissesKeeps(h: Hash, s: State, t: nat, s': State)
    requires Inv(h, s) && t < |s.threads| && Misses(s, t, s')
    ensures Inv(h, s') && SameContents(s, s')
  {
    assert ThreadOk(h, s, t, s.threads[t]);
    PcStep(h, s, t, s'.threads[t]);
  }

  /** Letting go of the lock at the end of an operation. */
  lemma ReleaseKeeps(h: Hash, s: State, t: nat, i: nat, pc: Pc)
    requires Inv(h, s) && t < |s.threads| && i < |s.buckets| && IsSettled(s, i) && !s.threads[t].Fetch?
    requires pc == Idle
             || (pc.Acquire? && pc.look == Unknown && |pc.chain| == 1 && 1 <= pc.j <= s.level
                 && pc.chain[0] == Low(h(pc.op.key), pc.j))
    ensures var s' := With(s, t, pc, i, Released(s.buckets[i], t)); Inv(h, s') && SameContents(s, s')
  {
    assert BucketOk(s.buckets[i]);
    if pc.Acquire? {
      LowBounds(h(pc.op.key), pc.j);
      PowersGrow(pc.j, s.level);
    }
    LockStep(h, s, t, pc, i, Released(s.buckets[i], t));
  }

  lemma GivesWayKeeps(h: Hash, s: State, t: nat, s': State)
    requires Inv(h, s) && t < |s.threads| && GivesWay(s, t, s')
    ensures Inv(h, s') && SameContents(s, s')
  {
    assert ThreadOk(h, s, t, s.threads[t]);
    ReleaseKeeps(h, s, t, s.threads[t].i, Idle);
  }

  // ---------------------------------------------------------------- paths and settled buckets

  /** Everything on the path above a settled bucket is settled. */
  lemma {:induction false} SettledAncestors(s: State, d: nat, i: nat, x: nat)
    requires TableOk(s) && IsSettled(s, d) && OnPath(d, x) && OnPath(i, x) && i <= d
    ensures IsSettled(s, i)
  {
    if i < d {
      if d > 1 {
        ParentOnPath(d, x);
        SettledAncestors(s, Parent(d), i, x);
      }
    }
  }

  /**
   A thread has locked the deepest settled bucket of a key's path and does not find what it searches
   for: then that is in no bucket.
   */
  lemma MissingHereIsMissing(h: Hash, s: State, t: nat, i: nat, w: bool, op: Op)
    requires Inv(h, s) && t < |s.threads| && !s.threads[t].Fetch?
    requires IsSettled(s, i) && Holds(s, t, i, w) && OnPath(i, h(op.key)) && Deepest(s, i, h(op.key)) && Lacks(s, i, op)
    ensures forall n | InTable(s, n) :: !Matches(op, n)
  {
    assert BucketOk(s.buckets[i]);
    forall n | InTable(s, n) ensures !Matches(op, n) {
      var c: nat :| Contains(s, c, n);
      assert BucketOk(s.buckets[c]);
      if c > i && OnPath(c, h(op.key)) {
        ParentOnPath(c, h(op.key));
      }
    }
  }

  ghost predicate InTable(s: State, n: Node) {
    exists i: nat :: Contains(s, i, n)
  }

  lemma SameNodesSameTable(s: State, s': State)
    requires SameNodes(s, s')
    ensures forall n :: InTable(s', n) == InTable(s, n)
  {
    assert forall i: nat, n :: Contains(s', i, n) == Contains(s, i, n);
    forall n ensures InTable(s', n) == InTable(s, n) {
      if InTable(s, n) {
        var i: nat :| Contains(s, i, n);
        assert Contains(s', i, n);
      }
      if InTable(s', n) {
        var i: nat :| Contains(s', i, n);
        assert Contains(s, i, n);
      }
    }
  }

  // ---------------------------------------------------------------- steps that change lists

  lemma FetchesKeeps(h: Hash, s: State, t: nat, s': State)
    requires Inv(h, s) && t < |s.threads| && Fetches(h, s, t, s')
    ensures Inv(h, s') && SameNodes(s, s')
  {
    var pc := s.threads[t];
    var p, c := Last(pc.chain), pc.chain[|pc.chain| - 2];
    FetchIsFetched(h, s, t, s');
    FetchedTable(s, t, s', c, p);
    FetchedPlaced(h, s, t, s', c, p);
    FetchedTransit(s, t, s', c, p);
    FetchedChain(h, s, t, s', pc.op, pc.j, pc.chain);
    forall u: nat | u < |s.threads| && u != t ensures Undisturbed(s, s', u) {
      FetchedUndisturbed(s, t, s', c, p, u);
    }
    OthersStayOk(h, s, s', t);
  }

  lemma FetchIsFetched(h: Hash, s: State, t: nat, s': State)
    requires t < |s.threads| && ThreadOk(h, s, t, s.threads[t]) && Fetches(h, s, t, s')
    ensures var pc := s.threads[t];
            && ChainOk(h, s, t, pc.op, pc.j, pc.chain)
            && Fetched(s, t, s', pc.chain[|pc.chain| - 2], Last(pc.chain))
            && forall n | Contains(s, Last(pc.chain), n) :: !OnPath(pc.chain[|pc.chain| - 2], h(n.key))
  {
    var pc := s.threads[t];
    ParentLess(pc.chain[|pc.chain| - 2]);
    assert Holds(s, t, Last(pc.chain), pc.w);
  }

  /** Thread t has filled bucket c from its parent p, which it lets go of. */
  ghost predicate Fetched(s: State, t: nat, s': State, c: nat, p: nat) {
    && c > 1 && p == Parent(c) && p != c && c < |s.buckets| && IsSettled(s, p) && (exists w :: Holds(s, t, p, w))
    && s.buckets[c].status == Moving && s.buckets[c].writer == Some(t)
    && s'.level == s.level && |s'.threads| == |s.threads|
    && s'.buckets == s.buckets[p := Released(s.buckets[p], t)][c := s.buckets[c].(status := Settled)]
  }

  lemma FetchedTable(s: State, t: nat, s': State, c: nat, p: nat)
    requires TableOk(s) && NoTwins(s) && Fetched(s, t, s', c, p)
    ensures TableOk(s') && NoTwins(s') && SameNodes(s, s')
    ensures forall d: nat :: IsSettled(s', d) == (IsSettled(s, d) || d == c)
    ensures forall d: nat, n :: Contains(s', d, n) == Contains(s, d, n)
  {
    assert BucketOk(s.buckets[p]) && BucketOk(s.buckets[c]);
    assert BucketOk(s'.buckets[p]) && BucketOk(s'.buckets[c]);
    assert forall d: nat :: IsSettled(s', d) == (IsSettled(s, d) || d == c);
    assert forall d: nat, n :: Contains(s', d, n) == Contains(s, d, n);
  }

  lemma FetchedTransit(s: State, t: nat, s': State, c: nat, p: nat)
    requires TableOk(s) && InTransit(s) && Fetched(s, t, s', c, p) && t < |s.threads|
    requires forall d: nat | FetchesFor(s, t, d) :: d == c
    requires forall u: nat | u < |s.threads| && u != t :: s'.threads[u] == s.threads[u]
    ensures InTransit(s')
  {
    assert BucketOk(s.buckets[p]);
    forall d: nat | d < |s'.buckets| && s'.buckets[d].status == Moving && s'.buckets[d].nodes != []
      ensures d > 1 && Parent(d) < |s'.buckets| && s'.buckets[Parent(d)].writer.Some?
      ensures FetchesFor(s', s'.buckets[Parent(d)].writer.value, d)
    {
      assert FetchesFor(s, s.buckets[Parent(d)].writer.value, d);
    }
  }

  lemma {:induction false} ChainDescends(chain: seq<nat>, a: nat, b: nat)
    requires a < b < |chain| && forall k | 0 <= k < |chain| - 1 :: chain[k] > 1 && chain[k + 1] == Parent(chain[k])
    ensures chain[a] > chain[b]
  {
    ParentLess(chain[b - 1]);
    if a < b - 1 {
      ChainDescends(chain, a, b - 1);
    }
  }

  lemma FetchedChain(h: Hash, s: State, t: nat, s': State, op: Op, j: nat, chain: seq<nat>)
    requires ChainOk(h, s, t, op, j, chain) && |chain| >= 2 && Fetched(s, t, s', chain[|chain| - 2], Last(chain))
    ensures ThreadOk(h, s', t, Entered(op, j, AllButLast(chain), true))
  {
    var rest := AllButLast(chain);
    forall a | 0 <= a < |chain| - 2 ensures chain[a] > chain[|chain| - 2] {
      ChainDescends(chain, a, |chain| - 2);
    }
    assert ChainOk(h, s', t, op, j, rest);
    EnteredOk(h, s', t, op, j, rest, true);
  }

  lemma FetchedUndisturbed(s: State, t: nat, s': State, c: nat, p: nat, u: nat)
    requires TableOk(s) && Fetched(s, t, s', c, p) && u != t
    ensures Undisturbed(s, s', u)
  {
    assert BucketOk(s.buckets[p]);
    forall d: nat | IsSettled(s', d) && !IsSettled(s, d) ensures SettlesFairly(s, s', u, d) {
      assert d == c;
    }
  }

  /** No node above the fetched bucket belongs in it. */
  lemma FetchedPlaced(h: Hash, s: State, t: nat, s': State, c: nat, p: nat)
    requires TableOk(s) && Placed(h, s) && c > 1 && Parent(c) == p && IsSettled(s, p)
    requires forall n | Contains(s, p, n) :: !OnPath(c, h(n.key))
    requires forall d: nat :: IsSettled(s', d) == (IsSettled(s, d) || d == c)
    requires forall d: nat, n :: Contains(s', d, n) == Contains(s, d, n)
    ensures Placed(h, s')
  {
    forall i: nat, n | Contains(s', i, n)
      ensures Deepest(s', i, h(n.key)) && (!IsSettled(s', i) ==> i > 1 && IsSettled(s', Parent(i)))
    {
      assert Contains(s, i, n);
      if c > i && OnPath(c, h(n.key)) {
        ParentOnPath(c, h(n.key));
      }
    }
  }

  /** Node m is now in bucket c, everything else is where it was. */
  ghost predicate MovedTo(s: State, s': State, c: nat, m: Node) {
    forall i: nat, n :: Contains(s', i, n) <==> (if n == m then i == c else Contains(s, i, n))
  }

  lemma MovedPlaced(h: Hash, s: State, s': State, p: nat, c: nat, m: Node)
    requires TableOk(s) && Placed(h, s) && NoTwins(s) && Contains(s, p, m) && MovedTo(s, s', c, m)
    requires forall d: nat :: IsSettled(s', d) == IsSettled(s, d)
    requires c > 1 && Parent(c) == p && IsSettled(s, p) && !IsSettled(s, c) && OnPath(c, h(m.key))
    ensures Placed(h, s') && NoTwins(s')
  {
    forall i: nat, n | Contains(s', i, n)
      ensures OnPath(i, h(n.key)) && Deepest(s', i, h(n.key))
      ensures !IsSettled(s', i) ==> i > 1 && IsSettled(s', Parent(i))
    {
      if n == m {
        forall d: nat | d > c && IsSettled(s', d) ensures !OnPath(d, h(m.key)) {
          if OnPath(d, h(m.key)) {
            SettledAncestors(s, d, c, h(m.key));
          }
        }
      } else {
        assert Contains(s, i, n);
      }
    }
  }

  lemma MovesKeeps(h: Hash, s: State, t: nat, s': State, q: nat)
    requires Inv(h, s) && t < |s.threads| && MovesNode(h, s, t, s', q)
    ensures Inv(h, s') && forall n :: InTable(s', n) == InTable(s, n)
  {
    var pc := s.threads[t];
    var p, c := Last(pc.chain), pc.chain[|pc.chain| - 2];
    var m := s.buckets[p].nodes[q];
    assert ThreadOk(h, s, t, pc) && BucketOk(s.buckets[p]);
    ParentLess(c);
    MovedLists(s, t, s', q, p, c);
    MovedPlaced(h, s, s', p, c, m);
    MovedTransit(s, t, s', c);
    forall u: nat | u < |s.threads| && u != t ensures s'.threads[u] == s.threads[u] && Undisturbed(s, s', u) {
      TwoBucketsUndisturbed(s, s', p, c, u);
    }
    OthersStayOk(h, s, s', t);
    MovedSameTable(s, s', p, c, m);
  }

  lemma TwoBucketsUndisturbed(s: State, s': State, p: nat, c: nat, u: nat)
    requires s'.level == s.level && |s'.buckets| == |s.buckets| && p < |s.buckets| && c < |s.buckets|
    requires forall d | 0 <= d < |s.buckets| && d != p && d != c :: s'.buckets[d] == s.buckets[d]
    requires forall d | 0 <= d < |s.buckets| :: s'.buckets[d].status == s.buckets[d].status
    requires KeptFor(s.buckets[p], s'.buckets[p], u) && KeptFor(s.buckets[c], s'.buckets[c], u)
    ensures Undisturbed(s, s', u)
  {
  }

  lemma MovedSameTable(s: State, s': State, p: nat, c: nat, m: Node)
    requires Contains(s, p, m) && MovedTo(s, s', c, m)
    ensures forall n :: InTable(s', n) == InTable(s, n)
  {
    forall n ensures InTable(s', n) == InTable(s, n) {
      assert Contains(s', c, m);
      if n != m && InTable(s, n) {
        var i: nat :| Contains(s, i, n);
        assert Contains(s', i, n);
      }
    }
  }

  lemma MovedTransit(s: State, t: nat, s': State, c: nat)
    requires InTransit(s) && FetchesFor(s, t, c) && s'.threads == s.threads && |s'.buckets| == |s.buckets|
    requires forall i | 0 <= i < |s.buckets| ::
             s'.buckets[i].status == s.buckets[i].status && s'.buckets[i].writer == s.buckets[i].writer
    requires forall i | 0 <= i < |s.buckets| && i != c && s.buckets[i].status == Moving ::
             s'.buckets[i].nodes == s.buckets[i].nodes
    requires c > 1 && Parent(c) < |s.buckets| && s.buckets[Parent(c)].writer == Some(t)
    ensures InTransit(s')
  {
    forall d: nat | d < |s'.buckets| && s'.buckets[d].status == Moving && s'.buckets[d].nodes != []
      ensures d > 1 && Parent(d) < |s'.buckets| && s'.buckets[Parent(d)].writer.Some?
      ensures FetchesFor(s', s'.buckets[Parent(d)].writer.value, d)
    {
      assert d != c ==> FetchesFor(s, s.buckets[Parent(d)].writer.value, d);
    }
  }

  lemma MovedLists(s: State, t: nat, s': State, q: nat, p: nat, c: nat)
    requires TableOk(s) && NoTwins(s) && p != c && p < |s.buckets| && c < |s.buckets| && q < |s.buckets[p].nodes|
    requires var b := s.buckets[p];
      s' == s.(buckets := s.buckets[p := b.(nodes := b.nodes[..q] + b.nodes[q + 1..])]
                                   [c := s.buckets[c].(nodes := [b.nodes[q]] + s.buckets[c].nodes)])
    requires s.buckets[c].status == Moving
    ensures TableOk(s') && Contains(s, p, s.buckets[p].nodes[q]) && MovedTo(s, s', c, s.buckets[p].nodes[q])
    ensures forall d: nat :: IsSettled(s', d) == IsSettled(s, d)
  {
    var b := s.buckets[p];
    var m := b.nodes[q];
    assert BucketOk(b) && BucketOk(s.buckets[c]);
    assert forall d: nat :: IsSettled(s', d) == IsSettled(s, d);
    WithoutOne(b.nodes, q);
    assert Contains(s, p, m);
    forall a | 0 <= a < |s.buckets[c].nodes| ensures s.buckets[c].nodes[a].key != m.key {
      assert Contains(s, c, s.buckets[c].nodes[a]);
    }
    assert BucketOk(s'.buckets[c]) && BucketOk(s'.buckets[p]);
    assert forall i: nat | Contains(s, i, m) :: i == p;
    var rest := b.nodes[..q] + b.nodes[q + 1..];
    assert s'.buckets[p].nodes == rest && s'.buckets[c].nodes == [m] + s.buckets[c].nodes;
    forall i: nat, n ensures Contains(s', i, n) <==> (if n == m then i == c else Contains(s, i, n)) {
      if i == p {
        assert n in rest <==> n in b.nodes && n != m;
      } else if i == c {
        assert Contains(s', i, n) <==> n in s'.buckets[c].nodes;
        assert n in s'.buckets[c].nodes <==> n == m || n in s.buckets[c].nodes;
        assert n == m ==> Contains(s', i, n);
        assert n != m ==> (Contains(s', i, n) ==> Contains(s, i, n));
        assert n != m ==> (Contains(s, i, n) ==> Contains(s', i, n));
      } else if i < |s.buckets| {
        assert Contains(s', i, n) == Contains(s, i, n);
        assert n == m ==> !Contains(s, i, n);
      } else {
        assert !Contains(s', i, n);
        assert n == m ==> i != c;
      }
    }
  }

  lemma WithoutOne(nodes: seq<Node>, q: nat)
    requires q < |nodes| && forall a, b | 0 <= a < b < |nodes| :: nodes[a].key != nodes[b].key
    ensures var rest := nodes[..q] + nodes[q + 1..];
      && (forall a, b | 0 <= a < b < |rest| :: rest[a].key != rest[b].key)
      && (forall n :: n in rest <==> n in nodes && n != nodes[q])
      && forall n | n in rest :: n.key != nodes[q].key
  {
    var rest := nodes[..q] + nodes[q + 1..];
    forall n ensures n in rest <==> n in nodes && n != nodes[q] {
      if n in nodes && n != nodes[q] {
        var a :| 0 <= a < |nodes| && nodes[a] == n;
        assert rest[if a < q then a else a - 1] == n;
      }
    }
  }

  /** The list of a settled bucket, locked for writing by t, changes; its other nodes stay. */
  lemma ListStep(h: Hash, s: State, t: nat, i: nat, nodes: seq<Node>)
    requires Inv(h, s) && t < |s.threads| && i < |s.buckets| && IsSettled(s, i) && Holds(s, t, i, true)
    requires !s.threads[t].Fetch?
    requires BucketOk(s.buckets[i].(nodes := nodes))
    requires forall n | n in nodes && n !in s.buckets[i].nodes ::
               OnPath(i, h(n.key)) && Deepest(s, i, h(n.key)) && forall n' | InTable(s, n') :: n'.key != n.key
    ensures var s' := With(s, t, Idle, i, Released(s.buckets[i], t).(nodes := nodes));
      && Inv(h, s')
      && forall c: nat, n :: Contains(s', c, n) <==> if c == i then n in nodes else Contains(s, c, n)
  {
    var s' := With(s, t, Idle, i, Released(s.buckets[i], t).(nodes := nodes));
    assert BucketOk(s.buckets[i]);
    assert forall d: nat :: IsSettled(s', d) == IsSettled(s, d);
    assert forall c: nat, n :: Contains(s', c, n) <==> if c == i then n in nodes else Contains(s, c, n);
    ListPlaced(h, s, s', i, nodes);
    forall d: nat | d < |s'.buckets| && s'.buckets[d].status == Moving && s'.buckets[d].nodes != []
      ensures d > 1 && Parent(d) < |s'.buckets| && s'.buckets[Parent(d)].writer.Some?
      ensures FetchesFor(s', s'.buckets[Parent(d)].writer.value, d)
    {
      assert FetchesFor(s, s.buckets[Parent(d)].writer.value, d);
    }
    OthersStayOk(h, s, s', t);
  }

  lemma ListPlaced(h: Hash, s: State, s': State, i: nat, nodes: seq<Node>)
    requires Placed(h, s) && NoTwins(s) && IsSettled(s, i)
    requires forall d: nat :: IsSettled(s', d) == IsSettled(s, d)
    requires forall c: nat, n :: Contains(s', c, n) <==> if c == i then n in nodes else Contains(s, c, n)
    requires forall n | n in nodes && n !in s.buckets[i].nodes ::
               OnPath(i, h(n.key)) && Deepest(s, i, h(n.key)) && forall n' | InTable(s, n') :: n'.key != n.key
    ensures Placed(h, s') && NoTwins(s')
  {
    forall c: nat, n | Contains(s', c, n)
      ensures OnPath(c, h(n.key)) && Deepest(s', c, h(n.key))
      ensures !IsSettled(s', c) ==> c > 1 && IsSettled(s', Parent(c))
    {
      if c != i || n in s.buckets[i].nodes { assert Contains(s, c, n); }
    }
    forall c: nat, k: nat, a, b | c != k && Contains(s', c, a) && Contains(s', k, b) ensures a.key != b.key {
      if c == i {
        assert Contains(s, k, b) && InTable(s, b);
        if a in s.buckets[i].nodes { assert Contains(s, c, a); }
      } else if k == i {
        assert Contains(s, c, a) && InTable(s, a);
        if b in s.buckets[i].nodes { assert Contains(s, k, b); }
      }
    }
  }

  lemma InsertsKeeps(h: Hash, s: State, t: nat, s': State, e: Event)
    requires Inv(h, s) && t < |s.threads| && Inserts(s, t, s', e)
    ensures Inv(h, s') && Effect(s, s', e)
  {
    var pc := s.threads[t];
    var b := s.buckets[pc.i];
    var n := Node(pc.op.key, pc.op.value);
    assert ThreadOk(h, s, t, pc) && BucketOk(b);
    MissingHereIsMissing(h, s, t, pc.i, true, pc.op);
    assert forall x: Node | x.key == n.key :: Matches(pc.op, x);
    assert forall x | x in b.nodes :: x.key != n.key;
    ListStep(h, s, t, pc.i, [n] + b.nodes);
    assert Contains(s', pc.i, n);
    forall x ensures InTable(s', x) <==> InTable(s, x) || x == n {
      if InTable(s, x) {
        var c: nat :| Contains(s, c, x);
        assert Contains(s', c, x);
      }
      if InTable(s', x) && x != n {
        var c: nat :| Contains(s', c, x);
        assert Contains(s, c, x);
      }
    }
  }

  lemma HitsKeeps(h: Hash, s: State, t: nat, s': State, e: Event)
    requires Inv(h, s) && t < |s.threads| && Hits(s, t, s', e)
    ensures Inv(h, s') && Effect(s, s', e)
  {
    var pc := s.threads[t];
    var i, b := pc.i, s.buckets[pc.i];
    assert ThreadOk(h, s, t, pc) && BucketOk(b);
    if pc.op.Erase? || pc.op.Exclude? {
      ErasesKeeps(h, s, t, s', e);
    } else {
      var p: nat :| p < |b.nodes| && Matches(pc.op, b.nodes[p]) &&
                    if pc.op.Find? then e == Found(pc.op.key, b.nodes[p].value) else e == Existed(pc.op.key);
      assert Contains(s, i, b.nodes[p]) && InTable(s, b.nodes[p]);
      assert b.nodes[p] == Node(pc.op.key, b.nodes[p].value);
      ReleaseKeeps(h, s, t, i, Idle);
      SameNodesSameTable(s, s');
    }
  }

  lemma ErasesKeeps(h: Hash, s: State, t: nat, s': State, e: Event)
    requires Inv(h, s) && t < |s.threads| && Hits(s, t, s', e)
    requires s.threads[t].op.Erase? || s.threads[t].op.Exclude?
    ensures Inv(h, s') && Effect(s, s', e)
  {
    var pc := s.threads[t];
    var i, b := pc.i, s.buckets[pc.i];
    assert ThreadOk(h, s, t, pc) && BucketOk(b);
    var p: nat :| p < |b.nodes| && Matches(pc.op, b.nodes[p]) && e == Erased(pc.op.key, b.nodes[p].value) &&
                  s' == With(s, t, Idle, i, Released(b, t).(nodes := b.nodes[..p] + b.nodes[p + 1..]));
    var n := b.nodes[p];
    assert n == Node(pc.op.key, n.value);
    WithoutOne(b.nodes, p);
    ListStep(h, s, t, i, b.nodes[..p] + b.nodes[p + 1..]);
    assert Contains(s, i, n);
    forall x ensures InTable(s', x) <==> InTable(s, x) && x != n {
      if InTable(s, x) && x != n {
        var c: nat :| Contains(s, c, x);
        assert Contains(s', c, x);
      }
      if InTable(s', x) {
        var c: nat :| Contains(s', c, x);
        assert Contains(s, c, x);
      }
    }
  }

  // ---------------------------------------------------------------- the mask check

  /** What a step does to the table, by its event. */
  ghost predicate Effect(s: State, s': State, e: Event) {
    match e
    case Silent => forall n :: InTable(s', n) == InTable(s, n)
    case Found(k, v) => InTable(s, Node(k, v)) && forall n :: InTable(s', n) == InTable(s, n)
    case Existed(k) => (exists v :: InTable(s, Node(k, v))) && forall n :: InTable(s', n) == InTable(s, n)
    case Missing(k) => (forall n | InTable(s, n) :: n.key != k) && forall n :: InTable(s', n) == InTable(s, n)
    case Inserted(k, v) =>
      (forall n | InTable(s, n) :: n.key != k) && forall n :: InTable(s', n) <==> InTable(s, n) || n == Node(k, v)
    case Gone(k, v) => !InTable(s, Node(k, v)) && forall n :: InTable(s', n) == InTable(s, n)
    case Erased(k, v) =>
      InTable(s, Node(k, v)) && forall n :: InTable(s', n) <==> InTable(s, n) && n != Node(k, v)
  }

  lemma AbsentIsAbsent(s: State, op: Op)
    requires forall n | InTable(s, n) :: !Matches(op, n)
    ensures match Absent(op)
            case Gone(k, v) => !InTable(s, Node(k, v))
            case Missing(k) => forall n | InTable(s, n) :: n.key != k
            case _ => true
  {
    if op.Exclude? {
      assert Matches(op, Node(op.key, op.value));
    } else {
      assert forall n: Node | n.key == op.key :: Matches(op, n);
    }
  }

  lemma NoRaceKeeps(h: Hash, s: State, t: nat, s': State, e: Event, op: Op, j: nat, i: nat, w: bool, why: Why)
    requires Inv(h, s) && t < |s.threads| && NoRace(s, t, s', e, op, j, i, w, why) && !s.threads[t].Fetch?
    requires 1 <= j <= s.level && IsSettled(s, i) && Holds(s, t, i, w) && OnPath(i, h(op.key))
    requires Deepest(s, i, h(op.key))
    requires if why == Contended then w && op.Erase? else Lacks(s, i, op) && (op.Insert? ==> w)
    ensures Inv(h, s') && Effect(s, s', e)
  {
    if why == Contended || op.Insert? {
      PcStep(h, s, t, s'.threads[t]);
    } else {
      MissingHereIsMissing(h, s, t, i, w, op);
      AbsentIsAbsent(s, op);
      ReleaseKeeps(h, s, t, i, Idle);
    }
    SameNodesSameTable(s, s');
  }

  lemma ReadsMaskKeeps(h: Hash, s: State, t: nat, s': State, e: Event)
    requires Inv(h, s) && t < |s.threads| && ReadsMask(h, s, t, s', e)
    ensures Inv(h, s') && Effect(s, s', e)
  {
    var pc := s.threads[t];
    var x := h(pc.op.key);
    assert ThreadOk(h, s, t, pc);
    if Low(x, s.level) == Low(x, pc.j) {
      forall d: nat | d > pc.i && IsSettled(s, d) ensures !OnPath(d, x) {
        if OnPath(d, x) { PathWithin(d, x, s.level); }
      }
      NoRaceKeeps(h, s, t, s', e, pc.op, s.level, pc.i, pc.w, pc.why);
    } else {
      PcStep(h, s, t, s'.threads[t]);
      SameNodesSameTable(s, s');
    }
  }

  /** If the next bucket on the path is still to be rehashed, nothing further on is settled. */
  lemma NextRequiredMeansDeepest(h: Hash, s: State, i: nat, x: nat, j: nat, now: nat)
    requires TableOk(s) && 1 <= j < now <= s.level && Low(x, j) != Low(x, now) && i == Low(x, j)
    requires Low(x, NextLevel(x, j, now)) < |s.buckets| && s.buckets[Low(x, NextLevel(x, j, now))].status == Required
    ensures Deepest(s, i, x)
  {
    NextIsNext(x, j, now);
    var c := Low(x, NextLevel(x, j, now));
    forall d: nat | d > i && IsSettled(s, d) ensures !OnPath(d, x) {
      if OnPath(d, x) {
        SettledAncestors(s, d, c, x);
      }
    }
  }

  lemma ReadsFlagKeeps(h: Hash, s: State, t: nat, s': State, e: Event)
    requires Inv(h, s) && t < |s.threads| && ReadsFlag(h, s, t, s', e)
    ensures Inv(h, s') && Effect(s, s', e)
  {
    var pc := s.threads[t];
    var x := h(pc.op.key);
    assert ThreadOk(h, s, t, pc);
    if s.buckets[Low(x, NextLevel(x, pc.j, pc.now))].status == Required {
      if !(pc.w && Deepest(s, pc.i, x)) {
        NextRequiredMeansDeepest(h, s, pc.i, x, pc.j, pc.now);
      }
      NoRaceKeeps(h, s, t, s', e, pc.op, pc.now, pc.i, pc.w, pc.why);
    } else {
      ReleaseKeeps(h, s, t, pc.i, Acquire(pc.op, pc.now, [Low(x, pc.now)], Unknown));
      SameNodesSameTable(s, s');
    }
  }

  // ---------------------------------------------------------------- growth

  lemma GrowsKeeps(h: Hash, s: State, s': State)
    requires Inv(h, s) && Grows(s, s')
    ensures Inv(h, s') && Effect(s, s', Silent)
  {
    assert forall d: nat :: IsSettled(s', d) == IsSettled(s, d);
    assert forall d: nat, n :: Contains(s', d, n) == Contains(s, d, n);
    forall d: nat, n | Contains(s', d, n) ensures Deepest(s', d, h(n.key)) {
      assert Contains(s, d, n);
    }
    forall i | 0 <= i < |s'.buckets| ensures BucketOk(s'.buckets[i]) {
      assert i < |s.buckets| ==> BucketOk(s.buckets[i]);
    }
    forall t: nat | t < |s.threads| ensures ThreadOk(h, s', t, s'.threads[t]) {
      assert forall i | 0 <= i < |s.buckets| :: KeptFor(s.buckets[i], s'.buckets[i], t);
      StaysOk(h, s, s', t, s.threads[t]);
    }
    forall c: nat | c < |s'.buckets| && s'.buckets[c].status == Moving && s'.buckets[c].nodes != []
      ensures c > 1 && Parent(c) < |s'.buckets| && s'.buckets[Parent(c)].writer.Some?
      ensures FetchesFor(s', s'.buckets[Parent(c)].writer.value, c)
    {
      assert FetchesFor(s, s.buckets[Parent(c)].writer.value, c);
    }
    forall n ensures InTable(s', n) == InTable(s, n) {
      if InTable(s, n) {
        var i: nat :| Contains(s, i, n);
        assert Contains(s', i, n);
      }
    }
  }

  // ---------------------------------------------------------------- all steps

  lemma SilentStepKeeps(h: Hash, s: State, t: nat, s': State)
    requires Inv(h, s) && t < |s.threads|
    requires Begins(h, s, t, s') || Looks(s, t, s') || TriesLock(s, t, s') || Locks(s, t, s') || Fetches(h, s, t, s')
          || Upgrades(s, t, s') || LosesUpgrade(s, t, s') || Regains(s, t, s') || Misses(s, t, s') || GivesWay(s, t, s')
    ensures Inv(h, s') && SameNodes(s, s')
  {
    if Begins(h, s, t, s') { BeginsKeeps(h, s, t, s'); }
    else if Looks(s, t, s') { LooksKeeps(h, s, t, s'); }
    else if TriesLock(s, t, s') { TriesLockKeeps(h, s, t, s'); }
    else if Locks(s, t, s') { LocksKeeps(h, s, t, s'); }
    else if Fetches(h, s, t, s') { FetchesKeeps(h, s, t, s'); }
    else if Upgrades(s, t, s') { UpgradesKeeps(h, s, t, s'); }
    else if LosesUpgrade(s, t, s') { LosesKeeps(h, s, t, s'); }
    else if Regains(s, t, s') { RegainsKeeps(h, s, t, s'); }
    else if Misses(s, t, s') { MissesKeeps(h, s, t, s'); }
    else { GivesWayKeeps(h, s, t, s'); }
  }

  /** Every step keeps the invariant and does to the table what its event says. */
  lemma StepKeeps(h: Hash, s: State, s': State, e: Event)
    requires Inv(h, s) && Step(h, s, s', e)
    ensures Inv(h, s') && Effect(s, s', e)
  {
    if e == Silent && Grows(s, s') {
      GrowsKeeps(h, s, s');
    } else {
      var t: nat :| t < |s.threads| && ThreadStep(h, s, t, s', e);
      if Hits(s, t, s', e) { HitsKeeps(h, s, t, s', e); }
      else if ReadsMask(h, s, t, s', e) { ReadsMaskKeeps(h, s, t, s', e); }
      else if ReadsFlag(h, s, t, s', e) { ReadsFlagKeeps(h, s, t, s', e); }
      else if Inserts(s, t, s', e) { InsertsKeeps(h, s, t, s', e); }
      else if exists p: nat :: MovesNode(h, s, t, s', p) {
        var p: nat :| MovesNode(h, s, t, s', p);
        MovesKeeps(h, s, t, s', p);
      } else {
        SilentStepKeeps(h, s, t, s');
        SameNodesSameTable(s, s');
      }
    }
  }

  // ---------------------------------------------------------------- runs refine a plain map

  /** Any number of threads, two empty buckets. */
  ghost predicate Starts(s: State) {
    && s.level == 1 && s.buckets == [Bucket(Settled, [], None, {}), Bucket(Settled, [], None, {})]
    && forall t | 0 <= t < |s.threads| :: s.threads[t] == Idle
  }

  ghost predicate IsRun(h: Hash, states: seq<State>, events: seq<Event>) {
    && |states| == |events| + 1 && Starts(states[0])
    && forall k | 0 <= k < |events| :: Step(h, states[k], states[k + 1], events[k])
  }

  /** What a plain map would answer. */
  predicate Answers(m: map<Key, Value>, e: Event) {
    match e
    case Silent => true
    case Found(k, v) => k in m && m[k] == v
    case Missing(k) => k !in m
    case Inserted(k, _) => k !in m
    case Existed(k) => k in m
    case Gone(k, v) => !(k in m && m[k] == v)
    case Erased(k, v) => k in m && m[k] == v
  }

  function After(m: map<Key, Value>, e: Event): map<Key, Value> {
    match e
    case Inserted(k, v) => m[k := v]
    case Erased(k, _) => m - {k}
    case _ => m
  }

  /** The plain map after the events; None if it would have answered differently. */
  function Replay(events: seq<Event>): Option<map<Key, Value>> {
    if events == [] then Some(map[])
    else
      var last := |events| - 1;
      match Replay(events[..last])
      case Some(m) => if Answers(m, events[last]) then Some(After(m, events[last])) else None
      case None => None
  }

  /** The table stands for the map m. */
  ghost predicate StandsFor(s: State, m: map<Key, Value>) {
    forall n :: InTable(s, n) <==> n.key in m && m[n.key] == n.value
  }

  lemma EffectRefines(s: State, s': State, e: Event, m: map<Key, Value>)
    requires StandsFor(s, m) && Effect(s, s', e)
    ensures Answers(m, e) && StandsFor(s', After(m, e))
  {
    assert forall k | k in m :: InTable(s, Node(k, m[k]));
  }

  /**
   In every run, under every interleaving of lookups, insertions, erasures, exclusions and growth, each
   operation returns what a plain map would return at the moment of its event, and the table stands for
   that map.
   */
  lemma {:induction false} EveryRunRefinesAMap(h: Hash, states: seq<State>, events: seq<Event>)
    requires IsRun(h, states, events)
    ensures Inv(h, states[|events|])
    ensures Replay(events).Some? && StandsFor(states[|events|], Replay(events).value)
  {
    var n := |events|;
    if n == 0 {
      StartIsGood(h, states[0]);
    } else {
      EveryRunRefinesAMap(h, states[..n], events[..n - 1]);
      StepKeeps(h, states[n - 1], states[n], events[n - 1]);
      EffectRefines(states[n - 1], states[n], events[n - 1], Replay(events[..n - 1]).value);
    }
  }

  lemma StartIsGood(h: Hash, s: State)
    requires Starts(s)
    ensures Inv(h, s) && StandsFor(s, map[])
  {
    assert Pow2(1) == 2;
    assert forall i: nat, n :: !Contains(s, i, n);
  }

  /**
   What the code asserts along the way: buckets are looked up within the table, a bucket whose lock
   has been acquired has been rehashed, and nodes are only added to rehashed buckets.
   */
  lemma AccessesAreSound(h: Hash, s: State, t: nat)
    requires Inv(h, s) && t < |s.threads|
    ensures match s.threads[t]
      case Idle => true
      case Acquire(_, _, chain, look) =>
        chain != [] && Last(chain) < |s.buckets| && (look == Blocking ==> s.buckets[Last(chain)].status != Required)
      case Fetch(_, _, chain, _) =>
        && |chain| >= 2 && Last(chain) < |s.buckets| && s.buckets[Last(chain)].status == Settled
        && chain[|chain| - 2] < |s.buckets| && s.buckets[chain[|chain| - 2]].status != Required
      case Reacquire(_, _, chain) =>
        chain != [] && Last(chain) < |s.buckets| && s.buckets[Last(chain)].status == Settled
      case Holding(_, _, i, _) => i < |s.buckets| && s.buckets[i].status == Settled
      case Checking(_, _, i, _, _) => i < |s.buckets| && s.buckets[i].status == Settled
      case Flag(op, j, i, _, _, now) =>
        && i < |s.buckets| && s.buckets[i].status == Settled && j < now && Low(h(op.key), j) != Low(h(op.key), now)
        && Low(h(op.key), NextLevel(h(op.key), j, now)) < |s.buckets|
      case Cleared(_, _, i) => i < |s.buckets| && s.buckets[i].status == Settled
  {
    var pc := s.threads[t];
    assert ThreadOk(h, s, t, pc);
    if pc.Flag? {
      NextIsNext(h(pc.op.key), pc.j, pc.now);
      PowersGrow(pc.now, s.level);
    }
  }
}
