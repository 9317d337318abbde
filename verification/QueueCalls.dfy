/**
 The calls of BlockProtocol: what the producer's calls have appended to the queue is what they were asked to append, a call
 fails only if it was refused memory or a block, and every call of every thread ends.
 */
module QueueCalls {
  import opened Arith
  import opened BlockIndex
  import opened SharedIndex
  import opened ImplicitProducer
  import opened BlockProtocol
  import opened ConsumerSteps
  import opened ProducerSteps
  import opened QueueRuns

  // ---------------------------------------------------------------- what the producer was asked for

  /** The producer is refused memory for the index, or a block. */
  predicate Refuses<T>(m: State<T>, a: Action<T>) {
    a.Produce? && ((m.producer.GrowIndex? && !a.memory) || (m.producer.Requisition? && a.offer == Null))
  }

  /** The call that the producer is in: what it was asked to append, and whether it has been refused something. */
  datatype Call<T> = NoCall | Running(xs: seq<T>, refused: bool)

  function CallAfter<T>(c: Call<T>, m: State<T>, a: Action<T>, m': State<T>): Call<T> {
    match a
    case Enqueue(xs) => Running(xs, false)
    case Produce(_, _, _) =>
      if m'.producer.Ready? || c.NoCall? then NoCall else Running(c.xs, c.refused || Refuses(m, a))
    case _ => c
  }

  /** The call under way at the end of a run. */
  function CallIn<T>(s: State<T>, schedule: seq<Action<T>>): Call<T>
    requires Execute(s, schedule).Reached?
  {
    if schedule == [] then NoCall
    else
      var shorter := schedule[..|schedule| - 1];
      CallAfter(CallIn(s, shorter), Execute(s, shorter).state, schedule[|schedule| - 1], Execute(s, schedule).state)
  }

  /** What the calls of a run have asked to append, those left out that are not over or were refused something. */
  function Asked<T>(s: State<T>, schedule: seq<Action<T>>): seq<T>
    requires Execute(s, schedule).Reached?
  {
    if schedule == [] then []
    else
      var shorter := schedule[..|schedule| - 1];
      var a, c := schedule[|schedule| - 1], CallIn(s, shorter);
      if a.Produce? && Execute(s, schedule).state.producer.Ready? && c.Running? && !c.refused
      then Asked(s, shorter) + c.xs
      else Asked(s, shorter)
  }

  /** The producer has given up the call. */
  predicate Undone<T>(p: ProducerState<T>) {
    p.RewindLast? || p.NullLast? || p.UndoNull? || p.UndoRewind? || p.GiveBack?
  }

  /** The producer is at work on exactly this call. */
  predicate Serves<T(==)>(p: ProducerState<T>, c: Call<T>) {
    match c
    case NoCall => p.Ready?
    case Running(xs, refused) => !p.Ready? && (refused <==> Undone(p)) && (!refused ==> p.xs == xs)
  }

  lemma BusyHasCall<T>(m: State<T>, a: Action<T>, c: Call<T>)
    requires a.Produce? && ProducerDerefs(m, a) && Serves(m.producer, c)
    ensures c.Running?
  {
  }

  lemma FillServes<T>(m: State<T>, a: Action<T>, c: Call<T>)
    requires a.Produce? && ProducerDerefs(m, a) && Serves(m.producer, c) && m.producer.Construct?
    requires m.producer.k <= |m.producer.xs|
    ensures c.Running?
    ensures var m' := ProducerStep(m, a);
      && Serves(m'.producer, CallAfter(c, m, a, m'))
      && m'.items == if m'.producer.Ready? && !c.refused then m.items + c.xs else m.items
  {
    hide HeaderShape, CellOf, LookedUp, UndoneCell, NextCell, TailCell, BlockFor, Doubled, WithKey, WithTail, WithValue, KeySet;
  }

  lemma UndoServes<T>(m: State<T>, a: Action<T>, c: Call<T>)
    requires a.Produce? && ProducerDerefs(m, a) && Serves(m.producer, c) && Undone(m.producer)
    ensures c.Running?
    ensures var m' := ProducerStep(m, a);
      && Serves(m'.producer, CallAfter(c, m, a, m'))
      && m'.items == if m'.producer.Ready? && !c.refused then m.items + c.xs else m.items
  {
    hide HeaderShape, CellOf, LookedUp, UndoneCell, NextCell, TailCell, BlockFor, Doubled, WithKey, WithTail, WithValue, KeySet;
  }

  lemma IndexServes<T>(m: State<T>, a: Action<T>, c: Call<T>)
    requires a.Produce? && ProducerDerefs(m, a) && Serves(m.producer, c) && !Undone(m.producer) && !m.producer.Construct?
    ensures c.Running?
    ensures var m' := ProducerStep(m, a);
      && Serves(m'.producer, CallAfter(c, m, a, m'))
      && m'.items == if m'.producer.Ready? && !c.refused then m.items + c.xs else m.items
  {
    hide HeaderShape, CellOf, LookedUp, UndoneCell, NextCell, TailCell, BlockFor, Doubled, WithKey, WithTail, WithValue, KeySet;
  }

  /** One operation of the producer in a call: the call goes on, or is over and has published if nothing was refused. */
  lemma ProduceServes<T>(m: State<T>, a: Action<T>, c: Call<T>)
    requires a.Produce? && ProducerDerefs(m, a) && Serves(m.producer, c)
    requires m.producer.Construct? ==> m.producer.k <= |m.producer.xs|
    ensures c.Running?
    ensures var m' := ProducerStep(m, a);
      && Serves(m'.producer, CallAfter(c, m, a, m'))
      && m'.items == if m'.producer.Ready? && !c.refused then m.items + c.xs else m.items
  {
    BusyHasCall(m, a, c);
    hide ProducerStep, ProducerDerefs, Serves, CallAfter;
    if m.producer.Construct? {
      FillServes(m, a, c);
    } else if Undone(m.producer) {
      UndoServes(m, a, c);
    } else {
      IndexServes(m, a, c);
    }
  }

  lemma OthersServe<T>(m: State<T>, a: Action<T>, c: Call<T>)
    requires Enabled(m, a) && !a.Produce? && Serves(m.producer, c)
    ensures var m' := Next(m, a);
      Serves(m'.producer, CallAfter(c, m, a, m')) && m'.items == m.items && (!a.Enqueue? ==> m'.producer == m.producer)
  {
    hide Range, HeaderShape, ProducerDerefs, ProducerStep;
  }

  /** In every run the published items are what the calls that were not refused anything have asked to append, in order. */
  lemma {:induction false} ItemsAreAsked<T(!new)>(s: State<T>, schedule: seq<Action<T>>)
    requires Init(s) && Execute(s, schedule).Reached?
    ensures Execute(s, schedule).state.items == Asked(s, schedule)
    ensures Serves(Execute(s, schedule).state.producer, CallIn(s, schedule))
  {
    hide Init, Inv, Next, Enabled, Serves;
    if schedule == [] {
      StartsReady(s);
    } else {
      var last := |schedule| - 1;
      var shorter, a := schedule[..last], schedule[last];
      ItemsAreAsked(s, shorter);
      ReachableInv(s, shorter);
      var m, c := Execute(s, shorter).state, CallIn(s, shorter);
      if a.Produce? {
        ProduceIs(m, a);
        ProducerBound(m);
        ProduceServes(m, a, c);
      } else {
        OthersServe(m, a, c);
      }
    }
  }

  lemma StartsReady<T>(s: State<T>)
    requires Init(s)
    ensures s.items == [] && Serves(s.producer, NoCall)
  {
  }

  lemma ProduceIs<T>(m: State<T>, a: Action<T>)
    requires a.Produce? && Enabled(m, a)
    ensures ProducerDerefs(m, a) && Next(m, a) == ProducerStep(m, a) && !m.producer.Ready?
  {
  }

  lemma ProducerBound<T(!new)>(m: State<T>)
    requires Inv(m)
    ensures m.producer.Construct? ==> m.producer.k <= |m.producer.xs|
  {
    hide Inv;
    ProducerView(m);
  }

  /** What has been delivered, by index, is what the producer was asked to append. */
  lemma DeliveredWasAsked<T(!new)>(s: State<T>, schedule: seq<Action<T>>, k: nat)
    requires Init(s) && Execute(s, schedule).Reached? && k < |Execute(s, schedule).state.deliveries|
    ensures var d := Execute(s, schedule).state.deliveries[k];
      d.first + |d.got| <= |Asked(s, schedule)| && d.got == Asked(s, schedule)[d.first..d.first + |d.got|]
  {
    hide Init, Execute, Asked;
    ItemsAreAsked(s, schedule);
    EveryIndexGoesToOne(s, schedule);
    var m := Execute(s, schedule).state;
    assert DeliveryOk(m.items, m.head, m.deliveries[k]);
  }

  // ---------------------------------------------------------------- every call of the producer ends

  /** How many operations the producer has left at most. */
  function Left<T>(m: State<T>): int {
    match m.producer
    case Ready => 0
    case CheckKey(xs, added) => Blocks(m, xs, |added|)
    case CheckValue(xs, added) => Blocks(m, xs, |added|) - 1
    case GrowIndex(xs, added) => Blocks(m, xs, |added|) - 2
    case StoreKey(xs, added) => Blocks(m, xs, |added|) - 3
    case StoreTail(xs, added) => Blocks(m, xs, |added|) - 4
    case Requisition(xs, added) => Blocks(m, xs, |added|) - 5
    case StoreValue(xs, added, _) => Blocks(m, xs, |added|) - 6
    case Construct(xs, _, k) => |xs| - k + 1
    case RewindLast(added) => 3 * |added| + 4
    case NullLast(added, _) => 3 * |added| + 3
    case UndoNull(added, j) => 2 * (|added| - j) + |added| + 2
    case UndoRewind(added, j) => 2 * (|added| - j) + |added| + 1
    case GiveBack(added, j) => |added| - j + 1
  }

  /** The same at the beginning of a block, when n blocks have been allocated. */
  function Blocks<T>(m: State<T>, xs: seq<T>, n: nat): int {
    7 * (Needed(m, xs) - n) + 3 * Needed(m, xs) + |xs| + 6
  }

  /** What bounds a call of the producer: it depends only on the number of items. */
  function CallBound(n: nat): nat {
    10 * (n / BLOCK_SIZE + 1) + n + 6
  }

  predicate InOrder<T>(m: State<T>) {
    match m.producer
    case CheckKey(xs, added) => |added| < Needed(m, xs)
    case CheckValue(xs, added) => |added| < Needed(m, xs)
    case GrowIndex(xs, added) => |added| < Needed(m, xs)
    case StoreKey(xs, added) => |added| < Needed(m, xs)
    case StoreTail(xs, added) => |added| < Needed(m, xs)
    case Requisition(xs, added) => |added| < Needed(m, xs)
    case StoreValue(xs, added, _) => |added| < Needed(m, xs)
    case Construct(xs, _, k) => k <= |xs|
    case UndoNull(added, j) => j <= |added|
    case UndoRewind(added, j) => j < |added|
    case GiveBack(added, j) => j <= |added|
    case _ => true
  }

  lemma ProducerInOrder<T(!new)>(m: State<T>)
    requires Inv(m)
    ensures InOrder(m) && (!m.producer.Ready? ==> Left(m) > 0)
  {
    hide Inv, Staged, Undoing, StillEntered, Constructed, ExactKey, KeySet, Room, HeaderShape, IndexInv;
    ProducerView(m);
  }

  lemma FillShortens<T>(m: State<T>, a: Action<T>)
    requires a.Produce? && ProducerDerefs(m, a) && InOrder(m) && m.producer.Construct?
    ensures Left(ProducerStep(m, a)) < Left(m)
  {
    hide HeaderShape, BlockFor, Top;
  }

  lemma UndoShortens<T>(m: State<T>, a: Action<T>)
    requires a.Produce? && ProducerDerefs(m, a) && InOrder(m) && Undone(m.producer)
    ensures Left(ProducerStep(m, a)) < Left(m)
  {
    hide HeaderShape, CellOf, LookedUp, UndoneCell, TailCell, WithTail, WithValue, KeySet, Top;
  }

  lemma IndexShortens<T>(m: State<T>, a: Action<T>)
    requires a.Produce? && ProducerDerefs(m, a) && InOrder(m) && !m.producer.Construct? && !Undone(m.producer)
    ensures Left(ProducerStep(m, a)) < Left(m)
  {
    hide HeaderShape, CellOf, NextCell, TailCell, Doubled, WithKey, WithTail, WithValue, KeySet, Top;
  }

  lemma ProduceShortens<T(!new)>(m: State<T>, a: Action<T>)
    requires Inv(m) && a.Produce? && ProducerDerefs(m, a)
    ensures Left(ProducerStep(m, a)) < Left(m)
  {
    hide Inv, ProducerStep, ProducerDerefs, Left, InOrder;
    ProducerInOrder(m);
    if m.producer.Construct? {
      FillShortens(m, a);
    } else if Undone(m.producer) {
      UndoShortens(m, a);
    } else {
      IndexShortens(m, a);
    }
  }

  lemma FewBlocks(n: nat, k: nat)
    ensures 0 <= Top(n + k) - Top(n) <= k / BLOCK_SIZE + 1
  {
  }

  lemma EnqueueIsBounded<T>(m: State<T>, xs: seq<T>)
    requires m.producer.Ready?
    ensures Left(Next(m, Enqueue(xs))) <= CallBound(|xs|)
  {
    FewBlocks(|m.items|, |xs|);
  }

  /** How many operations the producer has taken in the call under way. */
  function Spent<T>(schedule: seq<Action<T>>): nat {
    if schedule == [] then 0
    else
      var last := |schedule| - 1;
      match schedule[last]
      case Enqueue(_) => 0
      case Produce(_, _, _) => Spent(schedule[..last]) + 1
      case _ => Spent(schedule[..last])
  }

  /**
   In every run, whatever the consumers do, a call of the producer is over after a number of operations that depends only
   on the number of its items.
   */
  lemma {:induction false} CallsEnd<T(!new)>(s: State<T>, schedule: seq<Action<T>>)
    requires Init(s) && Execute(s, schedule).Reached?
    ensures var m, c := Execute(s, schedule).state, CallIn(s, schedule);
      !m.producer.Ready? ==> c.Running? && Left(m) > 0 && Spent(schedule) + Left(m) <= CallBound(|c.xs|)
  {
    hide Init, Inv, Next, Enabled, Left, CallBound;
    ItemsAreAsked(s, schedule);
    ReachableInv(s, schedule);
    ProducerInOrder(Execute(s, schedule).state);
    if schedule == [] {
      StartsReady(s);
    } else {
      var last := |schedule| - 1;
      var shorter, a := schedule[..last], schedule[last];
      CallsEnd(s, shorter);
      ReachableInv(s, shorter);
      var m := Execute(s, shorter).state;
      ItemsAreAsked(s, shorter);
      CallsEndStep(m, a, CallIn(s, shorter), Spent(shorter));
    }
  }

  lemma CallsEndStep<T(!new)>(m: State<T>, a: Action<T>, c: Call<T>, spent: nat)
    requires Inv(m) && Enabled(m, a) && Serves(m.producer, c)
    requires !m.producer.Ready? ==> c.Running? && spent + Left(m) <= CallBound(|c.xs|)
    ensures var m' := Next(m, a); var c' := CallAfter(c, m, a, m');
      !m'.producer.Ready? ==>
        c'.Running? && (if a.Enqueue? then 0 else if a.Produce? then spent + 1 else spent) + Left(m') <= CallBound(|c'.xs|)
  {
    hide Inv, Left, CallBound, ProducerStep, ConsumerStep;
    match a
    case Enqueue(xs) => EnqueueIsBounded(m, xs);
    case Produce(_, _, _) => ProduceShortens(m, a);
    case Claim(_, _) => SameLeft(m, a, c);
    case Consume(_) => SameLeft(m, a, c);
  }

  lemma SameLeft<T>(m: State<T>, a: Action<T>, c: Call<T>)
    requires Enabled(m, a) && (a.Claim? || a.Consume?) && Serves(m.producer, c)
    ensures Next(m, a).producer == m.producer && Left(Next(m, a)) == Left(m)
  {
    hide Next, Enabled;
    OthersServe(m, a, c);
  }

  // ---------------------------------------------------------------- every claim is served

  /** How many operations a consumer has left at most. */
  function Remaining<T>(c: Consumer<T>): int {
    match c
    case Idle => 0
    case LoadHeader(job) => 5 * (job.stop - Pos(job)) + 3
    case LoadTail(job, _) => 5 * (job.stop - Pos(job)) + 2
    case LoadKey(job, _, _) => 5 * (job.stop - Pos(job)) + 1
    case LoadValue(job, _, _) => 5 * (job.stop - Pos(job))
    case Take(job, _, _, _, _) => 5 * (job.stop - Pos(job)) - 1
    case Count(job, _, _, _, _) => 5 * (job.stop - Pos(job)) + 3
    case Clear(job, _, _, _, _) => 5 * (job.stop - Pos(job)) + 2
    case Release(job, _, _, _, _) => 5 * (job.stop - Pos(job)) + 1
  }

  /** The size of a consumer's claim. */
  function Extent<T>(c: Consumer<T>): int {
    if c.Idle? then 0 else c.job.stop - c.job.first
  }

  lemma ConsumerInOrder<T(!new)>(m: State<T>, t: nat)
    requires Inv(m) && t < |m.consumers|
    ensures !m.consumers[t].Idle? ==> Remaining(m.consumers[t]) > 0
  {
    hide Inv, HeaderFits, Drained, SlotOf, Moved, Bounds, IndexInv;
    ConsumerView(m, t);
    var c := m.consumers[t];
    if c.Take? {
      EndBeyond(c.from, c.job.stop);
    }
  }

  lemma GoOnShortens<T>(m: State<T>, t: nat, job: Job<T>, h: nat, slot: nat)
    requires t < |m.consumers| && HeaderThere(m.ix, h, slot)
    ensures |GoOn(m, t, job, h, slot).consumers| == |m.consumers|
    ensures var c' := GoOn(m, t, job, h, slot).consumers[t];
      !c'.Idle? ==> Remaining(c') == 5 * (job.stop - Pos(job)) && Extent(c') == job.stop - job.first
  {
  }

  lemma ConsumeShortens<T(!new)>(m: State<T>, t: nat)
    requires t < |m.consumers| && ConsumerDerefs(m, m.consumers[t])
    ensures var c, c' := m.consumers[t], ConsumerStep(m, t).consumers[t];
      !c'.Idle? ==> Remaining(c') < Remaining(c) && Extent(c') == Extent(c)
  {
    hide Range, LookedUp, GoOn;
    match m.consumers[t]
    case Count(job, h, slot, id, from) =>
      var b := m.blocks[id];
      var counted := m.(blocks := m.blocks[id := b.(done := b.done + (Pos(job) - from))],
                        finished := m.finished + Range(from, Pos(job)));
      GoOnShortens(counted, t, job, h, slot);
    case Release(job, h, slot, id, from) =>
      var released := m.(blocks := m.blocks - {id}, releases := m.releases + [Released(from / BLOCK_SIZE, id, t)]);
      GoOnShortens(released, t, job, h, slot);
    case _ =>
  }

  lemma OtherConsumers<T>(m: State<T>, a: Action<T>, t: nat)
    requires Enabled(m, a) && t < |m.consumers| && !((a.Claim? || a.Consume?) && a.t == t)
    ensures Next(m, a).consumers[t] == m.consumers[t]
  {
    hide Range, LookedUp, HeaderShape, ProducerStep, ProducerDerefs;
  }

  /** How many operations consumer t has taken since its last claim. */
  function SpentBy<T>(schedule: seq<Action<T>>, t: nat): nat {
    if schedule == [] then 0
    else
      var last := |schedule| - 1;
      if schedule[last].Claim? && schedule[last].t == t then 0
      else if schedule[last].Consume? && schedule[last].t == t then SpentBy(schedule[..last], t) + 1
      else SpentBy(schedule[..last], t)
  }

  /**
   In every run, whatever the others do, a consumer has served a claim of n items after at most 5 n + 3 operations of its
   own; with `QueueRuns.NobodyIsStuck`, every claim is served and every item claimed is delivered.
   */
  lemma {:induction false} ClaimsEnd<T(!new)>(s: State<T>, schedule: seq<Action<T>>, t: nat)
    requires Init(s) && Execute(s, schedule).Reached? && t < |Execute(s, schedule).state.consumers|
    ensures var c := Execute(s, schedule).state.consumers[t];
      !c.Idle? ==> Remaining(c) > 0 && SpentBy(schedule, t) + Remaining(c) <= 5 * Extent(c) + 3
  {
    hide Init, Inv, Next, Enabled, Remaining, Extent;
    ReachableInv(s, schedule);
    ConsumerInOrder(Execute(s, schedule).state, t);
    if schedule == [] {
      StartsIdle(s);
    } else {
      var last := |schedule| - 1;
      var shorter, a := schedule[..last], schedule[last];
      var m := Execute(s, shorter).state;
      ClaimsEnd(s, shorter, t);
      ClaimsEndStep(m, a, t, SpentBy(shorter, t));
    }
  }

  lemma ClaimsEndStep<T(!new)>(m: State<T>, a: Action<T>, t: nat, spent: nat)
    requires Enabled(m, a) && t < |m.consumers|
    requires !m.consumers[t].Idle? ==> spent + Remaining(m.consumers[t]) <= 5 * Extent(m.consumers[t]) + 3
    ensures var c' := Next(m, a).consumers[t];
      var spent' := if a.Claim? && a.t == t then 0 else if a.Consume? && a.t == t then spent + 1 else spent;
      !c'.Idle? ==> spent' + Remaining(c') <= 5 * Extent(c') + 3
  {
    hide ConsumerStep, ProducerStep, ProducerDerefs;
    if a.Consume? && a.t == t {
      ConsumeShortens(m, t);
    } else if !(a.Claim? && a.t == t) {
      OtherConsumers(m, a, t);
    }
  }
}
