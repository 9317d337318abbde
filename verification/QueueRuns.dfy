/** What holds in every run of BlockProtocol: no access goes wrong, and no item and no block is lost or handed out twice. */
module QueueRuns {
  import opened Arith
  import opened BlockIndex
  import opened SharedIndex
  import opened ImplicitProducer
  import opened BlockProtocol
  import opened ConsumerSteps
  import opened ProducerSteps

  // ---------------------------------------------------------------- every run

  lemma InitIndex(ix: Shared)
    requires |ix.headers| == 1 && HeaderShape(|ix.cells|, Current(ix)) && Current(ix).origin == 0
    requires Current(ix).tail == |Current(ix).slots| - 1
    requires forall c :: 0 <= c < |ix.cells| ==> ix.cells[c].key == INVALID_BLOCK_BASE
    ensures IndexInv(ix, 0, map[], {})
  {
    DividesItself(|Current(ix).slots|);
    assert Aligned(Current(ix), Current(ix));
    RingMultiple(-1, |Current(ix).slots|, 1);
  }

  lemma InitInv<T(!new)>(s: State<T>)
    requires Init(s)
    ensures Inv(s)
  {
    hide IndexInv;
    InitIndex(s.ix);
  }

  lemma KeepNext<T(!new)>(s: State<T>, a: Action<T>)
    requires Inv(s) && Enabled(s, a)
    ensures Inv(Next(s, a))
  {
    hide Inv, ProducerStep, ConsumerStep;
    match a
    case Enqueue(xs) => KeepEnqueue(s, xs);
    case Produce(_, _, _) => KeepProduce(s, a);
    case Claim(t, count) => KeepClaim(s, t, count);
    case Consume(t) => KeepConsume(s, t);
  }

  lemma {:induction false} ReachableInv<T(!new)>(s: State<T>, schedule: seq<Action<T>>)
    requires Init(s) && Execute(s, schedule).Reached?
    ensures Inv(Execute(s, schedule).state)
  {
    hide Inv, Init;
    if schedule == [] {
      InitInv(s);
    } else {
      var last := |schedule| - 1;
      ReachableInv(s, schedule[..last]);
      KeepNext(Execute(s, schedule[..last]).state, schedule[last]);
    }
  }

  // ---------------------------------------------------------------- nothing is lost

  /** Up to where the consumer has counted its items. */
  function Done<T>(c: Consumer<T>): nat
    requires !c.Idle?
  {
    if c.Take? || c.Count? then c.from else Pos(c.job)
  }

  predicate CountedUpTo<T>(finished: set<nat>, c: Consumer<T>) {
    !c.Idle? ==> forall i :: c.job.first <= i < Done(c) ==> i in finished
  }

  ghost predicate CountedAll<T>(finished: set<nat>, consumers: seq<Consumer<T>>, deliveries: seq<Delivery<T>>) {
    && (forall t :: 0 <= t < |consumers| ==> CountedUpTo(finished, consumers[t]))
    && (forall k, i: nat :: 0 <= k < |deliveries| && Given(deliveries[k], i) ==> i in finished)
  }

  predicate Retired<T>(consumers: seq<Consumer<T>>, releases: seq<Released>, n: nat) {
    || (exists t :: 0 <= t < |consumers| && Retires(consumers[t], n))
    || WasReleased(releases, n)
  }

  predicate WasReleased(releases: seq<Released>, n: nat) {
    exists k :: 0 <= k < |releases| && releases[k].number == n
  }

  ghost predicate RetiredAll<T>(finished: set<nat>, consumers: seq<Consumer<T>>, releases: seq<Released>) {
    forall n: nat :: Drained(finished, n) ==> Retired(consumers, releases, n)
  }

  /** The block is in use, in the producer's hands, or in those of a consumer that releases it. */
  predicate Owned<T>(live: map<nat, BlockId>, p: ProducerState<T>, consumers: seq<Consumer<T>>, id: BlockId) {
    || id in live.Values
    || id in Hand(p)
    || ReleasedSoon(consumers, id)
  }

  predicate ReleasedSoon<T>(consumers: seq<Consumer<T>>, id: BlockId) {
    exists t :: 0 <= t < |consumers| && consumers[t].Release? && consumers[t].id == id
  }

  predicate OwnedAll<T>(keys: set<BlockId>, live: map<nat, BlockId>, p: ProducerState<T>, consumers: seq<Consumer<T>>) {
    forall id :: id in keys ==> Owned(live, p, consumers, id)
  }

  /** What is counted, delivered, drained or owned is accounted for. */
  ghost predicate Complete<T>(s: State<T>) {
    && CountedAll(s.finished, s.consumers, s.deliveries)
    && RetiredAll(s.finished, s.consumers, s.releases)
    && OwnedAll(s.blocks.Keys, s.live, s.producer, s.consumers)
  }

  lemma CountedStill<T>(finished: set<nat>, finished': set<nat>, consumers: seq<Consumer<T>>, deliveries: seq<Delivery<T>>,
                        t: nat, c: Consumer<T>)
    requires CountedAll(finished, consumers, deliveries) && finished <= finished' && t < |consumers| && CountedUpTo(finished', c)
    ensures CountedAll(finished', consumers[t := c], deliveries)
  {
    hide Done;
    var consumers' := consumers[t := c];
    forall u | 0 <= u < |consumers'| ensures CountedUpTo(finished', consumers'[u]) {
      assert CountedUpTo(finished, consumers[u]);
    }
  }

  lemma RetiredStill<T>(finished: set<nat>, finished': set<nat>, consumers: seq<Consumer<T>>, releases: seq<Released>,
                        releases': seq<Released>, t: nat, c: Consumer<T>)
    requires RetiredAll(finished, consumers, releases) && t < |consumers| && releases <= releases'
    requires forall n: nat :: Drained(finished', n) && !Drained(finished, n) ==> Retires(c, n)
    requires forall n: nat :: Retires(consumers[t], n) ==> Retires(c, n) || (|releases'| > 0 && releases'[|releases'| - 1].number == n)
    ensures RetiredAll(finished', consumers[t := c], releases')
  {
    hide Drained;
    var consumers' := consumers[t := c];
    forall n: nat | Drained(finished', n) ensures Retired(consumers', releases', n) {
      if !Drained(finished, n) {
        assert Retires(consumers'[t], n);
      } else if u :| 0 <= u < |consumers| && Retires(consumers[u], n) {
        assert u != t ==> Retires(consumers'[u], n);
        assert u == t ==> Retires(consumers'[t], n) || releases'[|releases'| - 1].number == n;
      } else {
        var k :| 0 <= k < |releases| && releases[k].number == n;
        assert releases'[k].number == n;
      }
    }
  }

  lemma OwnedStill<T>(keys: set<BlockId>, keys': set<BlockId>, live: map<nat, BlockId>, live': map<nat, BlockId>,
                      p: ProducerState<T>,
                      consumers: seq<Consumer<T>>, t: nat, c: Consumer<T>)
    requires OwnedAll(keys, live, p, consumers) && t < |consumers|
    requires forall id :: id in keys' ==> id in keys && (consumers[t].Release? ==> id != consumers[t].id)
    requires forall id :: id in live.Values && id !in live'.Values ==> c.Release? && c.id == id
    ensures OwnedAll(keys', live', p, consumers[t := c])
  {
    hide Hand;
    var consumers' := consumers[t := c];
    forall id | id in keys' ensures Owned(live', p, consumers', id) {
      assert Owned(live, p, consumers, id);
      if id in live.Values {
        assert id in live'.Values || consumers'[t].id == id;
      } else if id !in Hand(p) {
        var u :| 0 <= u < |consumers| && consumers[u].Release? && consumers[u].id == id;
        assert consumers'[u] == consumers[u];
      }
    }
  }

  /** Steps of a consumer that count nothing and release nothing. */
  lemma CompleteLoad<T(!new)>(s: State<T>, t: nat, keys: set<BlockId>, c: Consumer<T>)
    requires Complete(s) && t < |s.consumers| && !s.consumers[t].Clear? && !s.consumers[t].Release?
    requires CountedUpTo(s.finished, c) && keys == s.blocks.Keys
    ensures CountedAll(s.finished, s.consumers[t := c], s.deliveries)
    ensures RetiredAll(s.finished, s.consumers[t := c], s.releases)
    ensures OwnedAll(keys, s.live, s.producer, s.consumers[t := c])
  {
    hide CountedAll, RetiredAll, OwnedAll, Drained, CountedUpTo;
    CountedStill(s.finished, s.finished, s.consumers, s.deliveries, t, c);
    RetiredStill(s.finished, s.finished, s.consumers, s.releases, s.releases, t, c);
    OwnedStill(s.blocks.Keys, keys, s.live, s.live, s.producer, s.consumers, t, c);
  }

  lemma CountedOne<T>(s: State<T>, t: nat)
    requires Complete(s) && t < |s.consumers|
    ensures CountedUpTo(s.finished, s.consumers[t])
  {
    hide CountedUpTo, RetiredAll, OwnedAll;
  }

  lemma CompleteEarly<T(!new)>(s: State<T>, t: nat)
    requires Inv(s) && Complete(s) && t < |s.consumers| && ConsumerDerefs(s, s.consumers[t])
    requires !s.consumers[t].Count? && !s.consumers[t].Clear? && !s.consumers[t].Release?
    ensures Complete(ConsumerStep(s, t))
  {
    hide Inv, Complete;
    CountedOne(s, t);
    var s' := ConsumerStep(s, t);
    assert s'.blocks.Keys == s.blocks.Keys;
    CompleteLoad(s, t, s'.blocks.Keys, s'.consumers[t]);
    CompleteIs(s');
  }

  lemma CompleteIs<T(!new)>(s: State<T>)
    requires CountedAll(s.finished, s.consumers, s.deliveries) && RetiredAll(s.finished, s.consumers, s.releases)
    requires OwnedAll(s.blocks.Keys, s.live, s.producer, s.consumers)
    ensures Complete(s)
  {
  }

  lemma CountedDone<T>(finished: set<nat>, consumers: seq<Consumer<T>>, deliveries: seq<Delivery<T>>, d: Delivery<T>)
    requires CountedAll(finished, consumers, deliveries) && forall i: nat :: Given(d, i) ==> i in finished
    ensures CountedAll(finished, consumers, deliveries + [d])
  {
    hide CountedUpTo, Given;
  }

  /** The caller gets what has been counted. */
  lemma CountedGoOn<T>(s: State<T>, t: nat, job: Job<T>, h: nat, slot: nat)
    requires t < |s.consumers| && HeaderThere(s.ix, h, slot) && CountedUpTo(s.finished, LoadHeader(job)) && Pos(job) <= job.stop
    requires CountedAll(s.finished, s.consumers, s.deliveries)
    ensures var s' := GoOn(s, t, job, h, slot); CountedAll(s.finished, s'.consumers, s'.deliveries)
  {
    hide CountedAll;
    var s' := GoOn(s, t, job, h, slot);
    CountedStill(s.finished, s.finished, s.consumers, s.deliveries, t, s'.consumers[t]);
    if Pos(job) >= job.stop {
      CountedDone(s.finished, s'.consumers, s.deliveries, Delivery(job.first, job.got));
    }
  }

  lemma CompleteCount<T(!new)>(s: State<T>, t: nat)
    requires Inv(s) && Complete(s) && t < |s.consumers| && s.consumers[t].Count? && ConsumerDerefs(s, s.consumers[t])
    ensures Complete(ConsumerStep(s, t))
  {
    hide Inv, Complete, CountedAll, RetiredAll, OwnedAll, Drained, Bounds, StoredOk, ProducerOk, ConsumerOk, InBlockOk,
      Range, Given;
    CountedParts(s, t);
    ConsumerView(s, t);
    CompleteParts(s);
    CountedOne(s, t);
    var c := s.consumers[t];
    CountConsumer(s.ix, s.live, s.items, s.head, s.taken, s.finished, c);
    var m, s' := Counted(s, c), ConsumerStep(s, t);
    assert s'.blocks.Keys == s.blocks.Keys;
    RetiredStill(s.finished, m.finished, s.consumers, s.releases, s.releases, t, s'.consumers[t]);
    OwnedStill(s.blocks.Keys, s'.blocks.Keys, s.live, s.live, s.producer, s.consumers, t, s'.consumers[t]);
    CountedStill(s.finished, m.finished, s.consumers, s.deliveries, t, Clear(c.job, c.h, c.slot, c.id, c.from));
    if !s'.consumers[t].Clear? {
      var m' := m.(consumers := s.consumers[t := Clear(c.job, c.h, c.slot, c.id, c.from)]);
      CountedGoOn(m', t, c.job, c.h, c.slot);
      assert m'.consumers[t := s'.consumers[t]] == s'.consumers;
    }
    CompleteIs(s');
  }

  lemma CompleteParts<T(!new)>(s: State<T>)
    requires Complete(s)
    ensures CountedAll(s.finished, s.consumers, s.deliveries) && RetiredAll(s.finished, s.consumers, s.releases)
    ensures OwnedAll(s.blocks.Keys, s.live, s.producer, s.consumers)
  {
  }

  lemma CompleteClear<T(!new)>(s: State<T>, t: nat)
    requires Inv(s) && Complete(s) && t < |s.consumers| && s.consumers[t].Clear? && ConsumerDerefs(s, s.consumers[t])
    ensures Complete(ConsumerStep(s, t))
  {
    hide Inv, Complete, CountedAll, RetiredAll, OwnedAll, Drained, BlockFine;
    AtBlock(s, t);
    CompleteParts(s);
    CountedOne(s, t);
    var s' := ConsumerStep(s, t);
    CountedStill(s.finished, s.finished, s.consumers, s.deliveries, t, s'.consumers[t]);
    RetiredStill(s.finished, s.finished, s.consumers, s.releases, s.releases, t, s'.consumers[t]);
    OneLess(s.live, s.consumers[t].from / BLOCK_SIZE);
    OwnedStill(s.blocks.Keys, s.blocks.Keys, s.live, s'.live, s.producer, s.consumers, t, s'.consumers[t]);
    CompleteIs(s');
  }

  lemma OneLess(live: map<nat, BlockId>, n: nat)
    requires n in live
    ensures forall id :: id in live.Values && id !in (live - {n}).Values ==> id == live[n]
  {
    assert forall k :: k in live && k != n ==> k in live - {n} && (live - {n})[k] == live[k];
  }

  lemma CompleteRelease<T(!new)>(s: State<T>, t: nat)
    requires Inv(s) && Complete(s) && t < |s.consumers| && s.consumers[t].Release? && ConsumerDerefs(s, s.consumers[t])
    ensures Complete(ConsumerStep(s, t))
  {
    hide Inv, Complete, CountedAll, RetiredAll, OwnedAll, Drained, ConsumerOk, HeaderFits, Given;
    ConsumerView(s, t);
    CompleteParts(s);
    CountedOne(s, t);
    var c := s.consumers[t];
    ReleaseConsumer(s.ix, s.live, s.items, s.head, s.taken, s.finished, c);
    var m := s.(blocks := s.blocks - {c.id}, releases := s.releases + [Released(c.from / BLOCK_SIZE, c.id, t)]);
    var s' := ConsumerStep(s, t);
    CountedGoOn(m, t, c.job, c.h, c.slot);
    assert s' == GoOn(m, t, c.job, c.h, c.slot);
    RetiredStill(s.finished, s.finished, s.consumers, s.releases, m.releases, t, s'.consumers[t]);
    OwnedStill(s.blocks.Keys, s'.blocks.Keys, s.live, s.live, s.producer, s.consumers, t, s'.consumers[t]);
    CompleteIs(s');
  }

  lemma CompleteConsume<T(!new)>(s: State<T>, t: nat)
    requires Inv(s) && Complete(s) && t < |s.consumers| && ConsumerDerefs(s, s.consumers[t])
    ensures Complete(ConsumerStep(s, t))
  {
    hide Inv, Complete, ConsumerStep;
    match s.consumers[t]
    case Count(_, _, _, _, _) => CompleteCount(s, t);
    case Clear(_, _, _, _, _) => CompleteClear(s, t);
    case Release(_, _, _, _, _) => CompleteRelease(s, t);
    case _ => CompleteEarly(s, t);
  }

  lemma CompleteClaim<T(!new)>(s: State<T>, t: nat, count: nat)
    requires Complete(s) && Enabled(s, Claim(t, count))
    ensures Complete(Next(s, Claim(t, count)))
  {
    hide Complete;
    var s' := Next(s, Claim(t, count));
    CompleteLoad(s, t, s.blocks.Keys, s'.consumers[t]);
    CompleteIs(s');
  }

  // ---------------------------------------------------------------- the producer loses no block

  /** The blocks stay owned if those that leave one hand come into another. */
  lemma OwnedMoved<T>(keys: set<BlockId>, keys': set<BlockId>, live: map<nat, BlockId>, live': map<nat, BlockId>,
                      p: ProducerState<T>,
                      p': ProducerState<T>, consumers: seq<Consumer<T>>)
    requires OwnedAll(keys, live, p, consumers)
    requires forall id :: id in keys' && id !in keys ==> id in Hand(p')
    requires forall id :: id in keys' && (id in live.Values || id in Hand(p)) ==> id in live'.Values || id in Hand(p')
    ensures OwnedAll(keys', live', p', consumers)
  {
    hide Hand;
    forall id | id in keys' ensures Owned(live', p', consumers, id) {
      if id in keys {
        assert Owned(live, p, consumers, id);
      }
    }
  }

  lemma CompleteMoved<T(!new)>(s: State<T>, s': State<T>)
    requires Complete(s) && s'.finished == s.finished && s'.consumers == s.consumers && s'.deliveries == s.deliveries
    requires s'.releases == s.releases
    requires forall id :: id in s'.blocks.Keys && id !in s.blocks.Keys ==> id in Hand(s'.producer)
    requires forall id :: id in s'.blocks.Keys && (id in s.live.Values || id in Hand(s.producer)) ==>
               id in s'.live.Values || id in Hand(s'.producer)
    ensures Complete(s')
  {
    hide Hand, CountedAll, RetiredAll, OwnedAll;
    OwnedMoved(s.blocks.Keys, s'.blocks.Keys, s.live, s'.live, s.producer, s'.producer, s.consumers);
  }

  /** What the failed call had allocated is now in the producer's hands. */
  lemma GivenUpToHand<T>(s: State<T>, added: seq<BlockId>)
    requires Staged(s.live, First(s), added)
    ensures forall id :: id in s.live.Values ==> id in GivenUp(s).Values || id in added
  {
    hide First;
    GivenUpFacts(s);
    forall id | id in s.live.Values ensures id in GivenUp(s).Values || id in added {
      var n :| n in s.live && s.live[n] == id;
      if n < First(s) {
        assert GivenUp(s)[n] == id;
      } else {
        StagedAt(s.live, First(s), added, n - First(s));
      }
    }
  }

  lemma EnteredValues(live: map<nat, BlockId>, n: nat, id: BlockId)
    requires n !in live
    ensures forall x :: x in live.Values || x == id ==> x in live[n := id].Values
  {
    forall x | x in live.Values || x == id ensures x in live[n := id].Values {
      if x == id {
        assert live[n := id][n] == x;
      } else {
        var k :| k in live && live[k] == x;
        assert live[n := id][k] == x;
      }
    }
  }

  lemma CompleteGivingUp<T(!new)>(s: State<T>, a: Action<T>)
    requires Inv(s) && Complete(s) && a.Produce? && ProducerDerefs(s, a) && (s.producer.GrowIndex? || s.producer.Requisition?)
    ensures Complete(ProducerStep(s, a))
  {
    hide Inv, Complete, HeaderShape, IndexInv, Staged, ExactKey, KeySet, GivenUp, CellOf, WithValue, WithKey, WithTail,
      Doubled,
      NextCell, TailCell, Back, BlockFor, Busy, LookedUp, UndoneCell;
    ProducerView(s);
    GivenUpToHand(s, s.producer.added);
    CompleteMoved(s, ProducerStep(s, a));
  }

  lemma CompleteEnter<T(!new)>(s: State<T>, a: Action<T>)
    requires Inv(s) && Complete(s) && a.Produce? && ProducerDerefs(s, a) && s.producer.StoreValue?
    ensures Complete(ProducerStep(s, a))
  {
    hide Inv, Complete, HeaderShape, IndexInv, Staged, ExactKey, KeySet, GivenUp, CellOf, WithValue, WithKey, WithTail,
      Doubled,
      NextCell, TailCell, Back, BlockFor, Busy, LookedUp, UndoneCell;
    ProducerView(s);
    NewStaged(s.live, First(s), s.producer.added, s.producer.id);
    EnteredValues(s.live, First(s) + |s.producer.added|, s.producer.id);
    var live' := s.live[First(s) + |s.producer.added| := s.producer.id];
    assert ProducerStep(s, a).live == live' && Hand(s.producer) == [s.producer.id];
    forall id | id in s.live.Values || id in Hand(s.producer) ensures id in live'.Values {
      assert id in s.live.Values || id == s.producer.id;
    }
    CompleteMoved(s, ProducerStep(s, a));
  }

  lemma CompleteGiveBack<T(!new)>(s: State<T>, a: Action<T>)
    requires Inv(s) && Complete(s) && a.Produce? && ProducerDerefs(s, a) && s.producer.GiveBack?
    ensures Complete(ProducerStep(s, a))
  {
    hide Inv, Complete, HeaderShape, IndexInv, Staged, ExactKey, KeySet, GivenUp, CellOf, WithValue, WithKey, WithTail,
      Doubled,
      NextCell, TailCell, Back, BlockFor, Busy, LookedUp, UndoneCell;
    if s.producer.j < |s.producer.added| {
      RestIsRest(s.producer.added, s.producer.j);
    }
    CompleteMoved(s, ProducerStep(s, a));
  }

  lemma CompleteFill<T(!new)>(s: State<T>, a: Action<T>)
    requires Inv(s) && Complete(s) && a.Produce? && ProducerDerefs(s, a) && s.producer.Construct?
    ensures Complete(ProducerStep(s, a))
  {
    hide Inv, Complete, HeaderShape, IndexInv, Staged, ExactKey, KeySet, GivenUp, CellOf, WithValue, WithKey, WithTail,
      Doubled,
      NextCell, TailCell, Back, BlockFor, Busy, LookedUp, UndoneCell;
    CompleteMoved(s, ProducerStep(s, a));
  }

  lemma CompleteIndex<T(!new)>(s: State<T>, a: Action<T>)
    requires Inv(s) && Complete(s) && a.Produce? && ProducerDerefs(s, a) && !s.producer.Construct?
    requires !s.producer.GrowIndex? && !s.producer.Requisition? && !s.producer.StoreValue? && !s.producer.GiveBack?
    ensures Complete(ProducerStep(s, a))
  {
    hide Inv, Complete, HeaderShape, IndexInv, Staged, ExactKey, KeySet, GivenUp, CellOf, WithValue, WithKey, WithTail,
      Doubled,
      NextCell, TailCell, Back, BlockFor, Busy, LookedUp, UndoneCell;
    CompleteMoved(s, ProducerStep(s, a));
  }

  lemma CompleteProduce<T(!new)>(s: State<T>, a: Action<T>)
    requires Inv(s) && Complete(s) && a.Produce? && ProducerDerefs(s, a)
    ensures Complete(ProducerStep(s, a))
  {
    hide Inv, Complete, ProducerStep, ProducerDerefs;
    match s.producer
    case GrowIndex(_, _) => CompleteGivingUp(s, a);
    case Requisition(_, _) => CompleteGivingUp(s, a);
    case StoreValue(_, _, _) => CompleteEnter(s, a);
    case GiveBack(_, _) => CompleteGiveBack(s, a);
    case Construct(_, _, _) => CompleteFill(s, a);
    case _ => CompleteIndex(s, a);
  }

  lemma RestIsRest(added: seq<BlockId>, j: nat)
    requires j < |added|
    ensures forall id :: id in added[j..] && id != added[j] ==> id in added[j + 1..]
  {
  }

  lemma CompleteNext<T(!new)>(s: State<T>, a: Action<T>)
    requires Inv(s) && Complete(s) && Enabled(s, a)
    ensures Complete(Next(s, a))
  {
    hide Inv, Complete, ProducerStep, ConsumerStep;
    match a
    case Enqueue(xs) =>
      CompleteMoved(s, Next(s, a));
    case Produce(_, _, _) => CompleteProduce(s, a);
    case Claim(t, count) => CompleteClaim(s, t, count);
    case Consume(t) => CompleteConsume(s, t);
  }

  lemma {:induction false} ReachableComplete<T(!new)>(s: State<T>, schedule: seq<Action<T>>)
    requires Init(s) && Execute(s, schedule).Reached?
    ensures Complete(Execute(s, schedule).state)
  {
    hide Inv, Complete;
    if schedule == [] {
      InitComplete(s);
    } else {
      var last := |schedule| - 1;
      ReachableComplete(s, schedule[..last]);
      ReachableInv(s, schedule[..last]);
      CompleteNext(Execute(s, schedule[..last]).state, schedule[last]);
    }
  }

  lemma InitComplete<T(!new)>(s: State<T>)
    requires Init(s)
    ensures Complete(s)
  {
    forall n: nat ensures !Drained(s.finished, n) {
      assert n * BLOCK_SIZE !in s.finished;
    }
  }

  // ---------------------------------------------------------------- what callers may rely on

  /**
   However stale the header and the tail that a consumer has loaded, the slot it computes holds the entry of its block:
   with the base of the block, with the block, and the block holds every item it has come for.
   */
  lemma EveryLookupFinds<T(!new)>(s: State<T>, schedule: seq<Action<T>>, t: nat)
    requires Init(s) && Execute(s, schedule).Reached?
    requires t < |Execute(s, schedule).state.consumers| && Execute(s, schedule).state.consumers[t].LoadKey?
    ensures var m := Execute(s, schedule).state; var c := m.consumers[t];
      && HeaderThere(m.ix, c.h, c.tail) && KeySet(m.ix, m.ix.headers[c.h].slots[c.tail])
      && var header, n := m.ix.headers[c.h], Pos(c.job) / BLOCK_SIZE;
         var slot := LookedUp(header, c.tail, m.ix.cells[header.slots[c.tail]].key, n * BLOCK_SIZE);
         && HeaderThere(m.ix, c.h, slot) && n in m.live && m.live[n] in m.blocks
         && m.ix.cells[header.slots[slot]] == Entry(n * BLOCK_SIZE, To(m.live[n]))
         && forall i :: Pos(c.job) <= i < End(Pos(c.job), c.job.stop) ==> i < |m.items| && InCell(m.live, m.blocks, i, m.items[i])
  {
    hide Init, Execute, Inv, IndexInv, Bounds, CellOf, KeyFits, HeaderShape, SlotOf, StoredOk, InCell, End, Busy;
    ReachableInv(s, schedule);
    var m := Execute(s, schedule).state;
    var c := m.consumers[t];
    ConsumerView(m, t);
    StoredView(m);
    var n, busy := Pos(c.job) / BLOCK_SIZE, Busy(m.ix, m.top, First(m), m.producer);
    HeaderView(m.ix, m.top, m.live, busy, c.h, c.tail);
    StaleLookup(m.ix, m.ix.headers[c.h], c.tail, n);
    BlockOfIndex(Pos(c.job));
    EndBeyond(Pos(c.job), c.job.stop);
    OverlapIsLive(m.ix, m.live, m.items, m.head, m.taken, m.finished, c, n);
    EntryReached(m.ix, m.top, m.live, busy, c.h, SlotOf(m.ix.headers[c.h], n), n);
    LiveIsOwned(m.items, m.taken, m.finished, m.live, m.blocks);
    assert m.live[n] in m.live.Values;
    forall i | Pos(c.job) <= i < End(Pos(c.job), c.job.stop) ensures i < |m.items| && InCell(m.live, m.blocks, i, m.items[i]) {
      SameBlock(n, i);
      ItemInCell(m.items, m.taken, m.finished, m.live, m.blocks, i);
    }
  }

  lemma ItemInCell<T>(items: seq<T>, taken: set<nat>, finished: set<nat>, live: map<nat, BlockId>,
                      blocks: map<BlockId, Block<T>>, i: nat)
    requires StoredOk(items, taken, finished, live, blocks) && i / BLOCK_SIZE in live && i < |items| && i !in taken
    ensures InCell(live, blocks, i, items[i])
  {
    hide StoredOk;
    TakeFindsItem(items, taken, finished, live, blocks, i);
  }

  /** In every run a consumer that has claimed something can go on, and so can the producer: no access goes wrong. */
  lemma NobodyIsStuck<T(!new)>(s: State<T>, schedule: seq<Action<T>>, a: Action<T>)
    requires Init(s) && Execute(s, schedule).Reached?
    ensures var m := Execute(s, schedule).state;
      && (forall t :: 0 <= t < |m.consumers| ==> (m.consumers[t].Idle? <==> !ConsumerDerefs(m, m.consumers[t])))
      && |m.ix.headers| > 0
      && (a.Produce? && Supplies(m, a) ==> (m.producer.Ready? <==> !ProducerDerefs(m, a)))
  {
    hide Init, Execute, Inv, ProducerStep, ConsumerStep;
    ReachableInv(s, schedule);
    var m := Execute(s, schedule).state;
    forall t | 0 <= t < |m.consumers| && !m.consumers[t].Idle? ensures ConsumerDerefs(m, m.consumers[t]) {
      KeepConsume(m, t);
    }
    ProducerView(m);
    if a.Produce? && Supplies(m, a) && !m.producer.Ready? {
      KeepProduce(m, a);
    }
  }

  /**
   In every run each claimed index is in the claim of one consumer or in one delivery, never in two, and what has been
   delivered is what was enqueued at those indices.
   */
  lemma EveryIndexGoesToOne<T(!new)>(s: State<T>, schedule: seq<Action<T>>)
    requires Init(s) && Execute(s, schedule).Reached?
    ensures var m := Execute(s, schedule).state; ClaimsOk(m.items, m.head, m.consumers, m.deliveries) && m.head <= |m.items|
  {
    hide Init, Execute;
    ReachableInv(s, schedule);
    hide IndexOk, StoredOk, ProducerOk, HandsOk, ConsumersOk, ClaimsOk, ReleasesOk;
  }

  /** Step i of the run is the one in which consumer t, counting its items, finished block n. */
  ghost predicate FinishesAt<T>(s: State<T>, schedule: seq<Action<T>>, n: nat, id: BlockId, t: nat, i: nat) {
    && i < |schedule| && schedule[i] == Consume(t)
    && Execute(s, schedule[..i]).Reached? && Execute(s, schedule[..i + 1]).Reached?
    && var m := Execute(s, schedule[..i]).state;
       && t < |m.consumers| && m.consumers[t].Count? && m.consumers[t].from / BLOCK_SIZE == n && m.consumers[t].id == id
       && !Drained(m.finished, n) && Drained(Execute(s, schedule[..i + 1]).state.finished, n)
  }

  ghost predicate FinishedLast<T>(s: State<T>, schedule: seq<Action<T>>, n: nat, id: BlockId, t: nat) {
    exists i: nat :: FinishesAt(s, schedule, n, id, t, i)
  }

  lemma FinishedBefore<T>(s: State<T>, schedule: seq<Action<T>>, n: nat, id: BlockId, t: nat)
    requires schedule != [] && FinishedLast(s, schedule[..|schedule| - 1], n, id, t)
    ensures FinishedLast(s, schedule, n, id, t)
  {
    hide Execute, Drained;
    var shorter := schedule[..|schedule| - 1];
    var i: nat :| FinishesAt(s, shorter, n, id, t, i);
    assert shorter[..i] == schedule[..i] && shorter[..i + 1] == schedule[..i + 1];
    assert FinishesAt(s, schedule, n, id, t, i);
  }

  /** The step of a counting consumer finishes its block exactly when it goes on to clear the entry. */
  lemma CountFinishes<T(!new)>(m: State<T>, t: nat)
    requires Inv(m) && t < |m.consumers| && m.consumers[t].Count?
    ensures ConsumerDerefs(m, m.consumers[t])
    ensures var n, m' := m.consumers[t].from / BLOCK_SIZE, ConsumerStep(m, t);
      && !Drained(m.finished, n) && (m'.consumers[t].Clear? <==> Drained(m'.finished, n))
      && (m'.consumers[t].Clear? ==> m'.consumers[t].from == m.consumers[t].from && m'.consumers[t].id == m.consumers[t].id)
      && !m'.consumers[t].Release? && m'.releases == m.releases
  {
    hide Inv, Drained, Bounds, StoredOk, ProducerOk, Range;
    CountedParts(m, t);
  }

  /** Where a consumer that retires a block comes from. */
  lemma RetiresFrom<T(!new)>(m: State<T>, a: Action<T>, u: nat)
    requires Inv(m) && Enabled(m, a) && u < |m.consumers|
    ensures var m' := Next(m, a);
      && (m'.consumers[u].Clear? || m'.consumers[u].Release? ==>
            var c, c' := m.consumers[u], m'.consumers[u];
            && (c.Count? || c.Clear? || c.Release?) && c.from == c'.from && c.id == c'.id
            && (c.Count? ==> a == Consume(u) && c'.Clear?))
  {
    hide Inv, Drained, Range, HeaderShape, ProducerStep, ProducerDerefs;
    if a.Consume? && m.consumers[a.t].Count? {
      CountFinishes(m, a.t);
    }
  }

  /** Who retires or has released a block counted its last item. */
  ghost predicate RetiredByLast<T>(s: State<T>, schedule: seq<Action<T>>, m: State<T>) {
    && (forall t, n: nat :: 0 <= t < |m.consumers| && Retires(m.consumers[t], n) ==> FinishedLast(s, schedule, n, m.consumers[t].id, t))
    && (forall k :: 0 <= k < |m.releases| ==>
          FinishedLast(s, schedule, m.releases[k].number, m.releases[k].id, m.releases[k].t))
  }

  lemma {:induction false} ReachableRetired<T(!new)>(s: State<T>, schedule: seq<Action<T>>)
    requires Init(s) && Execute(s, schedule).Reached?
    ensures RetiredByLast(s, schedule, Execute(s, schedule).state)
  {
    hide Init, FinishedLast, Inv, Next, Enabled;
    if schedule == [] {
      StartsIdle(s);
    } else {
      var last := |schedule| - 1;
      var shorter, a := schedule[..last], schedule[last];
      ReachableRetired(s, shorter);
      ReachableInv(s, shorter);
      var m, m' := Execute(s, shorter).state, Execute(s, schedule).state;
      forall t, n: nat | 0 <= t < |m'.consumers| && Retires(m'.consumers[t], n)
        ensures FinishedLast(s, schedule, n, m'.consumers[t].id, t)
      {
        RetiresFrom(m, a, t);
        RetiresStep(s, schedule, t, n);
      }
      forall k | 0 <= k < |m'.releases|
        ensures FinishedLast(s, schedule, m'.releases[k].number, m'.releases[k].id, m'.releases[k].t)
      {
        ReleaseStep(s, schedule, k);
      }
    }
  }

  lemma StartsIdle<T>(s: State<T>)
    requires Init(s)
    ensures s.releases == [] && forall t :: 0 <= t < |s.consumers| ==> s.consumers[t].Idle?
  {
  }

  lemma RetiresStep<T(!new)>(s: State<T>, schedule: seq<Action<T>>, t: nat, n: nat)
    requires schedule != [] && Execute(s, schedule).Reached?
    requires var m, m' := Execute(s, schedule[..|schedule| - 1]).state, Execute(s, schedule).state;
      && Inv(m) && RetiredByLast(s, schedule[..|schedule| - 1], m)
      && t < |m'.consumers| && Retires(m'.consumers[t], n)
    ensures FinishedLast(s, schedule, n, Execute(s, schedule).state.consumers[t].id, t)
  {
    hide FinishedLast, Inv, Next, Enabled, Drained;
    var last := |schedule| - 1;
    var a, m, m' := schedule[last], Execute(s, schedule[..last]).state, Execute(s, schedule).state;
    RetiresFrom(m, a, t);
    if m.consumers[t].Count? {
      assert schedule[..last + 1] == schedule;
      CountFinishes(m, t);
      ConsumeIs(m, t);
      assert FinishesAt(s, schedule, n, m'.consumers[t].id, t, last);
      LastAt(s, schedule, n, m'.consumers[t].id, t, last);
    } else {
      assert Retires(m.consumers[t], n);
      FinishedBefore(s, schedule, n, m.consumers[t].id, t);
    }
  }

  lemma ConsumeIs<T>(m: State<T>, t: nat)
    requires t < |m.consumers| && ConsumerDerefs(m, m.consumers[t])
    ensures Enabled(m, Consume(t)) && Next(m, Consume(t)) == ConsumerStep(m, t)
  {
  }

  lemma LastAt<T>(s: State<T>, schedule: seq<Action<T>>, n: nat, id: BlockId, t: nat, i: nat)
    requires FinishesAt(s, schedule, n, id, t, i)
    ensures FinishedLast(s, schedule, n, id, t)
  {
  }

  lemma ReleaseStep<T(!new)>(s: State<T>, schedule: seq<Action<T>>, k: nat)
    requires schedule != [] && Execute(s, schedule).Reached?
    requires var m, m' := Execute(s, schedule[..|schedule| - 1]).state, Execute(s, schedule).state;
      && Inv(m) && RetiredByLast(s, schedule[..|schedule| - 1], m) && k < |m'.releases|
    ensures var r := Execute(s, schedule).state.releases[k]; FinishedLast(s, schedule, r.number, r.id, r.t)
  {
    hide FinishedLast, Inv, Next;
    var last := |schedule| - 1;
    var a, m, m' := schedule[last], Execute(s, schedule[..last]).state, Execute(s, schedule).state;
    NewRelease(m, a);
    if k < |m.releases| {
      FinishedBefore(s, schedule, m.releases[k].number, m.releases[k].id, m.releases[k].t);
    } else {
      assert Retires(m.consumers[a.t], m.consumers[a.t].from / BLOCK_SIZE);
      FinishedBefore(s, schedule, m.consumers[a.t].from / BLOCK_SIZE, m.consumers[a.t].id, a.t);
    }
  }

  lemma NewRelease<T(!new)>(m: State<T>, a: Action<T>)
    requires Inv(m) && Enabled(m, a)
    ensures Next(m, a).releases == m.releases
      || (a.Consume? && a.t < |m.consumers| && m.consumers[a.t].Release?
          && Next(m, a).releases == m.releases + [Released(m.consumers[a.t].from / BLOCK_SIZE, m.consumers[a.t].id, a.t)])
  {
    hide Inv, Drained, Range, HeaderShape, ProducerStep, ProducerDerefs;
    if a.Consume? && m.consumers[a.t].Count? {
      CountFinishes(m, a.t);
    }
  }

  /**
   In every run each block number is released at most once, as the block that had that number, by the consumer that
   counted the last of its items; and a block all of whose items have been counted is being retired or has been released.
   */
  lemma ReleasedOnceByTheLast<T(!new)>(s: State<T>, schedule: seq<Action<T>>)
    requires Init(s) && Execute(s, schedule).Reached?
    ensures var m := Execute(s, schedule).state;
      && (forall k, l :: 0 <= k < l < |m.releases| ==> m.releases[k].number != m.releases[l].number)
      && (forall k :: 0 <= k < |m.releases| ==>
            && m.releases[k].number !in m.live && Drained(m.finished, m.releases[k].number)
            && FinishedLast(s, schedule, m.releases[k].number, m.releases[k].id, m.releases[k].t))
      && (forall n: nat :: Drained(m.finished, n) ==> Retired(m.consumers, m.releases, n))
  {
    hide Init, Execute, FinishedLast;
    ReachableInv(s, schedule);
    ReachableRetired(s, schedule);
    ReachableComplete(s, schedule);
    var m := Execute(s, schedule).state;
    hide Drained, IndexOk, Bounds, StoredOk, ProducerOk, TailBlockOk, HandsOk, ConsumersOk, ClaimsOk, CountedAll,
      OwnedAll, Retires,
      Cleared, Retired;
    assert ReleasesOk(m.live, m.finished, m.consumers, m.releases);
  }

  /** In every run each owned block has one owner: a number in use, the producer's hands, or one releasing consumer. */
  lemma BlocksHaveOneOwner<T(!new)>(s: State<T>, schedule: seq<Action<T>>)
    requires Init(s) && Execute(s, schedule).Reached?
    ensures var m := Execute(s, schedule).state;
      && Injective(m.live) && HandsOk(m.blocks.Keys, m.live, m.producer, m.consumers) && m.live.Values <= m.blocks.Keys
      && forall id :: id in m.blocks ==> Owned(m.live, m.producer, m.consumers, id)
  {
    hide Init, Execute;
    ReachableInv(s, schedule);
    ReachableComplete(s, schedule);
    var m := Execute(s, schedule).state;
    StoredView(m);
    LiveIsOwned(m.items, m.taken, m.finished, m.live, m.blocks);
    hide IndexOk, Bounds, StoredOk, ProducerOk, TailBlockOk, HandsOk, ConsumersOk, ClaimsOk, ReleasesOk, CountedAll,
      RetiredAll, Owned, Injective;
  }

  /** Between calls the producer holds nothing: a failed call has given back every block that it had allocated. */
  lemma NothingStaysStaged<T(!new)>(s: State<T>, schedule: seq<Action<T>>)
    requires Init(s) && Execute(s, schedule).Reached? && Execute(s, schedule).state.producer.Ready?
    ensures var m := Execute(s, schedule).state;
      && (forall n :: n in m.live ==> n < Top(|m.items|))
      && (forall n: nat :: n < Top(|m.items|) && n !in m.live ==> Drained(m.finished, n))
      && (forall id :: id in m.blocks ==> id in m.live.Values || ReleasedSoon(m.consumers, id))
  {
    hide Init, Execute, Drained;
    BlocksHaveOneOwner(s, schedule);
    ReachableInv(s, schedule);
    var m := Execute(s, schedule).state;
    PlainParts(m);
    ProducerView(m);
    StagedBefore(m.live, First(m), []);
    forall id | id in m.blocks ensures id in m.live.Values || ReleasedSoon(m.consumers, id) {
      assert Owned(m.live, m.producer, m.consumers, id);
    }
  }

  predicate AtRest<T>(s: State<T>) {
    s.producer.Ready? && forall t :: 0 <= t < |s.consumers| ==> s.consumers[t].Idle?
  }

  /**
   When nobody is at work, the queue owns exactly one block for each number from that of the head to that of the last item,
   the items not yet dequeued are in their blocks, and exactly the blocks before the head have been released.
   */
  lemma QueueAtRest<T(!new)>(s: State<T>, schedule: seq<Action<T>>)
    requires Init(s) && Execute(s, schedule).Reached? && AtRest(Execute(s, schedule).state)
    ensures var m := Execute(s, schedule).state;
      && m.blocks.Keys == m.live.Values && Injective(m.live)
      && (forall n: nat :: n in m.live <==> m.head / BLOCK_SIZE <= n < Top(|m.items|))
      && (forall n: nat :: WasReleased(m.releases, n) <==> (n + 1) * BLOCK_SIZE <= m.head)
      && (forall i :: m.head <= i < |m.items| ==> InCell(m.live, m.blocks, i, m.items[i]))
      && (forall i: nat :: i < m.head <==> Delivered(m.deliveries, i))
  {
    hide Init, Execute, Inv, Complete, AtRest;
    ReachableInv(s, schedule);
    ReachableComplete(s, schedule);
    BlocksHaveOneOwner(s, schedule);
    var m := Execute(s, schedule).state;
    RestOwned(m);
    RestFinished(m);
    RestLive(m);
    RestReleased(m);
    RestItems(m);
  }

  lemma RestOwned<T(!new)>(m: State<T>)
    requires AtRest(m) && m.live.Values <= m.blocks.Keys
    requires forall id :: id in m.blocks ==> Owned(m.live, m.producer, m.consumers, id)
    ensures m.blocks.Keys == m.live.Values
  {
    forall id | id in m.blocks ensures id in m.live.Values {
      assert Owned(m.live, m.producer, m.consumers, id);
    }
  }

  /** At rest everything claimed has been delivered and counted. */
  lemma RestFinished<T(!new)>(m: State<T>)
    requires Inv(m) && Complete(m) && AtRest(m)
    ensures forall i: nat :: i in m.finished <==> i < m.head
    ensures forall i: nat :: i < m.head <==> Delivered(m.deliveries, i)
    ensures m.taken == m.finished && m.head <= |m.items|
  {
    hide IndexOk, StoredOk, ProducerOk, TailBlockOk, HandsOk, ConsumersOk, ReleasesOk, RetiredAll, OwnedAll, CountedUpTo,
      Drained;
    forall i: nat | i < m.head ensures Delivered(m.deliveries, i) {
      assert Claimed(m.consumers, m.deliveries, i);
    }
    forall i: nat | i < m.head ensures i in m.finished {
      assert Delivered(m.deliveries, i);
      var k :| 0 <= k < |m.deliveries| && Given(m.deliveries[k], i);
    }
    forall k, i: nat | 0 <= k < |m.deliveries| && Given(m.deliveries[k], i) ensures i < m.head {
      assert DeliveryOk(m.items, m.head, m.deliveries[k]);
    }
  }

  lemma DrainedBefore(finished: set<nat>, head: nat, n: nat)
    requires forall i: nat :: i in finished <==> i < head
    ensures Drained(finished, n) <==> (n + 1) * BLOCK_SIZE <= head
    ensures Drained(finished, n) <==> n < head / BLOCK_SIZE
  {
    var last: nat := (n + 1) * BLOCK_SIZE - 1;
    if Drained(finished, n) {
      assert last in finished;
    }
  }

  lemma RestLive<T(!new)>(m: State<T>)
    requires Inv(m) && AtRest(m) && forall i: nat :: i in m.finished <==> i < m.head
    ensures forall n: nat :: n in m.live <==> m.head / BLOCK_SIZE <= n < Top(|m.items|)
  {
    RestStaged(m);
    hide IndexOk, StoredOk, ProducerOk, TailBlockOk, HandsOk, ConsumersOk, ClaimsOk, Drained, Top;
    forall n: nat ensures n in m.live <==> m.head / BLOCK_SIZE <= n < Top(|m.items|) {
      DrainedBefore(m.finished, m.head, n);
      assert n in m.live && Drained(m.finished, n) ==> Cleared(m.consumers, n);
    }
  }

  lemma RestReleased<T(!new)>(m: State<T>)
    requires Inv(m) && Complete(m) && AtRest(m) && forall i: nat :: i in m.finished <==> i < m.head
    ensures forall n: nat :: WasReleased(m.releases, n) <==> (n + 1) * BLOCK_SIZE <= m.head
  {
    hide IndexOk, Bounds, StoredOk, ProducerOk, TailBlockOk, HandsOk, ConsumersOk, ClaimsOk, CountedAll, OwnedAll,
      Drained, Cleared;
    forall n: nat ensures WasReleased(m.releases, n) <==> (n + 1) * BLOCK_SIZE <= m.head {
      DrainedBefore(m.finished, m.head, n);
      assert Drained(m.finished, n) ==> Retired(m.consumers, m.releases, n);
    }
  }

  lemma RestStaged<T(!new)>(m: State<T>)
    requires Inv(m) && AtRest(m)
    ensures forall n :: n in m.live ==> n < Top(|m.items|)
  {
    hide Inv;
    ProducerView(m);
  }

  lemma RestItems<T(!new)>(m: State<T>)
    requires Inv(m) && (forall i: nat :: i in m.finished <==> i < m.head) && m.taken == m.finished
    ensures forall i :: m.head <= i < |m.items| ==> InCell(m.live, m.blocks, i, m.items[i])
  {
    hide Inv;
    PlainParts(m);
    hide Bounds, StoredOk, InCell;
    forall i: nat | m.head <= i < |m.items| ensures InCell(m.live, m.blocks, i, m.items[i]) {
      UnfinishedLive(|m.items|, m.head, m.taken, m.finished, m.live, i);
      ItemInCell(m.items, m.taken, m.finished, m.live, m.blocks, i);
    }
  }
}
