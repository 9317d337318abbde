/** The steps of the producer of BlockProtocol: each is defined, given memory, and keeps the invariant. */
module ProducerSteps {
  import opened Arith
  import opened BlockIndex
  import opened SharedIndex
  import opened ImplicitProducer
  import opened BlockProtocol
  import opened ConsumerSteps

  // ---------------------------------------------------------------- the producer works on the index

  lemma IndexThere(ix: Shared, top: nat, live: map<nat, BlockId>, busy: set<CellId>)
    requires IndexInv(ix, top, live, busy)
    ensures HasIndex(ix) && HeaderShape(|ix.cells|, Current(ix))
    ensures NextCell(ix) == CellOf(Current(ix), top) && TailCell(ix) == CellOf(Current(ix), top - 1)
  {
    hide HeaderOk, EntryOk, ExactKey, Accounted;
    EntryBehindTail(ix, top, live, busy);
  }

  /** What the environment owes: memory for the index of the right size, and a block that nobody uses. */
  predicate Supplies<T>(s: State<T>, a: Action<T>)
    requires a.Produce? && |s.ix.headers| > 0
  {
    && (s.producer.GrowIndex? && a.memory ==> |a.junk| == |Current(s.ix).slots|)
    && (s.producer.Requisition? && a.offer.To? ==> a.offer.id !in s.blocks)
  }

  lemma HandsMoved<T>(keys: set<BlockId>, live: map<nat, BlockId>, p: ProducerState<T>, p': ProducerState<T>,
                      consumers: seq<Consumer<T>>)
    requires HandsOk(keys, live, p, consumers) && (Hand(p') == [] || Hand(p') == Hand(p))
    ensures HandsOk(keys, live, p', consumers)
  {
    hide Hand;
  }

  /** A step that changes only the index and the producer's own state. */
  lemma KeepQuiet<T(!new)>(s: State<T>, ix: Shared, top: nat, p: ProducerState<T>)
    requires Inv(s) && IndexOk(ix, top, s.live, First(s), p) && IndexStep(s.ix, ix, s.live)
    requires HeaderShape(|ix.cells|, Current(ix)) && ProducerOk(ix, top, s.live, s.blocks, |s.items|, p)
    requires Hand(p) == [] || Hand(p) == Hand(s.producer)
    ensures Inv(s.(ix := ix, top := top, producer := p))
  {
    hide IndexOk, Bounds, StoredOk, ProducerOk, TailBlockOk, HandsOk, ConsumersOk, ClaimsOk, ReleasesOk, Hand, IndexStep,
      Needs, Drained;
    HandsMoved(s.blocks.Keys, s.live, s.producer, p, s.consumers);
    AllStay(s.ix, ix, s.live, s.live, s.items, s.items, s.head, s.head, s.taken, s.finished, s.consumers);
  }

  lemma KeepCheckKey<T(!new)>(s: State<T>, a: Action<T>)
    requires Inv(s) && s.producer.CheckKey? && a.Produce?
    ensures ProducerDerefs(s, a) && Inv(ProducerStep(s, a))
  {
    hide Inv, IndexInv, Staged, CellOf, IndexStep;
    ProducerView(s);
    IndexThere(s.ix, s.top, s.live, {});
    SameIndexStep(s.ix, s.live);
    if s.ix.cells[NextCell(s.ix)].key == INVALID_BLOCK_BASE {
      CheckedRoom(s.ix, s.top, s.live, {});
    }
    KeepQuiet(s, s.ix, s.top, ProducerStep(s, a).producer);
  }

  lemma KeepCheckValue<T(!new)>(s: State<T>, a: Action<T>)
    requires Inv(s) && s.producer.CheckValue? && a.Produce?
    ensures ProducerDerefs(s, a) && Inv(ProducerStep(s, a))
  {
    hide Inv, IndexInv, Staged, CellOf, IndexStep, ExactKey;
    ProducerView(s);
    IndexThere(s.ix, s.top, s.live, {});
    SameIndexStep(s.ix, s.live);
    if s.ix.cells[NextCell(s.ix)].value == Null {
      CheckedRoom(s.ix, s.top, s.live, {});
    } else {
      CheckedFull(s.ix, s.top, s.live);
    }
    KeepQuiet(s, s.ix, s.top, ProducerStep(s, a).producer);
  }

  lemma KeyIndexStep(ix: Shared, live: map<nat, BlockId>, c: CellId, n: nat)
    requires |ix.headers| > 0 && |Current(ix).slots| > 0 && c < |ix.cells|
    ensures IndexStep(ix, WithKey(ix, c, n * BLOCK_SIZE), live)
  {
    hide CellOf;
  }

  lemma TailIndexStep(ix: Shared, live: map<nat, BlockId>, tail: nat)
    requires |ix.headers| > 0 && |Current(ix).slots| > 0
    ensures IndexStep(ix, WithTail(ix, tail), live)
    ensures Current(WithTail(ix, tail)).slots == Current(ix).slots && Current(WithTail(ix, tail)).origin == Current(ix).origin
    ensures forall n: int :: CellOf(Current(WithTail(ix, tail)), n) == CellOf(Current(ix), n)
  {
    SameCells(ix, WithTail(ix, tail));
  }

  lemma DoubledIndexStep(ix: Shared, junk: seq<Pointer>, top: nat, live: map<nat, BlockId>, busy: set<CellId>)
    requires IndexInv(ix, top, live, busy) && |junk| == |Current(ix).slots|
    ensures IndexStep(ix, Doubled(ix, junk, top), live)
  {
    hide HeaderOk, EntryOk, ExactKey, Accounted, CellOf, SharedIndex.Unrolled, SlotOf;
    var ix' := Doubled(ix, junk, top);
    forall n | n in live ensures CellOf(Current(ix'), n) == CellOf(Current(ix), n) {
      LiveEntry(ix, top, live, busy, n);
      DoubledKeepsCell(ix, junk, top, n);
    }
    if live != map[] {
      var n :| n in live;
      CurrentTailSet(ix, top, live, busy, n);
    }
  }

  lemma KeepGrow<T(!new)>(s: State<T>, a: Action<T>)
    requires Inv(s) && s.producer.GrowIndex? && a.Produce? && a.memory && |s.ix.headers| > 0
    requires |a.junk| == |Current(s.ix).slots|
    ensures ProducerDerefs(s, a) && Inv(ProducerStep(s, a))
  {
    hide Inv, IndexInv, Staged, CellOf, IndexStep, ExactKey, Doubled, HeaderShape;
    ProducerView(s);
    IndexThere(s.ix, s.top, s.live, {});
    KeepDoubled(s.ix, a.junk, s.top, s.live, {});
    IndexThere(Doubled(s.ix, a.junk, s.top), s.top, s.live, {});
    DoubledIndexStep(s.ix, a.junk, s.top, s.live, {});
    KeepQuiet(s, Doubled(s.ix, a.junk, s.top), s.top, ProducerStep(s, a).producer);
  }

  lemma KeepStoreKey<T(!new)>(s: State<T>, a: Action<T>)
    requires Inv(s) && s.producer.StoreKey? && a.Produce?
    ensures ProducerDerefs(s, a) && Inv(ProducerStep(s, a))
  {
    hide Inv, IndexInv, Staged, CellOf, IndexStep, ExactKey, HeaderShape;
    ProducerView(s);
    IndexThere(s.ix, s.top, s.live, {});
    KeepKey(s.ix, s.top, s.live);
    var ix' := ProducerStep(s, a).ix;
    IndexThere(ix', s.top, s.live, {CellOf(Current(s.ix), s.top)});
    KeyIndexStep(s.ix, s.live, CellOf(Current(s.ix), s.top), s.top);
    KeepQuiet(s, ix', s.top, ProducerStep(s, a).producer);
  }

  lemma KeepStoreTail<T(!new)>(s: State<T>, a: Action<T>)
    requires Inv(s) && s.producer.StoreTail? && a.Produce?
    ensures ProducerDerefs(s, a) && Inv(ProducerStep(s, a))
  {
    hide Inv, IndexInv, Staged, CellOf, IndexStep, HeaderShape, SlotOf;
    ProducerView(s);
    var busy := {CellOf(Current(s.ix), s.top)};
    IndexThere(s.ix, s.top, s.live, busy);
    EntryBehindTail(s.ix, s.top, s.live, busy);
    KeepTailStore(s.ix, s.top, s.live, busy);
    var ix' := ProducerStep(s, a).ix;
    IndexThere(ix', s.top + 1, s.live, busy);
    TailIndexStep(s.ix, s.live, SlotOf(Current(s.ix), s.top));
    KeepQuiet(s, ix', s.top + 1, ProducerStep(s, a).producer);
  }

  // ---------------------------------------------------------------- the producer gets a block

  lemma OfferHands<T>(keys: set<BlockId>, live: map<nat, BlockId>, p: ProducerState<T>, p': ProducerState<T>,
                      consumers: seq<Consumer<T>>, id: BlockId)
    requires HandsOk(keys, live, p, consumers) && id !in keys && id !in live.Values && Hand(p') == [id]
    ensures HandsOk(keys + {id}, live, p', consumers)
  {
    hide Hand;
  }

  /** Blocks in use are owned. */
  lemma LiveIsOwned<T>(items: seq<T>, taken: set<nat>, finished: set<nat>, live: map<nat, BlockId>,
                       blocks: map<BlockId, Block<T>>)
    requires StoredOk(items, taken, finished, live, blocks)
    ensures forall id :: id in live.Values ==> id in blocks
  {
    hide BlockFine;
  }

  lemma MoreBlocks<T>(items: seq<T>, taken: set<nat>, finished: set<nat>, live: map<nat, BlockId>,
                      blocks: map<BlockId, Block<T>>,
                      id: BlockId, b: Block<T>)
    requires StoredOk(items, taken, finished, live, blocks) && id !in live.Values
    ensures StoredOk(items, taken, finished, live, blocks[id := b])
  {
    hide BlockFine;
    assert forall n :: n in live ==> live[n] in live.Values;
  }

  lemma KeepOffer<T(!new)>(s: State<T>, a: Action<T>)
    requires Inv(s) && s.producer.Requisition? && a.Produce? && a.offer.To? && a.offer.id !in s.blocks
    ensures ProducerDerefs(s, a) && Inv(ProducerStep(s, a))
  {
    hide Bounds, StoredOk, TailBlockOk, HandsOk, ConsumersOk, ClaimsOk, ReleasesOk, IndexInv, Staged, CellOf, ExactKey,
      HeaderShape;
    ProducerView(s);
    var id, blocks' := a.offer.id, s.blocks[a.offer.id := EmptyBlock()];
    IndexThere(s.ix, s.top, s.live, Busy(s.ix, s.top, First(s), s.producer));
    LiveIsOwned(s.items, s.taken, s.finished, s.live, s.blocks);
    MoreBlocks(s.items, s.taken, s.finished, s.live, s.blocks, id, EmptyBlock());
    assert blocks'.Keys == s.blocks.Keys + {id};
    OfferHands(s.blocks.Keys, s.live, s.producer, ProducerStep(s, a).producer, s.consumers, id);
  }

  /** A new block: it holds no published item, and none is finished. */
  lemma NewStored<T>(items: seq<T>, taken: set<nat>, finished: set<nat>, live: map<nat, BlockId>,
                     blocks: map<BlockId, Block<T>>,
                     n: nat, id: BlockId)
    requires StoredOk(items, taken, finished, live, blocks) && id !in live.Values && id in blocks
    requires |blocks[id].cells| == BLOCK_SIZE && blocks[id].done == 0
    requires |items| <= n * BLOCK_SIZE && forall i :: i in finished ==> i < |items|
    ensures StoredOk(items, taken, finished, live[n := id], blocks)
  {
    var live' := live[n := id];
    assert FinishedIn(finished, n) == {};
    assert forall k :: k in live ==> live[k] in live.Values;
    forall k | k in live' ensures live'[k] in blocks && BlockFine(items, taken, finished, k, blocks[live'[k]]) {
      if k != n {
        assert BlockFine(items, taken, finished, k, blocks[live[k]]);
      }
    }
  }

  lemma NewBounds(n: nat, head: nat, taken: set<nat>, finished: set<nat>, live: map<nat, BlockId>, k: nat, id: BlockId)
    requires Bounds(n, head, taken, finished, live)
    ensures Bounds(n, head, taken, finished, live[k := id])
  {
    hide Drained;
  }

  lemma NewHands<T>(keys: set<BlockId>, live: map<nat, BlockId>, p: ProducerState<T>, p': ProducerState<T>,
                    consumers: seq<Consumer<T>>, n: nat, id: BlockId)
    requires HandsOk(keys, live, p, consumers) && Hand(p) == [id] && Hand(p') == []
    ensures HandsOk(keys, live[n := id], p', consumers)
  {
    assert id in Hand(p);
    hide Hand;
    assert forall x :: x in live[n := id].Values ==> x in live.Values || x == id;
  }

  lemma NewReleases<T>(live: map<nat, BlockId>, finished: set<nat>, consumers: seq<Consumer<T>>, releases: seq<Released>,
                       n: nat, id: BlockId)
    requires ReleasesOk(live, finished, consumers, releases) && !Drained(finished, n)
    ensures ReleasesOk(live[n := id], finished, consumers, releases)
  {
    hide Drained;
  }

  lemma TopOf(n: nat)
    ensures n <= Top(n) * BLOCK_SIZE && (n % BLOCK_SIZE != 0 ==> n / BLOCK_SIZE + 1 == Top(n))
    ensures n % BLOCK_SIZE == 0 ==> n / BLOCK_SIZE == Top(n)
  {
  }

  lemma NotDrainedYet(n: nat, head: nat, taken: set<nat>, finished: set<nat>, live: map<nat, BlockId>, k: nat)
    requires Bounds(n, head, taken, finished, live) && Top(n) <= k
    ensures !Drained(finished, k) && n <= k * BLOCK_SIZE && forall i :: i in finished ==> i < n
  {
    TopOf(n);
    var i := k * BLOCK_SIZE;
    assert i !in finished;
  }

  lemma NewTailBlock(n: nat, live: map<nat, BlockId>, tailBlock: Pointer, k: nat, id: BlockId)
    requires TailBlockOk(n, live, tailBlock) && Top(n) <= k
    ensures TailBlockOk(n, live[k := id], tailBlock)
  {
    TopOf(n);
  }

  /** The block is entered: it follows those added before. */
  lemma NewStaged(live: map<nat, BlockId>, first: nat, added: seq<BlockId>, id: BlockId)
    requires Staged(live, first, added)
    ensures Staged(live[first + |added| := id], first, added + [id]) && first + |added| !in live
  {
    var live', added' := live[first + |added| := id], added + [id];
    forall i | 0 <= i < |added'| ensures HasNumber(live', first + i, added'[i]) {
      if i < |added| {
        StagedAt(live, first, added, i);
      }
    }
  }

  lemma KeepStoreValue<T(!new)>(s: State<T>, a: Action<T>)
    requires Inv(s) && s.producer.StoreValue? && a.Produce?
    ensures ProducerDerefs(s, a) && Inv(ProducerStep(s, a))
  {
    hide Bounds, StoredOk, TailBlockOk, HandsOk, ConsumersOk, ClaimsOk, ReleasesOk, IndexInv, Staged, CellOf, ExactKey,
      HeaderShape,
      IndexStep, Needs, Drained, WithValue;
    ProducerView(s);
    var id, k, added := s.producer.id, s.top - 1, s.producer.added;
    HandView(s);
    NewStaged(s.live, First(s), added, id);
    IndexThere(s.ix, s.top, s.live, {CellOf(Current(s.ix), k)});
    KeepValueStore(s.ix, s.top, s.live, id);
    var s' := ProducerStep(s, a);
    IndexThere(s'.ix, s.top, s'.live, {});
    NotDrainedYet(|s.items|, s.head, s.taken, s.finished, s.live, k);
    NewStored(s.items, s.taken, s.finished, s.live, s.blocks, k, id);
    NewBounds(|s.items|, s.head, s.taken, s.finished, s.live, k, id);
    NewTailBlock(|s.items|, s.live, s.tailBlock, k, id);
    NewHands(s.blocks.Keys, s.live, s.producer, s'.producer, s.consumers, k, id);
    NewReleases(s.live, s.finished, s.consumers, s.releases, k, id);
    ValueIndexStep(s.ix, s.live, CellOf(Current(s.ix), k), To(id));
    AllStay(s.ix, s'.ix, s.live, s'.live, s.items, s.items, s.head, s.head, s.taken, s.finished, s.consumers);
  }

  lemma HandView<T(!new)>(s: State<T>)
    requires Inv(s)
    ensures forall id :: id in Hand(s.producer) ==> id in s.blocks && id !in s.live.Values
    ensures s.producer.StoreValue? ==> s.producer.id in Hand(s.producer)
  {
    hide IndexOk, Bounds, StoredOk, ProducerOk, TailBlockOk, ConsumersOk, ClaimsOk, ReleasesOk;
  }

  // ---------------------------------------------------------------- a call fails: its blocks go out of use

  lemma FewerBounds(n: nat, head: nat, taken: set<nat>, finished: set<nat>, live: map<nat, BlockId>, live': map<nat, BlockId>)
    requires Bounds(n, head, taken, finished, live) && forall k :: k in live && k < Top(n) ==> k in live'
    ensures Bounds(n, head, taken, finished, live')
  {
    hide Drained;
  }

  lemma FewerReleases<T>(live: map<nat, BlockId>, live': map<nat, BlockId>, finished: set<nat>, consumers: seq<Consumer<T>>,
                         releases: seq<Released>)
    requires ReleasesOk(live, finished, consumers, releases) && forall k :: k in live' ==> k in live
    ensures ReleasesOk(live', finished, consumers, releases)
  {
    hide Drained, Cleared, Retires;
  }

  /** The blocks of the failed call pass into the producer's hands. */
  lemma FewerHands<T>(keys: set<BlockId>, live: map<nat, BlockId>, p: ProducerState<T>, p': ProducerState<T>,
                      consumers: seq<Consumer<T>>,
                      first: nat, live': map<nat, BlockId>)
    requires HandsOk(keys, live, p, consumers) && Injective(live) && Staged(live, first, Hand(p'))
    requires live.Values <= keys
    requires forall k :: k in live' <==> k in live && k < first
    requires forall k :: k in live' ==> live'[k] == live[k]
    ensures HandsOk(keys, live', p', consumers)
  {
    hide Hand;
    var added := Hand(p');
    forall i | 0 <= i < |added| ensures added[i] in live.Values && added[i] !in live'.Values {
      StagedAt(live, first, added, i);
    }
    forall i, j | 0 <= i < j < |added| ensures added[i] != added[j] {
      StagedAt(live, first, added, i);
      StagedAt(live, first, added, j);
    }
    assert forall id :: id in live'.Values ==> id in live.Values;
  }

  /** Nobody is at work on a block of a call that has not been published. */
  lemma UnpublishedUnneeded<T>(ix: Shared, live: map<nat, BlockId>, items: seq<T>, head: nat, taken: set<nat>,
                               finished: set<nat>,
                               c: Consumer<T>, n: nat)
    requires Bounds(|items|, head, taken, finished, live) && ConsumerOk(ix, live, items, head, taken, finished, c) && Needs(c, n)
    ensures n < Top(|items|)
  {
    hide Bounds, HeaderFits, Moved;
    TopOf(|items|);
    BlockOfIndex(c.from);
  }

  lemma KeepGivingUp<T(!new)>(s: State<T>, p: ProducerState<T>)
    requires Inv(s) && |s.ix.headers| > 0 && |Current(s.ix).slots| > 0 && HeaderShape(|s.ix.cells|, Current(s.ix))
    requires IndexInv(s.ix, s.top, GivenUp(s), Busy(s.ix, s.top, First(s), p))
    requires ProducerOk(s.ix, s.top, GivenUp(s), s.blocks, |s.items|, p)
    requires Staged(s.live, First(s), Hand(p))
    ensures Inv(s.(live := GivenUp(s), producer := p))
  {
    hide Bounds, StoredOk, ProducerOk, HandsOk, ConsumersOk, ClaimsOk, ReleasesOk, Hand, IndexStep, Needs, Drained,
      IndexInv, Staged,
      HeaderShape, ConsumerOk, Busy;
    var live' := GivenUp(s);
    StoredView(s);
    LiveIsOwned(s.items, s.taken, s.finished, s.live, s.blocks);
    FewerBounds(|s.items|, s.head, s.taken, s.finished, s.live, live');
    FewerStored(s.items, s.taken, s.finished, s.live, live', s.blocks);
    FewerReleases(s.live, live', s.finished, s.consumers, s.releases);
    FewerHands(s.blocks.Keys, s.live, s.producer, p, s.consumers, First(s), live');
    SameIndexStep(s.ix, s.live);
    forall u, n: nat | 0 <= u < |s.consumers| && Needs(s.consumers[u], n) && n in s.live ensures n in live' {
      ConsumerView(s, u);
      UnpublishedUnneeded(s.ix, s.live, s.items, s.head, s.taken, s.finished, s.consumers[u], n);
    }
    AllStay(s.ix, s.ix, s.live, live', s.items, s.items, s.head, s.head, s.taken, s.finished, s.consumers);
  }

  /** The entries of the call are in one round of the index and have their keys. */
  lemma AddedEntries(ix: Shared, top: nat, live: map<nat, BlockId>, busy: set<CellId>, first: nat, added: seq<BlockId>,
                     live': map<nat, BlockId>)
    requires IndexInv(ix, top, live, busy) && Staged(live, first, added) && first + |added| <= top <= first + |added| + 1
    requires top == first + |added| + 1 ==> ExactKey(ix, top - 1)
    requires forall k :: k in live' <==> k in live && k < first
    ensures Undoing(ix, live', first, top)
  {
    hide HeaderOk, ExactKey, EntryOk, Accounted, SlotOf;
    forall n | n in live ensures top <= n + |Current(ix).slots| {
      LiveEntry(ix, top, live, busy, n);
    }
    if |added| > 0 {
      StagedAt(live, first, added, 0);
      LiveEntry(ix, top, live, busy, first);
    }
  }

  lemma AddedValues(ix: Shared, top: nat, live: map<nat, BlockId>, busy: set<CellId>, first: nat, added: seq<BlockId>)
    requires IndexInv(ix, top, live, busy) && Staged(live, first, added)
    ensures StillEntered(ix, first, added, 0)
  {
    hide HeaderOk, ExactKey, Accounted, SlotOf, HeaderShape;
    forall k | 0 <= k < |added| ensures ValueAt(ix, first + k, added[k]) {
      StagedAt(live, first, added, k);
      assert EntryOk(ix, first + k, live[first + k]);
    }
  }

  lemma GivenUpFacts<T>(s: State<T>)
    ensures forall k :: k in GivenUp(s) <==> k in s.live && k < First(s)
    ensures forall k :: k in GivenUp(s) ==> GivenUp(s)[k] == s.live[k]
  {
  }

  lemma KeepNoIndexMemory<T(!new)>(s: State<T>, a: Action<T>)
    requires Inv(s) && s.producer.GrowIndex? && a.Produce? && !a.memory
    ensures ProducerDerefs(s, a) && Inv(ProducerStep(s, a))
  {
    hide Inv, IndexInv, Staged, CellOf, ExactKey, HeaderShape, GivenUp, Undoing, StillEntered;
    ProducerView(s);
    var added, live' := s.producer.added, GivenUp(s);
    GivenUpFacts(s);
    IndexThere(s.ix, s.top, s.live, {});
    AddedEntries(s.ix, s.top, s.live, {}, First(s), added, live');
    AddedValues(s.ix, s.top, s.live, {}, First(s), added);
    StagedBefore(s.live, First(s), added);
    KeepFewer(s.ix, s.top, s.live, {}, live', CellsOf(Current(s.ix), First(s), First(s) + |added|));
    KeepGivingUp(s, UndoNull(added, 0));
  }

  lemma StagedBefore(live: map<nat, BlockId>, first: nat, added: seq<BlockId>)
    requires Staged(live, first, added)
    ensures forall n :: n in live ==> n < first + |added|
  {
  }

  lemma KeepNoBlock<T(!new)>(s: State<T>, a: Action<T>)
    requires Inv(s) && s.producer.Requisition? && a.Produce? && a.offer == Null
    ensures ProducerDerefs(s, a) && Inv(ProducerStep(s, a))
  {
    hide Inv, IndexInv, Staged, CellOf, ExactKey, HeaderShape, GivenUp, Undoing, StillEntered;
    ProducerView(s);
    var added, live', busy := s.producer.added, GivenUp(s), {CellOf(Current(s.ix), s.top - 1)};
    GivenUpFacts(s);
    IndexThere(s.ix, s.top, s.live, busy);
    AddedEntries(s.ix, s.top, s.live, busy, First(s), added, live');
    AddedValues(s.ix, s.top, s.live, busy, First(s), added);
    StagedBefore(s.live, First(s), added);
    KeepFewer(s.ix, s.top, s.live, busy, live', CellsOf(Current(s.ix), First(s), First(s) + |added| + 1));
    KeepGivingUp(s, RewindLast(added));
  }

  // ---------------------------------------------------------------- the producer takes back its entries

  lemma FewerBusy(ix: Shared, top: nat, live: map<nat, BlockId>, busy: set<CellId>, busy': set<CellId>)
    requires IndexInv(ix, top, live, busy) && busy <= busy'
    ensures IndexInv(ix, top, live, busy')
  {
    hide IndexInv;
    KeepFewer(ix, top, live, busy, live, busy');
  }

  lemma UndoingStill(ix: Shared, ix': Shared, live: map<nat, BlockId>, first: nat, upto: nat, upto': nat)
    requires |ix.headers| > 0 && HeaderShape(|ix.cells|, Current(ix)) && Undoing(ix, live, first, upto) && upto' <= upto
    requires |ix'.headers| > 0 && HeaderShape(|ix'.cells|, Current(ix')) && |Current(ix').slots| == |Current(ix).slots|
    requires forall n: int :: ExactKey(ix', n) <==> ExactKey(ix, n)
    ensures Undoing(ix', live, first, upto')
  {
    hide ExactKey;
  }

  lemma TailLeavesKeys(ix: Shared, tail: nat)
    requires |ix.headers| > 0 && HeaderShape(|ix.cells|, Current(ix)) && tail < |Current(ix).slots|
    ensures var ix' := WithTail(ix, tail);
      && HeaderShape(|ix'.cells|, Current(ix')) && |Current(ix').slots| == |Current(ix).slots|
      && (forall n: int :: ExactKey(ix', n) <==> ExactKey(ix, n))
      && (forall n: int, id: BlockId :: ValueAt(ix', n, id) <==> ValueAt(ix, n, id))
      && (forall a: nat, b: nat :: CellsOf(Current(ix'), a, b) == CellsOf(Current(ix), a, b))
  {
    var ix' := WithTail(ix, tail);
    SameCells(ix, ix');
    forall a: nat, b: nat ensures CellsOf(Current(ix'), a, b) == CellsOf(Current(ix), a, b) {
      assert forall n: nat :: CellOf(Current(ix'), n) == CellOf(Current(ix), n);
    }
  }

  lemma KeepRewindLast<T(!new)>(s: State<T>, a: Action<T>)
    requires Inv(s) && s.producer.RewindLast? && a.Produce?
    ensures ProducerDerefs(s, a) && Inv(ProducerStep(s, a))
  {
    hide Inv, IndexInv, CellOf, ExactKey, HeaderShape, IndexStep, CellsOf, ValueAt;
    ProducerView(s);
    var busy, first := Busy(s.ix, s.top, First(s), s.producer), First(s);
    IndexThere(s.ix, s.top, s.live, busy);
    KeepRewind(s.ix, s.top, s.live, busy);
    TailLeavesKeys(s.ix, Back(s.ix));
    TailIndexStep(s.ix, s.live, Back(s.ix));
    UndoingStill(s.ix, WithTail(s.ix, Back(s.ix)), s.live, first, s.top, s.top);
    KeepQuiet(s, WithTail(s.ix, Back(s.ix)), s.top - 1, ProducerStep(s, a).producer);
  }

  lemma KeepUndoRewind<T(!new)>(s: State<T>, a: Action<T>)
    requires Inv(s) && s.producer.UndoRewind? && a.Produce?
    ensures ProducerDerefs(s, a) && Inv(ProducerStep(s, a))
  {
    hide Inv, IndexInv, CellOf, ExactKey, HeaderShape, IndexStep, CellsOf, ValueAt;
    ProducerView(s);
    var busy, first, upto := Busy(s.ix, s.top, First(s), s.producer), First(s), First(s) + |s.producer.added|;
    IndexThere(s.ix, s.top, s.live, busy);
    KeepRewind(s.ix, s.top, s.live, busy);
    TailLeavesKeys(s.ix, Back(s.ix));
    TailIndexStep(s.ix, s.live, Back(s.ix));
    UndoingStill(s.ix, WithTail(s.ix, Back(s.ix)), s.live, first, upto, upto);
    KeepQuiet(s, WithTail(s.ix, Back(s.ix)), s.top - 1, ProducerStep(s, a).producer);
  }

  /** The entry of block k of the failed call is cleared. */
  lemma ClearUndone(ix: Shared, top: nat, live: map<nat, BlockId>, first: nat, upto: nat, k: nat, busy: set<CellId>,
                    busy': set<CellId>)
    requires IndexInv(ix, top, live, busy) && Undoing(ix, live, first, upto) && first <= k < upto
    requires busy <= busy' + {CellOf(Current(ix), k)}
    ensures CellOf(Current(ix), k) < |ix.cells|
    ensures var ix' := WithValue(ix, CellOf(Current(ix), k), Null);
      && IndexInv(ix', top, live, busy') && IndexStep(ix, ix', live) && Current(ix') == Current(ix)
      && (forall m: int :: ExactKey(ix', m) <==> ExactKey(ix, m))
      && (forall m: nat :: first <= m < upto && m != k ==> CellOf(Current(ix), m) != CellOf(Current(ix), k))
  {
    hide HeaderOk, ExactKey, EntryOk, Accounted, CellOf, SlotOf, IndexStep;
    forall m: nat | first <= m < upto && m != k ensures CellOf(Current(ix), m) != CellOf(Current(ix), k) {
      CellsDiffer(|ix.cells|, Current(ix), m, k);
    }
    var c := CellOf(Current(ix), k);
    CellInRange(ix, Current(ix), k);
    forall n | n in live ensures CellOf(Current(ix), n) != c {
      CellsDiffer(|ix.cells|, Current(ix), n, k);
    }
    KeepOtherValue(ix, top, live, busy, c, Null);
    FewerBusy(WithValue(ix, c, Null), top, live, busy - {c}, busy');
    ValueIndexStep(ix, live, c, Null);
    ValueLeavesKeys(ix, c, Null);
  }

  lemma KeepNullLast<T(!new)>(s: State<T>, a: Action<T>)
    requires Inv(s) && s.producer.NullLast? && a.Produce?
    ensures ProducerDerefs(s, a) && Inv(ProducerStep(s, a))
  {
    hide Inv, IndexInv, CellOf, ExactKey, HeaderShape, IndexStep, WithValue, Undoing, StillEntered;
    ProducerView(s);
    var busy, first := Busy(s.ix, s.top, First(s), s.producer), First(s);
    IndexThere(s.ix, s.top, s.live, busy);
    ClearUndone(s.ix, s.top, s.live, first, s.top + 1, s.top, busy, CellsOf(Current(s.ix), first, s.top));
    var ix' := WithValue(s.ix, s.producer.cell, Null);
    IndexThere(ix', s.top, s.live, CellsOf(Current(s.ix), first, s.top));
    UndoingStill(s.ix, ix', s.live, first, s.top + 1, s.top);
    ClearEntered(s.ix, s.producer.cell, first, s.producer.added, 0);
    KeepQuiet(s, ix', s.top, ProducerStep(s, a).producer);
  }

  /** The lookup of the undoing producer finds the entry of the block. */
  lemma UndoLooksUp<T>(s: State<T>, busy: set<CellId>, upto: nat, j: nat)
    requires IndexInv(s.ix, s.top, s.live, busy) && Undoing(s.ix, s.live, First(s), upto) && First(s) < s.top <= upto
    requires First(s) + j < upto
    ensures HasIndex(s.ix) && KeySet(s.ix, TailCell(s.ix))
    ensures UndoneCell(s, j) == CellOf(Current(s.ix), First(s) + j) && ExactKey(s.ix, First(s) + j)
  {
    hide EntryOk, Accounted, SlotOf, LookedUp;
    IndexThere(s.ix, s.top, s.live, busy);
    assert ExactKey(s.ix, s.top - 1);
    HeaderView(s.ix, s.top, s.live, busy, |s.ix.headers| - 1, Current(s.ix).tail);
    StaleLookup(s.ix, Current(s.ix), Current(s.ix).tail, First(s) + j);
  }

  lemma EnteredAt(ix: Shared, first: nat, added: seq<BlockId>, j: nat)
    requires |ix.headers| > 0 && HeaderShape(|ix.cells|, Current(ix)) && StillEntered(ix, first, added, j) && j < |added|
    ensures ix.cells[CellOf(Current(ix), first + j)].value == To(added[j]) && StillEntered(ix, first, added, j + 1)
  {
    hide CellOf;
    assert ValueAt(ix, first + j, added[j]);
  }

  lemma KeepUndoNull<T(!new)>(s: State<T>, a: Action<T>)
    requires Inv(s) && s.producer.UndoNull? && a.Produce? && s.producer.j < |s.producer.added|
    ensures ProducerDerefs(s, a) && Inv(ProducerStep(s, a))
  {
    hide Inv, IndexInv, CellOf, HeaderShape, IndexStep, WithValue, Undoing, SlotOf, LookedUp, StillEntered, UndoneCell;
    ProducerView(s);
    var busy, first, j, added := Busy(s.ix, s.top, First(s), s.producer), First(s), s.producer.j, s.producer.added;
    var upto := first + |added|;
    IndexThere(s.ix, s.top, s.live, busy);
    UndoLooksUp(s, busy, upto, j);
    EnteredAt(s.ix, first, added, j);
    var busy' := CellsOf(Current(s.ix), first + j + 1, upto);
    ClearUndone(s.ix, s.top, s.live, first, upto, first + j, busy, busy');
    var c := CellOf(Current(s.ix), first + j);
    IndexThere(WithValue(s.ix, c, Null), s.top, s.live, busy');
    UndoingStill(s.ix, WithValue(s.ix, c, Null), s.live, first, upto, upto);
    ClearEntered(s.ix, c, first, added, j + 1);
    KeepQuiet(s, WithValue(s.ix, c, Null), s.top, ProducerStep(s, a).producer);
  }

  lemma KeepUndone<T(!new)>(s: State<T>, a: Action<T>)
    requires Inv(s) && s.producer.UndoNull? && a.Produce? && s.producer.j >= |s.producer.added|
    ensures ProducerDerefs(s, a) && Inv(ProducerStep(s, a))
  {
    hide Inv, IndexInv, CellOf, ExactKey, HeaderShape, IndexStep;
    ProducerView(s);
    IndexThere(s.ix, s.top, s.live, Busy(s.ix, s.top, First(s), s.producer));
    SameIndexStep(s.ix, s.live);
    assert Busy(s.ix, s.top, First(s), s.producer) == {};
    KeepQuiet(s, s.ix, s.top, ProducerStep(s, a).producer);
  }

  /** The first block in the producer's hands is given back. */
  lemma GiveBackHands<T>(keys: set<BlockId>, live: map<nat, BlockId>, p: ProducerState<T>, p': ProducerState<T>,
                         consumers: seq<Consumer<T>>)
    requires Hand(p) != [] && Hand(p') == Hand(p)[1..] && HandsOk(keys, live, p, consumers)
    ensures HandsOk(keys - {Hand(p)[0]}, live, p', consumers) && Hand(p)[0] !in live.Values
  {
    hide Hand;
    var h, h' := Hand(p), Hand(p');
    forall id | id in h' ensures id in h && id != h[0] {
      var i :| 0 <= i < |h'| && h'[i] == id;
      assert h[i + 1] == id;
    }
    forall i, j | 0 <= i < j < |h'| ensures h'[i] != h'[j] {
      assert h'[i] == h[i + 1] && h'[j] == h[j + 1];
    }
    assert h[0] in h;
  }

  lemma RestOfHand<T>(added: seq<BlockId>, j: nat)
    requires j < |added|
    ensures Hand<T>(GiveBack(added, j)) != [] && Hand<T>(GiveBack(added, j))[0] == added[j]
    ensures Hand<T>(GiveBack(added, j + 1)) == Hand<T>(GiveBack(added, j))[1..]
  {
  }

  lemma KeepGiveBack<T(!new)>(s: State<T>, a: Action<T>)
    requires Inv(s) && s.producer.GiveBack? && a.Produce?
    ensures ProducerDerefs(s, a) && Inv(ProducerStep(s, a))
  {
    hide Bounds, StoredOk, TailBlockOk, HandsOk, ConsumersOk, ClaimsOk, ReleasesOk, IndexInv, Staged, CellOf, ExactKey,
      HeaderShape, Hand;
    ProducerView(s);
    IndexThere(s.ix, s.top, s.live, {});
    var added, j := s.producer.added, s.producer.j;
    if j >= |added| {
      ReadyHand<T>();
      HandsMoved(s.blocks.Keys, s.live, s.producer, Ready, s.consumers);
    } else {
      RestOfHand<T>(added, j);
      GiveBackHands(s.blocks.Keys, s.live, s.producer, GiveBack(added, j + 1), s.consumers);
      ReleaseStored(s.items, s.taken, s.finished, s.live, s.blocks, added[j]);
      assert (s.blocks - {added[j]}).Keys == s.blocks.Keys - {added[j]};
    }
  }

  lemma ReadyHand<T>()
    ensures Hand<T>(Ready) == []
  {
  }

  // ---------------------------------------------------------------- the producer constructs and publishes its items

  /** The block that an item of the call goes into is in use. */
  lemma BlockForIsLive<T>(s: State<T>, added: seq<BlockId>, count: nat, k: nat)
    requires Bounds(|s.items|, s.head, s.taken, s.finished, s.live) && TailBlockOk(|s.items|, s.live, s.tailBlock)
    requires Staged(s.live, First(s), added) && First(s) + |added| == Top(|s.items| + count) && k < count
    ensures var m := (|s.items| + k) / BLOCK_SIZE; m in s.live && BlockFor(s, added, |s.items| + k) == To(s.live[m])
  {
    var n := |s.items|;
    var i := n + k;
    var m: nat := i / BLOCK_SIZE;
    TopOf(n);
    TopOf(n + count);
    BlockOfIndex(i);
    if m < First(s) {
      assert m == n / BLOCK_SIZE;
      assert i !in s.finished;
      assert !Drained(s.finished, m);
    } else {
      StagedAt(s.live, First(s), added, m - First(s));
    }
  }

  lemma ConstructStored<T>(items: seq<T>, taken: set<nat>, finished: set<nat>, live: map<nat, BlockId>,
                           blocks: map<BlockId, Block<T>>, i: nat, x: T)
    requires StoredOk(items, taken, finished, live, blocks) && i / BLOCK_SIZE in live && |items| <= i
    ensures var id := live[i / BLOCK_SIZE];
      id in blocks && |blocks[id].cells| == BLOCK_SIZE
      && StoredOk(items, taken, finished, live, blocks[id := blocks[id].(cells := blocks[id].cells[i % BLOCK_SIZE := Item(x)])])
  {
    hide FinishedIn;
    BlockOfIndex(i);
    var n := i / BLOCK_SIZE;
    var b := blocks[live[n]];
    assert BlockFine(items, taken, finished, n, b);
    var blocks' := blocks[live[n] := b.(cells := b.cells[i % BLOCK_SIZE := Item(x)])];
    forall m | m in live ensures live[m] in blocks' && BlockFine(items, taken, finished, m, blocks'[live[m]]) {
      assert BlockFine(items, taken, finished, m, blocks[live[m]]);
    }
  }

  lemma ConstructNext<T>(live: map<nat, BlockId>, blocks: map<BlockId, Block<T>>, n: nat, xs: seq<T>, k: nat)
    requires Constructed(live, blocks, n, xs, k) && Injective(live) && k < |xs| && (n + k) / BLOCK_SIZE in live
    requires live[(n + k) / BLOCK_SIZE] in blocks && |blocks[live[(n + k) / BLOCK_SIZE]].cells| == BLOCK_SIZE
    ensures var id := live[(n + k) / BLOCK_SIZE];
      Constructed(live, blocks[id := blocks[id].(cells := blocks[id].cells[(n + k) % BLOCK_SIZE := Item(xs[k])])], n, xs, k + 1)
  {
    var i := n + k;
    var b := blocks[live[i / BLOCK_SIZE]];
    var blocks' := blocks[live[i / BLOCK_SIZE] := b.(cells := b.cells[i % BLOCK_SIZE := Item(xs[k])])];
    forall o | 0 <= o < k + 1 <= |xs| ensures InCell(live, blocks', n + o, xs[o]) {
      if o < k {
        assert InCell(live, blocks, n + o, xs[o]);
        BlockOfIndex(i);
        BlockOfIndex(n + o);
      }
    }
  }

  lemma PlainParts<T(!new)>(s: State<T>)
    requires Inv(s)
    ensures Bounds(|s.items|, s.head, s.taken, s.finished, s.live) && TailBlockOk(|s.items|, s.live, s.tailBlock)
    ensures Injective(s.live) && StoredOk(s.items, s.taken, s.finished, s.live, s.blocks)
  {
    hide IndexOk, ProducerOk, HandsOk, ConsumersOk, ClaimsOk, ReleasesOk;
  }

  lemma KeepConstruct<T(!new)>(s: State<T>, a: Action<T>)
    requires Inv(s) && s.producer.Construct? && a.Produce? && s.producer.k < |s.producer.xs|
    ensures ProducerDerefs(s, a) && Inv(ProducerStep(s, a))
  {
    hide Bounds, StoredOk, TailBlockOk, HandsOk, ConsumersOk, ClaimsOk, ReleasesOk, IndexInv, Staged, CellOf,
      HeaderShape, BlockFor,
      Constructed, Injective;
    PlainParts(s);
    ProducerView(s);
    IndexThere(s.ix, s.top, s.live, {});
    var xs, added, k := s.producer.xs, s.producer.added, s.producer.k;
    BlockForIsLive(s, added, |xs|, k);
    ConstructStored(s.items, s.taken, s.finished, s.live, s.blocks, |s.items| + k, xs[k]);
    ConstructNext(s.live, s.blocks, |s.items|, xs, k);
    var s' := ProducerStep(s, a);
    assert s'.blocks.Keys == s.blocks.Keys;
    HandsMoved(s.blocks.Keys, s.live, s.producer, s'.producer, s.consumers);
  }

  lemma PublishStored<T>(items: seq<T>, xs: seq<T>, taken: set<nat>, finished: set<nat>, live: map<nat, BlockId>,
                         blocks: map<BlockId, Block<T>>)
    requires StoredOk(items, taken, finished, live, blocks) && Constructed(live, blocks, |items|, xs, |xs|)
    ensures StoredOk(items + xs, taken, finished, live, blocks)
  {
    hide FinishedIn;
    forall n | n in live ensures BlockFine(items + xs, taken, finished, n, blocks[live[n]]) {
      var b := blocks[live[n]];
      assert BlockFine(items, taken, finished, n, b);
      forall i | n * BLOCK_SIZE <= i < (n + 1) * BLOCK_SIZE && i < |items + xs| && i !in taken
        ensures b.cells[i - n * BLOCK_SIZE] == Item((items + xs)[i])
      {
        if i >= |items| {
          BlockOfIndex(i);
          SameBlock(n, i);
          assert InCell(live, blocks, |items| + (i - |items|), xs[i - |items|]);
        }
      }
    }
  }

  lemma PublishBounds(n: nat, n': nat, head: nat, taken: set<nat>, finished: set<nat>, live: map<nat, BlockId>,
                      added: seq<BlockId>)
    requires Bounds(n, head, taken, finished, live) && n <= n' && Staged(live, Top(n), added) && Top(n') == Top(n) + |added|
    ensures Bounds(n', head, taken, finished, live)
  {
    hide Drained;
    forall j: nat | j < Top(n') && !Drained(finished, j) ensures j in live {
      if j >= Top(n) {
        StagedAt(live, Top(n), added, j - Top(n));
      }
    }
  }

  lemma PublishTailBlock(n: nat, n': nat, live: map<nat, BlockId>, tailBlock: Pointer, added: seq<BlockId>)
    requires TailBlockOk(n, live, tailBlock) && n <= n' && Staged(live, Top(n), added) && Top(n') == Top(n) + |added|
    ensures TailBlockOk(n', live, if added == [] then tailBlock else To(added[|added| - 1]))
  {
    TopOf(n);
    TopOf(n');
    if added != [] {
      StagedAt(live, Top(n), added, |added| - 1);
    }
  }

  lemma PublishClaims<T>(items: seq<T>, xs: seq<T>, head: nat, consumers: seq<Consumer<T>>, deliveries: seq<Delivery<T>>)
    requires ClaimsOk(items, head, consumers, deliveries)
    ensures ClaimsOk(items + xs, head, consumers, deliveries)
  {
    hide Covers, Given, Claimed;
    forall k | 0 <= k < |deliveries| ensures DeliveryOk(items + xs, head, deliveries[k]) {
      assert DeliveryOk(items, head, deliveries[k]);
    }
  }

  lemma PublishStaged(live: map<nat, BlockId>, first: nat, added: seq<BlockId>)
    requires Staged(live, first, added)
    ensures Staged(live, first + |added|, [])
  {
  }

  lemma KeepPublish<T(!new)>(s: State<T>, a: Action<T>)
    requires Inv(s) && s.producer.Construct? && a.Produce? && s.producer.k >= |s.producer.xs|
    ensures ProducerDerefs(s, a) && Inv(ProducerStep(s, a))
  {
    hide Bounds, StoredOk, TailBlockOk, HandsOk, ConsumersOk, ClaimsOk, ReleasesOk, IndexInv, Staged, CellOf,
      HeaderShape, Constructed,
      IndexStep, Needs, Drained, Top;
    PlainParts(s);
    ProducerView(s);
    IndexThere(s.ix, s.top, s.live, {});
    var xs, added, n := s.producer.xs, s.producer.added, |s.items|;
    PublishStored(s.items, xs, s.taken, s.finished, s.live, s.blocks);
    PublishBounds(n, n + |xs|, s.head, s.taken, s.finished, s.live, added);
    PublishTailBlock(n, n + |xs|, s.live, s.tailBlock, added);
    PublishClaims(s.items, xs, s.head, s.consumers, s.deliveries);
    PublishStaged(s.live, First(s), added);
    HandsMoved(s.blocks.Keys, s.live, s.producer, Ready, s.consumers);
    SameIndexStep(s.ix, s.live);
    AllStay(s.ix, s.ix, s.live, s.live, s.items, s.items + xs, s.head, s.head, s.taken, s.finished, s.consumers);
  }

  lemma KeepEnqueue<T(!new)>(s: State<T>, xs: seq<T>)
    requires Inv(s) && s.producer.Ready?
    ensures Inv(Next(s, Enqueue(xs)))
  {
    hide Inv, IndexInv, Staged, CellOf, HeaderShape, IndexStep;
    ProducerView(s);
    IndexThere(s.ix, s.top, s.live, {});
    SameIndexStep(s.ix, s.live);
    KeepQuiet(s, s.ix, s.top, Next(s, Enqueue(xs)).producer);
  }

  lemma KeepProduce<T(!new)>(s: State<T>, a: Action<T>)
    requires Inv(s) && !s.producer.Ready? && a.Produce? && |s.ix.headers| > 0 && Supplies(s, a)
    ensures ProducerDerefs(s, a) && Inv(ProducerStep(s, a))
  {
    hide Inv, ProducerDerefs, ProducerStep;
    match s.producer
    case CheckKey(_, _) => KeepCheckKey(s, a);
    case CheckValue(_, _) => KeepCheckValue(s, a);
    case GrowIndex(_, _) => if a.memory { KeepGrow(s, a); } else { KeepNoIndexMemory(s, a); }
    case StoreKey(_, _) => KeepStoreKey(s, a);
    case StoreTail(_, _) => KeepStoreTail(s, a);
    case Requisition(_, _) => if a.offer.To? { KeepOffer(s, a); } else { KeepNoBlock(s, a); }
    case StoreValue(_, _, _) => KeepStoreValue(s, a);
    case Construct(xs, _, k) => if k < |xs| { KeepConstruct(s, a); } else { KeepPublish(s, a); }
    case RewindLast(_) => KeepRewindLast(s, a);
    case NullLast(_, _) => KeepNullLast(s, a);
    case UndoNull(added, j) => if j < |added| { KeepUndoNull(s, a); } else { KeepUndone(s, a); }
    case UndoRewind(_, _) => KeepUndoRewind(s, a);
    case GiveBack(_, _) => KeepGiveBack(s, a);
  }
}
