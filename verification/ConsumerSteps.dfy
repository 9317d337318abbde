/**
 The steps of the consumers of BlockProtocol: the next operation of a consumer is always defined, and it keeps the
 invariant.
 */
module ConsumerSteps {
  import opened Arith
  import opened BlockIndex
  import opened SharedIndex
  import opened ImplicitProducer
  import opened BlockProtocol

  // ---------------------------------------------------------------- consumers that do not move

  /** Where the indices begin that the consumer still needs the index for. */
  function Lo<T>(c: Consumer<T>): nat
    requires !c.Idle?
  {
    if c.Take? || c.Count? || c.Clear? then c.from else Pos(c.job)
  }

  /** The consumer is at work on block n. */
  predicate Needs<T>(c: Consumer<T>, n: nat) {
    (c.Take? || c.Count? || c.Clear?) && c.from / BLOCK_SIZE == n
  }

  lemma BlockOfIndex(i: nat)
    ensures i / BLOCK_SIZE * BLOCK_SIZE <= i < (i / BLOCK_SIZE + 1) * BLOCK_SIZE
    ensures i % BLOCK_SIZE == i - i / BLOCK_SIZE * BLOCK_SIZE
  {
  }

  lemma SameBlock(n: nat, i: nat)
    requires n * BLOCK_SIZE <= i < (n + 1) * BLOCK_SIZE
    ensures i / BLOCK_SIZE == n
  {
  }

  /** A published index that is not finished has its block in use. */
  lemma UnfinishedLive(n: nat, head: nat, taken: set<nat>, finished: set<nat>, live: map<nat, BlockId>, i: nat)
    requires Bounds(n, head, taken, finished, live) && i < n && i !in finished
    ensures i / BLOCK_SIZE in live
  {
    BlockOfIndex(i);
    var j: nat := i / BLOCK_SIZE;
    assert !Drained(finished, j);
  }

  /** The blocks that a consumer still needs the index for are in use. */
  lemma OverlapIsLive<T>(ix: Shared, live: map<nat, BlockId>, items: seq<T>, head: nat, taken: set<nat>, finished: set<nat>,
                         c: Consumer<T>, n: nat)
    requires Bounds(|items|, head, taken, finished, live) && ConsumerOk(ix, live, items, head, taken, finished, c)
    requires !c.Idle? && Overlaps(n, Lo(c), c.job.stop)
    ensures n in live
  {
    hide HeaderFits;
    var lo, pos := Lo(c), Pos(c.job);
    var i := if lo < n * BLOCK_SIZE then n * BLOCK_SIZE else lo;
    SameBlock(n, i);
    if c.Clear? && i < pos {
      BlockOfIndex(c.from);
      SameBlock(c.from / BLOCK_SIZE, i);
    } else {
      assert i !in finished;
      UnfinishedLive(|items|, head, taken, finished, live, i);
    }
  }

  /** What the index keeps through any step: headers do not move, keys stay set, and blocks in use keep their cells. */
  ghost predicate IndexStep(ix: Shared, ix': Shared, live: map<nat, BlockId>) {
    && 0 < |ix.headers| <= |ix'.headers| && |Current(ix).slots| > 0 && |Current(ix').slots| > 0
    && (forall i :: 0 <= i < |ix.headers| ==>
          ix'.headers[i].slots == ix.headers[i].slots && ix'.headers[i].origin == ix.headers[i].origin)
    && (forall i :: 0 <= i < |ix.headers| - 1 ==> ix'.headers[i].tail == ix.headers[i].tail)
    && (|ix'.headers| > |ix.headers| && live != map[] ==> TailSet(ix', |ix.headers| - 1))
    && (forall c: CellId :: KeySet(ix, c) ==> KeySet(ix', c))
    && (forall n :: n in live ==> CellOf(Current(ix'), n) == CellOf(Current(ix), n))
  }

  lemma SameSlots(h: Header, h': Header, n: int)
    requires |h.slots| > 0 && h'.slots == h.slots && h'.origin == h.origin
    ensures SlotOf(h', n) == SlotOf(h, n) && CellOf(h', n) == CellOf(h, n)
  {
  }

  lemma HeaderFitsStill(ix: Shared, ix': Shared, live: map<nat, BlockId>, h: nat, lo: nat, stop: nat)
    requires HeaderFits(ix, h, lo, stop) && IndexStep(ix, ix', live) && forall n: nat :: Overlaps(n, lo, stop) ==> n in live
    ensures HeaderFits(ix', h, lo, stop)
  {
    hide CellOf, Overlaps, KeySet, TailSet;
    forall n: nat | Overlaps(n, lo, stop) ensures CellOf(ix'.headers[h], n) == CellOf(Current(ix'), n) {
      SameSlots(ix.headers[h], ix'.headers[h], n);
    }
  }

  /** A consumer that does not move stays in order through a step of another thread. */
  lemma ConsumerStays<T>(ix: Shared, ix': Shared, live: map<nat, BlockId>, live': map<nat, BlockId>,
                         items: seq<T>, items': seq<T>, head: nat, head': nat,
                         taken: set<nat>, taken': set<nat>, finished: set<nat>, finished': set<nat>, c: Consumer<T>)
    requires Bounds(|items|, head, taken, finished, live) && ConsumerOk(ix, live, items, head, taken, finished, c)
    requires IndexStep(ix, ix', live) && items <= items' && head <= head' && (head <= |items| ==> head' <= |items'|)
    requires forall n :: Needs(c, n) ==> n in live' && n in live && live'[n] == live[n]
    requires c.Release? ==> c.from / BLOCK_SIZE !in live'
    requires finished <= finished'
    requires forall i: nat :: Covers(c, i) ==> (i in taken' <==> i in taken) && (i in finished' <==> i in finished)
    ensures ConsumerOk(ix', live', items', head', taken', finished', c)
  {
    hide Bounds, CellOf, KeySet, Overlaps, SlotOf;
    if !c.Idle? {
      var job := c.job;
      assert items'[job.first..Pos(job)] == items[job.first..Pos(job)];
      forall i | Pos(job) <= i < job.stop ensures i !in taken' {
        assert Covers(c, i);
      }
      if !c.LoadHeader? {
        forall n: nat | Overlaps(n, Lo(c), job.stop) ensures n in live {
          OverlapIsLive(ix, live, items, head, taken, finished, c, n);
        }
        HeaderFitsStill(ix, ix', live, c.h, Lo(c), job.stop);
        SameSlots(ix.headers[c.h], ix'.headers[c.h], Lo(c) / BLOCK_SIZE);
      }
      match c
      case LoadTail(_, h) => TailStaysSet(ix, ix', live, items, head, taken, finished, c);
      case Take(_, _, _, _, from) =>
        assert Needs(c, from / BLOCK_SIZE);
        StillMoved(taken, finished, taken', finished', c);
      case Count(_, _, _, _, from) =>
        assert Needs(c, from / BLOCK_SIZE);
        StillMoved(taken, finished, taken', finished', c);
      case Clear(_, _, _, _, from) => assert Needs(c, from / BLOCK_SIZE);
      case Release(_, h, _, _, from) => SameSlots(ix.headers[h], ix'.headers[h], from / BLOCK_SIZE);
      case _ =>
    }
  }

  lemma StillMoved<T>(taken: set<nat>, finished: set<nat>, taken': set<nat>, finished': set<nat>, c: Consumer<T>)
    requires (c.Take? || c.Count?) && c.job.first <= c.from && Pos(c.job) <= c.job.stop
    requires Moved(taken, finished, c.from, Pos(c.job))
    requires forall i: nat :: Covers(c, i) ==> (i in taken' <==> i in taken) && (i in finished' <==> i in finished)
    ensures Moved(taken', finished', c.from, Pos(c.job))
  {
    forall i | c.from <= i < Pos(c.job) ensures i in taken' && i !in finished' {
      assert Covers(c, i);
    }
  }

  /** The tail of the header that a consumer is about to read: its key is set, or the header is still the current one. */
  lemma TailStaysSet<T>(ix: Shared, ix': Shared, live: map<nat, BlockId>, items: seq<T>, head: nat, taken: set<nat>,
                        finished: set<nat>, c: Consumer<T>)
    requires c.LoadTail? && Bounds(|items|, head, taken, finished, live)
    requires ConsumerOk(ix, live, items, head, taken, finished, c) && IndexStep(ix, ix', live)
    ensures c.h == |ix'.headers| - 1 || TailSet(ix', c.h)
  {
    hide Bounds, CellOf, HeaderFits;
    var pos := Pos(c.job);
    BlockOfIndex(pos);
    OverlapIsLive(ix, live, items, head, taken, finished, c, pos / BLOCK_SIZE);
  }

  // ---------------------------------------------------------------- a consumer moves within its claim

  predicate SameClaim<T>(c: Consumer<T>, d: Consumer<T>) {
    !c.Idle? && !d.Idle? && c.job.first == d.job.first && c.job.stop == d.job.stop
  }

  lemma ClaimsKept<T>(items: seq<T>, head: nat, consumers: seq<Consumer<T>>, deliveries: seq<Delivery<T>>, t: nat,
                      c: Consumer<T>)
    requires ClaimsOk(items, head, consumers, deliveries) && t < |consumers| && SameClaim(consumers[t], c)
    ensures ClaimsOk(items, head, consumers[t := c], deliveries)
  {
    var consumers' := consumers[t := c];
    forall u, i: nat | 0 <= u < |consumers| ensures Covers(consumers'[u], i) <==> Covers(consumers[u], i) {
    }
    forall i: nat | i < head ensures Claimed(consumers', deliveries, i) {
      assert Claimed(consumers, deliveries, i);
      if u :| 0 <= u < |consumers| && Covers(consumers[u], i) {
        assert Covers(consumers'[u], i);
      }
    }
  }

  lemma ReleasesKept<T>(live: map<nat, BlockId>, finished: set<nat>, consumers: seq<Consumer<T>>, releases: seq<Released>,
                        t: nat, c: Consumer<T>)
    requires ReleasesOk(live, finished, consumers, releases) && t < |consumers|
    requires !consumers[t].Clear? && !consumers[t].Release? && !c.Clear? && !c.Release?
    ensures ReleasesOk(live, finished, consumers[t := c], releases)
  {
    hide Drained;
    var consumers' := consumers[t := c];
    forall n | n in live && Drained(finished, n) ensures Cleared(consumers', n) {
      var u :| 0 <= u < |consumers| && consumers[u].Clear? && consumers[u].from / BLOCK_SIZE == n;
      assert consumers'[u] == consumers[u];
    }
  }

  lemma HandsKept<T>(keys: set<BlockId>, live: map<nat, BlockId>, p: ProducerState<T>, consumers: seq<Consumer<T>>,
                     t: nat, c: Consumer<T>)
    requires HandsOk(keys, live, p, consumers) && t < |consumers| && !c.Release?
    ensures HandsOk(keys, live, p, consumers[t := c])
  {
    hide Hand;
  }

  lemma ConsumersKept<T>(ix: Shared, live: map<nat, BlockId>, items: seq<T>, head: nat, taken: set<nat>, finished: set<nat>,
                         consumers: seq<Consumer<T>>, t: nat, c: Consumer<T>)
    requires ConsumersOk(ix, live, items, head, taken, finished, consumers) && t < |consumers|
    requires ConsumerOk(ix, live, items, head, taken, finished, c)
    ensures ConsumersOk(ix, live, items, head, taken, finished, consumers[t := c])
  {
    hide ConsumerOk;
  }

  /** A step that only loads. */
  lemma KeepLoad<T(!new)>(s: State<T>, t: nat, c: Consumer<T>)
    requires Inv(s) && t < |s.consumers| && SameClaim(s.consumers[t], c)
    requires ConsumerOk(s.ix, s.live, s.items, s.head, s.taken, s.finished, c)
    requires !s.consumers[t].Clear? && !s.consumers[t].Release? && !c.Clear? && !c.Release?
    ensures Inv(s.(consumers := s.consumers[t := c]))
  {
    hide IndexOk, Bounds, StoredOk, ProducerOk, TailBlockOk, HandsOk, ConsumersOk, ClaimsOk, ReleasesOk, ConsumerOk;
    ClaimsKept(s.items, s.head, s.consumers, s.deliveries, t, c);
    ReleasesKept(s.live, s.finished, s.consumers, s.releases, t, c);
    HandsKept(s.blocks.Keys, s.live, s.producer, s.consumers, t, c);
    ConsumersKept(s.ix, s.live, s.items, s.head, s.taken, s.finished, s.consumers, t, c);
  }

  /** What is known of one busy consumer. */
  lemma ConsumerView<T(!new)>(s: State<T>, t: nat)
    requires Inv(s) && t < |s.consumers|
    ensures ConsumerOk(s.ix, s.live, s.items, s.head, s.taken, s.finished, s.consumers[t])
    ensures Bounds(|s.items|, s.head, s.taken, s.finished, s.live)
    ensures |s.ix.headers| > 0 && |Current(s.ix).slots| > 0
    ensures IndexInv(s.ix, s.top, s.live, Busy(s.ix, s.top, First(s), s.producer))
  {
    hide StoredOk, ProducerOk, HandsOk, ClaimsOk, ReleasesOk, ConsumerOk;
  }

  lemma KeepLoadHeader<T(!new)>(s: State<T>, t: nat)
    requires Inv(s) && t < |s.consumers| && s.consumers[t].LoadHeader?
    ensures ConsumerDerefs(s, s.consumers[t]) && Inv(ConsumerStep(s, t))
  {
    hide Inv;
    ConsumerView(s, t);
    var c := LoadTail(s.consumers[t].job, |s.ix.headers| - 1);
    KeepLoad(s, t, c);
  }

  /** The key at the current tail is set while any block is in use. */
  lemma CurrentTailSet(ix: Shared, top: nat, live: map<nat, BlockId>, busy: set<CellId>, n: nat)
    requires IndexInv(ix, top, live, busy) && n in live
    ensures TailSet(ix, |ix.headers| - 1)
  {
    hide HeaderOk, EntryOk, Accounted;
    LiveEntry(ix, top, live, busy, n);
    assert ExactKey(ix, top - 1);
  }

  lemma KeepLoadTail<T(!new)>(s: State<T>, t: nat)
    requires Inv(s) && t < |s.consumers| && s.consumers[t].LoadTail?
    ensures ConsumerDerefs(s, s.consumers[t]) && Inv(ConsumerStep(s, t))
  {
    hide Inv, IndexInv, Bounds, CellOf;
    ConsumerView(s, t);
    var job, h := s.consumers[t].job, s.consumers[t].h;
    BlockOfIndex(Pos(job));
    if h == |s.ix.headers| - 1 {
      OverlapIsLive(s.ix, s.live, s.items, s.head, s.taken, s.finished, s.consumers[t], Pos(job) / BLOCK_SIZE);
      CurrentTailSet(s.ix, s.top, s.live, Busy(s.ix, s.top, First(s), s.producer), Pos(job) / BLOCK_SIZE);
    }
    KeepLoad(s, t, LoadKey(job, h, s.ix.headers[h].tail));
  }

  lemma HeaderView(ix: Shared, top: nat, live: map<nat, BlockId>, busy: set<CellId>, h: nat, p: nat)
    requires IndexInv(ix, top, live, busy) && h < |ix.headers| && p < |ix.headers[h].slots|
    ensures HeaderShape(|ix.cells|, ix.headers[h]) && ix.headers[h].slots[p] < |ix.cells| && KeyFits(ix, ix.headers[h], p)
  {
    hide EntryOk, Accounted, ExactKey, KeyFits, Aligned;
    assert HeaderOk(ix, ix.headers[h]);
  }

  /** The lookup of the source finds the slot of the block, whatever header and tail were loaded. */
  lemma KeepLoadKey<T(!new)>(s: State<T>, t: nat)
    requires Inv(s) && t < |s.consumers| && s.consumers[t].LoadKey?
    ensures ConsumerDerefs(s, s.consumers[t]) && Inv(ConsumerStep(s, t))
  {
    hide Inv, IndexInv, Bounds, CellOf, KeyFits, HeaderShape, SlotOf;
    ConsumerView(s, t);
    var job, h, tail := s.consumers[t].job, s.consumers[t].h, s.consumers[t].tail;
    HeaderView(s.ix, s.top, s.live, Busy(s.ix, s.top, First(s), s.producer), h, tail);
    StaleLookup(s.ix, s.ix.headers[h], tail, Pos(job) / BLOCK_SIZE);
    KeepLoad(s, t, LoadValue(job, h, SlotOf(s.ix.headers[h], Pos(job) / BLOCK_SIZE)));
  }

  /** The entry that a consumer reaches is the entry of its block. */
  lemma EntryReached(ix: Shared, top: nat, live: map<nat, BlockId>, busy: set<CellId>, h: nat, slot: nat, n: nat)
    requires IndexInv(ix, top, live, busy) && n in live && h < |ix.headers| && |ix.headers[h].slots| > 0
    requires slot == SlotOf(ix.headers[h], n) && CellOf(ix.headers[h], n) == CellOf(Current(ix), n)
    ensures slot < |ix.headers[h].slots| && ix.headers[h].slots[slot] == CellOf(Current(ix), n) < |ix.cells|
    ensures ix.cells[ix.headers[h].slots[slot]] == Entry(n * BLOCK_SIZE, To(live[n]))
  {
    hide HeaderOk, Accounted, ExactKey;
    LiveEntry(ix, top, live, busy, n);
  }

  lemma EndBeyond(from: nat, stop: nat)
    requires from < stop
    ensures from < End(from, stop) <= stop && End(from, stop) <= (from / BLOCK_SIZE + 1) * BLOCK_SIZE
  {
  }

  lemma KeepLoadValue<T(!new)>(s: State<T>, t: nat)
    requires Inv(s) && t < |s.consumers| && s.consumers[t].LoadValue?
    ensures ConsumerDerefs(s, s.consumers[t]) && Inv(ConsumerStep(s, t))
  {
    hide Inv, IndexInv, Bounds, CellOf, SlotOf, End;
    ConsumerView(s, t);
    var job, h, slot := s.consumers[t].job, s.consumers[t].h, s.consumers[t].slot;
    var n := Pos(job) / BLOCK_SIZE;
    BlockOfIndex(Pos(job));
    EndBeyond(Pos(job), job.stop);
    OverlapIsLive(s.ix, s.live, s.items, s.head, s.taken, s.finished, s.consumers[t], n);
    assert Overlaps(n, Pos(job), job.stop);
    EntryReached(s.ix, s.top, s.live, Busy(s.ix, s.top, First(s), s.producer), h, slot, n);
    KeepLoad(s, t, Take(job, h, slot, s.live[n], Pos(job)));
  }

  // ---------------------------------------------------------------- a consumer moves an item out

  lemma SameIndexStep(ix: Shared, live: map<nat, BlockId>)
    requires |ix.headers| > 0 && |Current(ix).slots| > 0
    ensures IndexStep(ix, ix, live)
  {
  }

  lemma NeededIsLive<T>(ix: Shared, live: map<nat, BlockId>, items: seq<T>, head: nat, taken: set<nat>, finished: set<nat>,
                        c: Consumer<T>, n: nat)
    requires ConsumerOk(ix, live, items, head, taken, finished, c) && Needs(c, n)
    ensures n in live && live[n] == c.id
  {
    hide HeaderFits, JobOk, Moved;
  }

  /** The others do not notice what happens to indices that only consumer t has claimed. */
  lemma OthersKept<T>(ix: Shared, ix': Shared, live: map<nat, BlockId>, live': map<nat, BlockId>, items: seq<T>, head: nat,
                      taken: set<nat>, taken': set<nat>, finished: set<nat>, finished': set<nat>,
                      consumers: seq<Consumer<T>>, t: nat, c: Consumer<T>)
    requires Bounds(|items|, head, taken, finished, live) && ConsumersOk(ix, live, items, head, taken, finished, consumers)
    requires t < |consumers| && ConsumerOk(ix', live', items, head, taken', finished', c) && IndexStep(ix, ix', live)
    requires finished <= finished'
    requires forall i: nat :: !Covers(consumers[t], i) ==> (i in taken' <==> i in taken) && (i in finished' <==> i in finished)
    requires forall u, i: nat :: 0 <= u < |consumers| && u != t && Covers(consumers[u], i) ==> !Covers(consumers[t], i)
    requires forall n :: n in live' ==> n in live && live'[n] == live[n]
    requires forall u, n: nat :: 0 <= u < |consumers| && u != t && Needs(consumers[u], n) ==> n in live'
    ensures ConsumersOk(ix', live', items, head, taken', finished', consumers[t := c])
  {
    hide Bounds, ConsumerOk, IndexStep, Covers, Needs;
    var consumers' := consumers[t := c];
    forall u | 0 <= u < |consumers'| ensures ConsumerOk(ix', live', items, head, taken', finished', consumers'[u]) {
      if u != t {
        assert ConsumerOk(ix, live, items, head, taken, finished, consumers[u]);
        forall n | Needs(consumers[u], n) ensures n in live' && n in live && live'[n] == live[n] {
          NeededIsLive(ix, live, items, head, taken, finished, consumers[u], n);
        }
        ReleasedIsGone(ix, live, items, head, taken, finished, consumers[u]);
        ConsumerStays(ix, ix', live, live', items, items, head, head, taken, taken', finished, finished', consumers[u]);
      }
    }
  }

  lemma ReleasedIsGone<T>(ix: Shared, live: map<nat, BlockId>, items: seq<T>, head: nat, taken: set<nat>, finished: set<nat>,
                          c: Consumer<T>)
    requires ConsumerOk(ix, live, items, head, taken, finished, c)
    ensures c.Release? ==> c.from / BLOCK_SIZE !in live
  {
    hide HeaderFits, JobOk, Moved;
  }

  lemma TakeStored<T>(items: seq<T>, taken: set<nat>, finished: set<nat>, live: map<nat, BlockId>,
                      blocks: map<BlockId, Block<T>>, n: nat, i: nat)
    requires StoredOk(items, taken, finished, live, blocks) && n in live && i / BLOCK_SIZE == n
    ensures var b := blocks[live[n]];
      StoredOk(items, taken + {i}, finished, live, blocks[live[n] := b.(cells := b.cells[i % BLOCK_SIZE := Raw])])
  {
    hide FinishedIn;
    BlockOfIndex(i);
    var b := blocks[live[n]];
    assert BlockFine(items, taken, finished, n, b);
    var blocks' := blocks[live[n] := b.(cells := b.cells[i % BLOCK_SIZE := Raw])];
    forall m | m in live ensures live[m] in blocks' && BlockFine(items, taken + {i}, finished, m, blocks'[live[m]]) {
      assert BlockFine(items, taken, finished, m, blocks[live[m]]);
    }
  }

  /** The producer does not notice changes in blocks that are not in its hands and cells it has not filled. */
  lemma ProducerKept<T>(ix: Shared, top: nat, live: map<nat, BlockId>, blocks: map<BlockId, Block<T>>,
                        blocks': map<BlockId, Block<T>>, n: nat, p: ProducerState<T>)
    requires |ix.headers| > 0 && HeaderShape(|ix.cells|, Current(ix)) && ProducerOk(ix, top, live, blocks, n, p)
    requires forall id :: id in Hand(p) && id in blocks ==> id in blocks' && blocks'[id] == blocks[id]
    requires p.Construct? ==> Constructed(live, blocks', n, p.xs, p.k)
    ensures ProducerOk(ix, top, live, blocks', n, p)
  {
    hide HeaderShape, Staged, Undoing, StillEntered, Room, ExactKey, Constructed, KeySet;
    if p.StoreValue? {
      assert p.id in Hand(p);
    }
  }

  lemma TakeConstructed<T>(live: map<nat, BlockId>, blocks: map<BlockId, Block<T>>, n: nat, xs: seq<T>, k: nat, m: nat,
                           i: nat)
    requires Constructed(live, blocks, n, xs, k) && Injective(live) && m in live && live[m] in blocks && i < n
    requires |blocks[live[m]].cells| == BLOCK_SIZE && i / BLOCK_SIZE == m
    ensures var b := blocks[live[m]];
      Constructed(live, blocks[live[m] := b.(cells := b.cells[i % BLOCK_SIZE := Raw])], n, xs, k)
  {
    var b := blocks[live[m]];
    var blocks' := blocks[live[m] := b.(cells := b.cells[i % BLOCK_SIZE := Raw])];
    forall o | 0 <= o < k <= |xs| ensures InCell(live, blocks', n + o, xs[o]) {
      assert InCell(live, blocks, n + o, xs[o]);
      BlockOfIndex(i);
      BlockOfIndex(n + o);
    }
  }

  lemma TakeBounds(n: nat, head: nat, taken: set<nat>, finished: set<nat>, live: map<nat, BlockId>, i: nat)
    requires Bounds(n, head, taken, finished, live) && i < head
    ensures Bounds(n, head, taken + {i}, finished, live)
  {
    hide Drained;
  }

  lemma TakeConsumer<T>(ix: Shared, live: map<nat, BlockId>, items: seq<T>, head: nat, taken: set<nat>,
                        finished: set<nat>, c: Consumer<T>)
    requires c.Take? && ConsumerOk(ix, live, items, head, taken, finished, c) && finished <= taken
    ensures Pos(c.job) < |items| && Pos(c.job) / BLOCK_SIZE == c.from / BLOCK_SIZE && Pos(c.job) < head && Covers(c, Pos(c.job))
    ensures var job' := c.job.(got := c.job.got + [items[Pos(c.job)]]);
      ConsumerOk(ix, live, items, head, taken + {Pos(c.job)}, finished,
                 if Pos(job') >= End(c.from, c.job.stop) then Count(job', c.h, c.slot, c.id, c.from)
                 else Take(job', c.h, c.slot, c.id, c.from))
  {
    hide HeaderFits, SlotOf;
    var job := c.job;
    EndBeyond(c.from, job.stop);
    SameBlock(c.from / BLOCK_SIZE, Pos(job));
    assert items[job.first..Pos(job) + 1] == items[job.first..Pos(job)] + [items[Pos(job)]];
  }

  lemma TakeFindsItem<T>(items: seq<T>, taken: set<nat>, finished: set<nat>, live: map<nat, BlockId>,
                         blocks: map<BlockId, Block<T>>, i: nat)
    requires StoredOk(items, taken, finished, live, blocks) && i / BLOCK_SIZE in live && i < |items| && i !in taken
    ensures var id := live[i / BLOCK_SIZE];
      id in blocks && |blocks[id].cells| == BLOCK_SIZE && blocks[id].cells[i % BLOCK_SIZE] == Item(items[i])
  {
    hide FinishedIn;
    BlockOfIndex(i);
    assert BlockFine(items, taken, finished, i / BLOCK_SIZE, blocks[live[i / BLOCK_SIZE]]);
  }

  lemma OneClaimant<T>(items: seq<T>, head: nat, consumers: seq<Consumer<T>>, deliveries: seq<Delivery<T>>, t: nat)
    requires ClaimsOk(items, head, consumers, deliveries) && t < |consumers|
    ensures forall u, i: nat :: 0 <= u < |consumers| && u != t && Covers(consumers[u], i) ==> !Covers(consumers[t], i)
  {
    hide Covers, Claimed, Given, DeliveryOk;
  }

  lemma ConsumersNeed<T>(ix: Shared, live: map<nat, BlockId>, items: seq<T>, head: nat, taken: set<nat>, finished: set<nat>,
                         consumers: seq<Consumer<T>>)
    requires ConsumersOk(ix, live, items, head, taken, finished, consumers)
    ensures forall u, n: nat :: 0 <= u < |consumers| && Needs(consumers[u], n) ==> n in live
  {
    hide ConsumerOk, Needs;
    forall u, n: nat | 0 <= u < |consumers| && Needs(consumers[u], n) ensures n in live {
      NeededIsLive(ix, live, items, head, taken, finished, consumers[u], n);
    }
  }

  /** The slot of any block is a place in the header. */
  lemma SlotThere(ix: Shared, top: nat, live: map<nat, BlockId>, busy: set<CellId>, h: nat, n: nat)
    requires IndexInv(ix, top, live, busy) && h < |ix.headers| && |ix.headers[h].slots| > 0
    ensures HeaderThere(ix, h, SlotOf(ix.headers[h], n))
  {
    hide IndexInv, SlotOf;
    HeaderView(ix, top, live, busy, h, SlotOf(ix.headers[h], n));
  }

  /** A consumer at work on a block: where it is in the index, and that the block is there. */
  lemma AtBlock<T(!new)>(s: State<T>, t: nat)
    requires Inv(s) && t < |s.consumers| && (s.consumers[t].Take? || s.consumers[t].Count? || s.consumers[t].Clear?)
    ensures var c := s.consumers[t]; var n := c.from / BLOCK_SIZE;
      && HeaderThere(s.ix, c.h, c.slot) && |s.ix.headers| > 0 && |Current(s.ix).slots| > 0
      && s.ix.headers[c.h].slots[c.slot] == CellOf(Current(s.ix), n)
      && n in s.live && s.live[n] == c.id && c.id in s.blocks
      && BlockFine(s.items, s.taken, s.finished, n, s.blocks[c.id])
  {
    hide Inv, IndexInv, Bounds, SlotOf, CellOf, Moved, End, JobOk, BlockFine, Busy, Drained;
    ConsumerView(s, t);
    StoredView(s);
    var c := s.consumers[t];
    var n := c.from / BLOCK_SIZE;
    BlockOfIndex(c.from);
    assert Overlaps(n, c.from, c.job.stop);
    EntryReached(s.ix, s.top, s.live, Busy(s.ix, s.top, First(s), s.producer), c.h, c.slot, n);
  }

  lemma KeepTake<T(!new)>(s: State<T>, t: nat)
    requires Inv(s) && t < |s.consumers| && s.consumers[t].Take?
    ensures ConsumerDerefs(s, s.consumers[t]) && Inv(ConsumerStep(s, t))
  {
    hide IndexOk, Bounds, StoredOk, ProducerOk, TailBlockOk, HandsOk, ConsumersOk, ClaimsOk, ReleasesOk, ConsumerOk, Staged,
      Constructed, Covers, Needs, IndexStep, BlockFine, Hand, IndexInv, Injective, End, Busy;
    AtBlock(s, t);
    ConsumerView(s, t);
    var c := s.consumers[t];
    var i, n := Pos(c.job), c.from / BLOCK_SIZE;
    TakenFinished(|s.items|, s.head, s.taken, s.finished, s.live);
    TakeConsumer(s.ix, s.live, s.items, s.head, s.taken, s.finished, c);
    NotTaken(s.ix, s.live, s.items, s.head, s.taken, s.finished, c);
    TakeFindsItem(s.items, s.taken, s.finished, s.live, s.blocks, i);
    var s' := ConsumerStep(s, t);
    TakeBounds(|s.items|, s.head, s.taken, s.finished, s.live, i);
    TakeStored(s.items, s.taken, s.finished, s.live, s.blocks, n, i);
    TakeProducer(s, t);
    assert s'.blocks.Keys == s.blocks.Keys;
    HandsKept(s.blocks.Keys, s.live, s.producer, s.consumers, t, s'.consumers[t]);
    ClaimsKept(s.items, s.head, s.consumers, s.deliveries, t, s'.consumers[t]);
    ReleasesKept(s.live, s.finished, s.consumers, s.releases, t, s'.consumers[t]);
    SameIndexStep(s.ix, s.live);
    OneClaimant(s.items, s.head, s.consumers, s.deliveries, t);
    ConsumersNeed(s.ix, s.live, s.items, s.head, s.taken, s.finished, s.consumers);
    OthersKept(s.ix, s.ix, s.live, s.live, s.items, s.head, s.taken, s'.taken, s.finished, s.finished, s.consumers, t,
      s'.consumers[t]);
  }

  lemma TakenFinished(n: nat, head: nat, taken: set<nat>, finished: set<nat>, live: map<nat, BlockId>)
    requires Bounds(n, head, taken, finished, live)
    ensures finished <= taken && head <= n
  {
  }

  lemma NotTaken<T>(ix: Shared, live: map<nat, BlockId>, items: seq<T>, head: nat, taken: set<nat>, finished: set<nat>,
                    c: Consumer<T>)
    requires c.Take? && ConsumerOk(ix, live, items, head, taken, finished, c)
    ensures Pos(c.job) !in taken && Pos(c.job) < c.job.stop
  {
    hide HeaderFits, SlotOf;
    EndBeyond(c.from, c.job.stop);
  }

  lemma TakeProducer<T(!new)>(s: State<T>, t: nat)
    requires Inv(s) && t < |s.consumers| && s.consumers[t].Take? && ConsumerDerefs(s, s.consumers[t])
    requires Pos(s.consumers[t].job) < |s.items| && Pos(s.consumers[t].job) / BLOCK_SIZE == s.consumers[t].from / BLOCK_SIZE
    ensures ProducerOk(s.ix, s.top, s.live, ConsumerStep(s, t).blocks, |s.items|, s.producer)
  {
    AtBlock(s, t);
    var c, p := s.consumers[t], s.producer;
    var i, n := Pos(c.job), c.from / BLOCK_SIZE;
    var b := s.blocks[c.id];
    if p.Construct? {
      TakeConstructed(s.live, s.blocks, |s.items|, p.xs, p.k, n, i);
    }
    InHand(s, n);
    hide Inv, BlockFine, Hand;
    ProducerView(s);
    ProducerKept(s.ix, s.top, s.live, s.blocks, s.blocks[c.id := b.(cells := b.cells[i % BLOCK_SIZE := Raw])], |s.items|, p);
  }

  lemma ProducerView<T(!new)>(s: State<T>)
    requires Inv(s)
    ensures |s.ix.headers| > 0 && |Current(s.ix).slots| >= 2 && HeaderShape(|s.ix.cells|, Current(s.ix))
    ensures ProducerOk(s.ix, s.top, s.live, s.blocks, |s.items|, s.producer)
    ensures IndexInv(s.ix, s.top, s.live, Busy(s.ix, s.top, First(s), s.producer))
  {
    hide ProducerOk;
  }

  lemma StoredView<T(!new)>(s: State<T>)
    requires Inv(s)
    ensures Injective(s.live) && StoredOk(s.items, s.taken, s.finished, s.live, s.blocks)
  {
    hide IndexOk, Bounds, ProducerOk, TailBlockOk, HandsOk, ConsumersOk, ClaimsOk, ReleasesOk;
  }

  /** A block in use is not in the producer's hands. */
  lemma InHand<T(!new)>(s: State<T>, n: nat)
    requires Inv(s) && n in s.live
    ensures s.live[n] !in Hand(s.producer)
  {
    hide IndexOk, Bounds, StoredOk, ProducerOk, TailBlockOk, ConsumersOk, ClaimsOk, ReleasesOk, Hand;
    assert s.live[n] in s.live.Values;
  }

  // ---------------------------------------------------------------- a consumer counts what it has moved out

  /** Counting the items from .. to - 1 of block n drains it exactly when the count reaches the block size. */
  lemma CountDrains(finished: set<nat>, n: nat, from: nat, to: nat)
    requires from < to && InBlock(n, from) && to <= (n + 1) * BLOCK_SIZE && finished !! Range(from, to)
    ensures var finished' := finished + Range(from, to);
      && |FinishedIn(finished', n)| == |FinishedIn(finished, n)| + (to - from)
      && (Drained(finished', n) <==> |FinishedIn(finished', n)| == BLOCK_SIZE)
      && !Drained(finished, n)
      && (forall k: nat :: k != n ==> FinishedIn(finished', k) == FinishedIn(finished, k))
      && (forall k: nat :: k != n ==> (Drained(finished', k) <==> Drained(finished, k)))
  {
    hide FinishedIn;
    var finished' := finished + Range(from, to);
    FinishRange(finished, n, from, to);
    DrainedByCount(finished', n);
    assert from !in finished;
    forall k: nat | k != n ensures Drained(finished', k) <==> Drained(finished, k) {
      DrainedByCount(finished', k);
      DrainedByCount(finished, k);
    }
  }

  lemma CountStored<T>(items: seq<T>, taken: set<nat>, finished: set<nat>, live: map<nat, BlockId>,
                       blocks: map<BlockId, Block<T>>, n: nat, from: nat, to: nat)
    requires StoredOk(items, taken, finished, live, blocks) && n in live
    requires from < to && InBlock(n, from) && to <= (n + 1) * BLOCK_SIZE && finished !! Range(from, to)
    ensures var b := blocks[live[n]];
      StoredOk(items, taken, finished + Range(from, to), live, blocks[live[n] := b.(done := b.done + (to - from))])
  {
    hide FinishedIn, Drained;
    CountDrains(finished, n, from, to);
    var b := blocks[live[n]];
    var blocks' := blocks[live[n] := b.(done := b.done + (to - from))];
    forall m | m in live
      ensures live[m] in blocks' && BlockFine(items, taken, finished + Range(from, to), m, blocks'[live[m]])
    {
      assert BlockFine(items, taken, finished, m, blocks[live[m]]);
    }
  }

  lemma CountBounds(n: nat, head: nat, taken: set<nat>, finished: set<nat>, live: map<nat, BlockId>, more: set<nat>)
    requires Bounds(n, head, taken, finished, live) && more <= taken
    ensures Bounds(n, head, taken, finished + more, live)
  {
    forall j: nat | j < Top(n) && !Drained(finished + more, j) ensures j in live {
      assert !Drained(finished, j);
    }
  }

  lemma SameConstructed<T>(live: map<nat, BlockId>, blocks: map<BlockId, Block<T>>, blocks': map<BlockId, Block<T>>, n: nat,
                           xs: seq<T>, k: nat)
    requires Constructed(live, blocks, n, xs, k)
    requires forall m :: m in live && live[m] in blocks ==> live[m] in blocks' && blocks'[live[m]].cells == blocks[live[m]].cells
    ensures Constructed(live, blocks', n, xs, k)
  {
    forall o | 0 <= o < k <= |xs| ensures InCell(live, blocks', n + o, xs[o]) {
      assert InCell(live, blocks, n + o, xs[o]);
    }
  }

  lemma CountReleases<T>(live: map<nat, BlockId>, finished: set<nat>, finished': set<nat>, consumers: seq<Consumer<T>>,
                         releases: seq<Released>, t: nat, c: Consumer<T>, n: nat)
    requires ReleasesOk(live, finished, consumers, releases) && t < |consumers| && !Drained(finished, n)
    requires !consumers[t].Clear? && !consumers[t].Release? && !c.Release?
    requires forall u, m: nat :: 0 <= u < |consumers| && Retires(consumers[u], m) ==> Drained(finished, m)
    requires forall k: nat :: k != n ==> (Drained(finished', k) <==> Drained(finished, k))
    requires if Drained(finished', n) then c.Clear? && c.from / BLOCK_SIZE == n else !c.Clear?
    ensures ReleasesOk(live, finished', consumers[t := c], releases)
  {
    hide Drained;
    var consumers' := consumers[t := c];
    forall m | m in live && Drained(finished', m) ensures Cleared(consumers', m) {
      if m == n {
        assert consumers'[t].Clear?;
      } else {
        var u :| 0 <= u < |consumers| && consumers[u].Clear? && consumers[u].from / BLOCK_SIZE == m;
        assert consumers'[u] == consumers[u];
      }
    }
  }

  lemma RetiredIsDrained<T>(ix: Shared, live: map<nat, BlockId>, items: seq<T>, head: nat, taken: set<nat>,
                            finished: set<nat>,
                            consumers: seq<Consumer<T>>)
    requires ConsumersOk(ix, live, items, head, taken, finished, consumers)
    ensures forall u, m: nat :: 0 <= u < |consumers| && Retires(consumers[u], m) ==> Drained(finished, m)
  {
    hide Drained, JobOk, HeaderFits, Moved, InBlockOk;
    forall u, m: nat | 0 <= u < |consumers| && Retires(consumers[u], m) ensures Drained(finished, m) {
      assert ConsumerOk(ix, live, items, head, taken, finished, consumers[u]);
    }
  }

  // ---------------------------------------------------------------- on to the next block, or back to the caller

  /** The call has moved out all it claimed. */
  lemma ClaimsDone<T>(items: seq<T>, head: nat, consumers: seq<Consumer<T>>, deliveries: seq<Delivery<T>>, t: nat)
    requires ClaimsOk(items, head, consumers, deliveries) && t < |consumers| && !consumers[t].Idle?
    requires var job := consumers[t].job; Pos(job) == job.stop <= head <= |items| && job.got == items[job.first..job.stop]
    ensures var job := consumers[t].job;
      ClaimsOk(items, head, consumers[t := Idle], deliveries + [Delivery(job.first, job.got)])
  {
    hide Claimed;
    var job := consumers[t].job;
    var d := Delivery(job.first, job.got);
    var consumers', deliveries' := consumers[t := Idle], deliveries + [d];
    assert forall i: nat :: Given(d, i) <==> Covers(consumers[t], i);
    forall i: nat | i < head ensures Claimed(consumers', deliveries', i) {
      assert Claimed(consumers, deliveries, i);
      StillClaimed(consumers, deliveries, t, d, i);
    }
  }

  lemma StillClaimed<T>(consumers: seq<Consumer<T>>, deliveries: seq<Delivery<T>>, t: nat, d: Delivery<T>, i: nat)
    requires Claimed(consumers, deliveries, i) && t < |consumers| && (Covers(consumers[t], i) ==> Given(d, i))
    ensures Claimed(consumers[t := Idle], deliveries + [d], i)
  {
    hide Covers, Given;
    var consumers', deliveries' := consumers[t := Idle], deliveries + [d];
    if u :| 0 <= u < |consumers| && Covers(consumers[u], i) {
      if u == t {
        assert Given(deliveries'[|deliveries|], i);
      } else {
        assert Covers(consumers'[u], i);
      }
    } else {
      var k :| 0 <= k < |deliveries| && Given(deliveries[k], i);
      assert Given(deliveries'[k], i);
    }
  }

  /** What `GoOn` makes of the consumer, and of the deliveries. */
  lemma GoOnOk<T>(s: State<T>, t: nat, job: Job<T>, h: nat, slot: nat, from: nat)
    requires t < |s.consumers| && HeaderThere(s.ix, h, slot) && SameClaim(s.consumers[t], LoadHeader(job))
    requires s.consumers[t].job == job && ClaimsOk(s.items, s.head, s.consumers, s.deliveries)
    requires JobOk(s.items, s.head, s.taken, job) && from < job.stop && Pos(job) == End(from, job.stop)
    requires HeaderFits(s.ix, h, Pos(job), job.stop) && slot == SlotOf(s.ix.headers[h], from / BLOCK_SIZE)
    ensures var s' := GoOn(s, t, job, h, slot);
      && ClaimsOk(s.items, s.head, s'.consumers, s'.deliveries)
      && ConsumerOk(s.ix, s.live, s.items, s.head, s.taken, s.finished, s'.consumers[t])
      && s' == s.(consumers := s.consumers[t := s'.consumers[t]], deliveries := s'.deliveries)
      && (s'.consumers[t].Idle? || s'.consumers[t].LoadValue?)
  {
    hide ClaimsOk, SlotOf, HeaderFits;
    EndBeyond(from, job.stop);
    var s' := GoOn(s, t, job, h, slot);
    if Pos(job) >= job.stop {
      ClaimsDone(s.items, s.head, s.consumers, s.deliveries, t);
    } else {
      SlotNext(s.ix.headers[h], from / BLOCK_SIZE);
      assert Pos(job) / BLOCK_SIZE == from / BLOCK_SIZE + 1;
      ClaimsKept(s.items, s.head, s.consumers, s.deliveries, t, s'.consumers[t]);
    }
  }

  lemma FewerFit(ix: Shared, h: nat, lo: nat, lo': nat, stop: nat)
    requires HeaderFits(ix, h, lo, stop) && lo <= lo'
    ensures HeaderFits(ix, h, lo', stop)
  {
    hide CellOf;
    forall n: nat | Overlaps(n, lo', stop) ensures CellOf(ix.headers[h], n) == CellOf(Current(ix), n) {
      assert Overlaps(n, lo, stop);
    }
  }

  /** What a consumer that is about to count knows of its items. */
  lemma CountConsumer<T>(ix: Shared, live: map<nat, BlockId>, items: seq<T>, head: nat, taken: set<nat>,
                         finished: set<nat>, c: Consumer<T>)
    requires c.Count? && ConsumerOk(ix, live, items, head, taken, finished, c)
    ensures var n, to := c.from / BLOCK_SIZE, Pos(c.job);
      && c.from < to == End(c.from, c.job.stop) <= c.job.stop && InBlock(n, c.from) && to <= (n + 1) * BLOCK_SIZE
      && finished !! Range(c.from, to) && Range(c.from, to) <= taken
      && JobOk(items, head, taken, c.job) && InBlockOk(ix, live, c.job, c.h, c.slot, c.id, c.from)
      && (forall i: nat :: i in Range(c.from, to) ==> Covers(c, i))
  {
    hide HeaderFits, SlotOf;
    EndBeyond(c.from, c.job.stop);
    BlockOfIndex(c.from);
  }

  /** The memory and the history after counting. */
  function Counted<T>(s: State<T>, c: Consumer<T>): State<T>
    requires c.Count? && c.id in s.blocks && c.from <= Pos(c.job)
  {
    var b := s.blocks[c.id];
    s.(blocks := s.blocks[c.id := b.(done := b.done + (Pos(c.job) - c.from))], finished := s.finished + Range(c.from, Pos(c.job)))
  }

  lemma CountedParts<T(!new)>(s: State<T>, t: nat)
    requires Inv(s) && t < |s.consumers| && s.consumers[t].Count?
    ensures ConsumerDerefs(s, s.consumers[t])
    ensures var c := s.consumers[t]; var n, s' := c.from / BLOCK_SIZE, Counted(s, c);
      && Bounds(|s.items|, s.head, s.taken, s'.finished, s.live)
      && StoredOk(s.items, s.taken, s'.finished, s.live, s'.blocks)
      && ProducerOk(s.ix, s.top, s.live, s'.blocks, |s.items|, s.producer)
      && !Drained(s.finished, n) && (Drained(s'.finished, n) <==> s'.blocks[c.id].done == BLOCK_SIZE)
      && (forall k: nat :: k != n ==> (Drained(s'.finished, k) <==> Drained(s.finished, k)))
  {
    hide Inv, Bounds, StoredOk, ProducerOk, ConsumerOk, HeaderFits, FinishedIn, IndexInv, Drained, Hand, CellOf, SlotOf, Busy,
      HeaderShape, Range, Covers;
    AtBlock(s, t);
    ConsumerView(s, t);
    var c := s.consumers[t];
    var n := c.from / BLOCK_SIZE;
    InHand(s, n);
    ProducerView(s);
    StoredView(s);
    CountConsumer(s.ix, s.live, s.items, s.head, s.taken, s.finished, c);
    var s' := Counted(s, c);
    CountDrains(s.finished, n, c.from, Pos(c.job));
    CountStored(s.items, s.taken, s.finished, s.live, s.blocks, n, c.from, Pos(c.job));
    CountBounds(|s.items|, s.head, s.taken, s.finished, s.live, Range(c.from, Pos(c.job)));
    CountProducer(s.ix, s.top, s.live, s.blocks, s'.blocks, |s.items|, s.producer);
  }

  lemma CountProducer<T>(ix: Shared, top: nat, live: map<nat, BlockId>, blocks: map<BlockId, Block<T>>,
                         blocks': map<BlockId, Block<T>>, n: nat, p: ProducerState<T>)
    requires |ix.headers| > 0 && HeaderShape(|ix.cells|, Current(ix)) && ProducerOk(ix, top, live, blocks, n, p)
    requires forall id :: id in Hand(p) && id in blocks ==> id in blocks' && blocks'[id] == blocks[id]
    requires forall m :: m in live && live[m] in blocks ==> live[m] in blocks' && blocks'[live[m]].cells == blocks[live[m]].cells
    ensures ProducerOk(ix, top, live, blocks', n, p)
  {
    hide HeaderShape, Staged, Undoing, StillEntered, Room, ExactKey, Constructed, KeySet, Hand;
    if p.Construct? {
      SameConstructed(live, blocks, blocks', n, p.xs, p.k);
    }
    ProducerKept(ix, top, live, blocks, blocks', n, p);
  }

  lemma KeepCount<T(!new)>(s: State<T>, t: nat)
    requires Inv(s) && t < |s.consumers| && s.consumers[t].Count?
    ensures ConsumerDerefs(s, s.consumers[t]) && Inv(ConsumerStep(s, t))
  {
    hide IndexOk, Bounds, StoredOk, ProducerOk, TailBlockOk, HandsOk, ConsumersOk, ClaimsOk, ReleasesOk, ConsumerOk, Staged,
      Constructed, Covers, Needs, IndexStep, BlockFine, Hand, IndexInv, Injective, End, Busy, Drained, Range, CellOf, SlotOf;
    CountedParts(s, t);
    ConsumerView(s, t);
    var c := s.consumers[t];
    var n := c.from / BLOCK_SIZE;
    CountConsumer(s.ix, s.live, s.items, s.head, s.taken, s.finished, c);
    var m, s' := Counted(s, c), ConsumerStep(s, t);
    FewerFit(s.ix, c.h, c.from, Pos(c.job), c.job.stop);
    if m.blocks[c.id].done != BLOCK_SIZE {
      GoOnOk(m, t, c.job, c.h, c.slot, c.from);
      assert s' == GoOn(m, t, c.job, c.h, c.slot);
    } else {
      ClaimsKept(s.items, s.head, s.consumers, s.deliveries, t, s'.consumers[t]);
      DrainedConsumer(s.ix, s.live, s.items, s.head, s.taken, s.finished, m.finished, c);
    }
    assert s'.blocks.Keys == s.blocks.Keys;
    HandsKept(s.blocks.Keys, s.live, s.producer, s.consumers, t, s'.consumers[t]);
    RetiredIsDrained(s.ix, s.live, s.items, s.head, s.taken, s.finished, s.consumers);
    CountReleases(s.live, s.finished, m.finished, s.consumers, s.releases, t, s'.consumers[t], n);
    SameIndexStep(s.ix, s.live);
    OneClaimant(s.items, s.head, s.consumers, s.deliveries, t);
    ConsumersNeed(s.ix, s.live, s.items, s.head, s.taken, s.finished, s.consumers);
    OthersKept(s.ix, s.ix, s.live, s.live, s.items, s.head, s.taken, s.taken, s.finished, m.finished, s.consumers, t,
      s'.consumers[t]);
  }

  lemma DrainedConsumer<T>(ix: Shared, live: map<nat, BlockId>, items: seq<T>, head: nat, taken: set<nat>, finished: set<nat>,
                           finished': set<nat>, c: Consumer<T>)
    requires c.Count? && ConsumerOk(ix, live, items, head, taken, finished, c) && Drained(finished', c.from / BLOCK_SIZE)
    ensures ConsumerOk(ix, live, items, head, taken, finished', Clear(c.job, c.h, c.slot, c.id, c.from))
  {
    hide HeaderFits, JobOk, Moved, Drained;
  }

  // ---------------------------------------------------------------- a consumer clears the entry and releases the block

  /** The entry of a block in use is none of those that the producer is working on. */
  lemma EntryIsNotBusy<T>(ix: Shared, top: nat, live: map<nat, BlockId>, blocks: map<BlockId, Block<T>>, n: nat,
                          p: ProducerState<T>, k: nat)
    requires |ix.headers| > 0 && HeaderShape(|ix.cells|, Current(ix)) && ProducerOk(ix, top, live, blocks, n, p)
    requires IndexInv(ix, top, live, Busy(ix, top, Top(n), p)) && k in live
    ensures CellOf(Current(ix), k) !in Busy(ix, top, Top(n), p)
  {
    hide IndexInv, CellOf, KeySet, ExactKey, Constructed;
    var busy := Busy(ix, top, Top(n), p);
    LiveEntry(ix, top, live, busy, k);
    match p
    case StoreTail(_, _) => NewCellIsFree(ix, top, live, busy, k);
    case Requisition(_, _) => LiveCellsDiffer(ix, top, live, busy, k, top - 1);
    case StoreValue(_, _, _) => LiveCellsDiffer(ix, top, live, busy, k, top - 1);
    case RewindLast(added) => UndoneDiffer(ix, live, Top(n), top, k, Top(n), top);
    case NullLast(added, _) => UndoneDiffer(ix, live, Top(n), top + 1, k, Top(n), top + 1);
    case UndoNull(added, j) => UndoneDiffer(ix, live, Top(n), Top(n) + |added|, k, Top(n) + j, Top(n) + |added|);
    case UndoRewind(added, j) => UndoneDiffer(ix, live, Top(n), Top(n) + |added|, k, Top(n) + j + 1, Top(n) + |added|);
    case _ =>
  }

  /** The entries of a failed call are not those of blocks in use. */
  lemma UndoneDiffer(ix: Shared, live: map<nat, BlockId>, first: nat, upto: nat, k: nat, a: nat, b: nat)
    requires |ix.headers| > 0 && HeaderShape(|ix.cells|, Current(ix)) && Undoing(ix, live, first, upto)
    requires k in live && first <= a && b <= upto
    ensures CellOf(Current(ix), k) !in CellsOf(Current(ix), a, b)
  {
    hide CellOf, HeaderShape;
    forall j: nat | a <= j < b ensures CellOf(Current(ix), k) != CellOf(Current(ix), j) {
      CellsDiffer(|ix.cells|, Current(ix), k, j);
    }
  }

  /** A drained block lies wholly before the tail index. */
  lemma DrainedIsPast(n: nat, head: nat, taken: set<nat>, finished: set<nat>, live: map<nat, BlockId>, k: nat)
    requires Bounds(n, head, taken, finished, live) && Drained(finished, k)
    ensures (k + 1) * BLOCK_SIZE <= n && k < Top(n)
  {
    var last := (k + 1) * BLOCK_SIZE - 1;
    assert last in finished;
  }

  lemma ClearBounds(n: nat, head: nat, taken: set<nat>, finished: set<nat>, live: map<nat, BlockId>, k: nat)
    requires Bounds(n, head, taken, finished, live) && Drained(finished, k)
    ensures Bounds(n, head, taken, finished, live - {k})
  {
    hide Drained;
  }

  lemma FewerStored<T>(items: seq<T>, taken: set<nat>, finished: set<nat>, live: map<nat, BlockId>, live': map<nat, BlockId>,
                       blocks: map<BlockId, Block<T>>)
    requires StoredOk(items, taken, finished, live, blocks) && forall k :: k in live' ==> k in live && live'[k] == live[k]
    ensures StoredOk(items, taken, finished, live', blocks)
  {
    hide BlockFine;
  }

  lemma ClearConstructed<T>(live: map<nat, BlockId>, blocks: map<BlockId, Block<T>>, n: nat, xs: seq<T>, j: nat, k: nat)
    requires Constructed(live, blocks, n, xs, j) && (k + 1) * BLOCK_SIZE <= n
    ensures Constructed(live - {k}, blocks, n, xs, j)
  {
    forall o | 0 <= o < j <= |xs| ensures InCell(live - {k}, blocks, n + o, xs[o]) {
      assert InCell(live, blocks, n + o, xs[o]);
      BlockOfIndex(n + o);
    }
  }

  lemma ValueLeavesKeys(ix: Shared, c: CellId, value: Pointer)
    requires |ix.headers| > 0 && HeaderShape(|ix.cells|, Current(ix)) && c < |ix.cells|
    ensures var ix' := WithValue(ix, c, value);
      && HeaderShape(|ix'.cells|, Current(ix')) && Current(ix') == Current(ix)
      && (forall n: int :: ExactKey(ix', n) <==> ExactKey(ix, n))
      && (forall d: CellId :: KeySet(ix', d) <==> KeySet(ix, d))
  {
    hide SlotOf;
  }

  lemma StagedAt(live: map<nat, BlockId>, first: nat, added: seq<BlockId>, k: nat)
    requires Staged(live, first, added) && k < |added|
    ensures first + k in live && live[first + k] == added[k]
  {
  }

  lemma ClearStaged(live: map<nat, BlockId>, first: nat, k: nat)
    requires k < first
    ensures forall added :: Staged(live, first, added) ==> Staged(live - {k}, first, added)
  {
    forall added | Staged(live, first, added) ensures Staged(live - {k}, first, added) {
      forall i | 0 <= i < |added| ensures HasNumber(live - {k}, first + i, added[i]) {
        StagedAt(live, first, added, i);
      }
    }
  }

  /** Clearing another cell leaves the entries of the failed call. */
  lemma ClearEntered(ix: Shared, c: CellId, first: nat, added: seq<BlockId>, j: nat)
    requires |ix.headers| > 0 && HeaderShape(|ix.cells|, Current(ix)) && c < |ix.cells| && StillEntered(ix, first, added, j)
    requires forall k: nat :: first + j <= k < first + |added| ==> CellOf(Current(ix), k) != c
    ensures StillEntered(WithValue(ix, c, Null), first, added, j)
  {
    hide CellOf;
    forall k | j <= k < |added| ensures ValueAt(WithValue(ix, c, Null), first + k, added[k]) {
      assert ValueAt(ix, first + k, added[k]);
      CellInRange(ix, Current(ix), first + k);
    }
  }

  lemma ClearProducer<T>(ix: Shared, top: nat, live: map<nat, BlockId>, blocks: map<BlockId, Block<T>>, n: nat,
                         p: ProducerState<T>,
                         c: CellId, k: nat)
    requires |ix.headers| > 0 && HeaderShape(|ix.cells|, Current(ix)) && ProducerOk(ix, top, live, blocks, n, p)
    requires c < |ix.cells| && (k + 1) * BLOCK_SIZE <= n && k < Top(n) && c !in Busy(ix, top, Top(n), p)
    ensures ProducerOk(WithValue(ix, c, Null), top, live - {k}, blocks, n, p)
  {
    hide ExactKey, KeySet, CellOf, Constructed, WithValue, HeaderShape, Staged, StillEntered;
    ValueLeavesKeys(ix, c, Null);
    ClearStaged(live, Top(n), k);
    match p
    case Construct(xs, _, j) => ClearConstructed(live, blocks, n, xs, j, k);
    case RewindLast(added) => ClearEntered(ix, c, Top(n), added, 0);
    case NullLast(added, _) => ClearEntered(ix, c, Top(n), added, 0);
    case UndoNull(added, j) => ClearEntered(ix, c, Top(n), added, j);
    case UndoRewind(added, j) => ClearEntered(ix, c, Top(n), added, j + 1);
    case _ =>
  }

  lemma ClearHands<T>(keys: set<BlockId>, live: map<nat, BlockId>, p: ProducerState<T>, consumers: seq<Consumer<T>>,
                      t: nat, c: Consumer<T>)
    requires HandsOk(keys, live, p, consumers) && t < |consumers| && c.Release? && Injective(live)
    requires c.from / BLOCK_SIZE in live && live[c.from / BLOCK_SIZE] == c.id && c.id in keys
    ensures HandsOk(keys, live - {c.from / BLOCK_SIZE}, p, consumers[t := c])
  {
    hide Hand;
    var n := c.from / BLOCK_SIZE;
    assert c.id in live.Values;
    assert forall id :: id in (live - {n}).Values ==> id in live.Values && id != c.id;
  }

  lemma ValueIndexStep(ix: Shared, live: map<nat, BlockId>, c: CellId, value: Pointer)
    requires |ix.headers| > 0 && |Current(ix).slots| > 0 && c < |ix.cells|
    ensures IndexStep(ix, WithValue(ix, c, value), live)
  {
    hide CellOf;
  }

  /** Nobody else is at work on the block that consumer t clears. */
  lemma ClearsAlone<T>(ix: Shared, live: map<nat, BlockId>, items: seq<T>, head: nat, taken: set<nat>, finished: set<nat>,
                       consumers: seq<Consumer<T>>, releases: seq<Released>, t: nat, u: nat)
    requires ConsumersOk(ix, live, items, head, taken, finished, consumers) && ReleasesOk(live, finished, consumers, releases)
    requires t < |consumers| && u < |consumers| && t != u && consumers[t].Clear? && finished <= taken
    requires Drained(finished, consumers[t].from / BLOCK_SIZE)
    ensures !Needs(consumers[u], consumers[t].from / BLOCK_SIZE)
  {
    hide HeaderFits, Cleared, SlotOf;
    var c := consumers[u];
    assert ConsumerOk(ix, live, items, head, taken, finished, c);
    assert Retires(consumers[t], consumers[t].from / BLOCK_SIZE);
    if c.Take? || c.Count? {
      BlockOfIndex(c.from);
      assert c.from !in finished;
    }
  }

  lemma ClearReleases<T>(live: map<nat, BlockId>, finished: set<nat>, consumers: seq<Consumer<T>>, releases: seq<Released>,
                         t: nat, c: Consumer<T>)
    requires ReleasesOk(live, finished, consumers, releases) && t < |consumers| && consumers[t].Clear? && c.Release?
    requires c.from == consumers[t].from
    ensures ReleasesOk(live - {c.from / BLOCK_SIZE}, finished, consumers[t := c], releases)
  {
    hide Drained;
    var n, consumers' := c.from / BLOCK_SIZE, consumers[t := c];
    forall m | m in live - {n} && Drained(finished, m) ensures Cleared(consumers', m) {
      var u :| 0 <= u < |consumers| && consumers[u].Clear? && consumers[u].from / BLOCK_SIZE == m;
      assert consumers'[u] == consumers[u];
    }
    assert forall u, m: nat :: 0 <= u < |consumers| ==> (Retires(consumers'[u], m) <==> Retires(consumers[u], m));
  }

  lemma ClearedConsumer<T>(ix: Shared, ix': Shared, live: map<nat, BlockId>, items: seq<T>, head: nat, taken: set<nat>,
                           finished: set<nat>, c: Consumer<T>)
    requires c.Clear? && ConsumerOk(ix, live, items, head, taken, finished, c) && ix'.headers == ix.headers
    ensures ConsumerOk(ix', live - {c.from / BLOCK_SIZE}, items, head, taken, finished, Release(c.job, c.h, c.slot, c.id, c.from))
  {
    hide JobOk, Drained, CellOf, Overlaps, SlotOf;
    FewerFit(ix, c.h, c.from, Pos(c.job), c.job.stop);
  }

  lemma KeepClearing<T(!new)>(s: State<T>, t: nat)
    requires Inv(s) && t < |s.consumers| && s.consumers[t].Clear?
    ensures ConsumerDerefs(s, s.consumers[t]) && Inv(ConsumerStep(s, t))
  {
    hide Bounds, StoredOk, ProducerOk, HandsOk, ConsumersOk, ClaimsOk, ReleasesOk, ConsumerOk, Staged, FinishedIn,
      Constructed, Covers, Needs, IndexStep, BlockFine, Hand, IndexInv, Injective, End, Drained, Range, CellOf, SlotOf, HeaderShape;
    AtBlock(s, t);
    ConsumerView(s, t);
    ProducerView(s);
    StoredView(s);
    var c := s.consumers[t];
    var n, busy := c.from / BLOCK_SIZE, Busy(s.ix, s.top, First(s), s.producer);
    ClearDrained(s.ix, s.live, s.items, s.head, s.taken, s.finished, c);
    DrainedIsPast(|s.items|, s.head, s.taken, s.finished, s.live, n);
    TakenFinished(|s.items|, s.head, s.taken, s.finished, s.live);
    EntryIsNotBusy(s.ix, s.top, s.live, s.blocks, |s.items|, s.producer, n);
    KeepClear(s.ix, s.top, s.live, busy, n);
    var s' := ConsumerStep(s, t);
    assert Busy(s'.ix, s.top, First(s), s.producer) == busy;
    ClearBounds(|s.items|, s.head, s.taken, s.finished, s.live, n);
    FewerStored(s.items, s.taken, s.finished, s.live, s.live - {n}, s.blocks);
    ClearProducer(s.ix, s.top, s.live, s.blocks, |s.items|, s.producer, CellOf(Current(s.ix), n), n);
    ClearHands(s.blocks.Keys, s.live, s.producer, s.consumers, t, s'.consumers[t]);
    ClaimsKept(s.items, s.head, s.consumers, s.deliveries, t, s'.consumers[t]);
    ClearReleases(s.live, s.finished, s.consumers, s.releases, t, s'.consumers[t]);
    ClearOthers(s, t);
  }

  lemma ClearDrained<T>(ix: Shared, live: map<nat, BlockId>, items: seq<T>, head: nat, taken: set<nat>,
                        finished: set<nat>, c: Consumer<T>)
    requires c.Clear? && ConsumerOk(ix, live, items, head, taken, finished, c)
    ensures Drained(finished, c.from / BLOCK_SIZE)
  {
    hide HeaderFits, JobOk, Drained;
  }

  lemma ClearOthers<T(!new)>(s: State<T>, t: nat)
    requires Inv(s) && t < |s.consumers| && s.consumers[t].Clear? && ConsumerDerefs(s, s.consumers[t])
    ensures var s' := ConsumerStep(s, t); ConsumersOk(s'.ix, s'.live, s.items, s.head, s.taken, s.finished, s'.consumers)
  {
    hide IndexOk, Bounds, StoredOk, ProducerOk, TailBlockOk, HandsOk, ConsumersOk, ClaimsOk, ReleasesOk, ConsumerOk,
      Covers, Needs, IndexStep, IndexInv, Drained, Busy;
    ConsumerView(s, t);
    var c, s' := s.consumers[t], ConsumerStep(s, t);
    ClearDrained(s.ix, s.live, s.items, s.head, s.taken, s.finished, c);
    TakenFinished(|s.items|, s.head, s.taken, s.finished, s.live);
    ClearedConsumer(s.ix, s'.ix, s.live, s.items, s.head, s.taken, s.finished, c);
    ValueIndexStep(s.ix, s.live, s.ix.headers[c.h].slots[c.slot], Null);
    OneClaimant(s.items, s.head, s.consumers, s.deliveries, t);
    ConsumersNeed(s.ix, s.live, s.items, s.head, s.taken, s.finished, s.consumers);
    forall u, m: nat | 0 <= u < |s.consumers| && u != t && Needs(s.consumers[u], m) ensures m in s'.live {
      ClearsAlone(s.ix, s.live, s.items, s.head, s.taken, s.finished, s.consumers, s.releases, t, u);
    }
    OthersKept(s.ix, s'.ix, s.live, s'.live, s.items, s.head, s.taken, s.taken, s.finished, s.finished, s.consumers, t,
      s'.consumers[t]);
  }

  lemma ReleaseStored<T>(items: seq<T>, taken: set<nat>, finished: set<nat>, live: map<nat, BlockId>,
                         blocks: map<BlockId, Block<T>>, id: BlockId)
    requires StoredOk(items, taken, finished, live, blocks) && id !in live.Values
    ensures StoredOk(items, taken, finished, live, blocks - {id})
  {
    hide BlockFine;
    assert forall n :: n in live ==> live[n] in live.Values;
  }

  lemma ReleaseProducer<T>(ix: Shared, top: nat, live: map<nat, BlockId>, blocks: map<BlockId, Block<T>>, n: nat,
                           p: ProducerState<T>,
                           id: BlockId)
    requires |ix.headers| > 0 && HeaderShape(|ix.cells|, Current(ix)) && ProducerOk(ix, top, live, blocks, n, p)
    requires id !in live.Values && id !in Hand(p)
    ensures ProducerOk(ix, top, live, blocks - {id}, n, p)
  {
    hide HeaderShape, Staged, Undoing, StillEntered, Room, ExactKey, Constructed, KeySet, Hand;
    assert forall m :: m in live ==> live[m] in live.Values;
    if p.Construct? {
      SameConstructed(live, blocks, blocks - {id}, n, p.xs, p.k);
    }
    ProducerKept(ix, top, live, blocks, blocks - {id}, n, p);
  }

  lemma ReleaseHands<T>(keys: set<BlockId>, live: map<nat, BlockId>, p: ProducerState<T>, consumers: seq<Consumer<T>>,
                        t: nat, c: Consumer<T>)
    requires HandsOk(keys, live, p, consumers) && t < |consumers| && consumers[t].Release? && !c.Release?
    ensures HandsOk(keys - {consumers[t].id}, live, p, consumers[t := c])
  {
    hide Hand;
  }

  lemma ReleaseReleases<T>(live: map<nat, BlockId>, finished: set<nat>, consumers: seq<Consumer<T>>, releases: seq<Released>,
                           t: nat, c: Consumer<T>)
    requires ReleasesOk(live, finished, consumers, releases) && t < |consumers| && consumers[t].Release?
    requires !c.Clear? && !c.Release?
    requires var n := consumers[t].from / BLOCK_SIZE; n !in live && Drained(finished, n)
    ensures var r := Released(consumers[t].from / BLOCK_SIZE, consumers[t].id, t);
      ReleasesOk(live, finished, consumers[t := c], releases + [r])
  {
    hide Drained;
    var n, consumers' := consumers[t].from / BLOCK_SIZE, consumers[t := c];
    assert Retires(consumers[t], n);
    forall m | m in live && Drained(finished, m) ensures Cleared(consumers', m) {
      var u :| 0 <= u < |consumers| && consumers[u].Clear? && consumers[u].from / BLOCK_SIZE == m;
      assert consumers'[u] == consumers[u];
    }
  }

  /** What a consumer that is about to release its block knows. */
  lemma ReleaseConsumer<T>(ix: Shared, live: map<nat, BlockId>, items: seq<T>, head: nat, taken: set<nat>, finished: set<nat>,
                           c: Consumer<T>)
    requires c.Release? && ConsumerOk(ix, live, items, head, taken, finished, c)
    ensures JobOk(items, head, taken, c.job) && c.from < c.job.stop && Pos(c.job) == End(c.from, c.job.stop)
    ensures HeaderFits(ix, c.h, Pos(c.job), c.job.stop) && c.slot == SlotOf(ix.headers[c.h], c.from / BLOCK_SIZE)
    ensures c.from / BLOCK_SIZE !in live && Drained(finished, c.from / BLOCK_SIZE)
  {
    hide HeaderFits, Drained, SlotOf;
  }

  lemma OwnedByReleaser<T(!new)>(s: State<T>, t: nat)
    requires Inv(s) && t < |s.consumers| && s.consumers[t].Release?
    ensures var id := s.consumers[t].id; id in s.blocks && id !in s.live.Values && id !in Hand(s.producer)
  {
    hide IndexOk, Bounds, StoredOk, ProducerOk, TailBlockOk, ConsumersOk, ClaimsOk, ReleasesOk, Hand;
  }

  lemma KeepRelease<T(!new)>(s: State<T>, t: nat)
    requires Inv(s) && t < |s.consumers| && s.consumers[t].Release?
    ensures ConsumerDerefs(s, s.consumers[t]) && Inv(ConsumerStep(s, t))
  {
    hide Bounds, StoredOk, ProducerOk, HandsOk, ConsumersOk, ClaimsOk, ReleasesOk, ConsumerOk, FinishedIn, HeaderFits, Busy,
      Covers, Needs, IndexStep, BlockFine, Hand, IndexInv, Injective, End, Drained, Range, CellOf, SlotOf, HeaderShape;
    ConsumerView(s, t);
    ProducerView(s);
    var c := s.consumers[t];
    OwnedByReleaser(s, t);
    ReleaseConsumer(s.ix, s.live, s.items, s.head, s.taken, s.finished, c);
    HeaderFitsThere(s.ix, c.h, Pos(c.job), c.job.stop);
    SlotThere(s.ix, s.top, s.live, Busy(s.ix, s.top, First(s), s.producer), c.h, c.from / BLOCK_SIZE);
    var m := s.(blocks := s.blocks - {c.id}, releases := s.releases + [Released(c.from / BLOCK_SIZE, c.id, t)]);
    var s' := ConsumerStep(s, t);
    GoOnOk(m, t, c.job, c.h, c.slot, c.from);
    assert s' == GoOn(m, t, c.job, c.h, c.slot);
    ReleaseStored(s.items, s.taken, s.finished, s.live, s.blocks, c.id);
    ReleaseProducer(s.ix, s.top, s.live, s.blocks, |s.items|, s.producer, c.id);
    assert s'.blocks.Keys == s.blocks.Keys - {c.id};
    ReleaseHands(s.blocks.Keys, s.live, s.producer, s.consumers, t, s'.consumers[t]);
    ReleaseReleases(s.live, s.finished, s.consumers, s.releases, t, s'.consumers[t]);
    SameIndexStep(s.ix, s.live);
    OneClaimant(s.items, s.head, s.consumers, s.deliveries, t);
    ConsumersNeed(s.ix, s.live, s.items, s.head, s.taken, s.finished, s.consumers);
    OthersKept(s.ix, s.ix, s.live, s.live, s.items, s.head, s.taken, s.taken, s.finished, s.finished, s.consumers, t,
      s'.consumers[t]);
  }

  lemma HeaderFitsThere(ix: Shared, h: nat, lo: nat, stop: nat)
    requires HeaderFits(ix, h, lo, stop)
    ensures h < |ix.headers| && |ix.headers[h].slots| > 0
  {
  }

  /** A busy consumer's next operation is defined, and every part of the invariant survives it. */
  lemma KeepConsume<T(!new)>(s: State<T>, t: nat)
    requires Inv(s) && t < |s.consumers| && !s.consumers[t].Idle?
    ensures ConsumerDerefs(s, s.consumers[t]) && Inv(ConsumerStep(s, t))
  {
    hide Inv, ConsumerDerefs, ConsumerStep;
    match s.consumers[t]
    case LoadHeader(_) => KeepLoadHeader(s, t);
    case LoadTail(_, _) => KeepLoadTail(s, t);
    case LoadKey(_, _, _) => KeepLoadKey(s, t);
    case LoadValue(_, _, _) => KeepLoadValue(s, t);
    case Take(_, _, _, _, _) => KeepTake(s, t);
    case Count(_, _, _, _, _) => KeepCount(s, t);
    case Clear(_, _, _, _, _) => KeepClearing(s, t);
    case Release(_, _, _, _, _) => KeepRelease(s, t);
  }

  // ---------------------------------------------------------------- a claim

  lemma ClaimClaims<T>(items: seq<T>, head: nat, consumers: seq<Consumer<T>>, deliveries: seq<Delivery<T>>, t: nat,
                       count: nat)
    requires ClaimsOk(items, head, consumers, deliveries) && t < |consumers| && consumers[t].Idle? && head + count <= |items|
    ensures ClaimsOk(items, head + count, consumers[t := LoadHeader(Job(head, head + count, []))], deliveries)
  {
    hide Claimed;
    var consumers' := consumers[t := LoadHeader(Job(head, head + count, []))];
    forall k | 0 <= k < |deliveries| ensures DeliveryOk(items, head + count, deliveries[k]) {
      assert DeliveryOk(items, head, deliveries[k]);
    }
    forall i: nat | i < head + count ensures Claimed(consumers', deliveries, i) {
      if i >= head {
        ClaimedBy(consumers', deliveries, t, i);
      } else {
        assert Claimed(consumers, deliveries, i);
        OldClaim(consumers, deliveries, t, consumers'[t], i);
      }
    }
  }

  lemma ClaimedBy<T>(consumers: seq<Consumer<T>>, deliveries: seq<Delivery<T>>, t: nat, i: nat)
    requires t < |consumers| && Covers(consumers[t], i)
    ensures Claimed(consumers, deliveries, i)
  {
  }

  lemma OldClaim<T>(consumers: seq<Consumer<T>>, deliveries: seq<Delivery<T>>, t: nat, c: Consumer<T>, i: nat)
    requires t < |consumers| && consumers[t].Idle? && Claimed(consumers, deliveries, i)
    ensures Claimed(consumers[t := c], deliveries, i)
  {
    if u :| 0 <= u < |consumers| && Covers(consumers[u], i) {
      assert Covers(consumers[t := c][u], i);
    }
  }

  lemma ClaimBounds(n: nat, head: nat, taken: set<nat>, finished: set<nat>, live: map<nat, BlockId>, count: nat)
    requires Bounds(n, head, taken, finished, live) && head + count <= n
    ensures Bounds(n, head + count, taken, finished, live)
    ensures forall i :: head <= i < head + count ==> i !in taken
  {
    hide Drained;
  }

  /** Consumers that do not move, in a step that moves the index, the items or the head. */
  lemma AllStay<T>(ix: Shared, ix': Shared, live: map<nat, BlockId>, live': map<nat, BlockId>, items: seq<T>, items': seq<T>,
                   head: nat, head': nat, taken: set<nat>, finished: set<nat>, consumers: seq<Consumer<T>>)
    requires Bounds(|items|, head, taken, finished, live) && ConsumersOk(ix, live, items, head, taken, finished, consumers)
    requires IndexStep(ix, ix', live) && items <= items' && head <= head' && (head <= |items| ==> head' <= |items'|)
    requires forall u, n: nat :: 0 <= u < |consumers| && Needs(consumers[u], n) && n in live ==> n in live' && live'[n] == live[n]
    requires forall n :: n in live' && n !in live ==> !Drained(finished, n)
    ensures ConsumersOk(ix', live', items', head', taken, finished, consumers)
  {
    hide Bounds, ConsumerOk, IndexStep, Covers, Needs, Drained;
    forall u | 0 <= u < |consumers| ensures ConsumerOk(ix', live', items', head', taken, finished, consumers[u]) {
      var c := consumers[u];
      assert ConsumerOk(ix, live, items, head, taken, finished, c);
      forall n | Needs(c, n) ensures n in live' && n in live && live'[n] == live[n] {
        NeededIsLive(ix, live, items, head, taken, finished, c, n);
      }
      if c.Release? {
        ReleaseConsumer(ix, live, items, head, taken, finished, c);
      }
      ConsumerStays(ix, ix', live, live', items, items', head, head', taken, taken, finished, finished, c);
    }
  }

  lemma KeepClaim<T(!new)>(s: State<T>, t: nat, count: nat)
    requires Inv(s) && t < |s.consumers| && s.consumers[t].Idle? && 0 < count <= |s.items| - s.head
    ensures Inv(Next(s, Claim(t, count)))
  {
    hide Bounds, StoredOk, ProducerOk, TailBlockOk, HandsOk, ConsumersOk, ClaimsOk, ReleasesOk, IndexInv, IndexStep,
      Needs, Busy, Drained;
    var s' := Next(s, Claim(t, count));
    ClaimBounds(|s.items|, s.head, s.taken, s.finished, s.live, count);
    ClaimClaims(s.items, s.head, s.consumers, s.deliveries, t, count);
    HandsKept(s.blocks.Keys, s.live, s.producer, s.consumers, t, s'.consumers[t]);
    ReleasesKept(s.live, s.finished, s.consumers, s.releases, t, s'.consumers[t]);
    SameIndexStep(s.ix, s.live);
    AllStay(s.ix, s.ix, s.live, s.live, s.items, s.items, s.head, s'.head, s.taken, s.finished, s.consumers);
    ConsumersKept(s.ix, s.live, s.items, s'.head, s.taken, s.finished, s.consumers, t, s'.consumers[t]);
  }
}
