/**
 One producer and any number of consumers of an `ImplicitProducer` (lib/concurrentqueue/concurrentqueue.h), interleaved
 at single loads and stores of what they share: the headers, tails, keys and values of the block index, the counters and
 elements of the blocks, and the tail index.  `enqueue` is `enqueue_bulk` of one item, `dequeue` is `dequeue_bulk` of one.

 Claiming indices is one step here; that the counters behind it never grant too much is the subject of DequeueProtocol.
 Blocks come from `requisition_block`, which never offers a block that is in use; see FreeList.
 */
module BlockProtocol {
  import opened Arith
  import opened BlockIndex
  import opened SharedIndex
  import opened ImplicitProducer

  /** A claim on the indices first .. stop - 1 and what has been moved out so far. */
  datatype Job<T> = Job(first: nat, stop: nat, got: seq<T>)

  /** The next operation of a consumer.  `h` is the header it has loaded, `slot` its slot, `from` where its block began. */
  datatype Consumer<T> =
    | Idle
    | LoadHeader(job: Job<T>)
    | LoadTail(job: Job<T>, h: nat)
    | LoadKey(job: Job<T>, h: nat, tail: nat)
    | LoadValue(job: Job<T>, h: nat, slot: nat)
    | Take(job: Job<T>, h: nat, slot: nat, id: BlockId, from: nat)
    | Count(job: Job<T>, h: nat, slot: nat, id: BlockId, from: nat)
    | Clear(job: Job<T>, h: nat, slot: nat, id: BlockId, from: nat)
    | Release(job: Job<T>, h: nat, slot: nat, id: BlockId, from: nat)

  /** The next operation of the producer.  `added` are the blocks allocated for this call, in order. */
  datatype ProducerState<T> =
    | Ready
    | CheckKey(xs: seq<T>, added: seq<BlockId>)
    | CheckValue(xs: seq<T>, added: seq<BlockId>)
    | GrowIndex(xs: seq<T>, added: seq<BlockId>)
    | StoreKey(xs: seq<T>, added: seq<BlockId>)
    | StoreTail(xs: seq<T>, added: seq<BlockId>)
    | Requisition(xs: seq<T>, added: seq<BlockId>)
    | StoreValue(xs: seq<T>, added: seq<BlockId>, id: BlockId)
    | Construct(xs: seq<T>, added: seq<BlockId>, k: nat)
    | RewindLast(added: seq<BlockId>)
    | NullLast(added: seq<BlockId>, cell: CellId)
    | UndoNull(added: seq<BlockId>, j: nat)
    | UndoRewind(added: seq<BlockId>, j: nat)
    | GiveBack(added: seq<BlockId>, j: nat)

  datatype Delivery<T> = Delivery(first: nat, got: seq<T>)

  /** Which block number was released, as which block, by which consumer. */
  datatype Released = Released(number: nat, id: BlockId, t: nat)

  /**
   The shared memory and the threads.  `items` are the published items, of which the threads know only the number, the
   tail index.  The fields from `top` on are history: no step depends on them.
   */
  datatype State<T> = State(
    ix: Shared,
    blocks: map<BlockId, Block<T>>,
    items: seq<T>,
    head: nat,
    producer: ProducerState<T>,
    tailBlock: Pointer,
    consumers: seq<Consumer<T>>,
    top: nat,
    live: map<nat, BlockId>,
    taken: set<nat>,
    finished: set<nat>,
    deliveries: seq<Delivery<T>>,
    releases: seq<Released>)

  datatype Action<T> =
    | Enqueue(xs: seq<T>)
    | Produce(memory: bool, offer: Pointer, junk: seq<Pointer>)   // the producer's next operation
    | Claim(t: nat, count: nat)
    | Consume(t: nat)                                             // the consumer's next operation

  // ---------------------------------------------------------------- the producer

  /** The number of the first block that a call has to allocate. */
  function First<T>(s: State<T>): nat {
    Top(|s.items|)
  }

  function Needed<T>(s: State<T>, xs: seq<T>): int {
    Top(|s.items| + |xs|) - Top(|s.items|)
  }

  /** The cell behind the tail. */
  predicate HasIndex(ix: Shared) {
    |ix.headers| > 0 && |Current(ix).slots| > 0 && Current(ix).tail < |Current(ix).slots|
    && forall p :: 0 <= p < |Current(ix).slots| ==> Current(ix).slots[p] < |ix.cells|
  }

  function NextCell(ix: Shared): (c: CellId)
    requires HasIndex(ix)
    ensures c < |ix.cells|
  {
    Current(ix).slots[Ring(Current(ix).tail + 1, |Current(ix).slots|)]
  }

  function TailCell(ix: Shared): (c: CellId)
    requires HasIndex(ix)
    ensures c < |ix.cells|
  {
    Current(ix).slots[Current(ix).tail]
  }

  function Back(ix: Shared): nat
    requires HasIndex(ix)
  {
    Ring(Current(ix).tail - 1, |Current(ix).slots|)
  }

  /** The block that index i of the call goes into. */
  function BlockFor<T>(s: State<T>, added: seq<BlockId>, i: nat): Pointer {
    var n := i / BLOCK_SIZE;
    if n < First(s) then s.tailBlock
    else if n - First(s) < |added| then To(added[n - First(s)]) else Null
  }

  /** The entry that the producer looks up to take back block j of the call. */
  function UndoneCell<T>(s: State<T>, j: nat): (c: CellId)
    requires HasIndex(s.ix)
    ensures c < |s.ix.cells|
  {
    var h := Current(s.ix);
    h.slots[LookedUp(h, h.tail, s.ix.cells[TailCell(s.ix)].key, (First(s) + j) * BLOCK_SIZE)]
  }

  /** What the producer's next operation needs: the memory it touches is there, and the assertions of the lookup hold. */
  predicate ProducerDerefs<T>(s: State<T>, a: Action<T>)
    requires a.Produce?
  {
    && HasIndex(s.ix)
    && match s.producer
       case Ready => false
       case GrowIndex(_, _) => a.memory ==> |a.junk| == |Current(s.ix).slots|
       case Requisition(_, _) => a.offer.To? ==> a.offer.id !in s.blocks
       case Construct(xs, added, k) =>
         k < |xs| ==>
           var p := BlockFor(s, added, |s.items| + k);
           p.To? && p.id in s.blocks && |s.blocks[p.id].cells| == BLOCK_SIZE
       case NullLast(_, c) => c < |s.ix.cells|
       case UndoNull(added, j) =>
         j < |added| ==>
           && KeySet(s.ix, TailCell(s.ix))
           && var c := UndoneCell(s, j);
              s.ix.cells[c].key == (First(s) + j) * BLOCK_SIZE && s.ix.cells[c].value.To?
       case _ => true
  }

  /** The call has failed: what was allocated for it is no longer in use. */
  function GivenUp<T>(s: State<T>): map<nat, BlockId> {
    map n | n in s.live && n < First(s) :: s.live[n]
  }

  function ProducerStep<T>(s: State<T>, a: Action<T>): (s': State<T>)
    requires a.Produce? && ProducerDerefs(s, a)
    ensures s'.consumers == s.consumers && s'.finished == s.finished && s'.releases == s.releases
  {
    var cap := |Current(s.ix).slots|;
    match s.producer
    case CheckKey(xs, added) =>
      if s.ix.cells[NextCell(s.ix)].key == INVALID_BLOCK_BASE then s.(producer := StoreKey(xs, added))
      else s.(producer := CheckValue(xs, added))
    case CheckValue(xs, added) =>
      if s.ix.cells[NextCell(s.ix)].value == Null then s.(producer := StoreKey(xs, added))
      else s.(producer := GrowIndex(xs, added))
    case GrowIndex(xs, added) =>
      if a.memory then s.(ix := Doubled(s.ix, a.junk, s.top), producer := StoreKey(xs, added))
      else s.(live := GivenUp(s), producer := UndoNull(added, 0))
    case StoreKey(xs, added) =>
      s.(ix := WithKey(s.ix, NextCell(s.ix), (First(s) + |added|) * BLOCK_SIZE), producer := StoreTail(xs, added))
    case StoreTail(xs, added) =>
      s.(ix := WithTail(s.ix, Ring(Current(s.ix).tail + 1, cap)), top := s.top + 1, producer := Requisition(xs, added))
    case Requisition(xs, added) =>
      if a.offer.To? then
        s.(blocks := s.blocks[a.offer.id := EmptyBlock()], producer := StoreValue(xs, added, a.offer.id))
      else s.(live := GivenUp(s), producer := RewindLast(added))
    case StoreValue(xs, added, id) =>
      s.(ix := WithValue(s.ix, TailCell(s.ix), To(id)), live := s.live[First(s) + |added| := id],
         producer := if |added| + 1 == Needed(s, xs) then Construct(xs, added + [id], 0) else CheckKey(xs, added + [id]))
    case Construct(xs, added, k) =>
      if k < |xs| then
        var i := |s.items| + k;
        var id := BlockFor(s, added, i).id;
        var b := s.blocks[id];
        s.(blocks := s.blocks[id := b.(cells := b.cells[i % BLOCK_SIZE := Item(xs[k])])],
           producer := Construct(xs, added, k + 1))
      else
        s.(items := s.items + xs, tailBlock := if added == [] then s.tailBlock else To(added[|added| - 1]), producer := Ready)
    case RewindLast(added) =>
      s.(ix := WithTail(s.ix, Back(s.ix)), top := if s.top > 0 then s.top - 1 else 0,
         producer := NullLast(added, TailCell(s.ix)))
    case NullLast(added, c) => s.(ix := WithValue(s.ix, c, Null), producer := UndoNull(added, 0))
    case UndoNull(added, j) =>
      if j >= |added| then s.(producer := GiveBack(added, 0))
      else
        s.(ix := WithValue(s.ix, UndoneCell(s, j), Null), producer := UndoRewind(added, j))
    case UndoRewind(added, j) =>
      s.(ix := WithTail(s.ix, Back(s.ix)), top := if s.top > 0 then s.top - 1 else 0, producer := UndoNull(added, j + 1))
    case GiveBack(added, j) =>
      if j >= |added| then s.(producer := Ready)
      else s.(blocks := s.blocks - {added[j]}, producer := GiveBack(added, j + 1))
  }

  // ---------------------------------------------------------------- the consumers

  function Pos<T>(job: Job<T>): nat {
    job.first + |job.got|
  }

  /** Where the part of the claim that begins at `from` ends: at the end of its block or of the claim. */
  function End(from: nat, stop: nat): nat {
    var end := (from / BLOCK_SIZE + 1) * BLOCK_SIZE;
    if stop < end then stop else end
  }

  predicate HeaderThere(ix: Shared, h: nat, slot: nat) {
    h < |ix.headers| && slot < |ix.headers[h].slots| && ix.headers[h].slots[slot] < |ix.cells|
  }

  /** What the consumer's next operation needs; for the loads of the index these are the assertions of the source. */
  predicate ConsumerDerefs<T>(s: State<T>, c: Consumer<T>) {
    match c
    case Idle => false
    case LoadHeader(_) => |s.ix.headers| > 0
    case LoadTail(_, h) => h < |s.ix.headers|
    case LoadKey(_, h, tail) => HeaderThere(s.ix, h, tail) && KeySet(s.ix, s.ix.headers[h].slots[tail])
    case LoadValue(job, h, slot) =>
      && HeaderThere(s.ix, h, slot)
      && s.ix.cells[s.ix.headers[h].slots[slot]].key == Pos(job) / BLOCK_SIZE * BLOCK_SIZE
      && s.ix.cells[s.ix.headers[h].slots[slot]].value.To?
    case Take(job, h, slot, id, from) =>
      && HeaderThere(s.ix, h, slot) && id in s.blocks && |s.blocks[id].cells| == BLOCK_SIZE
      && s.blocks[id].cells[Pos(job) % BLOCK_SIZE].Item?
    case Count(job, h, slot, id, from) => HeaderThere(s.ix, h, slot) && id in s.blocks && from <= Pos(job)
    case Clear(_, h, slot, id, _) => HeaderThere(s.ix, h, slot)
    case Release(_, h, slot, id, _) => HeaderThere(s.ix, h, slot) && id in s.blocks
  }

  /** On to the next block of the claim, or back to the caller. */
  function GoOn<T>(s: State<T>, t: nat, job: Job<T>, h: nat, slot: nat): State<T>
    requires t < |s.consumers| && HeaderThere(s.ix, h, slot)
  {
    if Pos(job) >= job.stop then
      s.(consumers := s.consumers[t := Idle], deliveries := s.deliveries + [Delivery(job.first, job.got)])
    else s.(consumers := s.consumers[t := LoadValue(job, h, Ring(slot + 1, |s.ix.headers[h].slots|))])
  }

  function ConsumerStep<T>(s: State<T>, t: nat): (s': State<T>)
    requires t < |s.consumers| && ConsumerDerefs(s, s.consumers[t])
    ensures |s'.consumers| == |s.consumers|
  {
    match s.consumers[t]
    case LoadHeader(job) => s.(consumers := s.consumers[t := LoadTail(job, |s.ix.headers| - 1)])
    case LoadTail(job, h) => s.(consumers := s.consumers[t := LoadKey(job, h, s.ix.headers[h].tail)])
    case LoadKey(job, h, tail) =>
      var header := s.ix.headers[h];
      var slot := LookedUp(header, tail, s.ix.cells[header.slots[tail]].key, Pos(job) / BLOCK_SIZE * BLOCK_SIZE);
      s.(consumers := s.consumers[t := LoadValue(job, h, slot)])
    case LoadValue(job, h, slot) =>
      var id := s.ix.cells[s.ix.headers[h].slots[slot]].value.id;
      s.(consumers := s.consumers[t := Take(job, h, slot, id, Pos(job))])
    case Take(job, h, slot, id, from) =>
      var b, o := s.blocks[id], Pos(job) % BLOCK_SIZE;
      var job' := job.(got := job.got + [b.cells[o].x]);
      s.(blocks := s.blocks[id := b.(cells := b.cells[o := Raw])], taken := s.taken + {Pos(job)},
         consumers := s.consumers[t := if Pos(job') >= End(from, job.stop) then Count(job', h, slot, id, from)
                                       else Take(job', h, slot, id, from)])
    case Count(job, h, slot, id, from) =>
      var b := s.blocks[id];
      var done := b.done + (Pos(job) - from);
      var s' := s.(blocks := s.blocks[id := b.(done := done)], finished := s.finished + Range(from, Pos(job)));
      if done == BLOCK_SIZE then s'.(consumers := s.consumers[t := Clear(job, h, slot, id, from)])
      else GoOn(s', t, job, h, slot)
    case Clear(job, h, slot, id, from) =>
      s.(ix := WithValue(s.ix, s.ix.headers[h].slots[slot], Null), live := s.live - {from / BLOCK_SIZE},
         consumers := s.consumers[t := Release(job, h, slot, id, from)])
    case Release(job, h, slot, id, from) =>
      GoOn(s.(blocks := s.blocks - {id}, releases := s.releases + [Released(from / BLOCK_SIZE, id, t)]), t, job, h, slot)
  }

  // ---------------------------------------------------------------- runs

  predicate Init<T(==)>(s: State<T>) {
    && |s.ix.headers| == 1 && HeaderShape(|s.ix.cells|, Current(s.ix))
    && Current(s.ix).origin == 0 && Current(s.ix).tail == |Current(s.ix).slots| - 1
    && (forall c :: 0 <= c < |s.ix.cells| ==> s.ix.cells[c].key == INVALID_BLOCK_BASE)
    && s.blocks == map[] && s.items == [] && s.head == 0 && s.producer == Ready && s.tailBlock == Null
    && (forall t :: 0 <= t < |s.consumers| ==> s.consumers[t] == Idle)
    && s.top == 0 && s.live == map[] && s.taken == {} && s.finished == {} && s.deliveries == [] && s.releases == []
  }

  predicate Enabled<T>(s: State<T>, a: Action<T>) {
    match a
    case Enqueue(_) => s.producer.Ready?
    case Produce(_, _, _) => ProducerDerefs(s, a)
    case Claim(t, count) => t < |s.consumers| && s.consumers[t].Idle? && 0 < count <= |s.items| - s.head
    case Consume(t) => t < |s.consumers| && ConsumerDerefs(s, s.consumers[t])
  }

  function Next<T>(s: State<T>, a: Action<T>): (s': State<T>)
    requires Enabled(s, a)
    ensures |s'.consumers| == |s.consumers|
  {
    match a
    case Enqueue(xs) => s.(producer := if Needed(s, xs) == 0 then Construct(xs, [], 0) else CheckKey(xs, []))
    case Produce(_, _, _) => ProducerStep(s, a)
    case Claim(t, count) =>
      s.(head := s.head + count, consumers := s.consumers[t := LoadHeader(Job(s.head, s.head + count, []))])
    case Consume(t) => ConsumerStep(s, t)
  }

  datatype Outcome<T> = Reached(state: State<T>) | Stuck

  function Execute<T>(s: State<T>, schedule: seq<Action<T>>): Outcome<T> {
    if schedule == [] then Reached(s)
    else
      var last := |schedule| - 1;
      match Execute(s, schedule[..last])
      case Stuck => Stuck
      case Reached(m) => if Enabled(m, schedule[last]) then Reached(Next(m, schedule[last])) else Stuck
  }

  // ---------------------------------------------------------------- what every step keeps

  function CellsOf(h: Header, a: nat, b: nat): set<CellId>
    requires |h.slots| > 0
  {
    set n: nat | a <= n < b :: CellOf(h, n)
  }

  /** The cells that the producer has begun to change and not yet finished with. */
  function Busy<T>(ix: Shared, top: nat, first: nat, p: ProducerState<T>): set<CellId>
    requires |ix.headers| > 0 && |Current(ix).slots| > 0
  {
    var h := Current(ix);
    match p
    case StoreTail(_, _) => {CellOf(h, top)}
    case Requisition(_, _) => {CellOf(h, top - 1)}
    case StoreValue(_, _, _) => {CellOf(h, top - 1)}
    case RewindLast(added) => CellsOf(h, first, first + |added| + 1)
    case NullLast(added, _) => CellsOf(h, first, first + |added| + 1)
    case UndoNull(added, j) => CellsOf(h, first + j, first + |added|)
    case UndoRewind(added, j) => CellsOf(h, first + j + 1, first + |added|)
    case _ => {}
  }

  ghost predicate IndexOk<T>(ix: Shared, top: nat, live: map<nat, BlockId>, first: nat, p: ProducerState<T>) {
    |ix.headers| > 0 && |Current(ix).slots| > 0 && IndexInv(ix, top, live, Busy(ix, top, first, p))
  }

  /** Who has been served how far; a block with an unfinished published item is in use. */
  ghost predicate Bounds(n: nat, head: nat, taken: set<nat>, finished: set<nat>, live: map<nat, BlockId>) {
    && head <= n && finished <= taken && (forall i :: i in taken ==> i < head)
    && forall j: nat :: j < Top(n) && !Drained(finished, j) ==> j in live
  }

  /** The block holds the items of block number n that have not been moved out, and counts those done with. */
  predicate BlockFine<T(==)>(items: seq<T>, taken: set<nat>, finished: set<nat>, n: nat, b: Block<T>) {
    && |b.cells| == BLOCK_SIZE && b.done == |FinishedIn(finished, n)|
    && forall i :: n * BLOCK_SIZE <= i < (n + 1) * BLOCK_SIZE && i < |items| && i !in taken ==>
         b.cells[i - n * BLOCK_SIZE] == Item(items[i])
  }

  predicate StoredOk<T(==)>(items: seq<T>, taken: set<nat>, finished: set<nat>, live: map<nat, BlockId>,
                            blocks: map<BlockId, Block<T>>) {
    Injective(live) && forall n :: n in live ==> live[n] in blocks && BlockFine(items, taken, finished, n, blocks[live[n]])
  }

  /** The blocks of the current call are in use, and no later ones are. */
  predicate Staged(live: map<nat, BlockId>, first: nat, added: seq<BlockId>) {
    && (forall n :: n in live ==> n < first + |added|)
    && (forall k :: 0 <= k < |added| ==> HasNumber(live, first + k, added[k]))
  }

  predicate HasNumber(live: map<nat, BlockId>, n: nat, id: BlockId) {
    n in live && live[n] == id
  }

  /** The blocks of the failed call are no longer in use; their entries, and `extra` more, still have their keys. */
  ghost predicate Undoing(ix: Shared, live: map<nat, BlockId>, first: nat, upto: nat)
    requires |ix.headers| > 0 && HeaderShape(|ix.cells|, Current(ix))
  {
    && (forall n :: n in live ==> n < first && upto <= n + |Current(ix).slots|)
    && (forall n :: first <= n < upto ==> ExactKey(ix, n))
    && upto <= first + |Current(ix).slots|
  }

  predicate ValueAt(ix: Shared, n: int, id: BlockId)
    requires |ix.headers| > 0 && HeaderShape(|ix.cells|, Current(ix))
  {
    ix.cells[CellOf(Current(ix), n)].value == To(id)
  }

  /** The blocks of the failed call from number j on still have their entries. */
  predicate StillEntered(ix: Shared, first: nat, added: seq<BlockId>, j: nat)
    requires |ix.headers| > 0 && HeaderShape(|ix.cells|, Current(ix))
  {
    forall k :: j <= k < |added| ==> ValueAt(ix, first + k, added[k])
  }

  /** The items of the call that have been constructed are in their blocks. */
  predicate Constructed<T(==)>(live: map<nat, BlockId>, blocks: map<BlockId, Block<T>>, n: nat, xs: seq<T>, k: nat) {
    forall o :: 0 <= o < k <= |xs| ==> InCell(live, blocks, n + o, xs[o])
  }

  predicate InCell<T(==)>(live: map<nat, BlockId>, blocks: map<BlockId, Block<T>>, i: nat, x: T) {
    && i / BLOCK_SIZE in live && live[i / BLOCK_SIZE] in blocks && |blocks[live[i / BLOCK_SIZE]].cells| == BLOCK_SIZE
    && blocks[live[i / BLOCK_SIZE]].cells[i % BLOCK_SIZE] == Item(x)
  }

  ghost predicate ProducerOk<T>(ix: Shared, top: nat, live: map<nat, BlockId>, blocks: map<BlockId, Block<T>>, n: nat,
                                p: ProducerState<T>)
    requires |ix.headers| > 0 && HeaderShape(|ix.cells|, Current(ix))
  {
    var first := Top(n);
    match p
    case Ready => top == first && Staged(live, first, [])
    case CheckKey(xs, added) =>
      top == first + |added| < Top(n + |xs|) && Staged(live, first, added)
    case CheckValue(xs, added) =>
      top == first + |added| < Top(n + |xs|) && Staged(live, first, added) && KeySet(ix, CellOf(Current(ix), top))
    case GrowIndex(xs, added) =>
      && top == first + |added| < Top(n + |xs|) && Staged(live, first, added) && |Current(ix).slots| <= top
      && forall j: nat :: j < top <= j + |Current(ix).slots| ==> ExactKey(ix, j)
    case StoreKey(xs, added) =>
      top == first + |added| < Top(n + |xs|) && Staged(live, first, added) && Room(ix, top, live)
    case StoreTail(xs, added) =>
      top == first + |added| < Top(n + |xs|) && Staged(live, first, added) && Room(ix, top, live) && ExactKey(ix, top)
    case Requisition(xs, added) =>
      top == first + |added| + 1 <= Top(n + |xs|) && Staged(live, first, added) && ExactKey(ix, top - 1)
    case StoreValue(xs, added, id) =>
      && top == first + |added| + 1 <= Top(n + |xs|) && Staged(live, first, added) && ExactKey(ix, top - 1)
      && id in blocks && |blocks[id].cells| == BLOCK_SIZE && blocks[id].done == 0
    case Construct(xs, added, k) =>
      top == first + |added| == Top(n + |xs|) && Staged(live, first, added) && k <= |xs| && Constructed(live, blocks, n, xs, k)
    case RewindLast(added) => top == first + |added| + 1 && Undoing(ix, live, first, top) && StillEntered(ix, first, added, 0)
    case NullLast(added, c) =>
      && top == first + |added| && Undoing(ix, live, first, top + 1) && c == CellOf(Current(ix), top)
      && StillEntered(ix, first, added, 0)
    case UndoNull(added, j) =>
      && j <= |added| && top == first + |added| - j && Undoing(ix, live, first, first + |added|)
      && StillEntered(ix, first, added, j)
    case UndoRewind(added, j) =>
      && j < |added| && top == first + |added| - j && Undoing(ix, live, first, first + |added|)
      && StillEntered(ix, first, added, j + 1)
    case GiveBack(added, j) => j <= |added| && top == first && Staged(live, first, [])
  }

  /** The block that is being filled. */
  predicate TailBlockOk(n: nat, live: map<nat, BlockId>, tailBlock: Pointer) {
    n % BLOCK_SIZE != 0 && n / BLOCK_SIZE in live ==> tailBlock == To(live[n / BLOCK_SIZE])
  }

  /** The blocks in the producer's hands: owned, and not in use. */
  function Hand<T>(p: ProducerState<T>): seq<BlockId> {
    match p
    case StoreValue(_, _, id) => [id]
    case RewindLast(added) => added
    case NullLast(added, _) => added
    case UndoNull(added, _) => added
    case UndoRewind(added, _) => added
    case GiveBack(added, j) => if j <= |added| then added[j..] else []
    case _ => []
  }

  /** Every block is owned in one way. */
  ghost predicate HandsOk<T>(keys: set<BlockId>, live: map<nat, BlockId>, p: ProducerState<T>, consumers: seq<Consumer<T>>) {
    && (forall id :: id in Hand(p) ==> id in keys && id !in live.Values)
    && (forall i, j :: 0 <= i < j < |Hand(p)| ==> Hand(p)[i] != Hand(p)[j])
    && (forall t :: 0 <= t < |consumers| && consumers[t].Release? ==>
          consumers[t].id in keys && consumers[t].id !in live.Values && consumers[t].id !in Hand(p))
    && (forall t, u :: 0 <= t < u < |consumers| && consumers[t].Release? && consumers[u].Release? ==>
          consumers[t].id != consumers[u].id)
  }

  // ---------------------------------------------------------------- consumers

  /** Block n holds some index of lo .. stop - 1. */
  predicate Overlaps(n: nat, lo: nat, stop: nat) {
    lo < stop && n * BLOCK_SIZE < stop && lo < (n + 1) * BLOCK_SIZE
  }

  /** The header that the consumer has loaded leads to the same entries as the current one, for the blocks it still needs. */
  ghost predicate HeaderFits(ix: Shared, h: nat, lo: nat, stop: nat) {
    && h < |ix.headers| && |ix.headers[h].slots| > 0 && |Current(ix).slots| > 0
    && forall n: nat :: Overlaps(n, lo, stop) ==> CellOf(ix.headers[h], n) == CellOf(Current(ix), n)
  }

  predicate JobOk<T(==)>(items: seq<T>, head: nat, taken: set<nat>, job: Job<T>) {
    && Pos(job) <= job.stop <= head <= |items| && job.got == items[job.first..Pos(job)]
    && forall i :: Pos(job) <= i < job.stop ==> i !in taken
  }

  /** A consumer at work on the block of index `from`. */
  ghost predicate InBlockOk<T>(ix: Shared, live: map<nat, BlockId>, job: Job<T>, h: nat, slot: nat, id: BlockId, from: nat) {
    && from < job.stop && HeaderFits(ix, h, from, job.stop) && slot == SlotOf(ix.headers[h], from / BLOCK_SIZE)
    && from / BLOCK_SIZE in live && live[from / BLOCK_SIZE] == id && job.first <= from
  }

  ghost predicate ConsumerOk<T>(ix: Shared, live: map<nat, BlockId>, items: seq<T>, head: nat, taken: set<nat>,
                                finished: set<nat>, c: Consumer<T>) {
    match c
    case Idle => true
    case LoadHeader(job) => JobOk(items, head, taken, job) && Pos(job) < job.stop
    case LoadTail(job, h) =>
      && JobOk(items, head, taken, job) && Pos(job) < job.stop && HeaderFits(ix, h, Pos(job), job.stop)
      && (h == |ix.headers| - 1 || TailSet(ix, h))
    case LoadKey(job, h, tail) =>
      && JobOk(items, head, taken, job) && Pos(job) < job.stop && HeaderFits(ix, h, Pos(job), job.stop)
      && tail < |ix.headers[h].slots| && KeySet(ix, ix.headers[h].slots[tail])
    case LoadValue(job, h, slot) =>
      && JobOk(items, head, taken, job) && Pos(job) < job.stop && HeaderFits(ix, h, Pos(job), job.stop)
      && slot == SlotOf(ix.headers[h], Pos(job) / BLOCK_SIZE)
    case Take(job, h, slot, id, from) =>
      && JobOk(items, head, taken, job) && from <= Pos(job) < End(from, job.stop)
      && InBlockOk(ix, live, job, h, slot, id, from) && Moved(taken, finished, from, Pos(job))
    case Count(job, h, slot, id, from) =>
      && JobOk(items, head, taken, job) && from < Pos(job) == End(from, job.stop)
      && InBlockOk(ix, live, job, h, slot, id, from) && Moved(taken, finished, from, Pos(job))
    case Clear(job, h, slot, id, from) =>
      && JobOk(items, head, taken, job) && from < Pos(job) == End(from, job.stop)
      && InBlockOk(ix, live, job, h, slot, id, from) && Drained(finished, from / BLOCK_SIZE)
    case Release(job, h, slot, id, from) =>
      && JobOk(items, head, taken, job) && from < Pos(job) == End(from, job.stop)
      && HeaderFits(ix, h, Pos(job), job.stop) && h < |ix.headers| && |ix.headers[h].slots| > 0
      && slot == SlotOf(ix.headers[h], from / BLOCK_SIZE)
      && from / BLOCK_SIZE !in live && Drained(finished, from / BLOCK_SIZE)
  }

  /** The key at the tail of a header is set. */
  predicate TailSet(ix: Shared, h: nat) {
    h < |ix.headers| && ix.headers[h].tail < |ix.headers[h].slots| && KeySet(ix, ix.headers[h].slots[ix.headers[h].tail])
  }

  /** The indices have been moved out but not been counted. */
  predicate Moved(taken: set<nat>, finished: set<nat>, from: nat, to: nat) {
    forall i :: from <= i < to ==> i in taken && i !in finished
  }

  ghost predicate ConsumersOk<T>(ix: Shared, live: map<nat, BlockId>, items: seq<T>, head: nat, taken: set<nat>,
                                 finished: set<nat>, consumers: seq<Consumer<T>>) {
    forall t :: 0 <= t < |consumers| ==> ConsumerOk(ix, live, items, head, taken, finished, consumers[t])
  }

  // ---------------------------------------------------------------- claims, deliveries and releases

  predicate Covers<T>(c: Consumer<T>, i: nat) {
    !c.Idle? && c.job.first <= i < c.job.stop
  }

  predicate Given<T>(d: Delivery<T>, i: nat) {
    d.first <= i < d.first + |d.got|
  }

  /** Every claimed index belongs to one consumer or one delivery, and deliveries are what was enqueued. */
  ghost predicate ClaimsOk<T>(items: seq<T>, head: nat, consumers: seq<Consumer<T>>, deliveries: seq<Delivery<T>>) {
    && (forall t, u, i: nat :: 0 <= t < u < |consumers| && Covers(consumers[t], i) ==> !Covers(consumers[u], i))
    && (forall t, k, i: nat :: 0 <= t < |consumers| && 0 <= k < |deliveries| && Covers(consumers[t], i) ==> !Given(deliveries[k], i))
    && (forall k, l, i: nat :: 0 <= k < l < |deliveries| && Given(deliveries[k], i) ==> !Given(deliveries[l], i))
    && (forall k :: 0 <= k < |deliveries| ==> DeliveryOk(items, head, deliveries[k]))
    && (forall t, i: nat :: 0 <= t < |consumers| && Covers(consumers[t], i) ==> i < head)
    && (forall i: nat :: i < head ==> Claimed(consumers, deliveries, i))
  }

  predicate DeliveryOk<T(==)>(items: seq<T>, head: nat, d: Delivery<T>) {
    d.first + |d.got| <= head <= |items| && d.got == items[d.first..d.first + |d.got|]
  }

  predicate Claimed<T>(consumers: seq<Consumer<T>>, deliveries: seq<Delivery<T>>, i: nat) {
    || (exists t :: 0 <= t < |consumers| && Covers(consumers[t], i))
    || Delivered(deliveries, i)
  }

  predicate Delivered<T>(deliveries: seq<Delivery<T>>, i: nat) {
    exists k :: 0 <= k < |deliveries| && Given(deliveries[k], i)
  }

  /** The consumer is clearing or releasing block number n. */
  predicate Retires<T>(c: Consumer<T>, n: nat) {
    (c.Clear? || c.Release?) && c.from / BLOCK_SIZE == n
  }

  /** Each block number is retired once: by one consumer, and not again. */
  ghost predicate ReleasesOk<T>(live: map<nat, BlockId>, finished: set<nat>, consumers: seq<Consumer<T>>,
                                releases: seq<Released>) {
    && (forall t, u, n: nat :: 0 <= t < u < |consumers| && Retires(consumers[t], n) ==> !Retires(consumers[u], n))
    && (forall k :: 0 <= k < |releases| ==> releases[k].number !in live && Drained(finished, releases[k].number))
    && (forall k, l :: 0 <= k < l < |releases| ==> releases[k].number != releases[l].number)
    && (forall t, k :: 0 <= t < |consumers| && 0 <= k < |releases| ==> !Retires(consumers[t], releases[k].number))
    && (forall n :: n in live && Drained(finished, n) ==> Cleared(consumers, n))
  }

  /** Some consumer is about to clear the entry of block n. */
  predicate Cleared<T>(consumers: seq<Consumer<T>>, n: nat) {
    exists t :: 0 <= t < |consumers| && consumers[t].Clear? && consumers[t].from / BLOCK_SIZE == n
  }

  ghost predicate Inv<T(!new)>(s: State<T>) {
    && IndexOk(s.ix, s.top, s.live, First(s), s.producer)
    && Bounds(|s.items|, s.head, s.taken, s.finished, s.live)
    && StoredOk(s.items, s.taken, s.finished, s.live, s.blocks)
    && ProducerOk(s.ix, s.top, s.live, s.blocks, |s.items|, s.producer)
    && TailBlockOk(|s.items|, s.live, s.tailBlock)
    && HandsOk(s.blocks.Keys, s.live, s.producer, s.consumers)
    && ConsumersOk(s.ix, s.live, s.items, s.head, s.taken, s.finished, s.consumers)
    && ClaimsOk(s.items, s.head, s.consumers, s.deliveries)
    && ReleasesOk(s.live, s.finished, s.consumers, s.releases)
  }
}
