/**
 The sub-queue of one producer thread (lib/concurrentqueue/concurrentqueue.h, `ImplicitProducer`): items in
 blocks of BLOCK_SIZE, found through the circular block index.

 The producer's operations and a consumer's work on the indices it has claimed are one step each; claimed
 indices may be finished in any order. Memory comes from the outside: `offered` is what `requisition_block`
 returns, `indexMemory` says whether a larger block index can be allocated.
 */
module ImplicitProducer {
  import opened BlockIndex
  import Arith

  datatype Cell<T> = Raw | Item(x: T)

  /** A block: its elements and `elementsCompletelyDequeued`. */
  datatype Block<T> = Block(cells: seq<Cell<T>>, done: nat)

  function EmptyBlock<T>(): (b: Block<T>)
    ensures |b.cells| == BLOCK_SIZE
  {
    Block(seq(BLOCK_SIZE, _ => Raw), 0)
  }

  // ---------------------------------------------------------------- blocks and item indices

  /** How many blocks have been started when n items have been enqueued. */
  function Top(n: nat): nat {
    (n + BLOCK_SIZE - 1) / BLOCK_SIZE
  }

  predicate InBlock(j: nat, i: int) {
    j * BLOCK_SIZE <= i < (j + 1) * BLOCK_SIZE
  }

  function FinishedIn(finished: set<nat>, j: nat): set<nat> {
    set i: nat | i in finished && InBlock(j, i)
  }

  predicate Drained(finished: set<nat>, j: nat) {
    forall i: nat :: j * BLOCK_SIZE <= i < (j + 1) * BLOCK_SIZE ==> i in finished
  }

  function Range(a: nat, b: nat): (r: set<nat>)
    requires a <= b
    ensures forall i: nat :: i in r <==> a <= i < b
    ensures |r| == b - a
  {
    if a == b then {} else Range(a, b - 1) + {b - 1}
  }

  lemma SubsetSize(a: set<nat>, b: set<nat>)
    requires a <= b
    ensures |a| <= |b| && (|a| == |b| ==> a == b)
  {
    var rest := b - a;
    assert b == a + rest;
  }

  /** A block is drained exactly when the count of its finished items has reached the block size. */
  lemma DrainedByCount(finished: set<nat>, j: nat)
    ensures |FinishedIn(finished, j)| <= BLOCK_SIZE
    ensures Drained(finished, j) <==> |FinishedIn(finished, j)| == BLOCK_SIZE
  {
    var all := Range(j * BLOCK_SIZE, (j + 1) * BLOCK_SIZE);
    SubsetSize(FinishedIn(finished, j), all);
    if |FinishedIn(finished, j)| == BLOCK_SIZE {
      forall i: nat | j * BLOCK_SIZE <= i < (j + 1) * BLOCK_SIZE
        ensures i in finished
      {
        assert i in all;
      }
    }
    if Drained(finished, j) {
      assert FinishedIn(finished, j) == all;
    }
  }

  /** Finishing the unfinished items a .. b - 1 of one block raises that block's count by their number, and no other. */
  lemma FinishRange(finished: set<nat>, j: nat, a: nat, b: nat)
    requires a <= b && InBlock(j, a) && b <= (j + 1) * BLOCK_SIZE && finished !! Range(a, b)
    ensures |FinishedIn(finished + Range(a, b), j)| == |FinishedIn(finished, j)| + (b - a)
    ensures forall k: nat :: k != j ==> FinishedIn(finished + Range(a, b), k) == FinishedIn(finished, k)
  {
    assert FinishedIn(finished + Range(a, b), j) == FinishedIn(finished, j) + Range(a, b);
    forall k: nat | k != j
      ensures FinishedIn(finished + Range(a, b), k) == FinishedIn(finished, k)
    {
      assert forall i: nat :: i in Range(a, b) ==> !InBlock(k, i);
    }
  }

  // ---------------------------------------------------------------- what the blocks hold

  predicate BlockOk<T(==)>(items: seq<T>, finished: set<nat>, j: nat, b: Block<T>) {
    && |b.cells| == BLOCK_SIZE
    && b.done == |FinishedIn(finished, j)|
    && forall i :: j * BLOCK_SIZE <= i < (j + 1) * BLOCK_SIZE && i < |items| && i !in finished ==>
         b.cells[i - j * BLOCK_SIZE] == Item(items[i])
  }

  predicate Injective(live: map<nat, BlockId>) {
    forall j, k :: j in live && k in live && j != k ==> live[j] != live[k]
  }

  /** The blocks in use, by number; `blocks` are the blocks the producer owns. */
  predicate BlocksOk<T(==)>(items: seq<T>, finished: set<nat>, live: map<nat, BlockId>, blocks: map<BlockId, Block<T>>) {
    && Injective(live)
    && blocks.Keys == live.Values
    && forall j :: j in live ==> live[j] in blocks && BlockOk(items, finished, j, blocks[live[j]])
  }

  ghost predicate LiveExactly(n: nat, finished: set<nat>, live: map<nat, BlockId>) {
    forall j: nat :: j in live.Keys <==> j < Top(n) && !Drained(finished, j)
  }

  lemma AppendItem<T>(items: seq<T>, x: T, finished: set<nat>, live: map<nat, BlockId>, blocks: map<BlockId, Block<T>>)
    requires BlocksOk(items, finished, live, blocks) && |items| / BLOCK_SIZE in live
    ensures var id := live[|items| / BLOCK_SIZE];
            BlocksOk(items + [x], finished, live,
                     blocks[id := blocks[id].(cells := blocks[id].cells[|items| % BLOCK_SIZE := Item(x)])])
  {
    var j, n := |items| / BLOCK_SIZE, |items|;
    var id := live[j];
    var b := blocks[id].(cells := blocks[id].cells[n % BLOCK_SIZE := Item(x)]);
    var blocks' := blocks[id := b];
    assert n % BLOCK_SIZE == n - j * BLOCK_SIZE;
    forall k | k in live
      ensures live[k] in blocks' && BlockOk(items + [x], finished, k, blocks'[live[k]])
    {
      assert BlockOk(items, finished, k, blocks[live[k]]);
    }
  }

  lemma AddBlock<T>(items: seq<T>, finished: set<nat>, live: map<nat, BlockId>, blocks: map<BlockId, Block<T>>, j: nat, id: BlockId)
    requires BlocksOk(items, finished, live, blocks) && j !in live && id !in blocks
    requires |items| <= j * BLOCK_SIZE && forall i :: i in finished ==> i < |items|
    ensures BlocksOk(items, finished, live[j := id], blocks[id := EmptyBlock()])
  {
    var live', blocks' := live[j := id], blocks[id := EmptyBlock()];
    assert FinishedIn(finished, j) == {};
    assert live'.Values == live.Values + {id} by {
      assert forall v :: v in live.Values ==> exists k :: k in live && live[k] == v && live'[k] == v;
      assert live'[j] == id;
    }
    forall k | k in live'
      ensures live'[k] in blocks' && BlockOk(items, finished, k, blocks'[live'[k]])
    {
      assert k in live ==> BlockOk(items, finished, k, blocks[live[k]]) && live[k] != id;
    }
  }

  lemma FinishCells<T>(items: seq<T>, finished: set<nat>, live: map<nat, BlockId>, blocks: map<BlockId, Block<T>>,
                       j: nat, a: nat, b: nat, cells: seq<Cell<T>>)
    requires BlocksOk(items, finished, live, blocks) && j in live
    requires a <= b && InBlock(j, a) && b <= (j + 1) * BLOCK_SIZE && finished !! Range(a, b)
    requires |cells| == BLOCK_SIZE
    requires forall o :: 0 <= o < BLOCK_SIZE && !(a <= j * BLOCK_SIZE + o < b) ==> cells[o] == blocks[live[j]].cells[o]
    ensures BlocksOk(items, finished + Range(a, b), live, blocks[live[j] := Block(cells, blocks[live[j]].done + (b - a))])
  {
    var blocks' := blocks[live[j] := Block(cells, blocks[live[j]].done + (b - a))];
    var finished' := finished + Range(a, b);
    FinishRange(finished, j, a, b);
    forall k | k in live
      ensures live[k] in blocks' && BlockOk(items, finished', k, blocks'[live[k]])
    {
      assert BlockOk(items, finished, k, blocks[live[k]]);
    }
  }

  lemma ReleaseBlock<T>(items: seq<T>, finished: set<nat>, live: map<nat, BlockId>, blocks: map<BlockId, Block<T>>, j: nat)
    requires BlocksOk(items, finished, live, blocks) && j in live
    ensures BlocksOk(items, finished, live - {j}, blocks - {live[j]})
  {
    var live', blocks' := live - {j}, blocks - {live[j]};
    forall id
      ensures id in blocks'.Keys <==> id in live'.Values
    {
      if id in blocks' {
        assert id in live.Values;
        var k :| k in live && live[k] == id;
        assert k in live' && live'[k] == id;
      }
      if id in live'.Values {
        var k :| k in live' && live'[k] == id;
        assert live[k] == id && id in live.Values;
      }
    }
  }

  /** The next item goes into the youngest block unless that block is full; then the block's number is the next one. */
  lemma TopStep(n: nat)
    ensures n % BLOCK_SIZE == 0 ==> Top(n) == n / BLOCK_SIZE && Top(n + 1) == Top(n) + 1 && n == Top(n) * BLOCK_SIZE
    ensures n % BLOCK_SIZE != 0 ==> Top(n) == n / BLOCK_SIZE + 1 && Top(n + 1) == Top(n)
  {
  }

  /** Which blocks are in use after one more item. */
  lemma NextLive(n: nat, finished: set<nat>, live: map<nat, BlockId>, live': map<nat, BlockId>)
    requires LiveExactly(n, finished, live) && forall i :: i in finished ==> i < n
    requires live'.Keys == live.Keys + if n % BLOCK_SIZE == 0 then {n / BLOCK_SIZE} else {}
    ensures LiveExactly(n + 1, finished, live')
  {
    TopStep(n);
    if n % BLOCK_SIZE == 0 {
      var j := n / BLOCK_SIZE;
      assert j * BLOCK_SIZE <= n < (j + 1) * BLOCK_SIZE && n !in finished;
    }
  }

  /** Which blocks are in use after items of block j have been finished. */
  lemma LiveAfterFinish(n: nat, finished: set<nat>, live: map<nat, BlockId>, j: nat, a: nat, b: nat)
    requires LiveExactly(n, finished, live) && j in live
    requires a <= b && InBlock(j, a) && b <= (j + 1) * BLOCK_SIZE && finished !! Range(a, b)
    ensures LiveExactly(n, finished + Range(a, b), if Drained(finished + Range(a, b), j) then live - {j} else live)
  {
    var finished' := finished + Range(a, b);
    var live' := if Drained(finished', j) then live - {j} else live;
    FinishRange(finished, j, a, b);
    forall k: nat
      ensures k in live'.Keys <==> k < Top(n) && !Drained(finished', k)
    {
      DrainedByCount(finished, k);
      DrainedByCount(finished', k);
    }
  }

  lemma TailBlockIsNotDrained(n: nat, finished: set<nat>)
    requires n !in finished
    ensures !Drained(finished, n / BLOCK_SIZE)
  {
    var j: nat := n / BLOCK_SIZE;
    assert j * BLOCK_SIZE <= n < (j + 1) * BLOCK_SIZE;
  }

  lemma UnfinishedIsLive(n: nat, finished: set<nat>, live: map<nat, BlockId>, i: nat)
    requires LiveExactly(n, finished, live) && i < n && i !in finished
    ensures i / BLOCK_SIZE in live && InBlock(i / BLOCK_SIZE, i)
  {
    var j: nat := i / BLOCK_SIZE;
    assert j * BLOCK_SIZE <= i < (j + 1) * BLOCK_SIZE;
    assert j in live.Keys;
  }

  lemma CellHolds<T>(items: seq<T>, finished: set<nat>, live: map<nat, BlockId>, blocks: map<BlockId, Block<T>>, i: nat)
    requires BlocksOk(items, finished, live, blocks) && i < |items| && i !in finished && i / BLOCK_SIZE in live
    ensures live[i / BLOCK_SIZE] in blocks && |blocks[live[i / BLOCK_SIZE]].cells| == BLOCK_SIZE
    ensures blocks[live[i / BLOCK_SIZE]].cells[i % BLOCK_SIZE] == Item(items[i])
    ensures blocks[live[i / BLOCK_SIZE]].done == |FinishedIn(finished, i / BLOCK_SIZE)|
  {
    var j: nat := i / BLOCK_SIZE;
    assert BlockOk(items, finished, j, blocks[live[j]]);
    assert i % BLOCK_SIZE == i - j * BLOCK_SIZE;
  }

  /** The items a .. b - 1 of block j are about to be finished, and have been moved out of its cells. */
  ghost predicate Finishing<T>(n: nat, items: seq<T>, finished: set<nat>, live: map<nat, BlockId>, blocks: map<BlockId, Block<T>>,
                               j: nat, a: nat, b: nat, cells: seq<Cell<T>>)
  {
    && BlocksOk(items, finished, live, blocks) && j in live && live[j] in blocks && |blocks[live[j]].cells| == BLOCK_SIZE
    && LiveExactly(n, finished, live) && n !in finished
    && a <= b && InBlock(j, a) && b <= (j + 1) * BLOCK_SIZE && b <= n && finished !! Range(a, b)
    && |cells| == BLOCK_SIZE
    && forall o :: 0 <= o < BLOCK_SIZE && !(a <= j * BLOCK_SIZE + o < b) ==> cells[o] == blocks[live[j]].cells[o]
  }

  lemma FinishStep<T>(n: nat, items: seq<T>, finished: set<nat>, live: map<nat, BlockId>, blocks: map<BlockId, Block<T>>,
                      j: nat, a: nat, b: nat, cells: seq<Cell<T>>)
    requires Finishing(n, items, finished, live, blocks, j, a, b, cells)
    ensures BlocksOk(items, finished + Range(a, b), live, blocks[live[j] := Block(cells, blocks[live[j]].done + (b - a))])
    ensures Drained(finished + Range(a, b), j) <==> blocks[live[j]].done + (b - a) == BLOCK_SIZE
    ensures LiveExactly(n, finished + Range(a, b), if blocks[live[j]].done + (b - a) == BLOCK_SIZE then live - {j} else live)
    ensures Drained(finished + Range(a, b), j) ==> j != n / BLOCK_SIZE
  {
    assert BlockOk(items, finished, j, blocks[live[j]]);
    hide LiveExactly, Drained, BlocksOk;
    FinishCells(items, finished, live, blocks, j, a, b, cells);
    LiveAfterFinish(n, finished, live, j, a, b);
    FinishRange(finished, j, a, b);
    DrainedByCount(finished + Range(a, b), j);
    TailBlockIsNotDrained(n, finished + Range(a, b));
  }

  lemma BlockCells<T>(items: seq<T>, finished: set<nat>, live: map<nat, BlockId>, blocks: map<BlockId, Block<T>>,
                      j: nat, a: nat, b: nat)
    requires BlocksOk(items, finished, live, blocks) && j in live
    requires a < b <= |items| && InBlock(j, a) && b <= (j + 1) * BLOCK_SIZE && finished !! Range(a, b)
    ensures live[j] in blocks && |blocks[live[j]].cells| == BLOCK_SIZE
    ensures CellsHold(blocks[live[j]].cells, a % BLOCK_SIZE, items[a..b])
  {
    hide Range;
    var cells, xs := blocks[live[j]].cells, items[a..b];
    assert BlockOk(items, finished, j, blocks[live[j]]);
    hide BlocksOk;
    assert a % BLOCK_SIZE == a - j * BLOCK_SIZE;
    forall o | 0 <= o < |xs|
      ensures cells[a % BLOCK_SIZE + o] == Item(xs[o])
    {
      assert a + o in Range(a, b) && xs[o] == items[a + o];
    }
  }

  /** From offset `at` on the cells hold the items xs. */
  predicate CellsHold<T(==)>(cells: seq<Cell<T>>, at: nat, xs: seq<T>) {
    at + |xs| <= |cells| && forall o :: 0 <= o < |xs| ==> cells[at + o] == Item(xs[o])
  }

  /** Moves `n` items out of a block from offset `at` on and adds them to its count. */
  method MoveOut<T>(block: Block<T>, ghost expected: seq<T>, at: nat, n: nat) returns (xs: seq<T>, block': Block<T>)
    requires |block.cells| == BLOCK_SIZE && |expected| == n && CellsHold(block.cells, at, expected)
    ensures xs == expected && block'.done == block.done + n && |block'.cells| == BLOCK_SIZE
    ensures forall o :: 0 <= o < BLOCK_SIZE && !(at <= o < at + n) ==> block'.cells[o] == block.cells[o]
  {
    xs := [];
    var cells := block.cells;
    for k := 0 to n
      invariant |cells| == BLOCK_SIZE && xs == expected[..k]
      invariant forall o :: 0 <= o < BLOCK_SIZE && !(at <= o < at + k) ==> cells[o] == block.cells[o]
    {
      assert cells[at + k] == Item(expected[k]);
      xs := xs + [cells[at + k].x];
      cells := cells[at + k := Raw];
    }
    block' := Block(cells, block.done + n);
  }

  /** How far a bulk dequeue is: the items a .. b - 1 are finished, those up to c are not, and which blocks are gone. */
  ghost predicate Progress(before: set<nat>, finished: set<nat>, all: set<BlockId>, keys: set<BlockId>,
                           released: set<BlockId>, a: nat, b: nat, c: nat) {
    && a <= b <= c && finished == before + Range(a, b) && finished !! Range(b, c)
    && released <= all && keys == all - released
  }

  lemma ProgressStart(finished: set<nat>, all: set<BlockId>, a: nat, c: nat)
    requires a <= c && finished !! Range(a, c)
    ensures Progress(finished, finished, all, all, {}, a, a, c)
  {
  }

  lemma ProgressMeans(before: set<nat>, finished: set<nat>, all: set<BlockId>, keys: set<BlockId>,
                      released: set<BlockId>, a: nat, b: nat, c: nat)
    requires Progress(before, finished, all, keys, released, a, b, c)
    ensures a <= b <= c && finished == before + Range(a, b) && finished !! Range(b, c)
    ensures released <= all && keys == all - released
  {
  }

  lemma ProgressStep(before: set<nat>, finished: set<nat>, all: set<BlockId>, keys: set<BlockId>,
                     released: set<BlockId>, freed: set<BlockId>, a: nat, b: nat, b': nat, c: nat)
    requires Progress(before, finished, all, keys, released, a, b, c) && b <= b' <= c && freed <= keys
    ensures Progress(before, finished + Range(b, b'), all, keys - freed, released + freed, a, b', c)
  {
    hide Range;
    assert before + Range(a, b) + Range(b, b') == before + Range(a, b');
  }

  lemma JoinSlices<T>(s: seq<T>, rest: set<nat>, a: nat, b: nat, c: nat)
    requires a <= b <= c <= |s|
    ensures s[a..b] + s[b..c] == s[a..c]
    ensures rest + Range(a, b) + Range(b, c) == rest + Range(a, c)
  {
    hide Range;
  }

  // ---------------------------------------------------------------- blocks added by a bulk insertion

  /** `live` is `live0`, all of whose numbers are below start, with the added blocks numbered from start on. */
  ghost predicate Extends(live0: map<nat, BlockId>, live: map<nat, BlockId>, start: nat, added: seq<BlockId>) {
    && (forall j :: j in live0 ==> j < start)
    && (forall j :: j in live <==> j in live0 || start <= j < start + |added|)
    && (forall j :: j in live0 ==> live[j] == live0[j])
    && (forall j :: start <= j < start + |added| ==> live[j] == added[j - start])
  }

  ghost predicate ExtendsBlocks<T>(blocks0: map<BlockId, Block<T>>, blocks: map<BlockId, Block<T>>, added: seq<BlockId>) {
    && blocks.Keys == blocks0.Keys + (set id | id in added)
    && blocks0.Keys !! (set id | id in added)
    && (forall id :: id in blocks0 ==> blocks[id] == blocks0[id])
  }

  lemma ExtendOne(live0: map<nat, BlockId>, live: map<nat, BlockId>, start: nat, added: seq<BlockId>, id: BlockId)
    requires Extends(live0, live, start, added)
    ensures start + |added| !in live && Extends(live0, live[start + |added| := id], start, added + [id])
  {
  }

  lemma ExtendBlocksOne<T>(blocks0: map<BlockId, Block<T>>, blocks: map<BlockId, Block<T>>, added: seq<BlockId>, id: BlockId)
    requires ExtendsBlocks(blocks0, blocks, added) && id !in blocks
    ensures ExtendsBlocks(blocks0, blocks[id := EmptyBlock()], added + [id])
  {
    assert (set x | x in added + [id]) == (set x | x in added) + {id};
  }

  lemma FreshKeysIntact(index: Index, top: nat, live0: map<nat, BlockId>, live: map<nat, BlockId>, start: nat, added: seq<BlockId>)
    requires Represents(index, top, live, false) && Extends(live0, live, start, added) && top == start + |added|
    ensures WellFormed(index) && KeysIntact(index, top, start)
  {
    forall j | start <= j < top
      ensures KeyIntact(index, top, j)
    {
      assert j in live && Shadowed(live, j);
    }
  }

  lemma UndoOne(live0: map<nat, BlockId>, live: map<nat, BlockId>, start: nat, added: seq<BlockId>)
    requires Extends(live0, live, start, added) && added != []
    ensures start in live && Extends(live0, live - {start}, start + 1, added[1..])
  {
  }

  lemma UndoEnd(live0: map<nat, BlockId>, live: map<nat, BlockId>, start: nat, added: seq<BlockId>)
    requires Extends(live0, live, start, added) && added == []
    ensures live == live0
  {
  }

  lemma OldNumbers(live0: map<nat, BlockId>, live: map<nat, BlockId>, start: nat, added: seq<BlockId>)
    requires Extends(live0, live, start, added)
    ensures forall j :: j in live0 ==> j < start
  {
  }

  lemma BlocksBack<T>(blocks0: map<BlockId, Block<T>>, blocks: map<BlockId, Block<T>>, added: seq<BlockId>)
    requires ExtendsBlocks(blocks0, blocks, added)
    ensures blocks - (set id | id in added) == blocks0
  {
  }

  /** The blocks on offer are distinct and none of them is owned already. */
  predicate Offerable<T>(offers: seq<Pointer>, blocks: map<BlockId, Block<T>>) {
    && (forall i :: 0 <= i < |offers| && offers[i].To? ==> offers[i].id !in blocks)
    && (forall i, j :: 0 <= i < j < |offers| && offers[i].To? ==> offers[i] != offers[j])
  }

  lemma NextOffer<T>(offers: seq<Pointer>, blocks0: map<BlockId, Block<T>>, blocks: map<BlockId, Block<T>>, added: seq<BlockId>)
    requires Offerable(offers, blocks0) && ExtendsBlocks(blocks0, blocks, added) && |added| < |offers|
    requires forall i :: 0 <= i < |added| ==> offers[i] == To(added[i])
    ensures offers[|added|].To? ==> offers[|added|].id !in blocks
  {
  }

  lemma NothingAdded<T>(index: Index, top: nat, live: map<nat, BlockId>, blocks: map<BlockId, Block<T>>)
    requires Represents(index, top, live, false)
    ensures Extends(live, live, top, []) && ExtendsBlocks(blocks, blocks, [])
  {
    forall j | j in live
      ensures j < top
    {
      assert Found(index, top, j, live[j]);
    }
  }

  /** The blocks that a bulk insertion fills: the one begun before, if any, and the added ones. */
  lemma OrderOf(n: nat, live0: map<nat, BlockId>, live: map<nat, BlockId>, added: seq<BlockId>,
                order: seq<BlockId>, startBlock: Pointer)
    requires Extends(live0, live, Top(n), added)
    requires n % BLOCK_SIZE == 0 ==> order == added
    requires n % BLOCK_SIZE != 0 ==> n / BLOCK_SIZE in live0 && startBlock == To(live0[n / BLOCK_SIZE])
    requires n % BLOCK_SIZE != 0 ==> order == [startBlock.id] + added
    ensures |order| == Top(n) + |added| - n / BLOCK_SIZE
    ensures NumberedFrom(live, n / BLOCK_SIZE, order)
  {
    TopStep(n);
  }

  /** The blocks of `order` have the numbers from first on. */
  predicate NumberedFrom(live: map<nat, BlockId>, first: nat, order: seq<BlockId>) {
    forall p :: 0 <= p < |order| ==> first + p in live && live[first + p] == order[p]
  }

  lemma LastOfOrder(n: nat, n': nat, live: map<nat, BlockId>, order: seq<BlockId>)
    requires n <= n' && NumberedFrom(live, n / BLOCK_SIZE, order) && |order| == Top(n') - n / BLOCK_SIZE
    ensures n' % BLOCK_SIZE != 0 ==> order != [] && n' / BLOCK_SIZE in live && live[n' / BLOCK_SIZE] == order[|order| - 1]
  {
    TopStep(n');
    if n' % BLOCK_SIZE != 0 {
      var p := |order| - 1;
      assert n' / BLOCK_SIZE == n / BLOCK_SIZE + p;
      var last := order[p];
      assert n' / BLOCK_SIZE in live && last == live[n' / BLOCK_SIZE];
    }
  }

  lemma OfferedKeys<T>(offers: seq<Pointer>, blocks0: map<BlockId, Block<T>>, blocks: map<BlockId, Block<T>>, added: seq<BlockId>)
    requires |added| == |offers| && ExtendsBlocks(blocks0, blocks, added)
    requires forall i :: 0 <= i < |added| ==> offers[i] == To(added[i])
    ensures blocks.Keys == blocks0.Keys + set i | 0 <= i < |offers| && offers[i].To? :: offers[i].id
  {
    var a, b := set id | id in added, set i | 0 <= i < |offers| && offers[i].To? :: offers[i].id;
    forall id | id in added
      ensures id in b
    {
      var i :| 0 <= i < |added| && added[i] == id;
      assert offers[i] == To(added[i]);
    }
    assert a == b;
  }

  /** Which blocks are in use after several more items. */
  lemma MoreLive(n: nat, n': nat, finished: set<nat>, live0: map<nat, BlockId>, live: map<nat, BlockId>, added: seq<BlockId>)
    requires LiveExactly(n, finished, live0) && Extends(live0, live, Top(n), added) && Top(n') == Top(n) + |added|
    requires forall i :: i in finished ==> i < n
    ensures LiveExactly(n', finished, live)
  {
    forall j: nat
      ensures j in live.Keys <==> j < Top(n') && !Drained(finished, j)
    {
      if Top(n) <= j {
        assert j * BLOCK_SIZE !in finished;
      }
      assert j in live0.Keys <==> j < Top(n) && !Drained(finished, j);
    }
  }

  // ---------------------------------------------------------------- the sub-queue

  class Producer<T(==)> {
    var tailIndex: nat
    var headIndex: nat
    var index: Index
    var tailBlock: Pointer
    var blocks: map<BlockId, Block<T>>
    /** Every item ever enqueued, in order, and the item indices that consumers are done with. */
    ghost var items: seq<T>
    ghost var finished: set<nat>
    /** The number of blocks started, and the blocks in use by number. */
    ghost var top: nat
    ghost var live: map<nat, BlockId>

    ghost predicate Valid()
      reads this
    {
      && tailIndex == |items| && headIndex <= tailIndex
      && (forall i :: i in finished ==> i < headIndex)
      && LiveExactly(tailIndex, finished, live)
      && BlocksOk(items, finished, live, blocks)
      && top == Top(tailIndex) && Represents(index, top, live, false)
      && (tailIndex % BLOCK_SIZE != 0 ==> tailIndex / BLOCK_SIZE in live && tailBlock == To(live[tailIndex / BLOCK_SIZE]))
    }

    /** The items nobody has claimed yet. */
    ghost function Queue(): seq<T>
      requires Valid()
      reads this
    {
      items[headIndex..]
    }

    constructor (junk: Pointer)
      ensures Valid() && items == [] && headIndex == 0 && finished == {} && blocks == map[]
    {
      tailIndex, headIndex, tailBlock, blocks := 0, 0, Null, map[];
      index := Fresh(junk);
      items, finished, top, live := [], {}, 0, map[];
      new;
      FreshRepresents(junk);
    }

    /** The block index entry for a new block: grows the index if the slot behind the tail is still in use. */
    method InsertEntry(base: nat, indexMemory: bool, junk: Pointer) returns (ok: bool)
      requires Represents(index, top, live, false) && base == top * BLOCK_SIZE
      modifies this`index, this`top
      ensures ok == (old(HasRoom(index)) || indexMemory)
      ensures ok ==> top == old(top) + 1 && Represents(index, top, live, true)
      ensures !ok ==> index == old(index) && top == old(top)
    {
      if !HasRoom(index) {
        if !indexMemory {
          return false;
        }
        GrownRepresents(index, junk, top, live);
        var larger := NewBlockIndex(index, junk);
        index := larger;
      }
      PushRepresents(index, top, live);
      index := PushKey(index, base);
      top := top + 1;
      return true;
    }

    /** Gets a block for the item indices from base on, and enters it into the index. */
    method StartBlock(base: nat, offered: Pointer, indexMemory: bool, junk: Pointer) returns (ok: bool)
      requires base == top * BLOCK_SIZE && |items| <= base
      requires Represents(index, top, live, false) && BlocksOk(items, finished, live, blocks)
      requires forall i :: i in finished ==> i < |items|
      requires offered.To? ==> offered.id !in blocks
      modifies this`index, this`blocks, this`top, this`live, this`tailBlock
      ensures Represents(index, top, live, false) && BlocksOk(items, finished, live, blocks)
      ensures ok == (offered.To? && (old(HasRoom(index)) || indexMemory))
      ensures ok ==> top == old(top) + 1 && live == old(live)[old(top) := offered.id] &&
                     tailBlock == offered && blocks == old(blocks)[offered.id := EmptyBlock()]
      ensures !ok ==> top == old(top) && live == old(live) && tailBlock == old(tailBlock) && blocks == old(blocks)
    {
      hide Represents, BlocksOk;
      var inserted := InsertEntry(base, indexMemory, junk);
      if !inserted {
        return false;
      }
      if offered == Null {
        RewindRepresents(index, top, live, true);
        index := SetValue(Rewound(index), index.tail, Null);
        top := top - 1;
        return false;
      }
      AddBlock(items, finished, live, blocks, top - 1, offered.id);
      FillRepresents(index, top, live, offered.id);
      blocks := blocks[offered.id := EmptyBlock()];
      index := SetValue(index, index.tail, offered);
      tailBlock := offered;
      live := live[top - 1 := offered.id];
      return true;
    }

    /** Constructs the next item in the tail block; the tail index is published by the caller. */
    method WriteItem(at: nat, x: T)
      requires at == |items|
      requires BlocksOk(items, finished, live, blocks)
      requires |items| / BLOCK_SIZE in live && tailBlock == To(live[|items| / BLOCK_SIZE])
      modifies this`blocks, this`items
      ensures items == old(items) + [x] && blocks.Keys == old(blocks.Keys)
      ensures BlocksOk(items, finished, live, blocks)
    {
      AppendItem(items, x, finished, live, blocks);
      var block := blocks[tailBlock.id];
      blocks := blocks[tailBlock.id := block.(cells := block.cells[at % BLOCK_SIZE := Item(x)])];
      items := items + [x];
    }

    /** `enqueue`: the item is appended, or nothing changes because memory ran out at the start of a block. */
    method Enqueue(x: T, offered: Pointer, indexMemory: bool, junk: Pointer) returns (ok: bool)
      requires Valid()
      requires offered.To? ==> offered.id !in blocks
      modifies this
      ensures Valid() && headIndex == old(headIndex) && finished == old(finished)
      ensures items == if ok then old(items) + [x] else old(items)
      ensures ok == (old(tailIndex) % BLOCK_SIZE != 0 || (offered.To? && (old(HasRoom(index)) || indexMemory)))
      ensures blocks.Keys == old(blocks.Keys) + if ok && old(tailIndex) % BLOCK_SIZE == 0 then {offered.id} else {}
    {
      hide Represents, BlocksOk, LiveExactly;
      ghost var n := tailIndex;
      TopStep(n);
      if tailIndex % BLOCK_SIZE == 0 {
        var started := StartBlock(tailIndex, offered, indexMemory, junk);
        if !started {
          return false;
        }
        assert live.Keys == old(live).Keys + {n / BLOCK_SIZE};
      }
      NextLive(n, finished, old(live), live);
      WriteItem(tailIndex, x);
      tailIndex := tailIndex + 1;
      return true;
    }

    /** Takes back the blocks of a failed bulk insertion, oldest first, while the index tail moves back from the youngest. */
    method UndoBlocks(start: nat, added: seq<BlockId>, ghost live0: map<nat, BlockId>, ghost blocks0: map<BlockId, Block<T>>)
      requires Represents(index, top, live, false) && top == start + |added|
      requires Extends(live0, live, start, added) && ExtendsBlocks(blocks0, blocks, added)
      modifies this`index, this`blocks, this`top, this`live
      ensures Represents(index, start, live0, false) && top == start && live == live0 && blocks == blocks0
    {
      hide Represents, Extends, ExtendsBlocks, KeysIntact;
      var k := |added|;
      ghost var cleared, liveNow := index, live;
      FreshKeysIntact(index, top, live0, live, start, added);
      assert added[0..] == added;
      OldNumbers(live0, live, start, added);
      var base, m := start * BLOCK_SIZE, 0;
      while m < k
        invariant 0 <= m <= k && base == (start + m) * BLOCK_SIZE && top == start + k
        invariant Represents(cleared, top, liveNow, false) && WellFormed(cleared)
        invariant Extends(live0, liveNow, start + m, added[m..])
        invariant KeysIntact(cleared, top, start) && blocks == old(blocks)
        invariant index == cleared.(tail := Arith.Ring(cleared.tail - m, |cleared.entries|))
      {
        LookupDuringUndo(cleared, top, k, m);
        var slot := Lookup(index, base);
        UndoOne(live0, liveNow, start + m, added[m..]);
        ClearRepresents(cleared, top, liveNow, start + m);
        SetValueKeepsKeys(cleared, top, start, slot, Null);
        Arith.RingAdd(cleared.tail - m, -1, |cleared.entries|);
        cleared := SetValue(cleared, slot, Null);
        liveNow := liveNow - {start + m};
        index := SetValue(index, slot, Null);
        index := Rewound(index);
        assert added[m..][1..] == added[m + 1..];
        m := m + 1;
        base := base + BLOCK_SIZE;
      }
      UndoEnd(live0, liveNow, start + k, added[k..]);
      RewindMany(cleared, top, live0, k);
      BlocksBack(blocks0, blocks, added);
      blocks := blocks - (set id | id in added);
      top := start;
      live := live0;
    }

    /** The first half of `enqueue_bulk`: gets all blocks it will need, or none. */
    method AllocateBlocks(base: nat, offers: seq<Pointer>, memory: seq<bool>, junk: Pointer) returns (ok: bool, added: seq<BlockId>)
      requires base == top * BLOCK_SIZE && |items| <= base && |offers| == |memory| && Offerable(offers, blocks)
      requires Represents(index, top, live, false) && BlocksOk(items, finished, live, blocks)
      requires forall i :: i in finished ==> i < |items|
      modifies this`index, this`blocks, this`top, this`live, this`tailBlock
      ensures Represents(index, top, live, false) && BlocksOk(items, finished, live, blocks)
      ensures ok ==> |added| == |offers| && top == old(top) + |added| && forall i :: 0 <= i < |added| ==> offers[i] == To(added[i])
      ensures ok ==> Extends(old(live), live, old(top), added) && ExtendsBlocks(old(blocks), blocks, added)
      ensures !ok ==> top == old(top) && live == old(live) && blocks == old(blocks) && tailBlock == old(tailBlock)
      ensures (forall i :: 0 <= i < |offers| ==> offers[i].To? && memory[i]) ==> ok
    {
      hide Represents, BlocksOk, Extends, ExtendsBlocks, Offerable;
      NothingAdded(index, top, live, blocks);
      var start, startBlock, current := base / BLOCK_SIZE, tailBlock, base;
      added := [];
      while |added| < |offers|
        invariant |added| <= |offers| && top == old(top) + |added| && current == top * BLOCK_SIZE
        invariant Represents(index, top, live, false) && BlocksOk(items, finished, live, blocks)
        invariant Extends(old(live), live, old(top), added) && ExtendsBlocks(old(blocks), blocks, added)
        invariant forall i :: 0 <= i < |added| ==> offers[i] == To(added[i])
        decreases |offers| - |added|
      {
        var offered := offers[|added|];
        NextOffer(offers, old(blocks), blocks, added);
        ghost var live1, blocks1 := live, blocks;
        var started := StartBlock(current, offered, memory[|added|], junk);
        if !started {
          UndoBlocks(start, added, old(live), old(blocks));
          tailBlock := startBlock;
          return false, [];
        }
        ExtendOne(old(live), live1, old(top), added, offered.id);
        ExtendBlocksOne(old(blocks), blocks1, added, offered.id);
        added := added + [offered.id];
        current := current + BLOCK_SIZE;
      }
      return true, added;
    }

    /** The second half of `enqueue_bulk`: constructs the items, one block of `order` after the other. */
    method FillBlocks(start: nat, xs: seq<T>, order: seq<BlockId>)
      requires start == |items| && BlocksOk(items, finished, live, blocks)
      requires |order| == Top(start + |xs|) - start / BLOCK_SIZE
      requires NumberedFrom(live, start / BLOCK_SIZE, order)
      modifies this`blocks, this`items, this`tailBlock
      ensures items == old(items) + xs && blocks.Keys == old(blocks.Keys) && BlocksOk(items, finished, live, blocks)
      ensures tailBlock == if order == [] then old(tailBlock) else To(order[|order| - 1])
    {
      hide BlocksOk;
      var current, stop, p := start, start + |xs|, 0;
      while p < |order|
        invariant 0 <= p <= |order| && start <= current <= stop && current == |items|
        invariant items == old(items) + xs[..current - start] && blocks.Keys == old(blocks.Keys)
        invariant BlocksOk(items, finished, live, blocks)
        invariant tailBlock == if p == 0 then old(tailBlock) else To(order[p - 1])
        invariant current == if p == 0 then start else if p == |order| then stop else (start / BLOCK_SIZE + p) * BLOCK_SIZE
      {
        tailBlock := To(order[p]);
        var end := (start / BLOCK_SIZE + p + 1) * BLOCK_SIZE;
        if stop < end {
          end := stop;
        }
        while current != end
          invariant start <= current <= end <= stop && current == |items|
          invariant current < end ==> current / BLOCK_SIZE == start / BLOCK_SIZE + p
          invariant items == old(items) + xs[..current - start] && blocks.Keys == old(blocks.Keys)
          invariant BlocksOk(items, finished, live, blocks) && tailBlock == To(order[p])
          decreases end - current
        {
          WriteItem(current, xs[current - start]);
          assert xs[..current - start] + [xs[current - start]] == xs[..current + 1 - start];
          current := current + 1;
        }
        p := p + 1;
      }
      assert xs[..|xs|] == xs;
    }

    /** Fills the block begun before, if any, and then the added ones. */
    method FillFrom(start: nat, xs: seq<T>, added: seq<BlockId>, startBlock: Pointer, ghost live0: map<nat, BlockId>)
      requires start == |items| && BlocksOk(items, finished, live, blocks)
      requires Extends(live0, live, Top(start), added) && Top(start + |xs|) == Top(start) + |added|
      requires start % BLOCK_SIZE != 0 ==> start / BLOCK_SIZE in live0 && startBlock == To(live0[start / BLOCK_SIZE])
      modifies this`blocks, this`items, this`tailBlock
      ensures items == old(items) + xs && blocks.Keys == old(blocks.Keys) && BlocksOk(items, finished, live, blocks)
      ensures (start + |xs|) % BLOCK_SIZE != 0 ==>
                (start + |xs|) / BLOCK_SIZE in live && tailBlock == To(live[(start + |xs|) / BLOCK_SIZE])
    {
      hide BlocksOk, Extends, NumberedFrom;
      var order := added;
      if start % BLOCK_SIZE != 0 {
        order := [startBlock.id] + added;
      }
      tailBlock := startBlock;
      OrderOf(start, live0, live, added, order, startBlock);
      LastOfOrder(start, start + |xs|, live, order);
      FillBlocks(start, xs, order);
    }

    /**
     `enqueue_bulk`: all items are appended in order, or the queue, the blocks it owns and the blocks in use are
     exactly what they were; it succeeds if no allocation fails.
     */
    method EnqueueBulk(xs: seq<T>, offers: seq<Pointer>, memory: seq<bool>, junk: Pointer) returns (ok: bool)
      requires Valid() && Offerable(offers, blocks)
      requires |offers| == |memory| == Top(tailIndex + |xs|) - Top(tailIndex)
      modifies this
      ensures Valid() && headIndex == old(headIndex) && finished == old(finished)
      ensures items == if ok then old(items) + xs else old(items)
      ensures ok ==> blocks.Keys == old(blocks.Keys) + set i | 0 <= i < |offers| && offers[i].To? :: offers[i].id
      ensures !ok ==> blocks == old(blocks) && live == old(live) && tailBlock == old(tailBlock)
      ensures (forall i :: 0 <= i < |offers| ==> offers[i].To? && memory[i]) ==> ok
    {
      hide Represents, BlocksOk, LiveExactly, Extends, ExtendsBlocks, Offerable;
      var startBlock, base := tailBlock, Top(tailIndex) * BLOCK_SIZE;
      var added;
      ok, added := AllocateBlocks(base, offers, memory, junk);
      if ok {
        MoreLive(tailIndex, tailIndex + |xs|, finished, old(live), live, added);
        OfferedKeys(offers, old(blocks), blocks, added);
        FillFrom(tailIndex, xs, added, startBlock, old(live));
        tailIndex := tailIndex + |xs|;
      }
    }

    /** A consumer's increment of the head, made only when enough items are there (see DequeueProtocol). */
    method Claim(count: nat) returns (first: nat)
      requires Valid() && headIndex + count <= tailIndex
      modifies this`headIndex
      ensures Valid() && first == old(headIndex) && headIndex == first + count
      ensures Queue() == old(Queue())[count..]
    {
      first := headIndex;
      headIndex := headIndex + count;
    }

    /**
     Moves the claimed items a .. b - 1 out of the block in the given slot, all in one block, and counts them as
     dequeued (`set_empty`, `set_many_empty`); the block is released when they were its last ones.
     */
    method FinishInBlock(slot: nat, a: nat, b: nat) returns (xs: seq<T>, released: Pointer)
      requires Valid() && a < b <= headIndex && b <= (a / BLOCK_SIZE + 1) * BLOCK_SIZE && finished !! Range(a, b)
      requires slot == Slot(index, top, a / BLOCK_SIZE)
      modifies this`index, this`blocks, this`finished, this`live
      ensures Valid() && xs == items[a..b] && finished == old(finished) + Range(a, b)
      ensures index.tail == old(index.tail) && |index.entries| == |old(index.entries)| && WellFormed(index)
      ensures released.To? <==> Drained(finished, a / BLOCK_SIZE)
      ensures blocks.Keys == old(blocks.Keys) - (if released.To? then {released.id} else {})
      ensures released.To? ==> released.id in old(blocks)
    {
      hide Represents, BlocksOk, LiveExactly, Drained, Lookup, Slot, FinishedIn, Range;
      ghost var j: nat := a / BLOCK_SIZE;
      UnfinishedIsLive(tailIndex, finished, live, a);
      LookupFinds(index, top, live, a);
      CellHolds(items, finished, live, blocks, a);
      var id := index.entries[slot].value.id;
      var block := blocks[id];
      BlockCells(items, finished, live, blocks, j, a, b);
      hide CellsHold;
      xs, block := MoveOut(block, items[a..b], a % BLOCK_SIZE, b - a);
      assert Finishing(tailIndex, items, finished, live, blocks, j, a, b, block.cells);
      FinishStep(tailIndex, items, finished, live, blocks, j, a, b, block.cells);
      hide Finishing;
      blocks := blocks[id := block];
      finished := finished + Range(a, b);
      released := Null;
      if block.done == BLOCK_SIZE {
        ClearRepresents(index, top, live, j);
        ReleaseBlock(items, finished, live, blocks, j);
        index := SetValue(index, slot, Null);
        blocks := blocks - {id};
        live := live - {j};
        released := To(id);
      }
    }

    /** The rest of `dequeue`, after index i has been claimed: the item is moved out and a drained block released. */
    method Finish(i: nat) returns (x: T, released: Pointer)
      requires Valid() && i < headIndex && i !in finished
      modifies this`index, this`blocks, this`finished, this`live
      ensures Valid() && x == items[i] && finished == old(finished) + {i}
      ensures released.To? <==> Drained(finished, i / BLOCK_SIZE)
      ensures blocks.Keys == old(blocks.Keys) - (if released.To? then {released.id} else {})
      ensures released.To? ==> released.id in old(blocks)
    {
      hide Represents, BlocksOk, LiveExactly, Drained;
      UnfinishedIsLive(tailIndex, finished, live, i);
      LookupFinds(index, top, live, i);
      assert Range(i, i + 1) == {i};
      var xs;
      xs, released := FinishInBlock(Lookup(index, i), i, i + 1);
      x := xs[0];
    }

    /** One round of the loop of `dequeue_bulk`: up to the end of the block or of the claim. */
    method FinishPart(slot: nat, i: nat, stop: nat) returns (part: seq<T>, freed: Pointer, end: nat, slot': nat)
      requires Valid() && i < stop <= headIndex && finished !! Range(i, stop)
      requires slot == Slot(index, top, i / BLOCK_SIZE)
      modifies this`index, this`blocks, this`finished, this`live
      ensures Valid() && WellFormed(index) && i < end <= stop && part == items[i..end] && finished == old(finished) + Range(i, end)
      ensures end < stop ==> slot' == Slot(index, top, end / BLOCK_SIZE)
      ensures blocks.Keys == old(blocks.Keys) - (if freed.To? then {freed.id} else {})
      ensures freed.To? ==> freed.id in old(blocks)
    {
      hide Represents, BlocksOk, LiveExactly, Drained, Slot, Range;
      end := i - i % BLOCK_SIZE + BLOCK_SIZE;
      if stop < end {
        end := stop;
      }
      assert finished !! Range(i, end);
      ghost var before := index;
      part, freed := FinishInBlock(slot, i, end);
      NextSlot(before, index, top, i / BLOCK_SIZE);
      assert end < stop ==> end / BLOCK_SIZE == i / BLOCK_SIZE + 1;
      slot' := Arith.Ring(slot + 1, |index.entries|);
    }

    /** The rest of `dequeue_bulk`: the claimed items in order; `released` are the blocks that were drained. */
    method FinishBulk(first: nat, count: nat) returns (xs: seq<T>, released: set<BlockId>)
      requires Valid() && count > 0 && first + count <= headIndex && finished !! Range(first, first + count)
      modifies this`index, this`blocks, this`finished, this`live
      ensures Valid() && xs == items[first..first + count] && finished == old(finished) + Range(first, first + count)
      ensures released <= old(blocks.Keys) && blocks.Keys == old(blocks.Keys) - released
    {
      hide Represents, BlocksOk, LiveExactly, Drained, Slot, Range;
      UnfinishedIsLive(tailIndex, finished, live, first);
      LookupFinds(index, top, live, first);
      xs, released := FinishFrom(Lookup(index, first), first, count);
    }

    /** The loop of `dequeue_bulk` over the blocks of the claim, from the slot of its first item. */
    method FinishFrom(start: nat, first: nat, count: nat) returns (xs: seq<T>, released: set<BlockId>)
      requires Valid() && count > 0 && first + count <= |items| && first + count <= headIndex
      requires WellFormed(index) && finished !! Range(first, first + count) && start == Slot(index, top, first / BLOCK_SIZE)
      modifies this`index, this`blocks, this`finished, this`live
      ensures Valid() && xs == items[first..first + count] && finished == old(finished) + Range(first, first + count)
      ensures released <= old(blocks.Keys) && blocks.Keys == old(blocks.Keys) - released
    {
      hide Represents, BlocksOk, LiveExactly, Drained, Slot, Range, Valid, WellFormed, Progress;
      var i, slot := first, start;
      xs, released := [], {};
      ProgressStart(finished, blocks.Keys, first, first + count);
      while i != first + count
        invariant first <= i <= first + count <= |items| && Valid() && WellFormed(index) && xs == items[first..i]
        invariant i < first + count ==> slot == Slot(index, top, i / BLOCK_SIZE)
        invariant Progress(old(finished), finished, old(blocks.Keys), blocks.Keys, released, first, i, first + count)
      {
        ghost var done, keys := finished, blocks.Keys;
        ProgressMeans(old(finished), done, old(blocks.Keys), keys, released, first, i, first + count);
        var part, freed, end, slot' := FinishPart(slot, i, first + count);
        JoinSlices(items, old(finished), first, i, end);
        ProgressStep(old(finished), done, old(blocks.Keys), keys, released, if freed.To? then {freed.id} else {},
                     first, i, end, first + count);
        xs := xs + part;
        released := released + if freed.To? then {freed.id} else {};
        i, slot := end, slot';
      }
      ProgressMeans(old(finished), finished, old(blocks.Keys), blocks.Keys, released, first, i, first + count);
    }
  }
}
