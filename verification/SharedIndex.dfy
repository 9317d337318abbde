/**
 The block index of `ImplicitProducer` as several threads see it (lib/concurrentqueue/concurrentqueue.h): entries are
 cells of memory that the headers share.  A doubling makes a new header with the old cells, oldest first, and new ones
 behind; consumers may go on using an old header and an old tail.

 Blocks are numbered in the order of their insertion.  The `origin` of a header, the number of the block whose entry is
 in slot 0, is a history variable: nothing reads it.
 */
module SharedIndex {
  import opened Arith
  import opened BlockIndex

  type CellId = nat

  datatype Header = Header(slots: seq<CellId>, tail: nat, origin: int)

  /** All entries and headers ever made; `blockIndex` is the last header. */
  datatype Shared = Shared(cells: seq<Entry>, headers: seq<Header>)

  // ---------------------------------------------------------------- the stores of the producer

  function Current(ix: Shared): Header
    requires |ix.headers| > 0
  {
    ix.headers[|ix.headers| - 1]
  }

  function WithTail(ix: Shared, tail: nat): Shared
    requires |ix.headers| > 0
  {
    ix.(headers := ix.headers[|ix.headers| - 1 := Current(ix).(tail := tail)])
  }

  function WithKey(ix: Shared, c: CellId, key: int): Shared
    requires c < |ix.cells|
  {
    ix.(cells := ix.cells[c := ix.cells[c].(key := key)])
  }

  function WithValue(ix: Shared, c: CellId, value: Pointer): Shared
    requires c < |ix.cells|
  {
    ix.(cells := ix.cells[c := ix.cells[c].(value := value)])
  }

  function UnrolledAt(h: Header, first: nat, i: nat): CellId
    requires |h.slots| > 0
  {
    if i < |h.slots| then h.slots[Ring(h.tail + 1 + i, |h.slots|)] else first + i - |h.slots|
  }

  /** The slots of the doubled header: the old circle unrolled from behind the tail, then the new cells. */
  function Unrolled(h: Header, first: nat): (r: seq<CellId>)
    requires |h.slots| > 0
    ensures |r| == 2 * |h.slots|
  {
    seq(2 * |h.slots|, i requires 0 <= i < 2 * |h.slots| => UnrolledAt(h, first, i))
  }

  /** `new_block_index`, seen from outside: everything before the last store is private. */
  function Doubled(ix: Shared, junk: seq<Pointer>, top: nat): Shared
    requires |ix.headers| > 0 && |Current(ix).slots| > 0 && |junk| == |Current(ix).slots|
  {
    var h := Current(ix);
    var cap := |h.slots|;
    Shared(ix.cells + seq(cap, i requires 0 <= i < cap => Entry(INVALID_BLOCK_BASE, junk[i])),
           ix.headers + [Header(Unrolled(h, |ix.cells|), cap - 1, top - cap)])
  }

  // ---------------------------------------------------------------- where the entry of a block is

  function SlotOf(h: Header, n: int): (r: nat)
    requires |h.slots| > 0
    ensures r < |h.slots|
  {
    Ring(n - h.origin, |h.slots|)
  }

  function CellOf(h: Header, n: int): CellId
    requires |h.slots| > 0
  {
    h.slots[SlotOf(h, n)]
  }

  /** The two numbers are the same on a ring of m places. */
  predicate Congruent(x: int, y: int, m: nat)
    requires m > 0
  {
    Ring(x, m) == Ring(y, m)
  }

  predicate IsKey(key: int) {
    key >= 0 && key % BLOCK_SIZE == 0
  }

  predicate HeaderShape(cells: nat, h: Header) {
    && |h.slots| >= 2 && h.tail < |h.slots|
    && (forall p :: 0 <= p < |h.slots| ==> h.slots[p] < cells)
    && (forall p, q :: 0 <= p < q < |h.slots| ==> h.slots[p] != h.slots[q])
  }

  /** The key in a slot is unset or belongs to a block whose entry is in that slot. */
  predicate KeyFits(ix: Shared, h: Header, p: nat)
    requires p < |h.slots| && h.slots[p] < |ix.cells|
  {
    var key := ix.cells[h.slots[p]].key;
    key == INVALID_BLOCK_BASE || (IsKey(key) && Congruent(key / BLOCK_SIZE, p + h.origin, |h.slots|))
  }

  function Times(m: nat, k: nat): nat {
    m * k
  }

  ghost predicate Divides(m: nat, n: nat) {
    exists k: nat :: Times(m, k) == n
  }

  /** A header agrees with the current one on the cells they share. */
  ghost predicate Aligned(h: Header, cur: Header)
    requires |h.slots| > 0 && |cur.slots| > 0
  {
    && Divides(|h.slots|, |cur.slots|)
    && forall p, q :: 0 <= p < |h.slots| && 0 <= q < |cur.slots| && h.slots[p] == cur.slots[q] ==>
         Congruent(p + h.origin, q + cur.origin, |h.slots|)
  }

  ghost predicate HeaderOk(ix: Shared, h: Header)
    requires |ix.headers| > 0 && |Current(ix).slots| > 0
  {
    && HeaderShape(|ix.cells|, h)
    && (forall p :: 0 <= p < |h.slots| ==> KeyFits(ix, h, p))
    && Aligned(h, Current(ix))
  }

  /** The entry of a block in use: its key and its value are those of the block. */
  predicate EntryOk(ix: Shared, n: nat, id: BlockId)
    requires |ix.headers| > 0 && HeaderShape(|ix.cells|, Current(ix))
  {
    ix.cells[CellOf(Current(ix), n)] == Entry(n * BLOCK_SIZE, To(id))
  }

  predicate KeySet(ix: Shared, c: CellId) {
    c < |ix.cells| && ix.cells[c].key != INVALID_BLOCK_BASE
  }

  /** The entry of block n has the key of block n. */
  predicate ExactKey(ix: Shared, n: int)
    requires |ix.headers| > 0 && HeaderShape(|ix.cells|, Current(ix))
  {
    ix.cells[CellOf(Current(ix), n)].key == n * BLOCK_SIZE
  }

  /** A cell that looks taken is the entry of a block in use, or in the producer's hands. */
  predicate Accounted(ix: Shared, live: map<nat, BlockId>, busy: set<CellId>, c: CellId)
    requires |ix.headers| > 0 && HeaderShape(|ix.cells|, Current(ix)) && c < |ix.cells|
  {
    c in busy || ix.cells[c].key == INVALID_BLOCK_BASE || ix.cells[c].value == Null
    || exists n :: n in live && CellOf(Current(ix), n) == c
  }

  /** `top` blocks have been entered; `live` are those in use; `busy` are the cells the producer is working on. */
  ghost predicate IndexInv(ix: Shared, top: nat, live: map<nat, BlockId>, busy: set<CellId>) {
    && |ix.headers| > 0 && HeaderShape(|ix.cells|, Current(ix))
    && (forall i :: 0 <= i < |ix.headers| ==> HeaderOk(ix, ix.headers[i]))
    && Current(ix).tail == SlotOf(Current(ix), top - 1)
    && (forall n :: n in live ==> n < top <= n + |Current(ix).slots| && EntryOk(ix, n, live[n]))
    && (forall n, j: nat :: n in live && n <= j < top ==> ExactKey(ix, j))
    && (forall q :: 0 <= q < |Current(ix).slots| ==> Accounted(ix, live, busy, Current(ix).slots[q]))
  }

  // ---------------------------------------------------------------- rings

  lemma RingMultiple(x: int, m: nat, k: int)
    requires m > 0
    ensures Ring(x + m * k, m) == Ring(x, m)
  {
    RingIsMod(x, m);
    RingIsMod(x + m * k, m);
    AddMultiple(m, x, k);
  }

  /** What is the same on a ring is a whole number of rounds apart. */
  lemma RoundsApart(x: int, y: int, m: nat) returns (k: int)
    requires m > 0 && Congruent(x, y, m)
    ensures x == y + m * k
  {
    RingIsMod(x, m);
    RingIsMod(y, m);
    SameRemainder(m, x, y);
    k := x / m - y / m;
  }

  lemma CongruentShift(x: int, y: int, d: int, m: nat)
    requires m > 0 && Congruent(x, y, m)
    ensures Congruent(x + d, y + d, m)
  {
    var k := RoundsApart(x, y, m);
    RingMultiple(y + d, m, k);
  }

  /** What is the same on a ring is the same on a ring that goes into it. */
  lemma CongruentCoarser(x: int, y: int, m: nat, n: nat)
    requires m > 0 && n > 0 && Divides(m, n) && Congruent(x, y, n)
    ensures Congruent(x, y, m)
  {
    var k: nat :| Times(m, k) == n;
    var j := RoundsApart(x, y, n);
    assert n * j == m * (k * j);
    RingMultiple(y, m, k * j);
  }

  /** The slot of a block, and the number it stands for. */
  lemma SlotCongruent(h: Header, n: int)
    requires |h.slots| > 0
    ensures Congruent(SlotOf(h, n) + h.origin, n, |h.slots|)
  {
    RingAdd(n - h.origin, h.origin, |h.slots|);
  }

  lemma SlotsApart(h: Header, n: int, j: int)
    requires |h.slots| > 0 && n != j && n - j < |h.slots| && j - n < |h.slots|
    ensures SlotOf(h, n) != SlotOf(h, j)
  {
    RingInjective(n - h.origin, j - h.origin, |h.slots|);
  }

  lemma CellsDiffer(cells: nat, h: Header, n: int, j: int)
    requires HeaderShape(cells, h) && n != j && n - j < |h.slots| && j - n < |h.slots|
    ensures CellOf(h, n) != CellOf(h, j)
  {
    SlotsApart(h, n, j);
  }

  lemma SlotNext(h: Header, n: int)
    requires |h.slots| > 0
    ensures Ring(SlotOf(h, n) + 1, |h.slots|) == SlotOf(h, n + 1)
    ensures Ring(SlotOf(h, n) - 1, |h.slots|) == SlotOf(h, n - 1)
  {
    RingAdd(n - h.origin, 1, |h.slots|);
    RingAdd(n - h.origin, -1, |h.slots|);
  }

  /** `get_block_index_index_for_index`, from the header, the tail and the key at the tail that the caller has loaded. */
  function LookedUp(h: Header, tail: nat, tailKey: int, base: int): nat
    requires |h.slots| > 0
  {
    Ring(tail + (base - tailKey) / BLOCK_SIZE, |h.slots|)
  }

  /**
   Whatever header and tail a thread has loaded, and whatever block has since taken over the entry at that tail, the
   slot computed for block n is the slot of block n in that header.
   */
  lemma StaleLookup(ix: Shared, h: Header, tail: nat, n: nat)
    requires HeaderShape(|ix.cells|, h) && tail < |h.slots| && KeyFits(ix, h, tail) && KeySet(ix, h.slots[tail])
    ensures LookedUp(h, tail, ix.cells[h.slots[tail]].key, n * BLOCK_SIZE) == SlotOf(h, n)
  {
    var key, m := ix.cells[h.slots[tail]].key, |h.slots|;
    var j := key / BLOCK_SIZE;
    assert key == j * BLOCK_SIZE && (n * BLOCK_SIZE - key) / BLOCK_SIZE == n - j;
    CongruentShift(j, tail + h.origin, n - j - h.origin, m);
    assert tail + h.origin + (n - j - h.origin) == tail + (n - j);
  }

  // ---------------------------------------------------------------- the stores keep the index

  /** Stores into a cell leave all headers as they are. */
  lemma SameHeaders(ix: Shared, ix': Shared)
    requires |ix.headers| > 0 && ix'.headers == ix.headers && |ix'.cells| == |ix.cells|
    requires HeaderShape(|ix.cells|, Current(ix))
    requires forall i :: 0 <= i < |ix.headers| ==> HeaderOk(ix, ix.headers[i])
    requires forall i, p :: 0 <= i < |ix.headers| && 0 <= p < |ix.headers[i].slots| && ix.headers[i].slots[p] < |ix.cells|
               ==> KeyFits(ix', ix.headers[i], p)
    ensures forall i :: 0 <= i < |ix'.headers| ==> HeaderOk(ix', ix'.headers[i])
  {
    hide KeyFits, Aligned;
    forall i | 0 <= i < |ix'.headers| ensures HeaderOk(ix', ix'.headers[i]) {
      assert HeaderOk(ix, ix.headers[i]);
    }
  }

  lemma CellInRange(ix: Shared, h: Header, n: int)
    requires HeaderShape(|ix.cells|, h)
    ensures CellOf(h, n) < |ix.cells|
  {
  }

  /** What is known of one block in use. */
  lemma LiveEntry(ix: Shared, top: nat, live: map<nat, BlockId>, busy: set<CellId>, n: nat)
    requires IndexInv(ix, top, live, busy) && n in live
    ensures n < top <= n + |Current(ix).slots| && EntryOk(ix, n, live[n]) && CellOf(Current(ix), n) < |ix.cells|
    ensures forall j: nat :: n <= j < top ==> ExactKey(ix, j)
  {
    hide HeaderOk, Accounted, SlotOf;
    CellInRange(ix, Current(ix), n);
  }

  /** Entries of different blocks in use are different cells. */
  lemma LiveCellsDiffer(ix: Shared, top: nat, live: map<nat, BlockId>, busy: set<CellId>, n: nat, j: nat)
    requires IndexInv(ix, top, live, busy) && n in live && n != j && j < top <= j + |Current(ix).slots|
    ensures CellOf(Current(ix), n) != CellOf(Current(ix), j)
  {
    hide HeaderOk, Accounted, EntryOk, ExactKey, SlotOf;
    LiveEntry(ix, top, live, busy, n);
    CellsDiffer(|ix.cells|, Current(ix), n, j);
  }

  /** A value is stored into a cell that is no entry in use. */
  lemma KeepOtherValue(ix: Shared, top: nat, live: map<nat, BlockId>, busy: set<CellId>, c: CellId, value: Pointer)
    requires IndexInv(ix, top, live, busy) && c < |ix.cells|
    requires forall n :: n in live ==> CellOf(Current(ix), n) != c
    ensures IndexInv(WithValue(ix, c, value), top, live, if value == Null then busy - {c} else busy + {c})
  {
    hide Aligned, SlotOf, Congruent;
    var ix' := WithValue(ix, c, value);
    forall i, p | 0 <= i < |ix.headers| && 0 <= p < |ix.headers[i].slots| && ix.headers[i].slots[p] < |ix.cells|
      ensures KeyFits(ix', ix.headers[i], p)
    {
      assert HeaderOk(ix, ix.headers[i]);
      assert KeyFits(ix, ix.headers[i], p);
    }
    SameHeaders(ix, ix');
    forall n | n in live ensures EntryOk(ix', n, live[n]) {
      assert EntryOk(ix, n, live[n]);
    }
    forall n, j: nat | n in live && n <= j < top ensures ExactKey(ix', j) {
      assert ExactKey(ix, j);
    }
    forall q | 0 <= q < |Current(ix').slots|
      ensures Accounted(ix', live, if value == Null then busy - {c} else busy + {c}, Current(ix').slots[q])
    {
      assert Accounted(ix, live, busy, Current(ix).slots[q]);
    }
  }

  /** Blocks go out of use; the producer answers for their cells. */
  lemma KeepFewer(ix: Shared, top: nat, live: map<nat, BlockId>, busy: set<CellId>, live': map<nat, BlockId>,
                  busy': set<CellId>)
    requires IndexInv(ix, top, live, busy) && (forall n :: n in live' ==> n in live && live'[n] == live[n])
    requires busy <= busy' && forall n :: n in live && n !in live' ==> CellOf(Current(ix), n) in busy'
    ensures IndexInv(ix, top, live', busy')
  {
    hide HeaderOk, CellOf, ExactKey, SlotOf;
    forall n | n in live' ensures n < top <= n + |Current(ix).slots| && EntryOk(ix, n, live'[n]) {
      assert EntryOk(ix, n, live[n]);
    }
    forall q | 0 <= q < |Current(ix).slots| ensures Accounted(ix, live', busy', Current(ix).slots[q]) {
      StillAccounted(ix, live, busy, live', busy', Current(ix).slots[q]);
    }
  }

  lemma StillAccounted(ix: Shared, live: map<nat, BlockId>, busy: set<CellId>, live': map<nat, BlockId>,
                       busy': set<CellId>, c: CellId)
    requires |ix.headers| > 0 && HeaderShape(|ix.cells|, Current(ix)) && c < |ix.cells| && Accounted(ix, live, busy, c)
    requires busy <= busy' && forall n :: n in live && n !in live' ==> CellOf(Current(ix), n) in busy'
    ensures Accounted(ix, live', busy', c)
  {
    hide CellOf, HeaderShape;
  }

  /** A consumer clears the entry of block n. */
  lemma KeepClear(ix: Shared, top: nat, live: map<nat, BlockId>, busy: set<CellId>, n: nat)
    requires IndexInv(ix, top, live, busy) && n in live && CellOf(Current(ix), n) !in busy
    ensures CellOf(Current(ix), n) < |ix.cells|
    ensures IndexInv(WithValue(ix, CellOf(Current(ix), n), Null), top, live - {n}, busy)
  {
    hide HeaderOk, EntryOk, CellOf, ExactKey, Accounted;
    var c := CellOf(Current(ix), n);
    LiveEntry(ix, top, live, busy, n);
    forall j | j in live - {n} ensures CellOf(Current(ix), j) != c {
      LiveCellsDiffer(ix, top, live, busy, j, n);
    }
    KeepFewer(ix, top, live, busy, live - {n}, busy + {c});
    KeepOtherValue(ix, top, live - {n}, busy + {c}, c, Null);
    assert busy + {c} - {c} == busy;
  }

  /** There is room for block `top` if the block one round before is not in use. */
  predicate Room(ix: Shared, top: nat, live: map<nat, BlockId>)
    requires |ix.headers| > 0
  {
    top >= |Current(ix).slots| ==> top - |Current(ix).slots| !in live
  }

  lemma EntryBehindTail(ix: Shared, top: nat, live: map<nat, BlockId>, busy: set<CellId>)
    requires IndexInv(ix, top, live, busy)
    ensures Ring(Current(ix).tail + 1, |Current(ix).slots|) == SlotOf(Current(ix), top)
    ensures CellOf(Current(ix), top) < |ix.cells|
    ensures CellOf(Current(ix), top - |Current(ix).slots|) == CellOf(Current(ix), top)
  {
    hide HeaderOk, EntryOk, ExactKey, Accounted;
    var h := Current(ix);
    SlotNext(h, top - 1);
    RingMultiple(top - h.origin, |h.slots|, -1);
    CellInRange(ix, h, top);
  }

  /** What the producer checks: the entry behind the tail is unset, or its value is null. */
  lemma CheckedRoom(ix: Shared, top: nat, live: map<nat, BlockId>, busy: set<CellId>)
    requires IndexInv(ix, top, live, busy) && CellOf(Current(ix), top) < |ix.cells|
    requires ix.cells[CellOf(Current(ix), top)].key == INVALID_BLOCK_BASE || ix.cells[CellOf(Current(ix), top)].value == Null
    ensures Room(ix, top, live)
  {
    hide HeaderOk, ExactKey, Accounted, SlotOf;
    EntryBehindTail(ix, top, live, busy);
    assert forall n :: n in live ==> EntryOk(ix, n, live[n]);
  }

  /** If the entry looks taken, the block one round before is in use, and all later ones have their own keys. */
  lemma CheckedFull(ix: Shared, top: nat, live: map<nat, BlockId>)
    requires IndexInv(ix, top, live, {}) && CellOf(Current(ix), top) < |ix.cells|
    requires ix.cells[CellOf(Current(ix), top)].key != INVALID_BLOCK_BASE && ix.cells[CellOf(Current(ix), top)].value != Null
    ensures forall j: nat :: j < top <= j + |Current(ix).slots| ==> ExactKey(ix, j)
    ensures top >= |Current(ix).slots| && top - |Current(ix).slots| in live
  {
    hide HeaderOk, ExactKey, EntryOk;
    EntryBehindTail(ix, top, live, {});
    var h := Current(ix);
    assert Accounted(ix, live, {}, h.slots[SlotOf(h, top)]);
    var n :| n in live && CellOf(h, n) == CellOf(h, top);
    LiveEntry(ix, top, live, {}, n);
    if n != top - |h.slots| {
      CellsDiffer(|ix.cells|, h, n, top);
      assert false;
    }
  }

  /** The entry that block `top` is to have is none of those in use. */
  lemma NewCellIsFree(ix: Shared, top: nat, live: map<nat, BlockId>, busy: set<CellId>, n: nat)
    requires IndexInv(ix, top, live, busy) && Room(ix, top, live) && n in live
    ensures CellOf(Current(ix), n) != CellOf(Current(ix), top)
  {
    hide HeaderOk, EntryOk, ExactKey, Accounted;
    LiveEntry(ix, top, live, busy, n);
    CellsDiffer(|ix.cells|, Current(ix), n, top);
  }

  /** The key of block `top` fits in every header that has the cell. */
  lemma NewKeyFits(ix: Shared, top: nat, live: map<nat, BlockId>, busy: set<CellId>, i: nat, p: nat)
    requires IndexInv(ix, top, live, busy) && i < |ix.headers| && p < |ix.headers[i].slots|
    requires ix.headers[i].slots[p] == CellOf(Current(ix), top)
    ensures Congruent(top, p + ix.headers[i].origin, |ix.headers[i].slots|)
  {
    hide KeyFits, EntryOk, ExactKey, Accounted;
    var h, cur := ix.headers[i], Current(ix);
    assert HeaderOk(ix, h);
    SlotCongruent(cur, top);
    CongruentCoarser(SlotOf(cur, top) + cur.origin, top, |h.slots|, |cur.slots|);
  }

  lemma KeepKey(ix: Shared, top: nat, live: map<nat, BlockId>)
    requires IndexInv(ix, top, live, {}) && Room(ix, top, live)
    ensures CellOf(Current(ix), top) < |ix.cells|
    ensures var ix' := WithKey(ix, CellOf(Current(ix), top), top * BLOCK_SIZE);
      IndexInv(ix', top, live, {CellOf(Current(ix), top)}) && ExactKey(ix', top)
  {
    hide Aligned, SlotOf, Congruent;
    var c := CellOf(Current(ix), top);
    var ix' := WithKey(ix, c, top * BLOCK_SIZE);
    forall i, p | 0 <= i < |ix.headers| && 0 <= p < |ix.headers[i].slots| && ix.headers[i].slots[p] < |ix.cells|
      ensures KeyFits(ix', ix.headers[i], p)
    {
      assert HeaderOk(ix, ix.headers[i]);
      assert KeyFits(ix, ix.headers[i], p);
      if ix.headers[i].slots[p] == c {
        NewKeyFits(ix, top, live, {}, i, p);
      }
    }
    SameHeaders(ix, ix');
    forall n | n in live ensures EntryOk(ix', n, live[n]) {
      NewCellIsFree(ix, top, live, {}, n);
      assert EntryOk(ix, n, live[n]);
    }
    forall n, j: nat | n in live && n <= j < top ensures ExactKey(ix', j) {
      assert ExactKey(ix, j);
      LaterKeysStay(ix, top, live, n, j);
    }
    forall q | 0 <= q < |Current(ix').slots| ensures Accounted(ix', live, {c}, Current(ix').slots[q]) {
      assert Accounted(ix, live, {}, Current(ix).slots[q]);
    }
  }

  /** The new key does not touch the entries behind a block in use. */
  lemma LaterKeysStay(ix: Shared, top: nat, live: map<nat, BlockId>, n: nat, j: nat)
    requires IndexInv(ix, top, live, {}) && Room(ix, top, live) && n in live && n <= j < top
    ensures CellOf(Current(ix), j) != CellOf(Current(ix), top)
  {
    hide HeaderOk, EntryOk, ExactKey, Accounted;
    LiveEntry(ix, top, live, {}, n);
    CellsDiffer(|ix.cells|, Current(ix), j, top);
  }

  /** A change of the current tail only. */
  lemma TailOnly(ix: Shared, tail: nat)
    requires |ix.headers| > 0 && tail < |Current(ix).slots|
    requires HeaderShape(|ix.cells|, Current(ix))
    requires forall i :: 0 <= i < |ix.headers| ==> HeaderOk(ix, ix.headers[i])
    ensures var ix' := WithTail(ix, tail);
      forall i :: 0 <= i < |ix'.headers| ==> HeaderOk(ix', ix'.headers[i])
  {
    hide KeyFits;
    var ix' := WithTail(ix, tail);
    forall i | 0 <= i < |ix'.headers| ensures HeaderOk(ix', ix'.headers[i]) {
      var h, h' := ix.headers[i], ix'.headers[i];
      assert HeaderOk(ix, h);
      assert h'.slots == h.slots && h'.origin == h.origin;
      forall p | 0 <= p < |h'.slots| ensures KeyFits(ix', h', p) {
        SameFit(ix, ix', h, h', p);
      }
    }
  }

  lemma SameFit(ix: Shared, ix': Shared, h: Header, h': Header, p: nat)
    requires p < |h.slots| && h.slots[p] < |ix.cells| && KeyFits(ix, h, p)
    requires h'.slots == h.slots && h'.origin == h.origin && ix'.cells == ix.cells
    ensures KeyFits(ix', h', p)
  {
  }

  lemma SameCells(ix: Shared, ix': Shared)
    requires |ix.headers| > 0 && |ix'.headers| > 0 && |Current(ix).slots| > 0
    requires Current(ix').slots == Current(ix).slots && Current(ix').origin == Current(ix).origin
    ensures forall n: int :: SlotOf(Current(ix'), n) == SlotOf(Current(ix), n)
    ensures forall n: int :: CellOf(Current(ix'), n) == CellOf(Current(ix), n)
  {
  }

  /** The tail moves to the slot of another block. */
  lemma KeepTail(ix: Shared, top: nat, live: map<nat, BlockId>, busy: set<CellId>, top': nat)
    requires IndexInv(ix, top, live, busy)
    requires forall n :: n in live ==> n < top' <= n + |Current(ix).slots|
    requires forall n, j: nat :: n in live && n <= j < top' ==> ExactKey(ix, j)
    ensures IndexInv(WithTail(ix, SlotOf(Current(ix), top' - 1)), top', live, busy)
  {
    hide HeaderOk, SlotOf, CellOf;
    var ix' := WithTail(ix, SlotOf(Current(ix), top' - 1));
    TailOnly(ix, SlotOf(Current(ix), top' - 1));
    SameCells(ix, ix');
    forall n | n in live ensures EntryOk(ix', n, live[n]) {
      assert EntryOk(ix, n, live[n]);
    }
    forall n, j: nat | n in live && n <= j < top' ensures ExactKey(ix', j) {
      assert ExactKey(ix, j);
    }
    forall q | 0 <= q < |Current(ix').slots| ensures Accounted(ix', live, busy, Current(ix').slots[q]) {
      assert Accounted(ix, live, busy, Current(ix).slots[q]);
    }
  }

  /** The tail moves on to block `top`, whose key is set. */
  lemma KeepTailStore(ix: Shared, top: nat, live: map<nat, BlockId>, busy: set<CellId>)
    requires IndexInv(ix, top, live, busy) && Room(ix, top, live) && ExactKey(ix, top)
    ensures IndexInv(WithTail(ix, SlotOf(Current(ix), top)), top + 1, live, busy)
  {
    hide HeaderOk, EntryOk, SlotOf, Accounted, ExactKey;
    forall n | n in live ensures n < top + 1 <= n + |Current(ix).slots| {
      LiveEntry(ix, top, live, busy, n);
    }
    KeepTail(ix, top, live, busy, top + 1);
  }

  /** The tail moves back over a block that is not in use. */
  lemma KeepRewind(ix: Shared, top: nat, live: map<nat, BlockId>, busy: set<CellId>)
    requires IndexInv(ix, top, live, busy) && top > 0 && top - 1 !in live
    ensures IndexInv(WithTail(ix, Ring(Current(ix).tail - 1, |Current(ix).slots|)), top - 1, live, busy)
  {
    hide HeaderOk, EntryOk, SlotOf, Accounted, ExactKey;
    SlotNext(Current(ix), top - 1);
    forall n | n in live ensures n < top - 1 <= n + |Current(ix).slots| {
      LiveEntry(ix, top, live, busy, n);
    }
    KeepTail(ix, top, live, busy, top - 1);
  }

  /** The value of the newest block is stored: the block is in use. */
  lemma KeepValueStore(ix: Shared, top: nat, live: map<nat, BlockId>, id: BlockId)
    requires |ix.headers| > 0 && HeaderShape(|ix.cells|, Current(ix))
    requires IndexInv(ix, top, live, {CellOf(Current(ix), top - 1)}) && top > 0 && top - 1 !in live && ExactKey(ix, top - 1)
    ensures CellOf(Current(ix), top - 1) < |ix.cells|
    ensures IndexInv(WithValue(ix, CellOf(Current(ix), top - 1), To(id)), top, live[top - 1 := id], {})
  {
    hide HeaderOk, SlotOf;
    var c := CellOf(Current(ix), top - 1);
    CellInRange(ix, Current(ix), top - 1);
    forall n | n in live ensures CellOf(Current(ix), n) != c {
      LiveCellsDiffer(ix, top, live, {c}, n, top - 1);
    }
    KeepOtherValue(ix, top, live, {c}, c, To(id));
    var ix', live' := WithValue(ix, c, To(id)), live[top - 1 := id];
    forall n, j: nat | n in live' && n <= j < top ensures ExactKey(ix', j) {
      assert j == top - 1 || (n in live && n <= j);
    }
    forall q | 0 <= q < |Current(ix').slots| ensures Accounted(ix', live', {}, Current(ix').slots[q]) {
      NowAccounted(ix', live, c, live', top - 1, Current(ix').slots[q]);
    }
  }

  lemma NowAccounted(ix: Shared, live: map<nat, BlockId>, c: CellId, live': map<nat, BlockId>, n: nat, x: CellId)
    requires |ix.headers| > 0 && HeaderShape(|ix.cells|, Current(ix)) && x < |ix.cells|
    requires Accounted(ix, live, {c} + {c}, x) && n in live' && CellOf(Current(ix), n) == c
    requires forall j :: j in live ==> j in live'
    ensures Accounted(ix, live', {}, x)
  {
    hide CellOf, HeaderShape;
  }

  // ---------------------------------------------------------------- doubling

  /** Where the doubled header has the cells of the old one. */
  lemma OldCells(ix: Shared, junk: seq<Pointer>, top: nat, q: nat)
    requires |ix.headers| > 0 && HeaderShape(|ix.cells|, Current(ix)) && |junk| == |Current(ix).slots| && q < |junk|
    requires Current(ix).tail == SlotOf(Current(ix), top - 1)
    ensures var h, h' := Current(ix), Current(Doubled(ix, junk, top));
      && h'.slots[q] == CellOf(h, top - |h.slots| + q)
      && SlotOf(h', top - |h.slots| + q) == q
  {
    var h := Current(ix);
    var cap := |h.slots|;
    RingAdd(top - 1 - h.origin, 1 + q, cap);
    RingMultiple(top + q - h.origin, cap, -1);
    assert Ring(h.tail + 1 + q, cap) == Ring(top + q - h.origin, cap) == SlotOf(h, top - cap + q);
  }

  /** A block of the last round keeps its cell. */
  lemma DoubledKeepsCell(ix: Shared, junk: seq<Pointer>, top: nat, n: int)
    requires |ix.headers| > 0 && HeaderShape(|ix.cells|, Current(ix)) && |junk| == |Current(ix).slots|
    requires Current(ix).tail == SlotOf(Current(ix), top - 1) && n < top <= n + |Current(ix).slots|
    ensures CellOf(Current(Doubled(ix, junk, top)), n) == CellOf(Current(ix), n)
  {
    hide SlotOf, Unrolled;
    OldCells(ix, junk, top, n - (top - |Current(ix).slots|));
  }

  lemma DoubledShape(ix: Shared, junk: seq<Pointer>, top: nat)
    requires |ix.headers| > 0 && HeaderShape(|ix.cells|, Current(ix)) && |junk| == |Current(ix).slots|
    requires Current(ix).tail == SlotOf(Current(ix), top - 1)
    ensures HeaderShape(|Doubled(ix, junk, top).cells|, Current(Doubled(ix, junk, top)))
  {
    hide SlotOf, CellOf;
    var h, h' := Current(ix), Current(Doubled(ix, junk, top));
    var cap := |h.slots|;
    forall q | 0 <= q < cap ensures h'.slots[q] < |ix.cells| && h'.slots[q] == CellOf(h, top - cap + q) {
      OldCells(ix, junk, top, q);
      CellInRange(ix, h, top - cap + q);
    }
    forall p, q | 0 <= p < q < |h'.slots| ensures h'.slots[p] != h'.slots[q] {
      if q < cap {
        CellsDiffer(|ix.cells|, h, top - cap + p, top - cap + q);
      }
    }
  }

  /** A slot of the doubled header stands for the same block, on the old ring, as the slot it was copied from. */
  lemma DoubledAligned(ix: Shared, junk: seq<Pointer>, top: nat, h: Header, p: nat, q: nat)
    requires |ix.headers| > 0 && HeaderShape(|ix.cells|, Current(ix)) && |junk| == |Current(ix).slots|
    requires Current(ix).tail == SlotOf(Current(ix), top - 1) && HeaderShape(|ix.cells|, h) && Aligned(h, Current(ix))
    requires p < |h.slots| && q < 2 * |Current(ix).slots| && h.slots[p] == Current(Doubled(ix, junk, top)).slots[q]
    ensures Congruent(p + h.origin, q + (top - |Current(ix).slots|), |h.slots|)
  {
    hide SlotOf, CellOf, Congruent;
    var cur := Current(ix);
    var cap := |cur.slots|;
    assert q < cap;
    OldCells(ix, junk, top, q);
    var n := top - cap + q;
    OldSlot(cur, n);
    SlotCongruent(cur, n);
    CongruentCoarser(SlotOf(cur, n) + cur.origin, n, |h.slots|, cap);
    CongruentTrans(p + h.origin, SlotOf(cur, n) + cur.origin, n, |h.slots|);
  }

  lemma OldSlot(h: Header, n: int)
    requires |h.slots| > 0
    ensures CellOf(h, n) == h.slots[SlotOf(h, n)]
  {
  }

  lemma CongruentTrans(x: int, y: int, z: int, m: nat)
    requires m > 0 && Congruent(x, y, m) && Congruent(y, z, m)
    ensures Congruent(x, z, m)
  {
  }

  lemma TwiceDivides(m: nat, n: nat)
    requires Divides(m, n)
    ensures Divides(m, 2 * n)
  {
    var k: nat :| Times(m, k) == n;
    assert Times(m, 2 * k) == 2 * n;
  }

  lemma DividesItself(n: nat)
    ensures Divides(n, n)
  {
    assert Times(n, 1) == n;
  }

  lemma OldHeaderOk(ix: Shared, junk: seq<Pointer>, top: nat, live: map<nat, BlockId>, busy: set<CellId>, i: nat)
    requires IndexInv(ix, top, live, busy) && |junk| == |Current(ix).slots| && i < |ix.headers|
    ensures |Current(Doubled(ix, junk, top)).slots| > 0 && HeaderOk(Doubled(ix, junk, top), ix.headers[i])
  {
    hide SlotOf, Congruent, EntryOk, Unrolled, ExactKey, Accounted;
    var ix', h := Doubled(ix, junk, top), ix.headers[i];
    assert HeaderOk(ix, h);
    DoubledShape(ix, junk, top);
    TwiceDivides(|h.slots|, |Current(ix).slots|);
    forall p | 0 <= p < |h.slots| ensures KeyFits(ix', h, p) {
      assert KeyFits(ix, h, p) && ix'.cells[h.slots[p]] == ix.cells[h.slots[p]];
    }
    forall p, q | 0 <= p < |h.slots| && 0 <= q < |Current(ix').slots| && h.slots[p] == Current(ix').slots[q]
      ensures Congruent(p + h.origin, q + Current(ix').origin, |h.slots|)
    {
      DoubledAligned(ix, junk, top, h, p, q);
    }
  }

  /** What was copied has the keys of the last round, so the keys fit the larger ring too. */
  lemma NewHeaderOk(ix: Shared, junk: seq<Pointer>, top: nat, live: map<nat, BlockId>, busy: set<CellId>)
    requires IndexInv(ix, top, live, busy) && |junk| == |Current(ix).slots| <= top
    requires forall j: nat :: j < top <= j + |Current(ix).slots| ==> ExactKey(ix, j)
    ensures |Current(Doubled(ix, junk, top)).slots| > 0
    ensures HeaderOk(Doubled(ix, junk, top), Current(Doubled(ix, junk, top)))
  {
    hide SlotOf, EntryOk, Accounted, CellOf, HeaderOk;
    var ix', cap := Doubled(ix, junk, top), |Current(ix).slots|;
    var h' := Current(ix');
    DoubledShape(ix, junk, top);
    DividesItself(|h'.slots|);
    forall p | 0 <= p < |h'.slots| ensures KeyFits(ix', h', p) {
      if p < cap {
        OldCells(ix, junk, top, p);
        CellInRange(ix, Current(ix), top - cap + p);
        assert ExactKey(ix, top - cap + p);
      }
    }
    assert Aligned(h', h');
    assert HeaderOk(ix', h') by { HeaderIsOk(ix', h'); }
  }

  lemma HeaderIsOk(ix: Shared, h: Header)
    requires |ix.headers| > 0 && |Current(ix).slots| > 0 && HeaderShape(|ix.cells|, h)
    requires (forall p :: 0 <= p < |h.slots| ==> KeyFits(ix, h, p)) && Aligned(h, Current(ix))
    ensures HeaderOk(ix, h)
  {
  }

  /** Doubling the full index keeps every block in use and its cell. */
  lemma KeepDoubled(ix: Shared, junk: seq<Pointer>, top: nat, live: map<nat, BlockId>, busy: set<CellId>)
    requires IndexInv(ix, top, live, busy) && |junk| == |Current(ix).slots| <= top
    requires forall j: nat :: j < top <= j + |Current(ix).slots| ==> ExactKey(ix, j)
    ensures IndexInv(Doubled(ix, junk, top), top, live, busy)
    ensures Room(Doubled(ix, junk, top), top, live)
    ensures Doubled(ix, junk, top).cells[CellOf(Current(Doubled(ix, junk, top)), top)].key == INVALID_BLOCK_BASE
  {
    hide SlotOf, EntryOk, Accounted, CellOf, HeaderOk, ExactKey, Unrolled;
    var ix', cap := Doubled(ix, junk, top), |Current(ix).slots|;
    DoubledShape(ix, junk, top);
    forall i | 0 <= i < |ix'.headers| ensures HeaderOk(ix', ix'.headers[i]) {
      if i < |ix.headers| {
        OldHeaderOk(ix, junk, top, live, busy, i);
      } else {
        NewHeaderOk(ix, junk, top, live, busy);
      }
    }
    NewTail(ix, junk, top);
    forall n | n in live ensures n < top <= n + |Current(ix').slots| && EntryOk(ix', n, live[n]) {
      LiveEntry(ix, top, live, busy, n);
      SameEntry(ix, junk, top, n, live[n]);
    }
    forall n, j: nat | n in live && n <= j < top ensures ExactKey(ix', j) {
      LiveEntry(ix, top, live, busy, n);
      SameExact(ix, junk, top, j);
    }
    forall q | 0 <= q < |Current(ix').slots| ensures Accounted(ix', live, busy, Current(ix').slots[q]) {
      DoubledAccounted(ix, junk, top, live, busy, q);
    }
  }

  lemma NewTail(ix: Shared, junk: seq<Pointer>, top: nat)
    requires |ix.headers| > 0 && |Current(ix).slots| >= 2 && |junk| == |Current(ix).slots|
    ensures var ix' := Doubled(ix, junk, top);
      && Current(ix').tail == SlotOf(Current(ix'), top - 1)
      && CellOf(Current(ix'), top) == |ix.cells| && ix'.cells[|ix.cells|].key == INVALID_BLOCK_BASE
  {
  }

  lemma SameEntry(ix: Shared, junk: seq<Pointer>, top: nat, n: nat, id: BlockId)
    requires |ix.headers| > 0 && HeaderShape(|ix.cells|, Current(ix)) && |junk| == |Current(ix).slots|
    requires Current(ix).tail == SlotOf(Current(ix), top - 1) && n < top <= n + |Current(ix).slots| && EntryOk(ix, n, id)
    requires HeaderShape(|Doubled(ix, junk, top).cells|, Current(Doubled(ix, junk, top)))
    ensures EntryOk(Doubled(ix, junk, top), n, id)
  {
    hide SlotOf, CellOf, Unrolled, HeaderShape;
    DoubledKeepsCell(ix, junk, top, n);
    CellInRange(ix, Current(ix), n);
  }

  lemma SameExact(ix: Shared, junk: seq<Pointer>, top: nat, n: int)
    requires |ix.headers| > 0 && HeaderShape(|ix.cells|, Current(ix)) && |junk| == |Current(ix).slots|
    requires Current(ix).tail == SlotOf(Current(ix), top - 1) && n < top <= n + |Current(ix).slots| && ExactKey(ix, n)
    requires HeaderShape(|Doubled(ix, junk, top).cells|, Current(Doubled(ix, junk, top)))
    ensures ExactKey(Doubled(ix, junk, top), n)
  {
    hide SlotOf, CellOf, Unrolled, HeaderShape;
    DoubledKeepsCell(ix, junk, top, n);
    CellInRange(ix, Current(ix), n);
  }

  lemma DoubledAccounted(ix: Shared, junk: seq<Pointer>, top: nat, live: map<nat, BlockId>, busy: set<CellId>, q: nat)
    requires IndexInv(ix, top, live, busy) && |junk| == |Current(ix).slots| && q < 2 * |Current(ix).slots|
    requires HeaderShape(|Doubled(ix, junk, top).cells|, Current(Doubled(ix, junk, top)))
    ensures Accounted(Doubled(ix, junk, top), live, busy, Current(Doubled(ix, junk, top)).slots[q])
  {
    hide SlotOf, HeaderOk, EntryOk, ExactKey, CellOf, Accounted;
    var ix', h := Doubled(ix, junk, top), Current(ix);
    if q < |h.slots| {
      OldCells(ix, junk, top, q);
      var j := top - |h.slots| + q;
      OldSlot(h, j);
      assert Accounted(ix, live, busy, h.slots[SlotOf(h, j)]);
      forall n | n in live ensures CellOf(Current(ix'), n) == CellOf(h, n) {
        LiveEntry(ix, top, live, busy, n);
        DoubledKeepsCell(ix, junk, top, n);
      }
      CarriedOver(ix, ix', live, busy, CellOf(h, j));
    } else {
      UnsetIsAccounted(ix', live, busy, Current(ix').slots[q]);
    }
  }

  lemma UnsetIsAccounted(ix: Shared, live: map<nat, BlockId>, busy: set<CellId>, c: CellId)
    requires |ix.headers| > 0 && HeaderShape(|ix.cells|, Current(ix)) && c < |ix.cells|
    requires ix.cells[c].key == INVALID_BLOCK_BASE
    ensures Accounted(ix, live, busy, c)
  {
  }

  lemma CarriedOver(ix: Shared, ix': Shared, live: map<nat, BlockId>, busy: set<CellId>, c: CellId)
    requires |ix.headers| > 0 && HeaderShape(|ix.cells|, Current(ix)) && c < |ix.cells|
    requires |ix'.headers| > 0 && HeaderShape(|ix'.cells|, Current(ix')) && c < |ix'.cells| && ix'.cells[c] == ix.cells[c]
    requires Accounted(ix, live, busy, c) && forall n :: n in live ==> CellOf(Current(ix'), n) == CellOf(Current(ix), n)
    ensures Accounted(ix', live, busy, c)
  {
    hide CellOf, HeaderShape;
  }
}
