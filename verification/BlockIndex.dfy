/**
 The circular block index of `ImplicitProducer` (lib/concurrentqueue/concurrentqueue.h):
 `insert_block_index_entry`, `rewind_block_index_tail`, `get_block_index_index_for_index`, `new_block_index`.

 Blocks are numbered in the order in which they were inserted; block j holds the item indices from
 j * BLOCK_SIZE. Capacities are powers of two, so masking with capacity - 1 is the remainder, `Arith.Ring`.
 */
module BlockIndex {
  import Arith

  const BLOCK_SIZE: int := 32
  const INVALID_BLOCK_BASE: int := 1
  const INITIAL_INDEX_SIZE: int := 32

  type BlockId = nat

  datatype Pointer = Null | To(id: BlockId)

  datatype Entry = Entry(key: int, value: Pointer)

  datatype Index = Index(entries: seq<Entry>, tail: nat)

  // ---------------------------------------------------------------- operations

  predicate WellFormed(ix: Index) {
    |ix.entries| >= 2 && ix.tail < |ix.entries|
  }

  /** The index made by the constructor; `junk` is what the memory of the entries' values happens to hold. */
  function Fresh(junk: Pointer): (ix: Index)
    ensures WellFormed(ix)
  {
    Index(seq(INITIAL_INDEX_SIZE, _ => Entry(INVALID_BLOCK_BASE, junk)), INITIAL_INDEX_SIZE - 1)
  }

  /** The slot behind the tail may be taken for a new block. */
  predicate HasRoom(ix: Index)
    requires WellFormed(ix)
  {
    var e := ix.entries[Arith.Ring(ix.tail + 1, |ix.entries|)];
    e.key == INVALID_BLOCK_BASE || e.value == Null
  }

  /** The part of `insert_block_index_entry` that takes the slot behind the tail. */
  function PushKey(ix: Index, base: int): (r: Index)
    requires WellFormed(ix)
    ensures WellFormed(r)
  {
    var slot := Arith.Ring(ix.tail + 1, |ix.entries|);
    Index(ix.entries[slot := ix.entries[slot].(key := base)], slot)
  }

  /** `new_block_index`: twice the capacity, the old entries in order from the oldest, then unused ones. */
  function Grown(ix: Index, junk: Pointer): (r: Index)
    requires WellFormed(ix)
    ensures WellFormed(r)
  {
    var cap := |ix.entries|;
    Index(seq(2 * cap, i requires 0 <= i < 2 * cap =>
            if i < cap then ix.entries[Arith.Ring(ix.tail + 1 + i, cap)] else Entry(INVALID_BLOCK_BASE, junk)),
          cap - 1)
  }

  function Rewound(ix: Index): (r: Index)
    requires WellFormed(ix)
    ensures WellFormed(r)
  {
    ix.(tail := Arith.Ring(ix.tail - 1, |ix.entries|))
  }

  /** `get_block_index_index_for_index`, for any item index inside the block. */
  function Lookup(ix: Index, itemIndex: nat): (slot: nat)
    requires WellFormed(ix)
    ensures slot < |ix.entries|
  {
    var base := itemIndex - itemIndex % BLOCK_SIZE;
    Arith.Ring(ix.tail + (base - ix.entries[ix.tail].key) / BLOCK_SIZE, |ix.entries|)
  }

  function SetValue(ix: Index, slot: nat, p: Pointer): (r: Index)
    requires WellFormed(ix) && slot < |ix.entries|
    ensures WellFormed(r)
  {
    ix.(entries := ix.entries[slot := ix.entries[slot].(value := p)])
  }

  /** Walking round a ring comes back to the start after exactly one round. */
  lemma OneRound(cap: nat, tail: nat, n: nat)
    requires tail < cap && 0 < n <= cap
    ensures Arith.Ring(tail + n, cap) == tail <==> n == cap
    ensures Arith.Ring(Arith.Ring(tail + n, cap) + 1, cap) == Arith.Ring(tail + n + 1, cap)
  {
    Arith.RingAdd(tail + n, 1, cap);
    Arith.RingRound(tail, cap);
    Arith.RingInjective(tail + n, tail + cap, cap);
  }

  /** The ring read once round, from the slot behind the tail to the tail itself. */
  predicate Unrolled(ix: Index, index: seq<Entry>)
    requires WellFormed(ix)
  {
    forall i :: 0 <= i < |index| ==> index[i] == ix.entries[Arith.Ring(ix.tail + 1 + i, |ix.entries|)]
  }

  /** The loop of `new_block_index` that copies the old entries. */
  method CopyOldEntries(ix: Index) returns (index: seq<Entry>)
    requires WellFormed(ix)
    ensures |index| == |ix.entries| && Unrolled(ix, index)
  {
    var cap := |ix.entries|;
    var prevPos := Arith.Ring(ix.tail + 1, cap);
    index := [ix.entries[prevPos]];
    OneRound(cap, ix.tail, 1);
    while prevPos != ix.tail
      invariant 1 <= |index| <= cap && prevPos == Arith.Ring(ix.tail + |index|, cap)
      invariant prevPos == ix.tail <==> |index| == cap
      invariant Unrolled(ix, index)
      decreases cap - |index|
    {
      OneRound(cap, ix.tail, |index|);
      OneRound(cap, ix.tail, |index| + 1);
      var before := index;
      prevPos := Arith.Ring(prevPos + 1, cap);
      index := before + [ix.entries[prevPos]];
      assert ix.tail + 1 + |before| == ix.tail + |before| + 1;
    }
  }

  /** `new_block_index`; `junk` is what the memory of the new entries' values happens to hold. */
  method NewBlockIndex(ix: Index, junk: Pointer) returns (r: Index)
    requires WellFormed(ix)
    ensures r == Grown(ix, junk)
  {
    var cap := |ix.entries|;
    var index := CopyOldEntries(ix);
    ghost var old' := index;
    for i := 0 to cap
      invariant |index| == cap + i && index[..cap] == old'
      invariant forall k :: cap <= k < |index| ==> index[k] == Entry(INVALID_BLOCK_BASE, junk)
    {
      index := index + [Entry(INVALID_BLOCK_BASE, junk)];
    }
    r := Index(index, Arith.Ring(cap - 1, 2 * cap));
    GrownEntries(ix, junk, index);
  }

  lemma GrownEntries(ix: Index, junk: Pointer, index: seq<Entry>)
    requires WellFormed(ix) && |index| == 2 * |ix.entries|
    requires Unrolled(ix, index[..|ix.entries|])
    requires forall k :: |ix.entries| <= k < |index| ==> index[k] == Entry(INVALID_BLOCK_BASE, junk)
    ensures index == Grown(ix, junk).entries
  {
    forall k | 0 <= k < |index|
      ensures index[k] == Grown(ix, junk).entries[k]
    {
      assert k < |ix.entries| ==> index[k] == index[..|ix.entries|][k];
    }
  }

  // ---------------------------------------------------------------- what the index stands for

  /** The slot of block j when blocks 0 .. top - 1 have been inserted. */
  function Slot(ix: Index, top: nat, j: int): (s: nat)
    requires WellFormed(ix)
    ensures s < |ix.entries|
  {
    Arith.Ring(ix.tail + 1 + j - top, |ix.entries|)
  }

  /** Block j is not older than the block l, which is still in use. */
  predicate Shadowed(live: map<nat, BlockId>, j: int) {
    exists l :: l in live && l <= j
  }

  predicate OccupiedBy(ix: Index, top: nat, live: map<nat, BlockId>, s: nat)
    requires WellFormed(ix)
  {
    exists l :: l in live && Slot(ix, top, l) == s
  }

  /**
   The index stands for the blocks in use: each is found in its slot, the keys from the oldest of them up to
   the tail are intact, and no other slot counts as occupied; except that while a block is being inserted the
   value at the tail is not yet set.
   */
  predicate Represents(ix: Index, top: nat, live: map<nat, BlockId>, inserting: bool) {
    && WellFormed(ix)
    && (forall l :: l in live ==> Found(ix, top, l, live[l]))
    && (forall j :: 0 <= j < top && Shadowed(live, j) ==> KeyIntact(ix, top, j))
    && (forall s :: 0 <= s < |ix.entries| ==> Explained(ix, top, live, s) || (inserting && s == ix.tail))
    && (inserting ==> top > 0 && top - 1 !in live && ix.entries[ix.tail].key == (top - 1) * BLOCK_SIZE)
  }

  predicate Found(ix: Index, top: nat, l: nat, id: BlockId)
    requires WellFormed(ix)
  {
    l < top && top - l <= |ix.entries| && ix.entries[Slot(ix, top, l)].value == To(id)
  }

  predicate KeyIntact(ix: Index, top: nat, j: nat)
    requires WellFormed(ix)
  {
    ix.entries[Slot(ix, top, j)].key == j * BLOCK_SIZE
  }

  predicate Explained(ix: Index, top: nat, live: map<nat, BlockId>, s: nat)
    requires WellFormed(ix) && s < |ix.entries|
  {
    ix.entries[s].key == INVALID_BLOCK_BASE || ix.entries[s].value == Null || OccupiedBy(ix, top, live, s)
  }

  lemma SlotsDiffer(ix: Index, top: nat, j: int, l: int)
    requires WellFormed(ix) && -|ix.entries| < j - l < |ix.entries|
    ensures Slot(ix, top, j) == Slot(ix, top, l) ==> j == l
  {
    Arith.RingInjective(ix.tail + 1 + j - top, ix.tail + 1 + l - top, |ix.entries|);
  }

  lemma SlotOfTop(ix: Index, top: nat)
    requires WellFormed(ix)
    ensures Slot(ix, top, top) == Arith.Ring(ix.tail + 1, |ix.entries|)
    ensures Slot(ix, top, top - |ix.entries|) == Slot(ix, top, top)
    ensures Slot(ix, top, top - 1) == ix.tail
  {
    Arith.RingRound(ix.tail + 1 - |ix.entries|, |ix.entries|);
  }

  /** The slot of the next block, also after an entry has been changed. */
  lemma NextSlot(ix: Index, ix': Index, top: nat, j: int)
    requires WellFormed(ix) && ix'.tail == ix.tail && |ix'.entries| == |ix.entries|
    ensures Slot(ix', top, j + 1) == Arith.Ring(Slot(ix, top, j) + 1, |ix'.entries|)
  {
    Arith.RingAdd(ix.tail + 1 + j - top, 1, |ix.entries|);
  }

  /** The lookup finds the slot of every block in use. */
  lemma LookupFinds(ix: Index, top: nat, live: map<nat, BlockId>, itemIndex: nat)
    requires Represents(ix, top, live, false) && itemIndex / BLOCK_SIZE in live
    ensures WellFormed(ix) && Lookup(ix, itemIndex) == Slot(ix, top, itemIndex / BLOCK_SIZE)
    ensures ix.entries[Lookup(ix, itemIndex)] == Entry(itemIndex - itemIndex % BLOCK_SIZE, To(live[itemIndex / BLOCK_SIZE]))
  {
    var j := itemIndex / BLOCK_SIZE;
    assert Found(ix, top, j, live[j]);
    assert Shadowed(live, top - 1) && Shadowed(live, j);
    assert KeyIntact(ix, top, top - 1) && KeyIntact(ix, top, j);
    SlotOfTop(ix, top);
    assert itemIndex - itemIndex % BLOCK_SIZE == j * BLOCK_SIZE;
    Arith.DivModUnique(BLOCK_SIZE, j - (top - 1), 0);
  }

  /** Inserting a key shifts no block: all slots seen from the new tail are the old ones. */
  lemma PushKeepsSlots(ix: Index, top: nat, base: int, j: int)
    requires WellFormed(ix)
    ensures Slot(PushKey(ix, base), top + 1, j) == Slot(ix, top, j)
  {
    Arith.RingAdd(ix.tail + 1, j - top, |ix.entries|);
  }

  lemma PushFound(ix: Index, top: nat, l: nat, id: BlockId)
    requires WellFormed(ix) && Found(ix, top, l, id) && KeyIntact(ix, top, l) && HasRoom(ix)
    ensures Found(PushKey(ix, top * BLOCK_SIZE), top + 1, l, id)
  {
    PushKeepsSlots(ix, top, top * BLOCK_SIZE, l);
    SlotOfTop(ix, top);
  }

  lemma PushKeyIntact(ix: Index, top: nat, l: nat, id: BlockId, j: nat)
    requires WellFormed(ix) && Found(ix, top, l, id) && KeyIntact(ix, top, l) && HasRoom(ix)
    requires l <= j < top && KeyIntact(ix, top, j)
    ensures KeyIntact(PushKey(ix, top * BLOCK_SIZE), top + 1, j)
  {
    PushFound(ix, top, l, id);
    PushKeepsSlots(ix, top, top * BLOCK_SIZE, j);
    SlotOfTop(ix, top);
    SlotsDiffer(ix, top, j, top);
  }

  lemma PushExplained(ix: Index, top: nat, live: map<nat, BlockId>, s: nat)
    requires WellFormed(ix) && s < |ix.entries| && Explained(ix, top, live, s) && s != Arith.Ring(ix.tail + 1, |ix.entries|)
    ensures Explained(PushKey(ix, top * BLOCK_SIZE), top + 1, live, s)
  {
    if OccupiedBy(ix, top, live, s) {
      var l :| l in live && Slot(ix, top, l) == s;
      PushKeepsSlots(ix, top, top * BLOCK_SIZE, l);
    }
  }

  lemma PushRepresents(ix: Index, top: nat, live: map<nat, BlockId>)
    requires Represents(ix, top, live, false) && HasRoom(ix)
    ensures Represents(PushKey(ix, top * BLOCK_SIZE), top + 1, live, true)
  {
    var r, top' := PushKey(ix, top * BLOCK_SIZE), top + 1;
    forall l | l in live
      ensures Found(r, top', l, live[l]) && KeyIntact(ix, top, l)
    {
      assert Found(ix, top, l, live[l]) && Shadowed(live, l);
      PushFound(ix, top, l, live[l]);
    }
    forall j | 0 <= j < top + 1 && Shadowed(live, j)
      ensures KeyIntact(r, top', j)
    {
      var l :| l in live && l <= j;
      assert Found(ix, top, l, live[l]);
      if j < top {
        PushKeyIntact(ix, top, l, live[l], j);
      } else {
        SlotOfTop(r, top + 1);
      }
    }
    forall s | 0 <= s < |r.entries| && s != r.tail
      ensures Explained(r, top', live, s)
    {
      PushExplained(ix, top, live, s);
    }
  }

  /** The keys of the blocks from lo on are intact; changing a value does not touch them. */
  predicate KeysIntact(ix: Index, top: nat, lo: nat)
    requires WellFormed(ix)
  {
    forall j :: lo <= j < top ==> KeyIntact(ix, top, j)
  }

  lemma SetValueKeepsKeys(ix: Index, top: nat, lo: nat, slot: nat, p: Pointer)
    requires WellFormed(ix) && slot < |ix.entries| && KeysIntact(ix, top, lo)
    ensures KeysIntact(SetValue(ix, slot, p), top, lo)
  {
    forall j | lo <= j < top
      ensures KeyIntact(SetValue(ix, slot, p), top, j)
    {
      assert KeyIntact(ix, top, j);
    }
  }

  /** A changed value leaves the values in other slots alone. */
  lemma SetValueFound(ix: Index, top: nat, j: int, p: Pointer, l: nat, id: BlockId)
    requires WellFormed(ix) && Found(ix, top, l, id) && top - |ix.entries| <= j < top
    requires l != j || p == To(id)
    ensures Found(SetValue(ix, Slot(ix, top, j), p), top, l, id)
  {
    SlotsDiffer(ix, top, l, j);
  }

  lemma SetValueExplained(ix: Index, top: nat, j: int, p: Pointer, live: map<nat, BlockId>, live': map<nat, BlockId>, s: nat)
    requires WellFormed(ix) && s < |ix.entries| && Explained(ix, top, live, s) && s != Slot(ix, top, j)
    requires forall l :: l in live && l != j ==> l in live'
    ensures Explained(SetValue(ix, Slot(ix, top, j), p), top, live', s)
  {
    if OccupiedBy(ix, top, live, s) {
      var l :| l in live && Slot(ix, top, l) == s;
      assert l in live' && Slot(SetValue(ix, Slot(ix, top, j), p), top, l) == s;
    }
  }

  /** Storing the new block at the tail completes the insertion. */
  lemma FillRepresents(ix: Index, top: nat, live: map<nat, BlockId>, id: BlockId)
    requires Represents(ix, top, live, true)
    ensures Represents(SetValue(ix, ix.tail, To(id)), top, live[top - 1 := id], false)
  {
    var r, live' := SetValue(ix, ix.tail, To(id)), live[top - 1 := id];
    SlotOfTop(ix, top);
    forall l | l in live'
      ensures Found(r, top, l, live'[l])
    {
      if l != top - 1 {
        SetValueFound(ix, top, top - 1, To(id), l, live[l]);
      }
    }
    forall j | 0 <= j < top && Shadowed(live', j)
      ensures KeyIntact(r, top, j)
    {
      if j < top - 1 {
        var l :| l in live' && l <= j;
        assert l in live && Shadowed(live, j);
        assert KeyIntact(ix, top, j);
      }
    }
    forall s | 0 <= s < |r.entries|
      ensures Explained(r, top, live', s)
    {
      if s == ix.tail {
        assert top - 1 in live' && Slot(r, top, top - 1) == s;
      } else {
        SetValueExplained(ix, top, top - 1, To(id), live, live', s);
      }
    }
  }

  lemma RewindKeepsSlots(ix: Index, top: nat, j: int)
    requires WellFormed(ix) && top > 0
    ensures Slot(Rewound(ix), top - 1, j) == Slot(ix, top, j)
  {
    Arith.RingAdd(ix.tail - 1, j + 2 - top, |ix.entries|);
  }

  /** Taking back the youngest insertion, whether or not its block had been stored. */
  lemma RewindRepresents(ix: Index, top: nat, live: map<nat, BlockId>, inserting: bool)
    requires Represents(ix, top, live, inserting) && top > 0 && top - 1 !in live
    ensures Represents(SetValue(Rewound(ix), ix.tail, Null), top - 1, live, false)
  {
    hide Explained, OccupiedBy;
    var r, top' := SetValue(Rewound(ix), ix.tail, Null), top - 1;
    SlotOfTop(ix, top);
    forall l | l in live
      ensures Found(r, top', l, live[l])
    {
      assert Found(ix, top, l, live[l]);
      RewindKeepsSlots(ix, top, l);
      SlotsDiffer(ix, top, l, top - 1);
    }
    forall j | 0 <= j < top - 1 && Shadowed(live, j)
      ensures KeyIntact(r, top', j)
    {
      assert KeyIntact(ix, top, j);
      RewindKeepsSlots(ix, top, j);
    }
    forall s | 0 <= s < |r.entries|
      ensures Explained(r, top', live, s)
    {
      RewindExplained(ix, top, live, inserting, s);
    }
  }

  lemma RewindExplained(ix: Index, top: nat, live: map<nat, BlockId>, inserting: bool, s: nat)
    requires Represents(ix, top, live, inserting) && top > 0 && top - 1 !in live && s < |ix.entries|
    ensures Explained(SetValue(Rewound(ix), ix.tail, Null), top - 1, live, s)
  {
    SlotOfTop(ix, top);
    if s != ix.tail && OccupiedBy(ix, top, live, s) {
      var l :| l in live && Slot(ix, top, l) == s;
      RewindKeepsSlots(ix, top, l);
    }
    assert Explained(ix, top, live, s) || s == ix.tail;
  }

  /** Moving the tail back over a block that is no longer in use. */
  lemma RewindOnly(ix: Index, top: nat, live: map<nat, BlockId>)
    requires Represents(ix, top, live, false) && top > 0 && top - 1 !in live
    ensures Represents(Rewound(ix), top - 1, live, false)
  {
    var r, top' := Rewound(ix), top - 1;
    forall l | l in live
      ensures Found(r, top', l, live[l])
    {
      assert Found(ix, top, l, live[l]);
      RewindKeepsSlots(ix, top, l);
    }
    forall j | 0 <= j < top - 1 && Shadowed(live, j)
      ensures KeyIntact(r, top', j)
    {
      assert KeyIntact(ix, top, j);
      RewindKeepsSlots(ix, top, j);
    }
    forall s | 0 <= s < |r.entries|
      ensures Explained(r, top', live, s)
    {
      assert Explained(ix, top, live, s);
      if OccupiedBy(ix, top, live, s) {
        var l :| l in live && Slot(ix, top, l) == s;
        RewindKeepsSlots(ix, top, l);
      }
    }
  }

  /** The same over the n youngest blocks. */
  lemma {:induction false} RewindMany(ix: Index, top: nat, live: map<nat, BlockId>, n: nat)
    requires Represents(ix, top, live, false) && n <= top && forall l :: l in live ==> l < top - n
    ensures Represents(ix.(tail := Arith.Ring(ix.tail - n, |ix.entries|)), top - n, live, false)
    decreases n
  {
    if n == 0 {
    } else {
      RewindOnly(ix, top, live);
      RewindMany(Rewound(ix), top - 1, live, n - 1);
      Arith.RingAdd(ix.tail - 1, 1 - n, |ix.entries|);
    }
  }

  /**
   While a failed bulk insertion is undone from its oldest block on, the tail moves back from its youngest: the
   lookup still finds block top - k + m after m blocks have been cleared and m steps been taken back.
   */
  lemma LookupDuringUndo(ix: Index, top: nat, k: nat, m: nat)
    requires WellFormed(ix) && m < k <= top && KeysIntact(ix, top, top - k)
    ensures Lookup(ix.(tail := Arith.Ring(ix.tail - m, |ix.entries|)), (top - k + m) * BLOCK_SIZE) == Slot(ix, top, top - k + m)
  {
    var cap, back := |ix.entries|, Arith.Ring(ix.tail - m, |ix.entries|);
    assert KeyIntact(ix, top, top - 1 - m);
    assert back == Slot(ix, top, top - 1 - m);
    Arith.DivModUnique(BLOCK_SIZE, top - k + m, 0);
    Arith.DivModUnique(BLOCK_SIZE, 2 * m + 1 - k, 0);
    Arith.RingAdd(ix.tail - m, 2 * m + 1 - k, cap);
  }

  /** Clearing the entry of a block that is released. */
  lemma ClearRepresents(ix: Index, top: nat, live: map<nat, BlockId>, j: nat)
    requires Represents(ix, top, live, false) && j in live
    ensures Represents(SetValue(ix, Slot(ix, top, j), Null), top, live - {j}, false)
  {
    var slot := Slot(ix, top, j);
    var r, live' := SetValue(ix, slot, Null), live - {j};
    assert Found(ix, top, j, live[j]);
    forall l | l in live'
      ensures Found(r, top, l, live'[l])
    {
      SetValueFound(ix, top, j, Null, l, live[l]);
    }
    forall i | 0 <= i < top && Shadowed(live', i)
      ensures KeyIntact(r, top, i)
    {
      var l :| l in live' && l <= i;
      assert l in live && Shadowed(live, i);
      assert KeyIntact(ix, top, i);
    }
    forall s | 0 <= s < |r.entries|
      ensures Explained(r, top, live', s)
    {
      if s != slot {
        SetValueExplained(ix, top, j, Null, live, live', s);
      }
    }
  }

  /** In the doubled index the blocks of the last round sit in order, ending at the new tail. */
  lemma GrownSlots(ix: Index, junk: Pointer, top: nat, j: int)
    requires WellFormed(ix) && top - |ix.entries| <= j < top
    ensures Slot(Grown(ix, junk), top, j) == |ix.entries| + j - top
    ensures Grown(ix, junk).entries[|ix.entries| + j - top] == ix.entries[Slot(ix, top, j)]
  {
    var cap := |ix.entries|;
    Arith.RingRound(ix.tail + 1 + j - top, cap);
  }

  lemma GrownExplained(ix: Index, junk: Pointer, top: nat, live: map<nat, BlockId>, s: nat)
    requires Represents(ix, top, live, false) && s < |ix.entries|
    ensures Explained(Grown(ix, junk), top, live, s)
  {
    var j := s + top - |ix.entries|;
    GrownSlots(ix, junk, top, j);
    assert Explained(ix, top, live, Slot(ix, top, j));
    if OccupiedBy(ix, top, live, Slot(ix, top, j)) {
      var l :| l in live && Slot(ix, top, l) == Slot(ix, top, j);
      assert Found(ix, top, l, live[l]);
      SlotsDiffer(ix, top, l, j);
    }
  }

  /** Growing changes where the blocks are found but not which ones; and there is room again. */
  lemma GrownRepresents(ix: Index, junk: Pointer, top: nat, live: map<nat, BlockId>)
    requires Represents(ix, top, live, false)
    ensures Represents(Grown(ix, junk), top, live, false) && HasRoom(Grown(ix, junk))
  {
    var r, cap := Grown(ix, junk), |ix.entries|;
    forall l | l in live
      ensures Found(r, top, l, live[l])
    {
      assert Found(ix, top, l, live[l]);
      GrownSlots(ix, junk, top, l);
    }
    forall j | 0 <= j < top && Shadowed(live, j)
      ensures KeyIntact(r, top, j)
    {
      var l :| l in live && l <= j;
      assert Found(ix, top, l, live[l]) && KeyIntact(ix, top, j);
      GrownSlots(ix, junk, top, j);
    }
    forall s | 0 <= s < |r.entries|
      ensures Explained(r, top, live, s)
    {
      if s < cap {
        GrownExplained(ix, junk, top, live, s);
      }
    }
  }

  lemma FreshRepresents(junk: Pointer)
    ensures Represents(Fresh(junk), 0, map[], false)
  {
  }
}
