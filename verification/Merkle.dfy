/**
 The Merkle index: 65536 leaves under four levels of sixteen-way nodes.  Writers change a leaf and mark the node
 above it; the nodes are rehashed only when the root is asked for.
 */
module Merkle {
  import opened Hashing

  /** The hash of sixteen consecutive words. */
  type BlockHash = seq<Hash> -> Hash

  const LOCKS := 256

  // ---------------------------------------------------------------- the tree that the leaves determine

  function Block(below: seq<Hash>, i: nat): (r: seq<Hash>)
    requires WAYS * i + WAYS <= |below|
    ensures |r| == WAYS
  {
    below[WAYS * i..WAYS * i + WAYS]
  }

  /** The level above a level. */
  function Above(h: BlockHash, below: seq<Hash>): (r: seq<Hash>)
    ensures |r| == |below| / WAYS
    ensures forall i :: 0 <= i < |r| ==> r[i] == h(Block(below, i))
  {
    seq(|below| / WAYS, i requires 0 <= i < |below| / WAYS => h(Block(below, i)))
  }

  /** A level of the fully rehashed tree; level 4 is the leaves, level 0 the root. */
  function Level(h: BlockHash, leaves: seq<Hash>, level: nat): seq<Hash>
    requires level <= 4
    decreases 4 - level
  {
    if level == 4 then leaves else Above(h, Level(h, leaves, level + 1))
  }

  function Width(level: nat): nat
    requires level <= 4
  {
    match level
    case 0 => 1
    case 1 => 16
    case 2 => 256
    case 3 => 4096
    case 4 => LEAVES
  }

  lemma {:induction false} LevelWidth(h: BlockHash, leaves: seq<Hash>, level: nat)
    requires level <= 4 && |leaves| == LEAVES
    ensures |Level(h, leaves, level)| == Width(level)
    decreases 4 - level
  {
    if level < 4 {
      LevelWidth(h, leaves, level + 1);
    }
  }

  /** The node i of the level above agrees with the level below. */
  predicate Agrees(h: BlockHash, below: seq<Hash>, above: seq<Hash>, i: nat)
    requires |below| == WAYS * |above| && i < |above|
  {
    above[i] == h(Block(below, i))
  }

  /** Every node that disagrees with the level below is marked. */
  predicate MarkedAbove(h: BlockHash, below: seq<Hash>, above: seq<Hash>, dirty: seq<bool>)
    requires |below| == WAYS * |above| && |dirty| == |above|
  {
    forall i :: 0 <= i < |above| ==> dirty[i] || Agrees(h, below, above, i)
  }

  /** Rehashing a node settles it and no other. */
  lemma RehashFixes(h: BlockHash, below: seq<Hash>, above: seq<Hash>, dirty: seq<bool>, i: nat)
    requires |below| == WAYS * |above| && |dirty| == |above| && i < |above| && MarkedAbove(h, below, above, dirty)
    ensures var above' := above[i := h(Block(below, i))];
      MarkedAbove(h, below, above', dirty[i := false]) && Agrees(h, below, above', i)
  {
    forall j | 0 <= j < |above| && j != i ensures dirty[j] || Agrees(h, below, above[i := h(Block(below, i))], j) {
      assert dirty[j] || Agrees(h, below, above, j);
    }
  }

  /** Changing a node and marking its parent keeps every stale parent marked. */
  lemma RehashMarks(h: BlockHash, below: seq<Hash>, above: seq<Hash>, dirty: seq<bool>, i: nat, x: Hash)
    requires |below| == WAYS * |above| && |dirty| == |above| && i < |below| && MarkedAbove(h, below, above, dirty)
    ensures MarkedAbove(h, below[i := x], above, dirty[i / WAYS := true])
  {
    forall j | 0 <= j < |above| && j != i / WAYS ensures dirty[j] || Agrees(h, below[i := x], above, j) {
      OtherBlocks(below, i, x, j);
      assert dirty[j] || Agrees(h, below, above, j);
    }
  }

  lemma NoneMarked(h: BlockHash, below: seq<Hash>, above: seq<Hash>, dirty: seq<bool>)
    requires |below| == WAYS * |above| && |dirty| == |above| && MarkedAbove(h, below, above, dirty)
    requires forall i :: 0 <= i < |dirty| ==> !dirty[i]
    ensures above == Above(h, below)
  {
    AllAgree(h, below, above);
  }

  lemma AllAgree(h: BlockHash, below: seq<Hash>, above: seq<Hash>)
    requires |below| == WAYS * |above|
    requires forall i :: 0 <= i < |above| ==> Agrees(h, below, above, i)
    ensures above == Above(h, below)
  {
    forall i | 0 <= i < |above| ensures above[i] == Above(h, below)[i] {
      assert Agrees(h, below, above, i);
    }
  }

  /** A change of one word leaves every block but its own as it is. */
  lemma OtherBlocks(below: seq<Hash>, at: nat, x: Hash, i: nat)
    requires at < |below| && WAYS * i + WAYS <= |below| && i != at / WAYS
    ensures Block(below[at := x], i) == Block(below, i)
  {
  }

  // ---------------------------------------------------------------- changes of leaves

  /** What one call of `apply_delta` does to the leaves. */
  datatype Delta = Delta(bucket: nat, change: Hash)

  predicate InRange(ds: seq<Delta>) {
    forall d <- ds :: d.bucket < LEAVES
  }

  function Changed(leaves: seq<Hash>, d: Delta): (r: seq<Hash>)
    ensures |r| == |leaves|
  {
    if d.bucket < |leaves| then leaves[d.bucket := Xor(leaves[d.bucket], d.change)] else leaves
  }

  function AllChanged(leaves: seq<Hash>, ds: seq<Delta>): (r: seq<Hash>)
    ensures |r| == |leaves|
    decreases |ds|
  {
    if ds == [] then leaves else Changed(AllChanged(leaves, ds[..|ds| - 1]), ds[|ds| - 1])
  }

  lemma {:induction false} ChangedInTurn(leaves: seq<Hash>, ds: seq<Delta>, es: seq<Delta>)
    ensures AllChanged(leaves, ds + es) == AllChanged(AllChanged(leaves, ds), es)
    decreases |es|
  {
    hide Changed;
    if es == [] {
      assert ds + es == ds;
    } else {
      var init := es[..|es| - 1];
      assert (ds + es)[..|ds + es| - 1] == ds + init;
      ChangedInTurn(leaves, ds, init);
    }
  }

  function Flatten(during: seq<seq<Delta>>): seq<Delta> {
    if during == [] then [] else Flatten(during[..|during| - 1]) + during[|during| - 1]
  }

  /** The deltas that other threads apply while a refresh runs: before each of the locks is taken, and after the last. */
  predicate Interference(during: seq<seq<Delta>>) {
    |during| == LOCKS + 1 && forall i :: 0 <= i < |during| ==> InRange(during[i])
  }

  /** The leaves as a refresh sees them: each range of 256 as it stands when its lock is held. */
  function Seen(leaves: seq<Hash>, during: seq<seq<Delta>>): (r: seq<Hash>)
    requires |leaves| == LEAVES && Interference(during)
    ensures |r| == LEAVES
  {
    seq(LEAVES, b requires 0 <= b < LEAVES => AllChanged(leaves, Flatten(during[..b / LOCKS + 1]))[b])
  }

  /** No deltas at all. */
  predicate Quiet(during: seq<seq<Delta>>) {
    forall i :: 0 <= i < |during| ==> during[i] == []
  }

  lemma {:induction false} QuietIsEmpty(during: seq<seq<Delta>>)
    requires Quiet(during)
    ensures Flatten(during) == []
  {
    if during != [] {
      QuietIsEmpty(during[..|during| - 1]);
    }
  }

  /** Without interference a refresh sees the leaves as they are. */
  lemma SeenWhenQuiet(leaves: seq<Hash>, during: seq<seq<Delta>>)
    requires |leaves| == LEAVES && Interference(during) && Quiet(during)
    ensures Seen(leaves, during) == leaves
  {
    hide Flatten;
    forall b | 0 <= b < LEAVES ensures Seen(leaves, during)[b] == leaves[b] {
      QuietIsEmpty(during[..b / LOCKS + 1]);
    }
  }

  lemma SeenAt(leaves: seq<Hash>, during: seq<seq<Delta>>, s: nat, b: nat)
    requires |leaves| == LEAVES && Interference(during) && b < LEAVES && b / LOCKS == s
    ensures Seen(leaves, during)[b] == AllChanged(leaves, Flatten(during[..s + 1]))[b]
  {
  }

  lemma SameBlock(a: seq<Hash>, b: seq<Hash>, i: nat)
    requires |a| == |b| && WAYS * i + WAYS <= |a|
    requires forall k :: WAYS * i <= k < WAYS * i + WAYS ==> a[k] == b[k]
    ensures Block(a, i) == Block(b, i)
  {
  }

  /** What a node of level 3 is made from is the same in the leaves under its lock and in the leaves seen. */
  lemma BlockSeen(leaves: seq<Hash>, during: seq<seq<Delta>>, s: nat, i: nat)
    requires |leaves| == LEAVES && Interference(during) && s < LOCKS && s * WAYS <= i < s * WAYS + WAYS
    ensures Block(AllChanged(leaves, Flatten(during[..s + 1])), i) == Block(Seen(leaves, during), i)
  {
    hide Flatten, AllChanged, Seen, Block;
    var now, seen := AllChanged(leaves, Flatten(during[..s + 1])), Seen(leaves, during);
    forall b | WAYS * i <= b < WAYS * i + WAYS ensures now[b] == seen[b] {
      SeenAt(leaves, during, s, b);
    }
    SameBlock(now, seen, i);
  }

  // ---------------------------------------------------------------- the tree that is kept

  class MerkleTree {
    const h: BlockHash
    var leaves: seq<Hash>
    var l3: seq<Hash>
    var l3Dirty: seq<bool>
    var l2: seq<Hash>
    var l2Dirty: seq<bool>
    var l1: seq<Hash>
    var l1Dirty: seq<bool>
    var l0: seq<Hash>
    var l0Dirty: seq<bool>

    predicate Shape()
      reads this
    {
      && |leaves| == LEAVES
      && |l3| == |l3Dirty| == 4096
      && |l2| == |l2Dirty| == 256
      && |l1| == |l1Dirty| == 16
      && |l0| == |l0Dirty| == 1
    }

    /** Every node of level 3 that disagrees with its leaves is marked. */
    predicate StaleAreMarked()
      reads this
      requires Shape()
    {
      MarkedAbove(h, leaves, l3, l3Dirty)
    }

    /** Every node above level 3 agrees with the level below it, and none is marked. */
    predicate UpperAgrees()
      reads this
      requires Shape()
    {
      && l2 == Above(h, l3) && l1 == Above(h, l2) && l0 == Above(h, l1)
      && (forall i :: 0 <= i < 256 ==> !l2Dirty[i])
      && (forall i :: 0 <= i < 16 ==> !l1Dirty[i])
      && !l0Dirty[0]
    }

    predicate Valid()
      reads this
    {
      Shape() && StaleAreMarked() && UpperAgrees()
    }

    /** Nothing is marked: the kept tree is the rehash of the leaves. */
    predicate Refreshed()
      reads this
      requires Shape()
    {
      forall i :: 0 <= i < 4096 ==> !l3Dirty[i]
    }

    /** The empty tree, filled level by level from the hash of sixteen zeros. */
    constructor (h: BlockHash)
      ensures this.h == h && Valid() && Refreshed()
      ensures leaves == seq(LEAVES, _ => 0)
    {
      var zeros: seq<Hash> := seq(WAYS, _ => 0);
      var h3 := h(zeros);
      var h2 := h(seq(WAYS, _ => h3));
      var h1 := h(seq(WAYS, _ => h2));
      var h0 := h(seq(WAYS, _ => h1));
      this.h := h;
      leaves := seq(LEAVES, _ => 0);
      l3 := seq(4096, _ => h3);
      l3Dirty := seq(4096, _ => false);
      l2 := seq(256, _ => h2);
      l2Dirty := seq(256, _ => false);
      l1 := seq(16, _ => h1);
      l1Dirty := seq(16, _ => false);
      l0 := [h0];
      l0Dirty := [false];
      new;
      ConstantLevel(h, 0, h3, leaves, l3);
      ConstantLevel(h, h3, h2, l3, l2);
      ConstantLevel(h, h2, h1, l2, l1);
      ConstantLevel(h, h1, h0, l1, l0);
      assert forall i :: 0 <= i < 4096 ==> Agrees(h, leaves, l3, i);
    }

    /** One XOR on the leaf and one mark above it. */
    method ApplyDelta(keyHash: Hash, change: Hash)
      requires Valid()
      modifies `leaves, `l3Dirty
      ensures Valid()
      ensures leaves == Changed(old(leaves), Delta(Bucket(keyHash), change))
      ensures var b := AsNumber(keyHash) / 0x1_0000_0000_0000;
        b < LEAVES && leaves == old(leaves)[b := Xor(old(leaves)[b], change)]
    {
      hide AsNumber, Bucket;
      BucketIsTop(keyHash);
      ApplyAt(Delta(Bucket(keyHash), change));
    }

    method ApplyAt(d: Delta)
      requires Shape() && StaleAreMarked() && d.bucket < LEAVES
      modifies `leaves, `l3Dirty
      ensures Shape() && StaleAreMarked()
      ensures leaves == Changed(old(leaves), d)
      ensures l3Dirty == old(l3Dirty)[d.bucket / WAYS := true]
    {
      ghost var before := leaves;
      leaves := leaves[d.bucket := Xor(leaves[d.bucket], d.change)];
      l3Dirty := l3Dirty[d.bucket / WAYS := true];
      forall i | 0 <= i < 4096 ensures l3Dirty[i] || Agrees(h, leaves, l3, i) {
        if i != d.bucket / WAYS {
          OtherBlocks(before, d.bucket, Xor(before[d.bucket], d.change), i);
          assert old(l3Dirty)[i] || Agrees(h, before, l3, i);
        }
      }
    }

    /** The deltas that other threads apply while no lock is held. */
    method ApplyAll(ds: seq<Delta>)
      requires Shape() && StaleAreMarked() && InRange(ds)
      modifies `leaves, `l3Dirty
      ensures Shape() && StaleAreMarked()
      ensures leaves == AllChanged(old(leaves), ds)
      ensures ds == [] ==> l3Dirty == old(l3Dirty)
    {
      for i := 0 to |ds|
        invariant Shape() && StaleAreMarked()
        invariant leaves == AllChanged(old(leaves), ds[..i])
        invariant i == 0 ==> l3Dirty == old(l3Dirty)
      {
        ApplyAt(ds[i]);
        assert ds[..i + 1][..i] == ds[..i];
      }
      assert ds[..|ds|] == ds;
    }

    lemma UpperIsMarked()
      requires Shape() && UpperAgrees()
      ensures MarkedAbove(h, l3, l2, l2Dirty) && MarkedAbove(h, l2, l1, l1Dirty) && MarkedAbove(h, l1, l0, l0Dirty)
    {
    }

    /** One node of level 3: rehash it from its sixteen leaves if it is marked. */
    method RefreshNode(i: nat)
      requires Shape() && StaleAreMarked() && MarkedAbove(h, l3, l2, l2Dirty) && i < 4096
      modifies `l3, `l3Dirty, `l2Dirty
      ensures Shape() && StaleAreMarked() && MarkedAbove(h, l3, l2, l2Dirty)
      ensures Agrees(h, leaves, l3, i)
      ensures l3 == old(l3)[i := l3[i]] && l3Dirty == old(l3Dirty)[i := false]
    {
      if !l3Dirty[i] {
        return;
      }
      var children: seq<Hash> := [];
      for k := 0 to WAYS
        invariant children == leaves[WAYS * i..WAYS * i + k]
      {
        children := children + [leaves[i * WAYS + k]];
      }
      RehashFixes(h, leaves, l3, l3Dirty, i);
      RehashMarks(h, l3, l2, l2Dirty, i, h(children));
      l3 := l3[i := h(children)];
      l3Dirty := l3Dirty[i := false];
      l2Dirty := l2Dirty[i / WAYS := true];
    }

    /** The nodes of level 3 under one lock. */
    method RefreshShard(s: nat)
      requires Shape() && StaleAreMarked() && MarkedAbove(h, l3, l2, l2Dirty) && s < LOCKS
      modifies `l3, `l3Dirty, `l2Dirty
      ensures Shape() && StaleAreMarked() && MarkedAbove(h, l3, l2, l2Dirty)
      ensures forall i :: s * WAYS <= i < s * WAYS + WAYS ==> Agrees(h, leaves, l3, i) && !l3Dirty[i]
      ensures l3[..s * WAYS] == old(l3[..s * WAYS]) && l3Dirty[..s * WAYS] == old(l3Dirty[..s * WAYS])
    {
      hide StaleAreMarked, MarkedAbove;
      var start := s * WAYS;
      for k := 0 to WAYS
        invariant Shape() && StaleAreMarked() && MarkedAbove(h, l3, l2, l2Dirty)
        invariant forall i :: start <= i < start + k ==> Agrees(h, leaves, l3, i) && !l3Dirty[i]
        invariant l3[..start] == old(l3[..start]) && l3Dirty[..start] == old(l3Dirty[..start])
      {
        ghost var before, marked := l3, l3Dirty;
        RefreshNode(start + k);
        forall i | start <= i <= start + k ensures Agrees(h, leaves, l3, i) && !l3Dirty[i] {
          if i < start + k {
            AgreesKept(h, leaves, before, l3, i);
          }
        }
      }
    }

    /** Level 3 from the leaves, lock by lock, with other threads writing in between. */
    method RefreshLeaves(during: seq<seq<Delta>>)
      requires Valid() && Interference(during)
      modifies `leaves, `l3, `l3Dirty, `l2Dirty
      ensures Shape() && StaleAreMarked() && MarkedAbove(h, l3, l2, l2Dirty)
      ensures leaves == AllChanged(old(leaves), Flatten(during))
      ensures l3 == Above(h, Seen(old(leaves), during))
      ensures Quiet(during) ==> Refreshed()
    {
      hide StaleAreMarked, MarkedAbove, UpperAgrees, Seen, Agrees, AllChanged, Flatten, Above;
      ghost var seen := Seen(leaves, during);
      UpperIsMarked();
      NothingYet(leaves, during[..0]);
      for s := 0 to LOCKS
        invariant Shape() && StaleAreMarked() && MarkedAbove(h, l3, l2, l2Dirty)
        invariant leaves == AllChanged(old(leaves), Flatten(during[..s]))
        invariant forall i :: 0 <= i < s * WAYS ==> Agrees(h, seen, l3, i)
        invariant Quiet(during) ==> forall i :: 0 <= i < s * WAYS ==> !l3Dirty[i]
      {
        FlattenMore(old(leaves), during, s);
        ghost var dirty := l3Dirty;
        ApplyAll(during[s]);
        ghost var before, marked := l3, l3Dirty;
        RefreshShard(s);
        forall i | 0 <= i < (s + 1) * WAYS ensures Agrees(h, seen, l3, i) {
          if i < s * WAYS {
            assert before[..s * WAYS][i] == l3[..s * WAYS][i];
            AgreesKept(h, seen, before, l3, i);
          } else {
            BlockSeen(old(leaves), during, s, i);
            AgreesMoves(h, leaves, seen, l3, i);
          }
        }
        forall i | 0 <= i < (s + 1) * WAYS && Quiet(during) ensures !l3Dirty[i] {
          if i < s * WAYS {
            assert marked[..s * WAYS][i] == l3Dirty[..s * WAYS][i];
          }
        }
      }
      AllAgree(h, seen, l3);
      FlattenMore(old(leaves), during, LOCKS);
      assert during[..LOCKS + 1] == during;
      ApplyAll(during[LOCKS]);
    }

    /** Level 2 from level 3. */
    method RefreshL2()
      requires Shape() && MarkedAbove(h, l3, l2, l2Dirty) && MarkedAbove(h, l2, l1, l1Dirty)
      modifies `l2, `l2Dirty, `l1Dirty
      ensures Shape() && l2 == Above(h, l3) && MarkedAbove(h, l2, l1, l1Dirty)
      ensures forall i :: 0 <= i < 256 ==> !l2Dirty[i]
    {
      hide MarkedAbove, Above;
      for i := 0 to 256
        invariant Shape() && MarkedAbove(h, l3, l2, l2Dirty) && MarkedAbove(h, l2, l1, l1Dirty)
        invariant forall j :: 0 <= j < i ==> !l2Dirty[j]
      {
        if l2Dirty[i] {
          RehashFixes(h, l3, l2, l2Dirty, i);
          RehashMarks(h, l2, l1, l1Dirty, i, h(Block(l3, i)));
          l2 := l2[i := h(Block(l3, i))];
          l2Dirty := l2Dirty[i := false];
          l1Dirty := l1Dirty[i / WAYS := true];
        }
      }
      NoneMarked(h, l3, l2, l2Dirty);
    }

    /** Level 1 from level 2. */
    method RefreshL1()
      requires Shape() && MarkedAbove(h, l2, l1, l1Dirty) && MarkedAbove(h, l1, l0, l0Dirty)
      modifies `l1, `l1Dirty, `l0Dirty
      ensures Shape() && l1 == Above(h, l2) && MarkedAbove(h, l1, l0, l0Dirty)
      ensures forall i :: 0 <= i < 16 ==> !l1Dirty[i]
    {
      hide MarkedAbove, Above;
      for i := 0 to 16
        invariant Shape() && MarkedAbove(h, l2, l1, l1Dirty) && MarkedAbove(h, l1, l0, l0Dirty)
        invariant forall j :: 0 <= j < i ==> !l1Dirty[j]
      {
        if l1Dirty[i] {
          RehashFixes(h, l2, l1, l1Dirty, i);
          RehashMarks(h, l1, l0, l0Dirty, i, h(Block(l2, i)));
          l1 := l1[i := h(Block(l2, i))];
          l1Dirty := l1Dirty[i := false];
          l0Dirty := l0Dirty[0 := true];
        }
      }
      NoneMarked(h, l2, l1, l1Dirty);
    }

    /** The root from level 1. */
    method RefreshL0()
      requires Shape() && MarkedAbove(h, l1, l0, l0Dirty)
      modifies `l0, `l0Dirty
      ensures Shape() && l0 == Above(h, l1) && !l0Dirty[0]
    {
      hide MarkedAbove, Above;
      if l0Dirty[0] {
        RehashFixes(h, l1, l0, l0Dirty, 0);
        l0 := l0[0 := h(Block(l1, 0))];
        l0Dirty := l0Dirty[0 := false];
      }
      NoneMarked(h, l1, l0, l0Dirty);
    }

    /**
     The root hash, while other threads go on writing.  It is the root of the full rehash of the leaves as they were
     seen, lock by lock; what was written behind the scan stays marked for the next refresh.
     */
    method GetRootHash(during: seq<seq<Delta>>) returns (root: Hash)
      requires Valid() && Interference(during)
      modifies this
      ensures Valid()
      ensures leaves == AllChanged(old(leaves), Flatten(during))
      ensures forall level :: 0 <= level < 4 ==> Kept(level) == Level(h, Seen(old(leaves), during), level)
      ensures [root] == Level(h, Seen(old(leaves), during), 0)
      ensures Quiet(during) ==> Refreshed() && leaves == old(leaves) && Seen(old(leaves), during) == leaves
    {
      hide Above, Seen, Flatten, AllChanged;
      UpperIsMarked();
      RefreshLeaves(during);
      RefreshL2();
      RefreshL1();
      RefreshL0();
      root := l0[0];
      ghost var seen := Seen(old(leaves), during);
      assert Level(h, seen, 3) == l3 && Level(h, seen, 2) == l2 && Level(h, seen, 1) == l1 && Level(h, seen, 0) == l0;
      if Quiet(during) {
        QuietIsEmpty(during);
        NothingApplied(old(leaves), Flatten(during));
        SeenWhenQuiet(old(leaves), during);
      }
    }

    /** The level that the tree keeps, stale or not. */
    function Kept(level: nat): seq<Hash>
      reads this
      requires level <= 4
    {
      match level
      case 0 => l0
      case 1 => l1
      case 2 => l2
      case 3 => l3
      case 4 => leaves
    }

    /** A tree with no marks is the full rehash of its leaves at every level. */
    lemma RefreshedIsRehash(level: nat)
      requires Valid() && Refreshed() && level <= 4
      ensures Kept(level) == Level(h, leaves, level)
    {
      NoneMarked(h, leaves, l3, l3Dirty);
      assert Level(h, leaves, 3) == l3 && Level(h, leaves, 2) == l2 && Level(h, leaves, 1) == l1;
    }

    /** A node as kept; it is the rehash of the leaves below it when the tree has been refreshed. */
    method GetNodeHash(level: nat, index: nat) returns (r: Hash)
      requires Valid() && (level <= 4 ==> index < Width(level))
      ensures level > 4 ==> r == 0
      ensures level <= 4 ==> r == Kept(level)[index]
      ensures level <= 4 && Refreshed() ==> |Level(h, leaves, level)| == Width(level) && r == Level(h, leaves, level)[index]
    {
      LevelWidth(h, leaves, if level <= 4 then level else 4);
      if level <= 4 && Refreshed() {
        RefreshedIsRehash(level);
      }
      if level == 0 {
        return l0[0];
      }
      if level == 1 {
        return l1[index];
      }
      if level == 2 {
        return l2[index];
      }
      if level == 3 {
        return l3[index];
      }
      if level == 4 {
        return leaves[index];
      }
      return 0;
    }
  }

  lemma NothingApplied(leaves: seq<Hash>, ds: seq<Delta>)
    requires ds == []
    ensures AllChanged(leaves, ds) == leaves
  {
  }

  lemma AgreesKept(h: BlockHash, below: seq<Hash>, above: seq<Hash>, above': seq<Hash>, i: nat)
    requires |below| == WAYS * |above| && |above'| == |above| && i < |above| && above[i] == above'[i]
    ensures Agrees(h, below, above, i) ==> Agrees(h, below, above', i)
  {
  }

  lemma AgreesMoves(h: BlockHash, below: seq<Hash>, below': seq<Hash>, above: seq<Hash>, i: nat)
    requires |below| == |below'| == WAYS * |above| && i < |above| && Block(below, i) == Block(below', i)
    ensures Agrees(h, below, above, i) ==> Agrees(h, below', above, i)
  {
  }

  lemma NothingYet(leaves: seq<Hash>, during: seq<seq<Delta>>)
    requires during == []
    ensures AllChanged(leaves, Flatten(during)) == leaves
  {
  }

  lemma FlattenMore(leaves: seq<Hash>, during: seq<seq<Delta>>, s: nat)
    requires s < |during|
    ensures AllChanged(leaves, Flatten(during[..s + 1])) == AllChanged(AllChanged(leaves, Flatten(during[..s])), during[s])
  {
    hide AllChanged;
    assert during[..s + 1][..s] == during[..s];
    ChangedInTurn(leaves, Flatten(during[..s]), during[s]);
  }

  lemma ConstantLevel(h: BlockHash, x: Hash, y: Hash, below: seq<Hash>, above: seq<Hash>)
    requires |below| == WAYS * |above|
    requires forall i :: 0 <= i < |below| ==> below[i] == x
    requires forall i :: 0 <= i < |above| ==> above[i] == y
    requires y == h(seq(WAYS, _ => x))
    ensures above == Above(h, below)
    ensures forall i :: 0 <= i < |above| ==> Agrees(h, below, above, i)
  {
    forall i | 0 <= i < |above| ensures Agrees(h, below, above, i) {
      assert Block(below, i) == seq(WAYS, _ => x);
    }
    AllAgree(h, below, above);
  }
}
