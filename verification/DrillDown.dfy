/**
 The drill-down: node A has announced its root, node B asks A for the children of every node that differs, level by
 level, until it knows the leaves that differ.  Both stores are at rest; messages are delivered in any order, any
 number of times.
 */
module DrillDown {
  import opened Hashing
  import opened Store
  import opened SyncCodec
  import opened Replica
  import Merkle

  /** B, the messages sent so far and those of them that were delivered at least once. */
  datatype State = State(b: Replica, net: set<Message>, done: set<Message>)

  predicate Drills(m: Message) {
    m.SyncInit? || m.ReqNode? || m.RepNode?
  }

  /** A as it is after `send_sync_init`, which refreshes its tree. */
  ghost predicate Announcing(e: Env, a: Replica) {
    a.seen == LeavesOf(e, a)
  }

  ghost predicate Init(e: Env, a: Replica, s: State) {
    Announcing(e, a) && Valid(s.b) && s.net == {SyncInit(Root(e, a))} && s.done == {}
  }

  /** Requests go to A, everything else to B. */
  ghost function Next(e: Env, a: Replica, s: State, m: Message): State
    requires Valid(a) && Valid(s.b)
  {
    if m.ReqNode? then State(s.b, s.net + Replies(e, a, m, []), s.done + {m})
    else State(After(e, s.b, m), s.net + Replies(e, s.b, m, []), s.done + {m})
  }

  /** The state after delivering messages one after the other; only what has been sent can be delivered. */
  ghost predicate Runs(e: Env, a: Replica, s0: State, schedule: seq<Message>, s: State)
    requires Valid(a)
    decreases |schedule|
  {
    if schedule == [] then s == s0
    else
      var m := schedule[|schedule| - 1];
      exists t :: Runs(e, a, s0, schedule[..|schedule| - 1], t) && m in t.net && Drills(m) && Valid(t.b)
                  && s == Next(e, a, t, m)
  }

  // ---------------------------------------------------------------- the two trees

  ghost function Tree(e: Env, leaves: seq<Hash>, level: nat, index: nat): Hash
    requires |leaves| == LEAVES && level <= 4 && index < Merkle.Width(level)
  {
    Merkle.LevelWidth(e.h, leaves, level);
    Merkle.Level(e.h, leaves, level)[index]
  }

  ghost predicate Differ(e: Env, la: seq<Hash>, lb: seq<Hash>, level: nat, index: nat)
    requires |la| == LEAVES && |lb| == LEAVES
  {
    level <= 4 && index < Merkle.Width(level) && Tree(e, la, level, index) != Tree(e, lb, level, index)
  }

  lemma NodeIsTree(e: Env, r: Replica, level: nat, index: nat)
    requires r.seen == LeavesOf(e, r) && level <= 4 && index < Merkle.Width(level)
    ensures Node(e, r, level, index) == Tree(e, LeavesOf(e, r), level, index)
  {
    hide LeavesOf;
  }

  lemma RootIsTree(e: Env, r: Replica)
    requires Valid(r)
    ensures Root(e, r) == Tree(e, LeavesOf(e, r), 0, 0)
  {
    hide LeavesOf;
    assert LeavesOf(e, Refreshed(e, r)) == LeavesOf(e, r) by { SameLeaves(e, r, Refreshed(e, r)); }
  }

  lemma SameLeaves(e: Env, r: Replica, r': Replica)
    requires r.store == r'.store
    ensures LeavesOf(e, r) == LeavesOf(e, r')
  {
  }

  /** Where the two trees have different blocks of sixteen words at the same place, the blocks hash differently. */
  ghost predicate CollisionFree(h: Merkle.BlockHash, la: seq<Hash>, lb: seq<Hash>)
    requires |la| == LEAVES && |lb| == LEAVES
  {
    forall level, i :: 0 <= level < 4 && 0 <= i < Merkle.Width(level) ==> BlocksTold(h, la, lb, level, i)
  }

  ghost predicate BlocksTold(h: Merkle.BlockHash, la: seq<Hash>, lb: seq<Hash>, level: nat, i: nat)
    requires |la| == LEAVES && |lb| == LEAVES && level < 4 && i < Merkle.Width(level)
  {
    Merkle.LevelWidth(h, la, level + 1);
    Merkle.LevelWidth(h, lb, level + 1);
    WidthTimesWays(level);
    var x := Merkle.Block(Merkle.Level(h, la, level + 1), i);
    var y := Merkle.Block(Merkle.Level(h, lb, level + 1), i);
    h(x) == h(y) ==> x == y
  }

  /** Without collisions a difference shows at every node above it. */
  lemma DifferUp(e: Env, la: seq<Hash>, lb: seq<Hash>, level: nat, index: nat)
    requires |la| == LEAVES && |lb| == LEAVES && level < 4 && CollisionFree(e.h, la, lb)
    requires Differ(e, la, lb, level + 1, index)
    ensures Differ(e, la, lb, level, index / WAYS)
  {
    hide CollisionFree;
    Merkle.LevelWidth(e.h, la, level + 1);
    Merkle.LevelWidth(e.h, lb, level + 1);
    Merkle.LevelWidth(e.h, la, level);
    Merkle.LevelWidth(e.h, lb, level);
    WidthTimesWays(level);
    var j := index / WAYS;
    assert BlocksTold(e.h, la, lb, level, j) by { BlockToldAt(e, la, lb, level, j); }
    var xs, ys := Merkle.Level(e.h, la, level + 1), Merkle.Level(e.h, lb, level + 1);
    assert Merkle.Block(xs, j)[index - WAYS * j] == xs[index] && Merkle.Block(ys, j)[index - WAYS * j] == ys[index];
  }

  lemma BlockToldAt(e: Env, la: seq<Hash>, lb: seq<Hash>, level: nat, i: nat)
    requires |la| == LEAVES && |lb| == LEAVES && CollisionFree(e.h, la, lb) && level < 4 && i < Merkle.Width(level)
    ensures BlocksTold(e.h, la, lb, level, i)
  {
  }

  lemma WidthTimesWays(level: nat)
    requires level < 4
    ensures Merkle.Width(level + 1) == WAYS * Merkle.Width(level)
  {
  }

  /** The node above leaf b at a level. */
  function Up(b: nat, level: nat): nat
    requires level <= 4
    decreases 4 - level
  {
    if level == 4 then b else Up(b, level + 1) / WAYS
  }

  lemma {:induction false} DifferAll(e: Env, la: seq<Hash>, lb: seq<Hash>, b: nat, level: nat)
    requires |la| == LEAVES && |lb| == LEAVES && CollisionFree(e.h, la, lb) && b < LEAVES && la[b] != lb[b] && level <= 4
    ensures Differ(e, la, lb, level, Up(b, level))
    decreases 4 - level
  {
    hide CollisionFree;
    if level < 4 {
      DifferAll(e, la, lb, b, level + 1);
      DifferUp(e, la, lb, level, Up(b, level + 1));
    }
  }

  // ---------------------------------------------------------------- what every delivery keeps

  /** A message that the two trees justify. */
  ghost predicate Justified(e: Env, la: seq<Hash>, lb: seq<Hash>, m: Message)
    requires |la| == LEAVES && |lb| == LEAVES
  {
    match m
    case SyncInit(root) => root == Tree(e, la, 0, 0)
    case ReqNode(level, parent) => 1 <= level <= 4 && Differ(e, la, lb, level - 1, parent)
    case RepNode(level, parent, hashes) =>
      1 <= level <= 4 && Differ(e, la, lb, level - 1, parent) && hashes == ChildrenOf(e, la, level, parent)
    case ReqBucket(bucket) => bucket < LEAVES && la[bucket] != lb[bucket]
    case _ => false
  }

  ghost function ChildrenOf(e: Env, leaves: seq<Hash>, level: nat, parent: nat): (s: seq<Hash>)
    requires |leaves| == LEAVES && 1 <= level <= 4 && parent < Merkle.Width(level - 1)
    ensures |s| == WAYS
  {
    WidthTimesWays(level - 1);
    seq(WAYS, i requires 0 <= i < WAYS => Tree(e, leaves, level, parent * WAYS + i))
  }

  /** The answer to a message that the two trees demand is in the network. */
  ghost predicate Answered(e: Env, la: seq<Hash>, lb: seq<Hash>, net: set<Message>, m: Message)
    requires |la| == LEAVES && |lb| == LEAVES && Justified(e, la, lb, m)
  {
    match m
    case SyncInit(_) => Differ(e, la, lb, 0, 0) ==> ReqNode(1, 0) in net
    case ReqNode(level, parent) => RepNode(level, parent, ChildrenOf(e, la, level, parent)) in net
    case RepNode(level, parent, _) =>
      forall child :: parent * WAYS <= child < parent * WAYS + WAYS && Differ(e, la, lb, level, child) ==>
        Ask(level, child) in net
    case _ => true
  }

  ghost predicate Inv(e: Env, a: Replica, store: KeyMap, s: State) {
    var la, lb := LeavesOf(e, a), LeavesOf(e, s.b);
    && Announcing(e, a) && Valid(s.b) && s.b.store == store
    && (forall m :: m in s.net ==> Justified(e, la, lb, m))
    && (forall m :: m in s.net && !m.SyncInit? ==> s.b.seen == lb)
    && s.done <= s.net
    && (forall m :: m in s.done ==> Answered(e, la, lb, s.net, m))
  }

  lemma ChildrenAgree(e: Env, r: Replica, level: nat, parent: nat)
    requires r.seen == LeavesOf(e, r) && 1 <= level <= 4 && parent < Merkle.Width(level - 1)
    ensures Children(e, r, level, parent) == ChildrenOf(e, LeavesOf(e, r), level, parent)
  {
    hide LeavesOf, Node, Tree;
    WidthTimesWays(level - 1);
    forall i | 0 <= i < WAYS
      ensures Children(e, r, level, parent)[i] == ChildrenOf(e, LeavesOf(e, r), level, parent)[i]
    {
      NodeIsTree(e, r, level, parent * WAYS + i);
    }
  }

  /** B asks for a child exactly when the child differs. */
  lemma AsksAgree(e: Env, la: seq<Hash>, b: Replica, level: Byte, parent: nat, i: nat)
    requires |la| == LEAVES && b.seen == LeavesOf(e, b) && 1 <= level <= 4 && parent < Merkle.Width(level - 1) && i < WAYS
    ensures Node(e, b, level, parent * WAYS + i) != ChildrenOf(e, la, level, parent)[i]
       <==> Differ(e, la, LeavesOf(e, b), level, parent * WAYS + i)
  {
    hide LeavesOf, Node, Tree;
    WidthTimesWays(level - 1);
    NodeIsTree(e, b, level, parent * WAYS + i);
  }

  lemma ReplyToNode(e: Env, la: seq<Hash>, b: Replica, m: Message)
    requires |la| == LEAVES && b.seen == LeavesOf(e, b) && m.RepNode? && Justified(e, la, LeavesOf(e, b), m)
    ensures forall x :: x in Replies(e, b, m, []) ==> Justified(e, la, LeavesOf(e, b), x) && !x.SyncInit?
    ensures Answered(e, la, LeavesOf(e, b), Replies(e, b, m, []), m)
  {
    hide LeavesOf, Node, Differ, Tree, ChildrenOf;
    var lb := LeavesOf(e, b);
    var net := Replies(e, b, m, []);
    assert m.parent < Merkle.Width(m.level - 1) by { InWidth(e, la, lb, m.level - 1, m.parent); }
    forall x | x in net ensures Justified(e, la, lb, x) && !x.SyncInit? {
      var i :| 0 <= i < WAYS && Node(e, b, m.level, m.parent * WAYS + i) != m.hashes[i] && x == Ask(m.level, m.parent * WAYS + i);
      AsksAgree(e, la, b, m.level, m.parent, i);
      LeafDiffers(e, la, lb, m.level, m.parent * WAYS + i);
    }
    forall child | m.parent * WAYS <= child < m.parent * WAYS + WAYS && Differ(e, la, lb, m.level, child)
      ensures Ask(m.level, child) in net
    {
      var i := child - m.parent * WAYS;
      AsksAgree(e, la, b, m.level, m.parent, i);
      assert Node(e, b, m.level, m.parent * WAYS + i) != m.hashes[i];
    }
  }

  lemma InWidth(e: Env, la: seq<Hash>, lb: seq<Hash>, level: nat, index: nat)
    requires |la| == LEAVES && |lb| == LEAVES && Differ(e, la, lb, level, index)
    ensures level <= 4 && index < Merkle.Width(level)
  {
  }

  lemma LeafDiffers(e: Env, la: seq<Hash>, lb: seq<Hash>, level: nat, index: nat)
    requires |la| == LEAVES && |lb| == LEAVES && Differ(e, la, lb, level, index)
    ensures level == 4 ==> index < LEAVES && la[index] != lb[index]
  {
  }

  lemma ReplyToInit(e: Env, la: seq<Hash>, b: Replica, m: Message)
    requires |la| == LEAVES && Valid(b) && m.SyncInit? && Justified(e, la, LeavesOf(e, b), m)
    ensures forall x :: x in Replies(e, b, m, []) ==> Justified(e, la, LeavesOf(e, b), x) && !x.SyncInit?
    ensures Answered(e, la, LeavesOf(e, b), Replies(e, b, m, []), m)
  {
    hide LeavesOf, Tree, Root;
    RootIsTree(e, b);
    assert Merkle.Width(0) == 1;
  }

  lemma ReplyToRequest(e: Env, a: Replica, lb: seq<Hash>, m: Message)
    requires |lb| == LEAVES && Announcing(e, a) && m.ReqNode? && Justified(e, LeavesOf(e, a), lb, m)
    ensures forall x :: x in Replies(e, a, m, []) ==> Justified(e, LeavesOf(e, a), lb, x) && !x.SyncInit?
    ensures Answered(e, LeavesOf(e, a), lb, Replies(e, a, m, []), m)
  {
    hide LeavesOf, Tree, Children, ChildrenOf, Differ;
    InWidth(e, LeavesOf(e, a), lb, m.level - 1, m.parent);
    ChildrenAgree(e, a, m.level, m.parent);
  }

  lemma MoreAnswers(e: Env, la: seq<Hash>, lb: seq<Hash>, net: set<Message>, more: set<Message>, m: Message)
    requires |la| == LEAVES && |lb| == LEAVES && Justified(e, la, lb, m)
    ensures Answered(e, la, lb, net, m) ==> Answered(e, la, lb, net + more, m)
    ensures Answered(e, la, lb, more, m) ==> Answered(e, la, lb, net + more, m)
  {
    hide Differ, ChildrenOf, Tree;
  }

  lemma KeepNext(e: Env, a: Replica, store: KeyMap, s: State, m: Message)
    requires Valid(a) && Inv(e, a, store, s) && m in s.net && Drills(m)
    ensures Inv(e, a, store, Next(e, a, s, m))
  {
    hide LeavesOf, Justified, Answered, Replies;
    var la, lb := LeavesOf(e, a), LeavesOf(e, s.b);
    var s' := Next(e, a, s, m);
    var more := if m.ReqNode? then Replies(e, a, m, []) else Replies(e, s.b, m, []);
    SameLeaves(e, s.b, s'.b);
    assert s'.net == s.net + more;
    assert (forall x :: x in more ==> Justified(e, la, lb, x) && !x.SyncInit?) && Answered(e, la, lb, more, m) by {
      if m.ReqNode? {
        ReplyToRequest(e, a, lb, m);
      } else if m.SyncInit? {
        ReplyToInit(e, la, s.b, m);
      } else {
        ReplyToNode(e, la, s.b, m);
      }
    }
    forall x | x in s'.done ensures Answered(e, la, lb, s'.net, x) {
      MoreAnswers(e, la, lb, s.net, more, x);
    }
  }

  lemma {:induction false} RunsInv(e: Env, a: Replica, s0: State, schedule: seq<Message>, s: State)
    requires Valid(a) && Init(e, a, s0) && Runs(e, a, s0, schedule, s)
    ensures Inv(e, a, s0.b.store, s)
    decreases |schedule|
  {
    hide Inv, Next;
    if schedule == [] {
      InitInv(e, a, s0);
    } else {
      var init, m := schedule[..|schedule| - 1], schedule[|schedule| - 1];
      var t :| Runs(e, a, s0, init, t) && m in t.net && Drills(m) && Valid(t.b) && s == Next(e, a, t, m);
      RunsInv(e, a, s0, init, t);
      KeepNext(e, a, s0.b.store, t, m);
    }
  }

  lemma InitInv(e: Env, a: Replica, s: State)
    requires Valid(a) && Init(e, a, s)
    ensures Inv(e, a, s.b.store, s)
  {
    hide LeavesOf, Tree, Root;
    RootIsTree(e, a);
  }

  // ---------------------------------------------------------------- for every run

  /** Only buckets whose leaves differ are asked for, at any moment of any run. */
  lemma AsksOnlyForDivergent(e: Env, a: Replica, s0: State, schedule: seq<Message>, s: State, bucket: nat)
    requires Valid(a) && Init(e, a, s0) && Runs(e, a, s0, schedule, s) && ReqBucket(bucket) in s.net
    ensures bucket < LEAVES && LeavesOf(e, a)[bucket] != LeavesOf(e, s0.b)[bucket]
  {
    hide LeavesOf, Runs;
    RunsInv(e, a, s0, schedule, s);
    SameLeaves(e, s.b, s0.b);
    assert Justified(e, LeavesOf(e, a), LeavesOf(e, s.b), ReqBucket(bucket));
  }

  /** Every message of the drill-down that was sent has arrived. */
  predicate Drained(s: State) {
    forall m :: m in s.net && Drills(m) ==> m in s.done
  }

  lemma {:induction false} ReachesDown(e: Env, a: Replica, store: KeyMap, s: State, b: nat, level: nat)
    requires Inv(e, a, store, s) && Drained(s) && CollisionFree(e.h, LeavesOf(e, a), LeavesOf(e, s.b))
    requires SyncInit(Root(e, a)) in s.net && 1 <= level <= 4
    requires b < LEAVES && LeavesOf(e, a)[b] != LeavesOf(e, s.b)[b]
    ensures ReqNode(level, Up(b, level - 1)) in s.net
    decreases level
  {
    hide LeavesOf, CollisionFree, ChildrenOf, Tree, Justified, Root, Differ, Up;
    var la, lb := LeavesOf(e, a), LeavesOf(e, s.b);
    if level == 1 {
      DifferAll(e, la, lb, b, 0);
      UpToRoot(e, la, lb, b);
      assert Answered(e, la, lb, s.net, SyncInit(Root(e, a)));
    } else {
      ReachesDown(e, a, store, s, b, level - 1);
      StepDown(e, a, store, s, b, level - 1);
      assert Ask(level - 1, Up(b, level - 1)) == ReqNode(level, Up(b, level - 1));
    }
  }

  lemma UpToRoot(e: Env, la: seq<Hash>, lb: seq<Hash>, b: nat)
    requires |la| == LEAVES && |lb| == LEAVES && Differ(e, la, lb, 0, Up(b, 0))
    ensures Up(b, 0) == 0
  {
  }

  /** Once the node above is asked for, the child on the way to b is asked for. */
  lemma StepDown(e: Env, a: Replica, store: KeyMap, s: State, b: nat, level: Byte)
    requires Inv(e, a, store, s) && Drained(s) && CollisionFree(e.h, LeavesOf(e, a), LeavesOf(e, s.b)) && 1 <= level <= 4
    requires b < LEAVES && LeavesOf(e, a)[b] != LeavesOf(e, s.b)[b]
    requires ReqNode(level, Up(b, level - 1)) in s.net
    ensures Ask(level, Up(b, level)) in s.net
  {
    hide LeavesOf, CollisionFree, ChildrenOf, Tree, Justified, Differ, Up, Ask;
    var la, lb := LeavesOf(e, a), LeavesOf(e, s.b);
    var parent := Up(b, level - 1);
    var req := ReqNode(level, parent);
    assert Justified(e, la, lb, req);
    RequestInWidth(e, la, lb, req);
    assert Answered(e, la, lb, s.net, req);
    var rep := RepNode(level, parent, ChildrenOf(e, la, level, parent));
    assert rep in s.net && rep in s.done;
    assert Answered(e, la, lb, s.net, rep);
    DifferAll(e, la, lb, b, level);
    UpSplits(b, level);
  }

  lemma RequestInWidth(e: Env, la: seq<Hash>, lb: seq<Hash>, m: Message)
    requires |la| == LEAVES && |lb| == LEAVES && m.ReqNode? && Justified(e, la, lb, m)
    ensures 1 <= m.level <= 4 && m.parent < Merkle.Width(m.level - 1)
  {
  }

  lemma UpSplits(b: nat, level: nat)
    requires 1 <= level <= 4
    ensures Up(b, level - 1) * WAYS <= Up(b, level) < Up(b, level - 1) * WAYS + WAYS
  {
    hide Up;
    assert Up(b, level - 1) == Up(b, level) / WAYS by { UpStep(b, level - 1); }
  }

  lemma UpStep(b: nat, level: nat)
    requires level < 4
    ensures Up(b, level) == Up(b, level + 1) / WAYS
  {
  }

  /**
   When the network has drained, the buckets asked for are exactly those whose leaves differ, provided that no two
   blocks at the same place of the two trees collide.
   */
  lemma AsksForAllDivergent(e: Env, a: Replica, s0: State, schedule: seq<Message>, s: State, bucket: nat)
    requires Valid(a) && Init(e, a, s0) && Runs(e, a, s0, schedule, s) && Drained(s)
    requires CollisionFree(e.h, LeavesOf(e, a), LeavesOf(e, s0.b))
    ensures ReqBucket(bucket) in s.net <==> bucket < LEAVES && LeavesOf(e, a)[bucket] != LeavesOf(e, s0.b)[bucket]
  {
    hide LeavesOf, Runs, Inv, CollisionFree, Root, Up;
    RunsInv(e, a, s0, schedule, s);
    InvStore(e, a, s0.b.store, s);
    SameLeaves(e, s.b, s0.b);
    if ReqBucket(bucket) in s.net {
      AsksOnlyForDivergent(e, a, s0, schedule, s, bucket);
    }
    if bucket < LEAVES && LeavesOf(e, a)[bucket] != LeavesOf(e, s0.b)[bucket] {
      StartStays(e, a, s0, schedule, s, SyncInit(Root(e, a)));
      ReachesDown(e, a, s0.b.store, s, bucket, 4);
      StepDown(e, a, s0.b.store, s, bucket, 4);
      assert Up(bucket, 4) == bucket by { UpLeaf(bucket); }
    }
  }

  lemma UpIsRoot(b: nat)
    requires b < LEAVES
    ensures Up(b, 0) == 0
  {
    assert Up(b, 3) == b / WAYS && Up(b, 2) == b / WAYS / WAYS;
    assert Up(b, 1) == b / WAYS / WAYS / WAYS;
  }

  lemma UpLeaf(b: nat)
    ensures Up(b, 4) == b
  {
  }

  lemma InvStore(e: Env, a: Replica, store: KeyMap, s: State)
    requires Inv(e, a, store, s)
    ensures s.b.store == store
  {
  }

  lemma {:induction false} StartStays(e: Env, a: Replica, s0: State, schedule: seq<Message>, s: State, m: Message)
    requires Valid(a) && Runs(e, a, s0, schedule, s) && m in s0.net
    ensures m in s.net
    decreases |schedule|
  {
    hide Replies, After;
    if schedule != [] {
      var init, x := schedule[..|schedule| - 1], schedule[|schedule| - 1];
      var t :| Runs(e, a, s0, init, t) && x in t.net && Drills(x) && Valid(t.b) && s == Next(e, a, t, x);
      StartStays(e, a, s0, init, t, m);
    }
  }

  // ---------------------------------------------------------------- the exchange ends

  const NODE_REQUESTS := 1 + 16 + 256 + 4096

  function Offset(level: nat): nat {
    if level <= 1 then 0 else if level == 2 then 1 else if level == 3 then 17 else 273
  }

  /** A number for every message of a drill-down. */
  function Code(m: Message): nat {
    match m
    case SyncInit(_) => 0
    case ReqNode(level, parent) => 1 + Offset(level) + parent
    case RepNode(level, parent, _) => 1 + NODE_REQUESTS + Offset(level) + parent
    case _ => 0
  }

  /** A message about nodes of the tree, a reply with what A has there. */
  ghost predicate Placed(e: Env, la: seq<Hash>, m: Message)
    requires |la| == LEAVES
  {
    match m
    case SyncInit(root) => root == Tree(e, la, 0, 0)
    case ReqNode(level, parent) => 1 <= level <= 4 && parent < Merkle.Width(level - 1)
    case RepNode(level, parent, hashes) =>
      1 <= level <= 4 && parent < Merkle.Width(level - 1) && hashes == ChildrenOf(e, la, level, parent)
    case _ => false
  }

  lemma JustifiedIsPlaced(e: Env, la: seq<Hash>, lb: seq<Hash>, m: Message)
    requires |la| == LEAVES && |lb| == LEAVES && Drills(m) && Justified(e, la, lb, m)
    ensures Placed(e, la, m)
  {
    hide Tree, ChildrenOf;
  }

  lemma CodeBound(e: Env, la: seq<Hash>, m: Message)
    requires |la| == LEAVES && Placed(e, la, m)
    ensures Code(m) < 1 + 2 * NODE_REQUESTS && (m.ReqNode? ==> 1 <= Code(m) <= NODE_REQUESTS)
  {
    hide Tree, ChildrenOf;
  }

  lemma CodeInjective(e: Env, la: seq<Hash>, m: Message, n: Message)
    requires |la| == LEAVES && Placed(e, la, m) && Placed(e, la, n) && Code(m) == Code(n)
    ensures m == n
  {
    hide Tree, ChildrenOf;
  }

  predicate Apart<T(==)>(s: seq<T>) {
    forall i, j :: 0 <= i < j < |s| ==> s[i] != s[j]
  }

  /** Distinct numbers below n are at most n. */
  lemma {:induction false} Pigeonhole(s: seq<nat>, n: nat)
    requires Apart(s) && forall i :: 0 <= i < |s| ==> s[i] < n
    ensures |s| <= n
    decreases n
  {
    if s != [] {
      assert s[0] < n;
      var last: nat := n - 1;
      if last in s {
        var k :| 0 <= k < |s| && s[k] == last;
        Pigeonhole(s[..k] + s[k + 1..], last);
      } else {
        Pigeonhole(s, last);
      }
    }
  }

  /** Distinct messages of a drill-down are at most as many as there are codes. */
  lemma FewMessages(e: Env, la: seq<Hash>, ms: seq<Message>)
    requires |la| == LEAVES && Apart(ms) && forall i :: 0 <= i < |ms| ==> Placed(e, la, ms[i])
    ensures |ms| <= 1 + 2 * NODE_REQUESTS
    ensures (forall i :: 0 <= i < |ms| ==> ms[i].ReqNode?) ==> |ms| <= NODE_REQUESTS
  {
    hide Placed, Code;
    var codes := seq(|ms|, i requires 0 <= i < |ms| => Code(ms[i]));
    forall i, j | 0 <= i < j < |codes| ensures codes[i] != codes[j] {
      if codes[i] == codes[j] {
        CodeInjective(e, la, ms[i], ms[j]);
      }
    }
    forall i | 0 <= i < |codes| ensures codes[i] < 1 + 2 * NODE_REQUESTS && (ms[i].ReqNode? ==> 1 <= codes[i] <= NODE_REQUESTS) {
      CodeBound(e, la, ms[i]);
    }
    Pigeonhole(codes, 1 + 2 * NODE_REQUESTS);
    if forall i :: 0 <= i < |ms| ==> ms[i].ReqNode? {
      var lower: seq<nat> := seq(|codes|, i requires 0 <= i < |codes| => if codes[i] > 0 then codes[i] - 1 else 0);
      assert Apart(lower);
      Pigeonhole(lower, NODE_REQUESTS);
    }
  }

  lemma {:induction false} DeliveredWasSent(e: Env, a: Replica, s0: State, schedule: seq<Message>, s: State, i: nat)
    requires Valid(a) && Runs(e, a, s0, schedule, s) && i < |schedule|
    ensures schedule[i] in s.net && Drills(schedule[i])
    decreases |schedule|
  {
    hide Replies, After, Drills;
    var init, x := schedule[..|schedule| - 1], schedule[|schedule| - 1];
    var t :| Runs(e, a, s0, init, t) && x in t.net && Drills(x) && Valid(t.b) && s == Next(e, a, t, x);
    if i < |init| {
      DeliveredWasSent(e, a, s0, init, t, i);
    }
  }

  /**
   The drill-down ends: a run that delivers no message twice has at most 1 + 2 * 4369 deliveries, and however messages
   are repeated, no more than 1 + 16 + 256 + 4096 node requests are ever made.
   */
  lemma DrillDownEnds(e: Env, a: Replica, s0: State, schedule: seq<Message>, s: State, requests: seq<Message>)
    requires Valid(a) && Init(e, a, s0) && Runs(e, a, s0, schedule, s)
    requires Apart(requests) && forall i :: 0 <= i < |requests| ==> requests[i] in s.net && requests[i].ReqNode?
    ensures |requests| <= NODE_REQUESTS
    ensures Apart(schedule) ==> |schedule| <= 1 + 2 * NODE_REQUESTS
  {
    hide LeavesOf, Runs, Justified, Answered, Root, Placed;
    RunsInv(e, a, s0, schedule, s);
    var la, lb := LeavesOf(e, a), LeavesOf(e, s.b);
    forall m | m in s.net && Drills(m) ensures Placed(e, la, m) {
      JustifiedIsPlaced(e, la, lb, m);
    }
    FewMessages(e, la, requests);
    if Apart(schedule) {
      forall i | 0 <= i < |schedule| ensures Placed(e, la, schedule[i]) {
        DeliveredWasSent(e, a, s0, schedule, s, i);
      }
      FewMessages(e, la, schedule);
    }
  }
}
