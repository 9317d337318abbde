/**
 A run that takes the time of a key back: a node with a slow clock pulls a record through the whole protocol and then
 serves a local put, which is stamped by its own clock and does not look at the record.
 */
module SlowClock {
  import opened Hashing
  import opened Clock
  import opened Store
  import opened SyncCodec
  import opened Replica
  import Cluster
  import DrillDown
  import Leaves
  import Lww
  import Merkle

  ghost predicate Reachable(e: Env, s0: Cluster.State, s: Cluster.State)
    requires Cluster.Shape(s0)
  {
    exists schedule :: Cluster.Execute(e, s0, schedule) == Cluster.RunsTo(s)
  }

  lemma Start(e: Env, s0: Cluster.State)
    requires Cluster.Shape(s0)
    ensures Reachable(e, s0, s0)
  {
    assert Cluster.Execute(e, s0, []) == Cluster.RunsTo(s0);
  }

  lemma Then(e: Env, s0: Cluster.State, s: Cluster.State, a: Cluster.Action)
    requires Cluster.Shape(s0) && Reachable(e, s0, s) && Cluster.Shape(s) && Cluster.Enabled(e, s, a)
    ensures Reachable(e, s0, Cluster.Next(e, s, a))
  {
    hide Cluster.Next, Cluster.Enabled, Cluster.Shape;
    var schedule :| Cluster.Execute(e, s0, schedule) == Cluster.RunsTo(s);
    var longer := schedule + [a];
    assert longer[..|longer| - 1] == schedule;
    assert Cluster.Execute(e, s0, longer) == Cluster.RunsTo(Cluster.Next(e, s, a));
  }

  /** Two replicas, both with refreshed trees; node 1 pulls from node 0. */
  ghost predicate Pair(e: Env, s: Cluster.State, ra: Replica, rb: Replica) {
    && Cluster.Shape(s) && s.replicas == [ra, rb]
    && ra.seen == LeavesOf(e, ra) && rb.seen == LeavesOf(e, rb)
  }

  /** A request of node 1 to node 0, and an answer. */
  function Ask1(m: Message): Cluster.Packet {
    Cluster.Packet(1, 0, m)
  }

  function Tell1(m: Message): Cluster.Packet {
    Cluster.Packet(0, 1, m)
  }

  /** A delivery that changes no replica only adds the answers to the network. */
  lemma Exchange(e: Env, s0: Cluster.State, s: Cluster.State, ra: Replica, rb: Replica, p: Cluster.Packet,
                 keys: seq<(Key, Hash)>, out: Message) returns (s': Cluster.State)
    requires Cluster.Shape(s0) && Reachable(e, s0, s) && Pair(e, s, ra, rb) && p in s.net && p.to < 2
    requires !p.message.SyncInit? && !p.message.PutVal?
    requires PossibleListing(e, s.replicas[p.to], p.message, keys) && out in Replies(e, s.replicas[p.to], p.message, keys)
    ensures Reachable(e, s0, s') && Pair(e, s', ra, rb) && s'.clocks == s.clocks && s'.ids == s.ids && s.net <= s'.net
    ensures Cluster.Packet(p.to, p.from, out) in s'.net
  {
    hide Replies, PossibleListing, LeavesOf;
    var a := Cluster.Deliver(p, keys);
    s' := Cluster.Next(e, s, a);
    Then(e, s0, s, a);
    assert s.replicas[p.to := s.replicas[p.to]] == s.replicas;
  }

  /** One level of the drill-down towards a leaf that differs. */
  lemma DrillStep(e: Env, s0: Cluster.State, s: Cluster.State, ra: Replica, rb: Replica, b: nat, level: Byte)
    returns (s': Cluster.State)
    requires Cluster.Shape(s0) && Reachable(e, s0, s) && Pair(e, s, ra, rb) && 1 <= level <= 4
    requires DrillDown.CollisionFree(e.h, LeavesOf(e, ra), LeavesOf(e, rb))
    requires b < LEAVES && LeavesOf(e, ra)[b] != LeavesOf(e, rb)[b]
    requires Ask1(ReqNode(level, DrillDown.Up(b, level - 1))) in s.net
    ensures Reachable(e, s0, s') && Pair(e, s', ra, rb) && s'.clocks == s.clocks && s'.ids == s.ids
    ensures Ask1(Ask(level, DrillDown.Up(b, level))) in s'.net
  {
    hide LeavesOf, DrillDown.CollisionFree, DrillDown.Up, Reachable, Ask, Node, Children, DrillDown.Tree;
    var la, lb := LeavesOf(e, ra), LeavesOf(e, rb);
    var parent, child := DrillDown.Up(b, level - 1), DrillDown.Up(b, level);
    DrillDown.DifferAll(e, la, lb, b, level - 1);
    DrillDown.DifferAll(e, la, lb, b, level);
    DrillDown.UpSplits(b, level);
    var req := ReqNode(level, parent);
    var rep := RepNode(level, parent, Children(e, ra, level, parent));
    var t := Exchange(e, s0, s, ra, rb, Ask1(req), [], rep);
    var i := child - parent * WAYS;
    DrillDown.ChildrenAgree(e, ra, level, parent);
    DrillDown.AsksAgree(e, la, rb, level, parent, i);
    assert Node(e, rb, level, parent * WAYS + i) != rep.hashes[i];
    assert Ask(level, parent * WAYS + i) in Replies(e, rb, rep, []);
    s' := Exchange(e, s0, t, ra, rb, Tell1(rep), [], Ask(level, child));
  }

  /** From the first request to the request for the bucket. */
  lemma {:induction false} DrillAll(e: Env, s0: Cluster.State, s: Cluster.State, ra: Replica, rb: Replica, b: nat, level: Byte)
    returns (s': Cluster.State)
    requires Cluster.Shape(s0) && Reachable(e, s0, s) && Pair(e, s, ra, rb) && 1 <= level <= 4
    requires DrillDown.CollisionFree(e.h, LeavesOf(e, ra), LeavesOf(e, rb))
    requires b < LEAVES && LeavesOf(e, ra)[b] != LeavesOf(e, rb)[b]
    requires Ask1(ReqNode(level, DrillDown.Up(b, level - 1))) in s.net
    ensures Reachable(e, s0, s') && Pair(e, s', ra, rb) && s'.clocks == s.clocks && s'.ids == s.ids
    ensures Ask1(ReqBucket(b)) in s'.net
    decreases 4 - level
  {
    hide LeavesOf, DrillDown.CollisionFree, DrillDown.Up, Reachable, Pair;
    s' := DrillStep(e, s0, s, ra, rb, b, level);
    if level < 4 {
      s' := DrillAll(e, s0, s', ra, rb, b, level + 1);
    } else {
      DrillDown.UpLeaf(b);
    }
  }

  // ---------------------------------------------------------------- the pull

  /** A listing of the bucket of a key in a store of one record. */
  lemma ListOne(c: Codec, k: Key, st: KeyMap) returns (keys: seq<(Key, Hash)>)
    requires UserKey(k) && st.Keys == {k, MetaKey(k)}
    ensures Leaves.Lists(c, st, Leaves.BucketOf(c, k), keys)
    ensures exists i :: 0 <= i < |Visible(keys)| && Visible(keys)[i] == (k, c.hash(st[k]))
  {
    hide MetaKey, UserKey, Leaves.Lists, Leaves.BucketOf;
    MetaKeysApart(k, k);
    var b := Leaves.BucketOf(c, k);
    var one: KeyMap := map[k := st[k]];
    Leaves.ListsOne(c, k, st[k], b);
    keys := [(k, c.hash(st[k]))];
    Leaves.ListsMore(c, one, b, keys, MetaKey(k), st[MetaKey(k)]);
    assert one[MetaKey(k) := st[MetaKey(k)]] == st;
    if Leaves.BucketOf(c, MetaKey(k)) == b {
      keys := keys + [(MetaKey(k), c.hash(st[MetaKey(k)]))];
    }
    assert !EndsMeta(k) by { NotMeta(k); }
    assert Visible(keys)[0] == (k, c.hash(st[k]));
  }

  lemma NotMeta(k: Key)
    requires UserKey(k)
    ensures !EndsMeta(k)
  {
  }

  /** From the request for the bucket to the value message. */
  lemma PullOne(e: Env, s0: Cluster.State, s: Cluster.State, ra: Replica, rb: Replica, k: Key, w: Mutation)
    returns (s': Cluster.State)
    requires Cluster.Shape(s0) && Reachable(e, s0, s) && Pair(e, s, ra, rb) && Lawful(e.c) && UserKey(k)
    requires w.key == k && Lww.HoldsRecord(e.c, ra.store, w) && ra.store.Keys == {k, MetaKey(k)}
    requires rb.store == map[] && e.c.hash(Lww.Stored(e.c, w)) != 0
    requires Ask1(ReqBucket(Leaves.BucketOf(e.c, k))) in s.net
    ensures Reachable(e, s0, s') && Pair(e, s', ra, rb) && s'.clocks == s.clocks && s'.ids == s.ids
    ensures Tell1(PutVal(k, e.c.meta(w.ts, w.isDelete), Lww.Stored(e.c, w))) in s'.net
  {
    hide LeavesOf, Reachable, Pair, Lawful, UserKey, MetaKey, Leaves.BucketOf, Visible, Leaves.Lists;
    var keys := ListOne(e.c, k, ra.store);
    var req := ReqBucket(Leaves.BucketOf(e.c, k));
    var rep := RepBucket(req.bucket, Visible(keys));
    PairValid(e, s, ra, rb);
    s' := Exchange(e, s0, s, ra, rb, Ask1(req), keys, rep);
    var i :| 0 <= i < |Visible(keys)| && Visible(keys)[i] == (k, e.c.hash(ra.store[k]));
    assert MyHash(e.c, rb.store, k) == 0;
    assert MyHash(e.c, rb.store, rep.listing[i].0) != rep.listing[i].1;
    PairValid(e, s', ra, rb);
    assert GetVal(k) in Replies(e, rb, rep, []);
    s' := Exchange(e, s0, s', ra, rb, Tell1(rep), [], GetVal(k));
    MetaKeysApart(k, k);
    MetaNotEmpty(e.c, w);
    PairValid(e, s', ra, rb);
    s' := Exchange(e, s0, s', ra, rb, Ask1(GetVal(k)), [], PutVal(k, e.c.meta(w.ts, w.isDelete), Lww.Stored(e.c, w)));
  }

  lemma PairValid(e: Env, s: Cluster.State, ra: Replica, rb: Replica)
    requires Pair(e, s, ra, rb)
    ensures Valid(ra) && Valid(rb) && s.replicas == [ra, rb] && Cluster.Shape(s)
  {
  }

  lemma MetaNotEmpty(c: Codec, w: Mutation)
    requires Lawful(c)
    ensures c.meta(w.ts, w.isDelete) != []
  {
  }

  // ---------------------------------------------------------------- the run

  /** The two nodes at the start; node i has the number i + 1. */
  ghost function TwoNodes(): (s: Cluster.State)
    ensures Cluster.Init(s)
  {
    var empty := Replica(map[], seq(LEAVES, _ => 0));
    Cluster.State([1, 2], [empty, empty], [Hlc(0, 0), Hlc(0, 0)], {}, {})
  }

  /** Node 0 at time 100 puts the key; its store and that of an empty node can be told apart by their trees. */
  ghost predicate Told(e: Env, k: Key, body: Blob) {
    var ra := Refreshed(e, Replica(Live(e.c, map[], Put(k, body, Timestamp(100, 0, 1))), seq(LEAVES, _ => 0)));
    var rb := Refreshed(e, Replica(map[], seq(LEAVES, _ => 0)));
    var b := Leaves.BucketOf(e.c, k);
    && DrillDown.CollisionFree(e.h, LeavesOf(e, ra), LeavesOf(e, rb)) && LeavesOf(e, ra)[b] != LeavesOf(e, rb)[b]
    && e.c.hash(e.c.normal(body)) != 0
  }

  /** Node 0 puts the key and announces its root; node 1 asks for the first level. */
  lemma PutAndAnnounce(e: Env, k: Key, body: Blob) returns (s: Cluster.State, ra: Replica, rb: Replica)
    requires Lawful(e.c) && UserKey(k) && Told(e, k, body)
    ensures ra == Refreshed(e, Replica(Live(e.c, map[], Put(k, body, Timestamp(100, 0, 1))), seq(LEAVES, _ => 0)))
    ensures rb == Refreshed(e, Replica(map[], seq(LEAVES, _ => 0)))
    ensures Reachable(e, TwoNodes(), s) && Pair(e, s, ra, rb) && s.clocks[1] == Hlc(0, 0) && s.ids == [1, 2]
    ensures Ask1(ReqNode(1, 0)) in s.net
  {
    hide LeavesOf, Live, UserKey, DrillDown.CollisionFree, Root, Reachable;
    var s0 := TwoNodes();
    Start(e, s0);
    var put := Cluster.ClientPut(0, k, body, 100, 0);
    var s1 := Cluster.Next(e, s0, put);
    Then(e, s0, s0, put);
    var s2 := Cluster.Next(e, s1, Cluster.Gossip(0, 1));
    Then(e, s0, s1, Cluster.Gossip(0, 1));
    ra, rb := s2.replicas[0], Refreshed(e, s2.replicas[1]);
    var init := Tell1(SyncInit(Root(e, s1.replicas[0])));
    RootsDiffer(e, s1.replicas[0], s2.replicas[1], ra, rb, Leaves.BucketOf(e.c, k));
    s := Cluster.Next(e, s2, Cluster.Deliver(init, []));
    Then(e, s0, s2, Cluster.Deliver(init, []));
    SameLeaves(e, s1.replicas[0]);
    SameLeaves(e, s2.replicas[1]);
    assert s.replicas == [ra, rb];
    assert ReqNode(1, 0) in Replies(e, s2.replicas[1], init.message, []);
  }

  lemma SameLeaves(e: Env, r: Replica)
    ensures LeavesOf(e, Refreshed(e, r)) == LeavesOf(e, r)
  {
    DrillDown.SameLeaves(e, Refreshed(e, r), r);
  }

  lemma RootsDiffer(e: Env, r: Replica, q: Replica, ra: Replica, rb: Replica, b: nat)
    requires Valid(r) && Valid(q) && ra == Refreshed(e, r) && rb == Refreshed(e, q)
    requires DrillDown.CollisionFree(e.h, LeavesOf(e, ra), LeavesOf(e, rb))
    requires b < LEAVES && LeavesOf(e, ra)[b] != LeavesOf(e, rb)[b]
    ensures Root(e, r) != Root(e, q)
  {
    hide LeavesOf, DrillDown.CollisionFree, Root;
    SameLeaves(e, r);
    SameLeaves(e, q);
    DrillDown.RootIsTree(e, r);
    DrillDown.RootIsTree(e, q);
    DrillDown.DifferAll(e, LeavesOf(e, ra), LeavesOf(e, rb), b, 0);
    DrillDown.UpToRoot(e, LeavesOf(e, ra), LeavesOf(e, rb), b);
  }

  /**
   A reachable state and a step after which the key of node 1 has a smaller time than before: node 1, whose clock has
   only reached 5, holds the record of time 100 that it pulled from node 0, and serves a put.
   */
  lemma TimeGoesBack(e: Env, k: Key, body: Blob, mine: Blob) returns (s: Cluster.State, a: Cluster.Action)
    requires Lawful(e.c) && UserKey(k) && Told(e, k, body)
    ensures Cluster.Init(TwoNodes()) && Reachable(e, TwoNodes(), s) && Cluster.Shape(s)
    ensures a == Cluster.ClientPut(1, k, mine, 5, 0) && Cluster.Enabled(e, s, a)
    ensures LocalTime(e.c, s.replicas[1].store, k) == Timestamp(100, 0, 1)
    ensures LocalTime(e.c, Cluster.Next(e, s, a).replicas[1].store, k) == Timestamp(5, 0, 2)
    ensures Less(Timestamp(5, 0, 2), Timestamp(100, 0, 1))
  {
    hide LeavesOf, Live, UserKey, DrillDown.CollisionFree, Root, Reachable, Lawful, DrillDown.Up, Pair, LocalTime;
    var s1, ra, rb := PutAndAnnounce(e, k, body);
    var w := Mutation(Timestamp(100, 0, 1), k, body, false);
    HeldAfterPut(e.c, w);
    var b := Leaves.BucketOf(e.c, k);
    DrillDown.UpIsRoot(b);
    var s2 := DrillAll(e, TwoNodes(), s1, ra, rb, b, 1);
    var s3 := PullOne(e, TwoNodes(), s2, ra, rb, k, w);
    var p := Tell1(PutVal(k, e.c.meta(w.ts, w.isDelete), Lww.Stored(e.c, w)));
    PairValid(e, s3, ra, rb);
    var take := Cluster.Deliver(p, []);
    s := Cluster.Next(e, s3, take);
    Then(e, TwoNodes(), s3, take);
    TakesOver(e.c, w);
    a := Cluster.ClientPut(1, k, mine, 5, 0);
    Lww.PutIsMutationExactlyWhenLater(e.c, s.replicas[1].store, k, mine, Timestamp(5, 0, 2));
  }

  lemma HeldAfterPut(c: Codec, w: Mutation)
    requires Lawful(c) && UserKey(w.key) && !w.isDelete
    ensures var st := Live(c, map[], Put(w.key, w.value, w.ts));
      Lww.HoldsRecord(c, st, w) && st.Keys == {w.key, MetaKey(w.key)} && Lww.Stored(c, w) == c.normal(w.value)
  {
    hide MetaKey;
    MetaKeysApart(w.key, w.key);
  }

  lemma TakesOver(c: Codec, w: Mutation)
    requires Lawful(c) && UserKey(w.key) && w.ts == Timestamp(100, 0, 1)
    ensures var m := PutVal(w.key, c.meta(w.ts, w.isDelete), Lww.Stored(c, w));
      LocalTime(c, Live(c, map[], Mutate(MutationOf(c, m))), w.key) == w.ts
  {
    hide MetaKey;
    MetaKeysApart(w.key, w.key);
  }
}
