/**
 The runs of `Cluster` on the wire: every message that a step sends is encoded in bytes that decode, at the receiver, to
 the sender and exactly the message that the run delivers.
 */
module Wire {
  import opened Hashing
  import opened Clock
  import opened Store
  import opened SyncCodec
  import opened Replica
  import Cluster
  import Leaves
  import Lww
  import Merkle
  import Wal

  /** Metadata records fit the length field of a value message. */
  ghost predicate ShortMeta(c: Codec) {
    forall ts: Timestamp, t: bool :: |c.meta(ts, t)| < Wal.KEY_LIMIT
  }

  /** A message as its sender encodes it: a bucket reply is made from the whole listing, metadata keys included. */
  function Raw(m: Message, keys: seq<(Key, Hash)>): Message {
    match m
    case RepBucket(bucket, _) => RepBucket(bucket, keys)
    case _ => m
  }

  /** Requests and replies of the drill-down name nodes of the tree. */
  predicate InTree(m: Message) {
    match m
    case ReqNode(level, parent) => 1 <= level <= 4 && parent < Merkle.Width(level - 1)
    case RepNode(level, parent, hashes) => 1 <= level <= 4 && parent < Merkle.Width(level - 1) && |hashes| == WAYS
    case ReqBucket(bucket) => bucket < LEAVES
    case RepBucket(bucket, _) => bucket < LEAVES
    case _ => true
  }

  lemma ReplyInTree(e: Env, r: Replica, m: Message, keys: seq<(Key, Hash)>, out: Message)
    requires Valid(r) && InTree(m) && out in Replies(e, r, m, keys)
    ensures InTree(out)
  {
    hide Root, Children, Node;
    if m.RepNode? {
      var i :| 0 <= i < WAYS && Node(e, r, m.level, m.parent * WAYS + i) != m.hashes[i] && out == Ask(m.level, m.parent * WAYS + i);
    }
  }

  lemma {:induction false} NetInTree(e: Env, s0: Cluster.State, schedule: seq<Cluster.Action>, s: Cluster.State)
    requires Cluster.Init(s0) && Cluster.Execute(e, s0, schedule) == Cluster.RunsTo(s)
    ensures forall p :: p in s.net ==> InTree(p.message)
    decreases |schedule|
  {
    hide InTree, Replies, Root, Live;
    if schedule != [] {
      var a := schedule[|schedule| - 1];
      var m := Cluster.Execute(e, s0, schedule[..|schedule| - 1]).state;
      NetInTree(e, s0, schedule[..|schedule| - 1], m);
      match a
      case Deliver(p, keys) =>
        forall q | q in s.net && q !in m.net ensures InTree(q.message) {
          ReplyInTree(e, m.replicas[p.to], p.message, keys, q.message);
        }
      case Gossip(i, peer) => InitInTree(Root(e, m.replicas[i]));
      case _ =>
    }
  }

  lemma InitInTree(root: Hash)
    ensures InTree(SyncInit(root))
  {
  }

  // ---------------------------------------------------------------- lengths

  lemma {:induction false} ListingIsSmall(c: Codec, st: KeyMap, b: nat, l: seq<(Key, Hash)>)
    requires Leaves.Lists(c, st, b, l)
    ensures |l| <= |st|
    decreases |l|
  {
    if l != [] {
      var k := l[0].0;
      assert Leaves.Holds(c, st, b, l[0]);
      Leaves.ListsRest(c, st, b, l);
      ListingIsSmall(c, st - {k}, b, l[1..]);
      assert (st - {k}).Keys == st.Keys - {k};
      assert |st| == |st.Keys| && |st - {k}| == |(st - {k}).Keys|;
    }
  }

  /** Keys of a store of client writes are short. */
  lemma KeysAreShort(c: Codec, st: KeyMap, writes: set<Mutation>, x: Key)
    requires Cluster.Sourced(c, st, writes) && x in st && forall w :: w in writes ==> UserKey(w.key)
    ensures |x| < 1024
  {
    hide MetaKey, Lww.HoldsRecord;
    assert Cluster.Backed(c, st, writes, x);
    var w :| w in writes && Cluster.Witness(c, st, x, w);
    MetaKeysApart(w.key, w.key);
  }

  /** The metadata of a store of client writes is short. */
  lemma MetaIsShort(c: Codec, st: KeyMap, writes: set<Mutation>, k: Key)
    requires ShortMeta(c) && Cluster.Sourced(c, st, writes) && k + META_SUFFIX in st
    requires forall w :: w in writes ==> UserKey(w.key)
    ensures |st[k + META_SUFFIX]| < Wal.KEY_LIMIT && |k| < 1024
  {
    hide MetaKey, UserKey, Cluster.Witness, Cluster.Carries;
    var x := k + META_SUFFIX;
    assert Cluster.Backed(c, st, writes, x);
    var w :| w in writes && Cluster.Witness(c, st, x, w);
    Cluster.AnswerCarries(c, st, k, w);
    CarriedIsShort(c, PutVal(k, st[x], Current(st, k)), w);
    KeysAreShort(c, st, writes, x);
  }

  lemma CarriedIsShort(c: Codec, m: Message, w: Mutation)
    requires ShortMeta(c) && Cluster.Carries(c, m, w)
    ensures m.PutVal? && |m.meta| < Wal.KEY_LIMIT
  {
  }

  // ---------------------------------------------------------------- every message of a run

  lemma ReplyIsSendable(e: Env, r: Replica, m: Message, keys: seq<(Key, Hash)>, writes: set<Mutation>, out: Message)
    requires Valid(r) && InTree(m) && out in Replies(e, r, m, keys) && PossibleListing(e, r, m, keys)
    requires ShortMeta(e.c) && Cluster.Sourced(e.c, r.store, writes) && |r.store| < Wal.PAYLOAD_LIMIT
    requires forall w :: w in writes ==> UserKey(w.key)
    ensures Sendable(Raw(out, keys)) && Arrives(Raw(out, keys)) == out
  {
    hide Cluster.Sourced, UserKey, ShortMeta, Root, Children, Node, Leaves.Lists;
    ReplyInTree(e, r, m, keys, out);
    WidthsFit();
    match m
    case ReqBucket(bucket) =>
      ListingIsSmall(e.c, r.store, bucket, keys);
      forall i | 0 <= i < |keys| ensures |keys[i].0| < Wal.KEY_LIMIT {
        ListedIsStored(e.c, r.store, bucket, keys, i);
        KeysAreShort(e.c, r.store, writes, keys[i].0);
      }
    case GetVal(k) => MetaIsShort(e.c, r.store, writes, k);
    case RepNode(level, parent, hashes) =>
      var i :| 0 <= i < WAYS && Node(e, r, m.level, m.parent * WAYS + i) != m.hashes[i] && out == Ask(m.level, m.parent * WAYS + i);
    case _ =>
  }

  lemma ListedIsStored(c: Codec, st: KeyMap, b: nat, l: seq<(Key, Hash)>, i: nat)
    requires Leaves.Lists(c, st, b, l) && i < |l|
    ensures l[i].0 in st
  {
    assert Leaves.Holds(c, st, b, l[i]);
  }

  lemma WidthsFit()
    ensures forall level :: 0 <= level <= 4 ==> Merkle.Width(level) < Wal.PAYLOAD_LIMIT
  {
  }

  /**
   In every run, whatever a delivery makes a replica send is sent as bytes that decode to the sender's number and
   exactly the message that the run goes on with.
   */
  lemma RunsGoOverTheWire(e: Env, s0: Cluster.State, schedule: seq<Cluster.Action>, s: Cluster.State,
                          p: Cluster.Packet, keys: seq<(Key, Hash)>, out: Message)
    requires Lawful(e.c) && ShortMeta(e.c)
    requires Cluster.Init(s0) && Cluster.Execute(e, s0, schedule) == Cluster.RunsTo(s)
    requires Cluster.Enabled(e, s, Cluster.Deliver(p, keys)) && out in Replies(e, s.replicas[p.to], p.message, keys)
    requires s.ids[p.to] < Wal.PAYLOAD_LIMIT && |s.replicas[p.to].store| < Wal.PAYLOAD_LIMIT
    ensures Sendable(Raw(out, keys))
    ensures Decode(Encode(s.ids[p.to], Raw(out, keys))) == Some((s.ids[p.to], out))
  {
    hide Lawful, ShortMeta, Cluster.Execute, Replies, Sendable, InTree, Cluster.Sourced, Cluster.WritesInv, Cluster.Genuine;
    hide Decode, Encode, Raw, Arrives, UserKey;
    Cluster.ReachableInv(e, s0, schedule, s);
    Cluster.AllUserKeys(s);
    NetInTree(e, s0, schedule, s);
    ReplyIsSendable(e, s.replicas[p.to], p.message, keys, s.writes, out);
    RoundTrip(s.ids[p.to], Raw(out, keys));
  }
}
