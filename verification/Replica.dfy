/**
 One node of the replicated store as the anti-entropy protocol sees it: its keys, and the leaves as they were when the
 Merkle tree was last refreshed.  Each handler is one step.
 */
module Replica {
  import opened Clock
  import opened Hashing
  import opened Store
  import opened SyncCodec
  import Leaves
  import Merkle

  /** The abstract parts of the engine: the value codec and the hash of tree blocks. */
  datatype Env = Env(c: Codec, h: Merkle.BlockHash)

  /** `seen` is what the interior of the tree was last computed from; the leaves themselves are always current. */
  datatype Replica = Replica(store: KeyMap, seen: seq<Hash>)

  ghost predicate Valid(r: Replica) {
    |r.seen| == LEAVES
  }

  ghost function LeavesOf(e: Env, r: Replica): (s: seq<Hash>)
    ensures |s| == LEAVES
  {
    Leaves.All(e.c, r.store)
  }

  /** The refresh that `get_root_hash` does. */
  ghost function Refreshed(e: Env, r: Replica): Replica {
    r.(seen := LeavesOf(e, r))
  }

  /** A level of the tree as `get_node_hash` reports it. */
  ghost function Level(e: Env, r: Replica, level: nat): (s: seq<Hash>)
    requires Valid(r) && level <= 4
    ensures |s| == Merkle.Width(level)
  {
    Merkle.LevelWidth(e.h, r.seen, level);
    if level == 4 then LeavesOf(e, r) else Merkle.Level(e.h, r.seen, level)
  }

  /** `get_node_hash`; zero below the leaves.  Indices outside a level are never asked for. */
  ghost function Node(e: Env, r: Replica, level: nat, index: nat): Hash
    requires Valid(r)
  {
    if level <= 4 && index < Merkle.Width(level) then Level(e, r, level)[index] else 0
  }

  /** The hash that `on_rep_bucket` compares with: zero when nothing, or nothing but an empty value, is stored. */
  function MyHash(c: Codec, st: KeyMap, key: Key): Hash {
    if |Current(st, key)| > 0 then c.hash(Current(st, key)) else 0
  }

  ghost function Root(e: Env, r: Replica): Hash {
    var now := Refreshed(e, r);
    Level(e, now, 0)[0]
  }

  /** The sixteen children that `on_req_node` reports. */
  ghost function Children(e: Env, r: Replica, level: nat, parent: nat): (s: seq<Hash>)
    requires Valid(r)
    ensures |s| == WAYS
  {
    seq(WAYS, i requires 0 <= i < WAYS => Node(e, r, level, parent * WAYS + i))
  }

  /** What `on_rep_node` asks for: below the leaves' level the children that differ, at the leaves' level the buckets. */
  ghost function Asks(e: Env, r: Replica, level: Byte, parent: nat, hashes: seq<Hash>): set<Message>
    requires Valid(r) && |hashes| == WAYS
  {
    set i | 0 <= i < WAYS && Node(e, r, level, parent * WAYS + i) != hashes[i] ::
      Ask(level, parent * WAYS + i)
  }

  function Ask(level: Byte, child: nat): Message {
    if level == 4 then ReqBucket(child) else ReqNode(if level == 255 then 0 else level + 1, child)
  }

  /** The loop of `on_rep_node`: one request, in order, for every child whose hash is not the one reported. */
  method CompareChildren(mine: seq<Hash>, level: Byte, parent: nat, hashes: seq<Hash>) returns (out: seq<Message>)
    requires |mine| == |hashes| == WAYS
    ensures (set m | m in out) == (set i | 0 <= i < WAYS && mine[i] != hashes[i] :: Ask(level, parent * WAYS + i))
    ensures forall j, k :: 0 <= j < k < |out| ==> out[j] != out[k]
  {
    hide Ask;
    out := [];
    for i := 0 to WAYS
      invariant forall j :: 0 <= j < i && mine[j] != hashes[j] ==> Ask(level, parent * WAYS + j) in out
      invariant forall m :: m in out ==> exists j :: 0 <= j < i && mine[j] != hashes[j] && m == Ask(level, parent * WAYS + j)
      invariant forall j, k :: 0 <= j < k < |out| ==> out[j] != out[k]
    {
      ghost var before := out;
      if mine[i] != hashes[i] {
        AskApart(level, parent, before, mine, hashes, i);
        out := out + [Ask(level, parent * WAYS + i)];
      }
    }
  }

  /** Different children are asked for in different messages. */
  lemma AskApart(level: Byte, parent: nat, out: seq<Message>, mine: seq<Hash>, hashes: seq<Hash>, i: nat)
    requires |mine| == |hashes| == WAYS && i < WAYS
    requires forall m :: m in out ==> exists j :: 0 <= j < i && mine[j] != hashes[j] && m == Ask(level, parent * WAYS + j)
    ensures Ask(level, parent * WAYS + i) !in out
  {
  }

  /** The loop of `on_rep_bucket` over the entries of a listing. */
  method CompareListing(c: Codec, st: KeyMap, listing: seq<(Key, Hash)>) returns (out: seq<Message>)
    ensures (set m | m in out) == Wants(c, st, listing)
  {
    hide MyHash;
    out := [];
    for i := 0 to |listing|
      invariant (set m | m in out) == Wants(c, st, listing[..i])
    {
      WantsMore(c, st, listing, i);
      if MyHash(c, st, listing[i].0) != listing[i].1 {
        out := out + [GetVal(listing[i].0)];
      }
    }
    assert listing[..|listing|] == listing;
  }

  lemma WantsMore(c: Codec, st: KeyMap, listing: seq<(Key, Hash)>, i: nat)
    requires i < |listing|
    ensures Wants(c, st, listing[..i + 1]) == Wants(c, st, listing[..i]) +
      if MyHash(c, st, listing[i].0) != listing[i].1 then {GetVal(listing[i].0)} else {}
  {
    hide MyHash;
    forall m | m in Wants(c, st, listing[..i + 1])
      ensures m in Wants(c, st, listing[..i]) || (m == GetVal(listing[i].0) && MyHash(c, st, listing[i].0) != listing[i].1)
    {
      var j :| 0 <= j < i + 1 && MyHash(c, st, listing[j].0) != listing[j].1 && m == GetVal(listing[j].0);
      if j < i {
        assert listing[..i][j] == listing[j];
      }
    }
    forall m | m in Wants(c, st, listing[..i]) ensures m in Wants(c, st, listing[..i + 1]) {
      var j :| 0 <= j < i && MyHash(c, st, listing[j].0) != listing[j].1 && m == GetVal(listing[j].0);
      assert listing[..i + 1][j] == listing[j];
    }
    assert listing[..i + 1][i] == listing[i];
  }

  /** What `on_rep_bucket` asks for. */
  function Wants(c: Codec, st: KeyMap, listing: seq<(Key, Hash)>): set<Message> {
    set i | 0 <= i < |listing| && MyHash(c, st, listing[i].0) != listing[i].1 :: GetVal(listing[i].0)
  }

  /** The replica after a message. */
  ghost function After(e: Env, r: Replica, m: Message): (r': Replica)
    requires Valid(r)
    ensures Valid(r')
  {
    match m
    case SyncInit(_) => Refreshed(e, r)
    case PutVal(_, _, _) => r.(store := Live(e.c, r.store, Mutate(MutationOf(e.c, m))))
    case _ => r
  }

  /** The messages sent back; `keys` is what `get_bucket_keys` returns if it is called. */
  ghost function Replies(e: Env, r: Replica, m: Message, keys: seq<(Key, Hash)>): set<Message>
    requires Valid(r)
  {
    match m
    case SyncInit(root) => if Root(e, r) == root then {} else {ReqNode(1, 0)}
    case ReqNode(level, parent) => {RepNode(level, parent, Children(e, r, level, parent))}
    case RepNode(level, parent, hashes) => if |hashes| == WAYS then Asks(e, r, level, parent, hashes) else {}
    case ReqBucket(bucket) => {RepBucket(bucket, Visible(keys))}
    case RepBucket(_, listing) => Wants(e.c, r.store, listing)
    case GetVal(key) =>
      var meta := Current(r.store, key + META_SUFFIX);
      if meta == [] then {} else {PutVal(key, meta, Current(r.store, key))}
    case PutVal(_, _, _) => {}
  }

  /** The order in which a bucket is listed is not fixed, what is listed is. */
  ghost predicate PossibleListing(e: Env, r: Replica, m: Message, keys: seq<(Key, Hash)>) {
    m.ReqBucket? ==> Leaves.Lists(e.c, r.store, m.bucket, keys)
  }

  /** At the leaves' level the bucket is asked for, elsewhere the children of the node, one level down in eight bits. */
  lemma AskFollows(level: Byte, child: nat)
    ensures Ask(level, child) == if level == 4 then ReqBucket(child) else ReqNode((level + 1) % 256, child)
  {
  }

  /** A value without a metadata record has the time (0, 0, 0), and no store whose record is not before that takes it. */
  lemma NoMetaIsIgnored(e: Env, r: Replica, m: Message)
    requires Valid(r) && m.PutVal? && m.meta == [] && !Less(LocalTime(e.c, r.store, m.key), Timestamp(0, 0, 0))
    ensures After(e, r, m) == r
  {
    hide LocalTime;
  }

  /** Where there is no record, a value is taken exactly if its time is later than (0, 0, 0). */
  lemma FirstRecordIsTaken(c: Codec, st: KeyMap, m: Mutation)
    requires MetaKey(m.key) !in st
    ensures Accepts(c, st, m) <==> Less(Timestamp(0, 0, 0), m.ts)
  {
    hide MetaKey;
    OrderIsTotal(m.ts, Timestamp(0, 0, 0), m.ts);
  }
}
