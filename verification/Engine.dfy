/**
 The engine as an object: eight shard maps, the write-ahead log and the Merkle index, kept in step by every operation.
 */
module Engine {
  import Crc
  import opened Arith
  import opened Hashing
  import opened Clock
  import opened Store
  import Leaves
  import Merkle
  import Wal

  type Byte = Crc.Byte

  const SHARDS := 8

  // ---------------------------------------------------------------- routing

  /** The first position of a byte from a given one on; the length when there is none. */
  function Find(s: seq<Byte>, x: Byte, from: nat): (r: nat)
    requires from <= |s|
    ensures from <= r <= |s|
    ensures r < |s| ==> s[r] == x
    ensures x !in s[from..r]
    decreases |s| - from
  {
    if from == |s| || s[from] == x then from
    else
      var r := Find(s, x, from + 1);
      assert s[from..r] == [s[from]] + s[from + 1..r];
      r
  }

  /** The part of a key that decides its shard: the text between the first brace and the next closing one. */
  function Tag(key: Key): Key {
    var start := Find(key, 123, 0);
    if start == |key| then key
    else
      var end := Find(key, 125, start + 1);
      if end == |key| then key else key[start + 1..end]
  }

  function Route(c: Codec, key: Key): (i: nat)
    ensures i < SHARDS
  {
    assert PowerOfTwo(3) == 8;
    LowBits(c.hash(Tag(key)), 3)
  }

  /** Keys with the same tag share a shard, whatever stands around the tag. */
  lemma SameTagSameShard(c: Codec, tag: Key, before: Key, after: Key, before': Key, after': Key)
    requires 123 !in before && 123 !in before' && 125 !in tag
    ensures Route(c, before + [123] + tag + [125] + after) == Route(c, before' + [123] + tag + [125] + after')
  {
    TagOf(before, tag, after);
    TagOf(before', tag, after');
  }

  lemma {:induction false} FindIs(s: seq<Byte>, x: Byte, from: nat, at: nat)
    requires from <= at < |s| && s[at] == x && x !in s[from..at]
    ensures Find(s, x, from) == at
    decreases at - from
  {
    if from < at {
      assert s[from..at] == [s[from]] + s[from + 1..at];
      FindIs(s, x, from + 1, at);
    }
  }

  lemma TagOf(before: Key, tag: Key, after: Key)
    requires 123 !in before && 125 !in tag
    ensures Tag(before + [123] + tag + [125] + after) == tag
  {
    hide Find;
    var key := before + [123] + tag + [125] + after;
    var open, close := |before|, |before| + 1 + |tag|;
    assert key[0..open] == before && key[open + 1..close] == tag;
    FindIs(key, 123, 0, open);
    FindIs(key, 125, open + 1, close);
  }

  /** The key holds no brace that is closed later on. */
  predicate NoClosedBraces(key: Key) {
    forall i, j :: 0 <= i < j < |key| && key[i] == 123 ==> key[j] != 125
  }

  lemma RouteByHash(c: Codec, key: Key)
    ensures Route(c, key) == AsNumber(c.hash(Tag(key))) % SHARDS
  {
    hide LowBits, Tag;
    assert PowerOfTwo(3) == 8;
    KeepBits(c.hash(Tag(key)), 3, 61);
  }

  /** A tagged key goes to the shard of its tag: the hash of the tag, as a number, modulo the number of shards. */
  lemma RouteOfTagged(c: Codec, before: Key, tag: Key, after: Key)
    requires 123 !in before && 125 !in tag
    ensures Route(c, before + [123] + tag + [125] + after) == AsNumber(c.hash(tag)) % SHARDS
  {
    hide AsNumber, Tag, Route;
    RouteByHash(c, before + [123] + tag + [125] + after);
    TagOf(before, tag, after);
  }

  /** Any other key goes to the shard of its own hash. */
  lemma RouteOfPlain(c: Codec, key: Key)
    requires NoClosedBraces(key)
    ensures Route(c, key) == AsNumber(c.hash(key)) % SHARDS
  {
    hide AsNumber, Tag, Route;
    RouteByHash(c, key);
    WholeKey(key);
  }

  lemma WholeKey(key: Key)
    requires NoClosedBraces(key)
    ensures Tag(key) == key
  {
    var start := Find(key, 123, 0);
    if start < |key| {
      var end := Find(key, 125, start + 1);
    }
  }

  // ---------------------------------------------------------------- shards as one store

  type Shards = s: seq<KeyMap> | |s| == SHARDS witness [map[], map[], map[], map[], map[], map[], map[], map[]]

  const EMPTY: Shards := [map[], map[], map[], map[], map[], map[], map[], map[]]

  /** Every key lives only in its routing shard. */
  ghost predicate Routed(c: Codec, shards: Shards) {
    forall i, k :: 0 <= i < SHARDS && k in shards[i] ==> Route(c, k) == i
  }

  function KeysUpTo(shards: Shards, n: nat): (r: set<Key>)
    requires n <= SHARDS
    ensures forall k :: k in r <==> exists i :: 0 <= i < n && k in shards[i]
  {
    if n == 0 then {} else KeysUpTo(shards, n - 1) + shards[n - 1].Keys
  }

  /** The store that the shards hold together. */
  function Merged(c: Codec, shards: Shards): KeyMap {
    map k | k in KeysUpTo(shards, SHARDS) && k in shards[Route(c, k)] :: shards[Route(c, k)][k]
  }

  /** Each key is found where routing looks for it and nowhere else. */
  lemma MergedAt(c: Codec, shards: Shards, key: Key)
    ensures key in Merged(c, shards) <==> key in shards[Route(c, key)]
    ensures key in Merged(c, shards) ==> Merged(c, shards)[key] == shards[Route(c, key)][key]
  {
  }

  lemma EmptyShards(c: Codec)
    ensures Routed(c, EMPTY) && Merged(c, EMPTY) == map[]
  {
    hide Merged, Route;
    forall k ensures k !in Merged(c, EMPTY) {
      MergedAt(c, EMPTY, k);
    }
  }

  lemma MergedUpdate(c: Codec, shards: Shards, key: Key, v: Blob)
    requires Routed(c, shards)
    ensures var i := Route(c, key);
      var shards' := shards[i := shards[i][key := v]];
      Routed(c, shards') && Merged(c, shards') == Merged(c, shards)[key := v]
  {
    hide Route, Merged;
    var i := Route(c, key);
    var shards': Shards := shards[i := shards[i][key := v]];
    forall k
      ensures k in Merged(c, shards') <==> k in Merged(c, shards)[key := v]
      ensures k in Merged(c, shards') ==> Merged(c, shards')[k] == Merged(c, shards)[key := v][k]
    {
      MergedAt(c, shards, k);
      MergedAt(c, shards', k);
    }
  }

  /** The store that the first n shards hold. */
  function Upto(c: Codec, shards: Shards, n: nat): KeyMap
    requires n <= SHARDS
  {
    if n == 0 then map[] else Upto(c, shards, n - 1) + shards[n - 1]
  }

  lemma {:induction false} UptoKeys(c: Codec, shards: Shards, n: nat, k: Key)
    requires n <= SHARDS && Routed(c, shards)
    ensures k in Upto(c, shards, n) <==> Route(c, k) < n && k in shards[Route(c, k)]
    ensures k in Upto(c, shards, n) ==> Upto(c, shards, n)[k] == shards[Route(c, k)][k]
  {
    hide Route;
    if n > 0 {
      UptoKeys(c, shards, n - 1, k);
    }
  }

  lemma UptoMore(c: Codec, shards: Shards, n: nat)
    requires n < SHARDS && Routed(c, shards)
    ensures Upto(c, shards, n + 1) == Upto(c, shards, n) + shards[n]
    ensures Upto(c, shards, n).Keys !! shards[n].Keys
  {
    hide Route;
    forall k | k in shards[n] ensures k !in Upto(c, shards, n) {
      UptoKeys(c, shards, n, k);
    }
  }

  lemma UptoAll(c: Codec, shards: Shards)
    requires Routed(c, shards)
    ensures Upto(c, shards, SHARDS) == Merged(c, shards)
  {
    hide Route, Merged, Upto;
    forall k
      ensures k in Upto(c, shards, SHARDS) <==> k in Merged(c, shards)
      ensures k in Merged(c, shards) ==> Upto(c, shards, SHARDS)[k] == Merged(c, shards)[k]
    {
      UptoKeys(c, shards, SHARDS, k);
      MergedAt(c, shards, k);
    }
  }

  lemma NothingListed(c: Codec, shards: Shards, b: nat)
    ensures Leaves.Lists(c, Upto(c, shards, 0), b, [])
  {
  }

  class Engine {
    const c: Codec
    const wal: Wal.WriteAheadLog
    const tree: Merkle.MerkleTree
    var shards: Shards

    ghost function Contents(): KeyMap
      reads this
    {
      Merged(c, shards)
    }

    ghost predicate Valid()
      reads this, tree
    {
      && Routed(c, shards)
      && tree.Valid()
      && tree.leaves == Leaves.All(c, Contents())
    }

    /** Starts on an existing log file: recovers it and replays what it holds. */
    constructor (c: Codec, h: Merkle.BlockHash, file: seq<Byte>)
      ensures Valid() && fresh(wal) && fresh(tree) && this.c == c && tree.h == h
      ensures Contents() == ReplayAll(c, map[], Wal.RecoverFrom(file).ops)
      ensures wal.file == file[..Wal.RecoverFrom(file).end]
    {
      this.c := c;
      wal := new Wal.WriteAheadLog(file);
      tree := new Merkle.MerkleTree(h);
      shards := EMPTY;
      new;
      hide Leaves.All, Merged, Route, ReplayAll, Wal.RecoverFrom, Merkle.MerkleTree.Valid;
      Leaves.AllEmpty(c);
      EmptyShards(c);
      var ops := wal.Recover();
      ReplayOps(ops);
    }

    /** The recovery callback, once for every operation of the log. */
    method ReplayOps(ops: seq<Wal.Op>)
      requires Valid()
      modifies this`shards, tree
      ensures Valid() && Contents() == ReplayAll(c, old(Contents()), ops)
    {
      hide Valid, Contents, Replay;
      for i := 0 to |ops|
        invariant Valid()
        invariant ReplayAll(c, Contents(), ops[i..]) == ReplayAll(c, old(Contents()), ops)
      {
        assert ops[i..][1..] == ops[i + 1..];
        ReplayOp(ops[i]);
      }
    }

    /** Stores a value under a key: the shard map and the leaf change together. */
    method StoreBlob(key: Key, v: Blob)
      requires Valid()
      modifies this`shards, tree
      ensures Valid() && Contents() == old(Contents())[key := v]
    {
      hide Leaves.All, Merged, Route;
      var i := Route(c, key);
      MergedAt(c, shards, key);
      var oldHash := if key in shards[i] then c.hash(shards[i][key]) else 0;
      MergedUpdate(c, shards, key, v);
      Leaves.AllUpdate(c, Contents(), key, v);
      shards := shards[i := shards[i][key := v]];
      tree.ApplyDelta(c.hash(key), Xor(oldHash, c.hash(v)));
    }

    method ApplyPut(key: Key, body: seq<Byte>)
      requires Valid()
      modifies this`shards, tree
      ensures Valid() && Contents() == Store.ApplyPut(c, old(Contents()), key, body)
    {
      StoreBlob(key, c.normal(body));
    }

    method ApplyDel(key: Key) returns (done: bool)
      requires Valid()
      modifies this`shards, tree
      ensures done && Valid() && Contents() == Store.ApplyDel(old(Contents()), key)
    {
      StoreBlob(key, []);
      done := true;
    }

    /** The stored value of a key, or an empty one. */
    method Get(key: Key) returns (b: Blob)
      ensures b == Current(Contents(), key)
    {
      MergedAt(c, shards, key);
      var shard := shards[Route(c, key)];
      b := if key in shard then shard[key] else [];
    }

    /** False when the value takes no integer field: the source throws, and stores nothing. */
    method ApplyPatchInt(key: Key, field: seq<Byte>, v: int) returns (ok: bool)
      requires Valid()
      modifies this`shards, tree
      ensures Valid() && ok == Store.ApplyPatchInt(c, old(Contents()), key, field, v).Some?
      ensures Contents() == OrElse(Store.ApplyPatchInt(c, old(Contents()), key, field, v), old(Contents()))
      ensures ok && Lawful(c) && Int64(v) ==> Patched(c, old(Contents()), Contents(), key, field, Number(v))
      ensures OnlyTouches(old(Contents()), Contents(), {key}) && (!ok ==> Contents() == old(Contents()))
    {
      var blob := Get(key);
      var patched := c.setInt(blob, field, v);
      ok := patched.Some?;
      if ok {
        StoreBlob(key, patched.value);
      }
    }

    method ApplyPatchStr(key: Key, field: seq<Byte>, v: seq<Byte>) returns (ok: bool)
      requires Valid()
      modifies this`shards, tree
      ensures Valid() && ok == Store.ApplyPatchStr(c, old(Contents()), key, field, v).Some?
      ensures Contents() == OrElse(Store.ApplyPatchStr(c, old(Contents()), key, field, v), old(Contents()))
      ensures ok && Lawful(c) ==> Patched(c, old(Contents()), Contents(), key, field, Text(v))
      ensures OnlyTouches(old(Contents()), Contents(), {key}) && (!ok ==> Contents() == old(Contents()))
    {
      var blob := Get(key);
      var patched := c.setStr(blob, field, v);
      ok := patched.Some?;
      if ok {
        StoreBlob(key, patched.value);
      }
    }

    /** The recovery callback. */
    method ReplayOp(o: Wal.Op)
      requires Valid()
      modifies this`shards, tree
      ensures Valid() && Contents() == Replay(c, old(Contents()), o)
    {
      hide Valid, Split, ParseLong, Contents;
      if o.op == PUT {
        ApplyPut(o.key, o.value);
      } else if o.op == PATCH_I64 {
        var parts := Split(o.value);
        if parts.Some? {
          var v := ParseLong(parts.value.1);
          if v.Some? {
            var _ := ApplyPatchInt(o.key, parts.value.0, v.value);
          }
        }
      } else if o.op == PATCH_STR {
        var parts := Split(o.value);
        if parts.Some? {
          var _ := ApplyPatchStr(o.key, parts.value.0, parts.value.1);
        }
      } else if o.op == DELETE {
        var _ := ApplyDel(o.key);
      }
    }

    /** The log and the store after a command. */
    twostate predicate Did(cmd: Command)
      reads this, wal
    {
      && Contents() == Live(c, old(Contents()), cmd)
      && wal.file == old(wal.file) + Wal.Encode(Wal.Batch(Logged(c, old(Contents()), cmd)))
    }

    /** What a reader sees of a patch: the field set in a value that takes it, and nothing else changed but the metadata. */
    twostate predicate PatchResult(cmd: Command)
      requires cmd.PatchInt? || cmd.PatchStr?
      reads this
    {
      && OnlyTouches(old(Contents()), Contents(), {cmd.key, MetaKey(cmd.key)})
      && (Lawful(c) && WellFormed(cmd) && TakesField(c, old(Contents()), cmd) ==>
            Patched(c, old(Contents()), Contents(), cmd.key, cmd.field, Content(cmd)))
    }

    method Put(key: Key, body: seq<Byte>, now: Timestamp)
      requires Valid()
      modifies this`shards, tree, wal
      ensures Valid() && Did(Command.Put(key, body, now))
    {
      hide Valid, Contents, Wal.Encode, MetaKey;
      var metaKey, metaVal := MetaKey(key), c.meta(now, false);
      wal.AppendBatch([Wal.Op(PUT, key, body), Wal.Op(PUT, metaKey, metaVal)]);
      ApplyPut(key, body);
      ApplyPut(metaKey, metaVal);
    }

    method Del(key: Key, now: Timestamp) returns (done: bool)
      requires Valid()
      modifies this`shards, tree, wal
      ensures done && Valid() && Did(Command.Del(key, now))
    {
      hide Valid, Contents, Wal.Encode, MetaKey;
      var metaKey, metaVal := MetaKey(key), c.meta(now, true);
      wal.AppendBatch([Wal.Op(DELETE, key, []), Wal.Op(PUT, metaKey, metaVal)]);
      done := ApplyDel(key);
      ApplyPut(metaKey, metaVal);
    }

    /** False when the source throws; the log entry is written by then. */
    method PatchInt(key: Key, field: seq<Byte>, v: int, now: Timestamp) returns (ok: bool)
      requires Valid()
      modifies this`shards, tree, wal
      ensures Valid() && Did(Command.PatchInt(key, field, v, now))
      ensures PatchResult(Command.PatchInt(key, field, v, now))
    {
      hide Valid, Contents, Wal.Encode, MetaKey, TimeText, Printed;
      var metaKey, time := MetaKey(key), TimeText(now);
      wal.AppendBatch([Wal.Op(PATCH_I64, key, field + [COLON] + Printed(v)),
                       Wal.Op(PATCH_STR, metaKey, field + [COLON] + time)]);
      ok := ApplyPatchInt(key, field, v);
      if ok {
        ok := ApplyPatchStr(metaKey, field, time);
      }
      ReadAfterPatch(c, old(Contents()), Command.PatchInt(key, field, v, now));
    }

    method PatchStr(key: Key, field: seq<Byte>, text: seq<Byte>, now: Timestamp) returns (ok: bool)
      requires Valid()
      modifies this`shards, tree, wal
      ensures Valid() && Did(Command.PatchStr(key, field, text, now))
      ensures PatchResult(Command.PatchStr(key, field, text, now))
    {
      hide Valid, Contents, Wal.Encode, MetaKey, TimeText;
      var metaKey, time := MetaKey(key), TimeText(now);
      wal.AppendBatch([Wal.Op(PATCH_STR, key, field + [COLON] + text),
                       Wal.Op(PATCH_STR, metaKey, field + [COLON] + time)]);
      ok := ApplyPatchStr(key, field, text);
      if ok {
        ok := ApplyPatchStr(metaKey, field, time);
      }
      ReadAfterPatch(c, old(Contents()), Command.PatchStr(key, field, text, now));
    }

    /** A mutation from another node: taken only when it is later than the metadata record of its key. */
    method ApplyMutation(m: Mutation)
      requires Valid()
      modifies this`shards, tree, wal
      ensures Valid() && Did(Mutate(m))
    {
      hide Valid, Contents, Wal.Encode, MetaKey, LessEq;
      var metaKey := MetaKey(m.key);
      var buf := Get(metaKey);
      var localTime := if |buf| > 0 then c.metaTime(buf) else ZERO;
      if LessEq(m.ts, localTime) {
        NoEntry();
        return;
      }
      var metaVal := c.meta(m.ts, m.isDelete);
      var first := if m.isDelete then Wal.Op(DELETE, m.key, []) else Wal.Op(PUT, m.key, m.value);
      wal.AppendBatch([first, Wal.Op(PUT, metaKey, metaVal)]);
      if m.isDelete {
        var _ := ApplyDel(m.key);
      } else {
        ApplyPut(m.key, m.value);
      }
      ApplyPut(metaKey, metaVal);
    }

    /** One command, as the client gave it. */
    method Do(cmd: Command)
      requires Valid()
      modifies this`shards, tree, wal
      ensures Valid() && Did(cmd)
      ensures cmd.PatchInt? || cmd.PatchStr? ==> PatchResult(cmd)
    {
      hide Valid, Did, PatchResult;
      match cmd
      case Put(key, body, now) => Put(key, body, now);
      case Del(key, now) => var _ := Del(key, now);
      case PatchInt(key, field, v, now) => var _ := PatchInt(key, field, v, now);
      case PatchStr(key, field, text, now) => var _ := PatchStr(key, field, text, now);
      case Mutate(m) => ApplyMutation(m);
    }

    /** A sequential run: the store is the run's and the log has grown by the run's entries. */
    method RunAll(cmds: seq<Command>)
      requires Valid()
      modifies this`shards, tree, wal
      ensures Valid() && Contents() == Run(c, old(Contents()), cmds)
      ensures wal.file == old(wal.file) + Wal.Log(Entries(c, old(Contents()), cmds))
    {
      hide Valid, Contents, Live, Logged, Wal.Encode;
      for i := 0 to |cmds|
        invariant Valid()
        invariant Run(c, Contents(), cmds[i..]) == Run(c, old(Contents()), cmds)
        invariant wal.file + Wal.Log(Entries(c, Contents(), cmds[i..]))
               == old(wal.file) + Wal.Log(Entries(c, old(Contents()), cmds))
      {
        ghost var st, file := Contents(), wal.file;
        assert cmds[i..][1..] == cmds[i + 1..];
        FirstEntry(c, st, cmds[i..], file);
        Do(cmds[i]);
      }
    }

    /** The keys of one shard that fall into a bucket, with the hashes of their values. */
    method ShardKeys(i: nat, b: nat) returns (r: seq<(Key, Hash)>)
      requires i < SHARDS
      ensures Leaves.Lists(c, shards[i], b, r)
    {
      r := [];
      var rest := shards[i];
      ghost var done: KeyMap := map[];
      while rest != map[]
        invariant forall k :: k in shards[i] <==> k in rest || k in done
        invariant forall k :: k in rest ==> k in shards[i] && k !in done && rest[k] == shards[i][k]
        invariant forall k :: k in done ==> k in shards[i] && done[k] == shards[i][k]
        invariant Leaves.Lists(c, done, b, r)
        decreases |rest|
      {
        var k :| k in rest;
        Leaves.ListsMore(c, done, b, r, k, rest[k]);
        if Bucket(c.hash(k)) == b {
          r := r + [(k, c.hash(rest[k]))];
        }
        done := done[k := rest[k]];
        rest := rest - {k};
      }
      assert done == shards[i];
    }

    /** All keys of a bucket; the XOR of their hashes is the leaf. */
    method GetBucketKeys(b: nat) returns (r: seq<(Key, Hash)>)
      requires Valid() && b < LEAVES
      ensures Leaves.Lists(c, Contents(), b, r)
      ensures tree.leaves[b] == Leaves.XorOf(r)
    {
      hide Leaves.Lists, Leaves.XorOf;
      r := [];
      assert Leaves.Lists(c, Upto(c, shards, 0), b, r) by { NothingListed(c, shards, b); }
      for i := 0 to SHARDS
        invariant Leaves.Lists(c, Upto(c, shards, i), b, r)
      {
        var part := ShardKeys(i, b);
        UptoMore(c, shards, i);
        Leaves.ListsUnion(c, Upto(c, shards, i), shards[i], b, r, part);
        r := r + part;
      }
      UptoAll(c, shards);
      Leaves.LeafOfListing(c, Contents(), b, r);
    }
  }

  /**
   An engine runs commands, crashes, and is restarted on whatever prefix of its log the crash has left: its store is
   that after the commands whose entry is wholly in the file, and its root is the root of the full rehash of that store.
   */
  method RestartAfterCrash(c: Codec, h: Merkle.BlockHash, cmds: seq<Command>, n: nat) returns (e: Engine, root: Hash)
    requires GoodRun(c, map[], cmds) && n <= |Wal.Log(Entries(c, map[], cmds))|
    ensures e.Valid()
    ensures var survived := Run(c, map[], cmds[..Wal.Complete(Entries(c, map[], cmds), n)]);
      e.Contents() == survived && [root] == Merkle.Level(h, Leaves.All(c, survived), 0)
  {
    hide GoodRun, Entries, Run, ReplayAll, Wal.Log, Wal.RecoverFrom, Wal.Complete, Leaves.All, Merged, Merkle.Above;
    hide Merkle.MerkleTree.Valid, Merkle.MerkleTree.Kept, Merkle.Seen;
    var before := new Engine(c, h, []);
    Wal.EmptyFile();
    ReplayNothing(c, map[]);
    assert before.wal.file == [];
    before.RunAll(cmds);
    assert before.wal.file == Wal.Log(Entries(c, map[], cmds));
    e := new Engine(c, h, before.wal.file[..n]);
    CrashRecovery(c, cmds, n);
    root := e.tree.GetRootHash(seq(Merkle.LOCKS + 1, _ => []));
  }

  lemma NoEntry()
    ensures Wal.Encode(Wal.Batch([])) == []
  {
  }

  lemma FirstEntry(c: Codec, st: KeyMap, cmds: seq<Command>, file: seq<Byte>)
    requires cmds != []
    ensures file + Wal.Log(Entries(c, st, cmds))
         == file + Wal.Encode(Wal.Batch(Logged(c, st, cmds[0]))) + Wal.Log(Entries(c, Live(c, st, cmds[0]), cmds[1..]))
  {
    hide Live, Logged, Wal.Encode;
    var es := Entries(c, st, cmds);
    assert es[1..] == Entries(c, Live(c, st, cmds[0]), cmds[1..]);
    Wal.Associate(file, Wal.Encode(es[0]), Wal.Log(es[1..]));
  }
}
