/**
 The messages of anti-entropy as bytes: what each sender writes and what the handler of the receiver reads.
 */
module SyncCodec {
  import opened Arith
  import opened Hashing
  import opened Clock
  import opened Store
  import Crc
  import Wal

  type Byte = Crc.Byte

  datatype Message =
    | SyncInit(root: Hash)
    | ReqNode(level: Byte, parent: nat)
    | RepNode(level: Byte, parent: nat, hashes: seq<Hash>)
    | ReqBucket(bucket: nat)
    | RepBucket(bucket: nat, listing: seq<(Key, Hash)>)
    | GetVal(key: Key)
    | PutVal(key: Key, meta: Blob, value: Blob)

  // ---------------------------------------------------------------- fields

  function HashBytes(h: Hash): (r: seq<Byte>)
    ensures |r| == 8
  {
    Wal.LittleEndian(LowBits(h, 64), 8)
  }

  function HashOf(bytes: seq<Byte>): Hash {
    FromBits(Wal.Number(bytes), 64)
  }

  lemma {:induction false} PowersAgree(k: nat)
    ensures Wal.Power(k) == PowerOfTwo(8 * k)
  {
    if k > 0 {
      PowersAgree(k - 1);
      EightDoublings(8 * (k - 1));
    }
  }

  lemma EightDoublings(j: nat)
    ensures PowerOfTwo(j + 8) == 256 * PowerOfTwo(j)
  {
    assert PowerOfTwo(j + 2) == 4 * PowerOfTwo(j);
    assert PowerOfTwo(j + 4) == 16 * PowerOfTwo(j);
    assert PowerOfTwo(j + 6) == 64 * PowerOfTwo(j);
  }

  lemma HashRoundTrip(h: Hash)
    ensures HashOf(HashBytes(h)) == h
  {
    hide LowBits, FromBits, Wal.Number, Wal.LittleEndian, PowerOfTwo, Wal.Power;
    PowersAgree(8);
    Wal.NumberRoundTrip(LowBits(h, 64), 8);
    AnyWithin(h);
    BitsRoundTrip(h, 64);
  }

  function Short(n: nat): (r: seq<Byte>)
    ensures |r| == 2
  {
    Wal.LittleEndian(n % Wal.KEY_LIMIT, 2)
  }

  function Word(n: nat): (r: seq<Byte>)
    ensures |r| == 4
  {
    Wal.LittleEndian(n % Wal.PAYLOAD_LIMIT, 4)
  }

  lemma FieldRoundTrips(n: nat)
    ensures Wal.Number(Short(n)) == n % Wal.KEY_LIMIT && Wal.Number(Word(n)) == n % Wal.PAYLOAD_LIMIT
  {
    hide Wal.Number, Wal.LittleEndian, Wal.Power;
    Wal.FieldLimits();
    Wal.NumberRoundTrip(n % Wal.KEY_LIMIT, 2);
    Wal.NumberRoundTrip(n % Wal.PAYLOAD_LIMIT, 4);
  }

  lemma SmallShort(n: nat)
    requires n < Wal.KEY_LIMIT
    ensures Wal.Number(Short(n)) == n
  {
    hide Wal.Number, Short;
    FieldRoundTrips(n);
  }

  lemma SmallWord(n: nat)
    requires n < Wal.PAYLOAD_LIMIT
    ensures Wal.Number(Word(n)) == n
  {
    hide Wal.Number, Word;
    FieldRoundTrips(n);
  }

  // ---------------------------------------------------------------- lists

  function Hashes(hs: seq<Hash>): (r: seq<Byte>)
    ensures |r| == 8 * |hs|
  {
    if hs == [] then [] else HashBytes(hs[0]) + Hashes(hs[1..])
  }

  function ReadHashes(p: seq<Byte>, n: nat): (r: seq<Hash>)
    requires |p| >= 8 * n
    ensures |r| == n
    decreases n
  {
    if n == 0 then [] else [HashOf(p[..8])] + ReadHashes(p[8..], n - 1)
  }

  lemma {:induction false} HashesRoundTrip(hs: seq<Hash>)
    ensures ReadHashes(Hashes(hs), |hs|) == hs
  {
    hide HashOf, HashBytes;
    if hs != [] {
      HashRoundTrip(hs[0]);
      HashesRoundTrip(hs[1..]);
      assert Hashes(hs)[..8] == HashBytes(hs[0]) && Hashes(hs)[8..] == Hashes(hs[1..]);
    }
  }

  /** The entries of a bucket reply: metadata keys are left out. */
  function Visible(keys: seq<(Key, Hash)>): seq<(Key, Hash)> {
    if keys == [] then []
    else if EndsMeta(keys[0].0) then Visible(keys[1..])
    else [keys[0]] + Visible(keys[1..])
  }

  function Entry(e: (Key, Hash)): seq<Byte> {
    Short(|e.0|) + e.0[..|e.0| % Wal.KEY_LIMIT] + HashBytes(e.1)
  }

  function Listing(keys: seq<(Key, Hash)>): seq<Byte> {
    if keys == [] then []
    else if EndsMeta(keys[0].0) then Listing(keys[1..])
    else Entry(keys[0]) + Listing(keys[1..])
  }

  function ReadListing(p: seq<Byte>, count: nat): seq<(Key, Hash)>
    decreases count
  {
    if count == 0 || |p| < 10 then []
    else
      var keyLength := Wal.Number(p[..2]);
      if |p| < 10 + keyLength then []
      else [(p[2..2 + keyLength], HashOf(p[2 + keyLength..10 + keyLength]))] + ReadListing(p[10 + keyLength..], count - 1)
  }

  predicate ShortKeys(keys: seq<(Key, Hash)>) {
    forall i :: 0 <= i < |keys| ==> |keys[i].0| < Wal.KEY_LIMIT
  }

  lemma EntryFields(e: (Key, Hash), after: seq<Byte>)
    requires |e.0| < Wal.KEY_LIMIT
    ensures var p := Entry(e) + after;
      && |p| >= 10 + |e.0| && Wal.Number(p[..2]) == |e.0|
      && p[2..2 + |e.0|] == e.0 && HashOf(p[2 + |e.0|..10 + |e.0|]) == e.1 && p[10 + |e.0|..] == after
  {
    hide Wal.Number, HashOf, HashBytes, Short;
    var p := Entry(e) + after;
    FieldRoundTrips(|e.0|);
    HashRoundTrip(e.1);
    assert p[..2] == Short(|e.0|);
    assert p[2 + |e.0|..10 + |e.0|] == HashBytes(e.1);
  }

  /** The count may be larger than the number of entries: the reader stops where the bytes end. */
  lemma {:induction false} ListingRoundTrip(keys: seq<(Key, Hash)>, count: nat)
    requires ShortKeys(keys) && count >= |keys|
    ensures ReadListing(Listing(keys), count) == Visible(keys)
    decreases |keys|
  {
    hide Wal.Number, HashOf, Entry, EndsMeta;
    if keys == [] {
    } else if EndsMeta(keys[0].0) {
      ListingRoundTrip(keys[1..], count);
    } else {
      EntryFields(keys[0], Listing(keys[1..]));
      ListingRoundTrip(keys[1..], count - 1);
    }
  }

  // ---------------------------------------------------------------- loops

  /** The loop of `on_req_bucket` over the keys of a bucket. */
  method WriteListing(keys: seq<(Key, Hash)>) returns (pay: seq<Byte>)
    ensures pay == Listing(keys)
  {
    hide EndsMeta, Entry;
    pay := [];
    for i := 0 to |keys|
      invariant pay + Listing(keys[i..]) == Listing(keys)
    {
      assert keys[i..][1..] == keys[i + 1..];
      if EndsMeta(keys[i].0) {
        continue;
      }
      Wal.Associate(pay, Entry(keys[i]), Listing(keys[i + 1..]));
      pay := pay + Entry(keys[i]);
    }
  }

  /** The loop of `on_rep_bucket` over the entries of a reply. */
  method ParseListing(buf: seq<Byte>, count: nat) returns (r: seq<(Key, Hash)>)
    requires |buf| >= 13
    ensures r == ReadListing(buf[13..], count)
  {
    hide Wal.Number, HashOf;
    r := [];
    var pos, i := 13, 0;
    while i < count
      invariant 0 <= i <= count && 13 <= pos <= |buf|
      invariant r + ReadListing(buf[pos..], count - i) == ReadListing(buf[13..], count)
    {
      ghost var p := buf[pos..];
      if pos + 10 > |buf| {
        return;
      }
      var keyLength := Wal.Number(buf[pos..pos + 2]);
      assert buf[pos..pos + 2] == p[..2];
      if pos + 2 + keyLength + 8 > |buf| {
        return;
      }
      var key, hash := buf[pos + 2..pos + 2 + keyLength], HashOf(buf[pos + 2 + keyLength..pos + 10 + keyLength]);
      assert key == p[2..2 + keyLength] && buf[pos + 2 + keyLength..pos + 10 + keyLength] == p[2 + keyLength..10 + keyLength];
      pos := pos + 2 + keyLength + 8;
      assert buf[pos..] == p[10 + keyLength..];
      Wal.Associate(r, [(key, hash)], ReadListing(buf[pos..], count - i - 1));
      r := r + [(key, hash)];
      i := i + 1;
    }
  }

  /** The loop of `on_req_node` that appends the hashes of the children. */
  method WriteHashes(hs: seq<Hash>) returns (pay: seq<Byte>)
    ensures pay == Hashes(hs)
  {
    hide HashBytes;
    pay := [];
    for i := 0 to |hs|
      invariant pay + Hashes(hs[i..]) == Hashes(hs)
    {
      assert hs[i..][1..] == hs[i + 1..];
      Wal.Associate(pay, HashBytes(hs[i]), Hashes(hs[i + 1..]));
      pay := pay + HashBytes(hs[i]);
    }
  }

  // ---------------------------------------------------------------- messages

  function Head(kind: Byte, sender: nat): (r: seq<Byte>)
    ensures |r| == 5
  {
    [kind] + Word(sender)
  }

  function Encode(sender: nat, m: Message): seq<Byte> {
    match m
    case SyncInit(root) => Head(1, sender) + HashBytes(root)
    case ReqNode(level, parent) => Head(2, sender) + [level] + Word(parent)
    case RepNode(level, parent, hashes) => Head(3, sender) + [level, 0, 0, 0] + Word(parent) + Hashes(hashes)
    case ReqBucket(bucket) => Head(4, sender) + Word(bucket)
    case RepBucket(bucket, keys) => Head(5, sender) + Word(bucket) + Word(|keys|) + Listing(keys)
    case GetVal(key) => Head(6, sender) + key
    case PutVal(key, meta, value) => Head(7, sender) + Short(|key|) + key + Short(|meta|) + meta + value
  }

  /** What the handlers make of the bytes behind the kind and the sender; nothing when they return early. */
  function DecodeBody(kind: Byte, p: seq<Byte>): Option<Message> {
    if kind == 1 then (if |p| < 8 then None else Some(SyncInit(HashOf(p[..8]))))
    else if kind == 2 then (if |p| < 5 then None else Some(ReqNode(p[0], Wal.Number(p[1..5]))))
    else if kind == 3 then DecodeNodeReply(p)
    else if kind == 4 then (if |p| < 4 then None else Some(ReqBucket(Wal.Number(p[..4]))))
    else if kind == 5 then DecodeBucketReply(p)
    else if kind == 6 then Some(GetVal(p))
    else if kind == 7 then DecodePut(p)
    else None
  }

  function DecodeNodeReply(p: seq<Byte>): Option<Message> {
    if |p| < 8 + 8 * WAYS then None else Some(RepNode(p[0], Wal.Number(p[4..8]), ReadHashes(p[8..], WAYS)))
  }

  function DecodeBucketReply(p: seq<Byte>): Option<Message> {
    if |p| < 8 then None else Some(RepBucket(Wal.Number(p[..4]), ReadListing(p[8..], Wal.Number(p[4..8]))))
  }

  function DecodePut(p: seq<Byte>): Option<Message> {
    if |p| < 2 then None
    else
      var keyLength := Wal.Number(p[..2]);
      if |p| < 2 + keyLength + 2 then None
      else
        var key, rest := p[2..2 + keyLength], p[2 + keyLength..];
        var metaLength := Wal.Number(rest[..2]);
        if |rest| < 2 + metaLength then None
        else Some(PutVal(key, rest[2..2 + metaLength], rest[2 + metaLength..]))
  }

  function Decode(buf: seq<Byte>): Option<(nat, Message)> {
    if |buf| < 5 then None
    else
      match DecodeBody(buf[0], buf[5..])
      case None => None
      case Some(m) => Some((Wal.Number(buf[1..5]), m))
  }

  /** The messages that the nodes send. */
  predicate Sendable(m: Message) {
    match m
    case SyncInit(_) => true
    case ReqNode(_, parent) => parent < Wal.PAYLOAD_LIMIT
    case RepNode(_, parent, hashes) => parent < Wal.PAYLOAD_LIMIT && |hashes| == WAYS
    case ReqBucket(bucket) => bucket < Wal.PAYLOAD_LIMIT
    case RepBucket(bucket, keys) => bucket < Wal.PAYLOAD_LIMIT && |keys| < Wal.PAYLOAD_LIMIT && ShortKeys(keys)
    case GetVal(_) => true
    case PutVal(key, meta, _) => |key| < Wal.KEY_LIMIT && |meta| < Wal.KEY_LIMIT
  }

  /** What arrives: a bucket reply loses its metadata keys, everything else is as sent. */
  function Arrives(m: Message): Message {
    match m
    case RepBucket(bucket, keys) => RepBucket(bucket, Visible(keys))
    case _ => m
  }

  lemma Framed(kind: Byte, sender: nat, body: seq<Byte>)
    requires sender < Wal.PAYLOAD_LIMIT
    ensures Decode(Head(kind, sender) + body)
         == match DecodeBody(kind, body) case None => None case Some(m) => Some((sender, m))
  {
    hide DecodeBody, Wal.Number, Word;
    var buf := Head(kind, sender) + body;
    assert buf[0] == kind && buf[1..5] == Word(sender) && buf[5..] == body;
    FieldRoundTrips(sender);
  }

  lemma Slices<T>(a: seq<T>, b: seq<T>, rest: seq<T>)
    ensures (a + b + rest)[..|a|] == a && (a + b + rest)[|a|..|a| + |b|] == b && (a + b + rest)[|a| + |b|..] == rest
  {
  }

  lemma ReadNodeReply(start: seq<Byte>, parent: seq<Byte>, hashes: seq<Byte>)
    requires |start| == 4 && |parent| == 4 && |hashes| == 8 * WAYS
    ensures DecodeNodeReply(start + parent + hashes)
         == Some(RepNode(start[0], Wal.Number(parent), ReadHashes(hashes, WAYS)))
  {
    hide Wal.Number, ReadHashes;
    Slices(start, parent, hashes);
    assert (start + parent + hashes)[0] == start[0];
  }

  lemma NodeReplyRoundTrip(level: Byte, parent: nat, hashes: seq<Hash>)
    requires parent < Wal.PAYLOAD_LIMIT && |hashes| == WAYS
    ensures DecodeNodeReply([level, 0, 0, 0] + Word(parent) + Hashes(hashes)) == Some(RepNode(level, parent, hashes))
  {
    hide Wal.Number, Word, Hashes, ReadHashes, DecodeNodeReply;
    ReadNodeReply([level, 0, 0, 0], Word(parent), Hashes(hashes));
    SmallWord(parent);
    HashesRoundTrip(hashes);
  }

  lemma BucketReplyRoundTrip(bucket: nat, keys: seq<(Key, Hash)>)
    requires bucket < Wal.PAYLOAD_LIMIT && |keys| < Wal.PAYLOAD_LIMIT && ShortKeys(keys)
    ensures DecodeBucketReply(Word(bucket) + Word(|keys|) + Listing(keys)) == Some(RepBucket(bucket, Visible(keys)))
  {
    hide Wal.Number, Word, Listing, ReadListing, ShortKeys, Visible;
    Slices(Word(bucket), Word(|keys|), Listing(keys));
    SmallWord(bucket);
    SmallWord(|keys|);
    ListingRoundTrip(keys, |keys|);
  }

  lemma PutRoundTrip(key: Key, meta: Blob, value: Blob)
    requires |key| < Wal.KEY_LIMIT && |meta| < Wal.KEY_LIMIT
    ensures DecodePut(Short(|key|) + key + (Short(|meta|) + meta + value)) == Some(PutVal(key, meta, value))
  {
    hide Wal.Number, Short, DecodePut;
    SmallShort(|key|);
    SmallShort(|meta|);
    ReadPut(Short(|key|), key, Short(|meta|), meta, value);
  }

  lemma ReadPut(keyLength: seq<Byte>, key: Key, metaLength: seq<Byte>, meta: Blob, value: Blob)
    requires |keyLength| == 2 && |metaLength| == 2
    requires Wal.Number(keyLength) == |key| && Wal.Number(metaLength) == |meta|
    ensures DecodePut(keyLength + key + (metaLength + meta + value)) == Some(PutVal(key, meta, value))
  {
    hide Wal.Number;
    Slices(keyLength, key, metaLength + meta + value);
    Slices(metaLength, meta, value);
  }

  /** Every message arrives with its sender and its contents; a bucket reply as exactly its visible entries. */
  lemma RoundTrip(sender: nat, m: Message)
    requires sender < Wal.PAYLOAD_LIMIT && Sendable(m)
    ensures Decode(Encode(sender, m)) == Some((sender, Arrives(m)))
  {
    hide Decode, Head, Wal.Number, Word, HashOf, HashBytes, Short, DecodePut, DecodeNodeReply, DecodeBucketReply;
    match m
    case SyncInit(root) =>
      Framed(1, sender, HashBytes(root));
      HashRoundTrip(root);
      assert HashBytes(root)[..8] == HashBytes(root);
    case ReqNode(level, parent) =>
      var p := [level] + Word(parent);
      Wal.Associate(Head(2, sender), [level], Word(parent));
      Framed(2, sender, p);
      assert p[0] == level && p[1..5] == Word(parent);
      FieldRoundTrips(parent);
    case RepNode(level, parent, hashes) =>
      var p := [level, 0, 0, 0] + Word(parent) + Hashes(hashes);
      assert Encode(sender, m) == Head(3, sender) + p;
      Framed(3, sender, p);
      NodeReplyRoundTrip(level, parent, hashes);
    case ReqBucket(bucket) =>
      Framed(4, sender, Word(bucket));
      assert Word(bucket)[..4] == Word(bucket);
      FieldRoundTrips(bucket);
    case RepBucket(bucket, keys) =>
      var p := Word(bucket) + Word(|keys|) + Listing(keys);
      assert Encode(sender, m) == Head(5, sender) + p;
      Framed(5, sender, p);
      BucketReplyRoundTrip(bucket, keys);
    case GetVal(key) => Framed(6, sender, key);
    case PutVal(key, meta, value) =>
      var p := Short(|key|) + key + (Short(|meta|) + meta + value);
      assert Encode(sender, m) == Head(7, sender) + p;
      Framed(7, sender, p);
      PutRoundTrip(key, meta, value);
  }

  /** The mutation that `on_put_val` builds. */
  function MutationOf(c: Codec, m: Message): Mutation
    requires m.PutVal?
  {
    var parsed := if m.meta == [] then (ZERO, false) else c.parseMeta(m.meta);
    Mutation(parsed.0, m.key, m.value, parsed.1)
  }

  /** A record sent as PUT_VAL becomes a mutation with the same key, time, tombstone and value. */
  lemma PutValCarriesRecord(c: Codec, sender: nat, key: Key, ts: Timestamp, tombstone: bool, value: Blob)
    requires Lawful(c) && Representable(ts) && sender < Wal.PAYLOAD_LIMIT && |key| < Wal.KEY_LIMIT && |c.meta(ts, tombstone)| < Wal.KEY_LIMIT
    ensures var m := PutVal(key, c.meta(ts, tombstone), value);
      Decode(Encode(sender, m)) == Some((sender, m)) && MutationOf(c, m) == Mutation(ts, key, value, tombstone)
  {
    hide Decode, Encode;
    RoundTrip(sender, PutVal(key, c.meta(ts, tombstone), value));
  }
}
