/**
 The pull: node B has asked node A for a set of buckets, compares A's listings with its own values, asks for the values
 that differ and takes over those that are later.  No client writes meanwhile; messages are delivered in any order, any
 number of times.
 */
module Pull {
  import opened Hashing
  import opened Clock
  import opened Store
  import opened SyncCodec
  import opened Replica
  import Cluster
  import Leaves
  import Lww

  datatype Session = Session(b: Replica, net: set<Message>, done: set<Message>)

  /** A delivery; `keys` is the listing that A makes if it is asked for one. */
  datatype Delivery = Delivery(m: Message, keys: seq<(Key, Hash)>)

  ghost predicate Init(buckets: set<nat>, s: Session) {
    Valid(s.b) && s.net == (set b | b in buckets :: ReqBucket(b)) && s.done == {}
  }

  /** Requests go to A, everything else to B. */
  predicate ToA(m: Message) {
    m.ReqBucket? || m.GetVal?
  }

  ghost function Next(e: Env, a: Replica, s: Session, d: Delivery): Session
    requires Valid(a) && Valid(s.b)
  {
    if ToA(d.m) then Session(s.b, s.net + Replies(e, a, d.m, d.keys), s.done + {d.m})
    else Session(After(e, s.b, d.m), s.net + Replies(e, s.b, d.m, []), s.done + {d.m})
  }

  ghost predicate Runs(e: Env, a: Replica, s0: Session, schedule: seq<Delivery>, s: Session)
    requires Valid(a)
    decreases |schedule|
  {
    if schedule == [] then s == s0
    else
      var d := schedule[|schedule| - 1];
      exists t :: Runs(e, a, s0, schedule[..|schedule| - 1], t) && d.m in t.net && PossibleListing(e, a, d.m, d.keys)
                  && Valid(t.b) && s == Next(e, a, t, d)
  }

  predicate Drained(s: Session) {
    s.net <= s.done
  }

  // ---------------------------------------------------------------- records

  function Look(st: KeyMap, x: Key): Option<Blob> {
    if x in st then Some(st[x]) else None
  }

  /** What a store holds under a key: the value and the metadata. */
  function At(st: KeyMap, k: Key): (Option<Blob>, Option<Blob>) {
    (Look(st, k), Look(st, MetaKey(k)))
  }

  /** The setting: two stores that hold client writes only, and the buckets that B asks for. */
  datatype Setting = Setting(e: Env, a: Replica, b: KeyMap, buckets: set<nat>, writes: set<Mutation>)

  ghost predicate Fair(g: Setting) {
    && Lawful(g.e.c) && Valid(g.a)
    && Cluster.Sourced(g.e.c, g.a.store, g.writes) && Cluster.Sourced(g.e.c, g.b, g.writes)
    && (forall w :: w in g.writes ==> UserKey(w.key) && Lww.Sound(w))
    && (forall w, w' :: w in g.writes && w' in g.writes && w.ts == w'.ts ==> w == w')
  }

  /** The keys that B finds listed with another hash than its own. */
  predicate Divergent(g: Setting, k: Key) {
    && k in g.a.store && UserKey(k) && Leaves.BucketOf(g.e.c, k) in g.buckets
    && MyHash(g.e.c, g.b, k) != g.e.c.hash(g.a.store[k])
  }

  /** A's record is the later one. */
  predicate Later(g: Setting, k: Key) {
    Less(LocalTime(g.e.c, g.b, k), LocalTime(g.e.c, g.a.store, k))
  }

  /** What B is to hold in the end: of a divergent key the record with the larger time, of any other key its own. */
  function Expected(g: Setting, k: Key): (Option<Blob>, Option<Blob>) {
    if Divergent(g, k) && Later(g, k) then At(g.a.store, k) else At(g.b, k)
  }

  /** The value message for a key of A. */
  function ValueOf(g: Setting, k: Key): Message
    requires MetaKey(k) in g.a.store
  {
    PutVal(k, g.a.store[MetaKey(k)], Current(g.a.store, k))
  }

  // ---------------------------------------------------------------- listings

  ghost predicate ListsUser(g: Setting, bucket: nat, l: seq<(Key, Hash)>) {
    && (forall i :: 0 <= i < |l| ==>
          UserKey(l[i].0) && Leaves.Holds(g.e.c, g.a.store, bucket, l[i]))
    && (forall k :: k in g.a.store && UserKey(k) && Leaves.BucketOf(g.e.c, k) == bucket ==> Leaves.Named(l, k))
  }

  lemma {:induction false} VisibleEntry(keys: seq<(Key, Hash)>, i: nat) returns (j: nat)
    requires i < |Visible(keys)|
    ensures j < |keys| && keys[j] == Visible(keys)[i] && !EndsMeta(keys[j].0)
    decreases |keys|
  {
    hide EndsMeta;
    if EndsMeta(keys[0].0) {
      j := VisibleEntry(keys[1..], i);
      j := j + 1;
    } else if i == 0 {
      j := 0;
    } else {
      j := VisibleEntry(keys[1..], i - 1);
      j := j + 1;
    }
  }

  lemma {:induction false} VisibleNamed(keys: seq<(Key, Hash)>, k: Key)
    requires Leaves.Named(keys, k) && !EndsMeta(k)
    ensures Leaves.Named(Visible(keys), k)
    decreases |keys|
  {
    hide EndsMeta;
    var j :| 0 <= j < |keys| && keys[j].0 == k;
    if j == 0 {
      assert Visible(keys)[0].0 == k;
    } else {
      assert keys[1..][j - 1].0 == k;
      VisibleNamed(keys[1..], k);
      var i :| 0 <= i < |Visible(keys[1..])| && Visible(keys[1..])[i].0 == k;
      if EndsMeta(keys[0].0) {
        assert Visible(keys)[i].0 == k;
      } else {
        assert Visible(keys)[i + 1].0 == k;
      }
    }
  }

  lemma UserUnlessMeta(g: Setting, x: Key)
    requires Fair(g) && x in g.a.store && !EndsMeta(x)
    ensures UserKey(x) && MetaKey(x) in g.a.store
  {
    hide MetaKey, Lawful, UserKey, EndsMeta, Cluster.Witness, Lww.Sound;
    assert Cluster.Backed(g.e.c, g.a.store, g.writes, x);
    var w :| w in g.writes && Cluster.Witness(g.e.c, g.a.store, x, w);
    WitnessOfUser(g.e.c, g.a.store, x, w);
  }

  lemma WitnessOfUser(c: Codec, st: KeyMap, x: Key, w: Mutation)
    requires UserKey(w.key) && !EndsMeta(x) && Cluster.Witness(c, st, x, w)
    ensures UserKey(x) && MetaKey(x) in st
  {
    hide MetaKey, UserKey, EndsMeta;
    MetaKeysApart(w.key, w.key);
  }

  /** What A lists without its metadata keys is exactly its user keys of the bucket. */
  lemma VisibleListsUser(g: Setting, bucket: nat, keys: seq<(Key, Hash)>)
    requires Fair(g) && Leaves.Lists(g.e.c, g.a.store, bucket, keys)
    ensures ListsUser(g, bucket, Visible(keys))
  {
    hide Fair, EndsMeta, Leaves.Named, MetaKey, Visible;
    var l := Visible(keys);
    forall i | 0 <= i < |l| ensures UserKey(l[i].0) && Leaves.Holds(g.e.c, g.a.store, bucket, l[i]) {
      var j := VisibleEntry(keys, i);
      assert Leaves.Holds(g.e.c, g.a.store, bucket, keys[j]);
      UserUnlessMeta(g, keys[j].0);
    }
    forall k | k in g.a.store && UserKey(k) && Leaves.BucketOf(g.e.c, k) == bucket ensures Leaves.Named(l, k) {
      assert Leaves.Named(keys, k);
      VisibleNamed(keys, k);
    }
  }

  // ---------------------------------------------------------------- what every delivery keeps

  ghost predicate Justified(g: Setting, m: Message) {
    match m
    case ReqBucket(bucket) => bucket in g.buckets
    case RepBucket(bucket, l) => bucket in g.buckets && ListsUser(g, bucket, l)
    case GetVal(k) => Divergent(g, k)
    case PutVal(k, _, _) => Divergent(g, k) && MetaKey(k) in g.a.store && m == ValueOf(g, k)
    case _ => false
  }

  /** What the delivery of a message has brought about. */
  ghost predicate Answered(g: Setting, s: Session, m: Message) {
    match m
    case ReqBucket(bucket) => exists l :: RepBucket(bucket, l) in s.net
    case RepBucket(bucket, _) =>
      forall k :: Divergent(g, k) && Leaves.BucketOf(g.e.c, k) == bucket ==> GetVal(k) in s.net
    case GetVal(k) => MetaKey(k) in g.a.store && ValueOf(g, k) in s.net
    case PutVal(k, _, _) => At(s.b.store, k) == Expected(g, k)
    case _ => true
  }

  /** The record of a key is B's own, or the one expected and then asked for. */
  ghost predicate Settled(g: Setting, s: Session, k: Key) {
    At(s.b.store, k) == At(g.b, k) || (At(s.b.store, k) == Expected(g, k) && GetVal(k) in s.net)
  }

  /** No value comes without a request. */
  predicate AskedFor(net: set<Message>, m: Message) {
    m.PutVal? ==> GetVal(m.key) in net
  }

  ghost predicate Inv(g: Setting, s: Session) {
    && Valid(s.b)
    && (forall b :: b in g.buckets ==> ReqBucket(b) in s.net)
    && (forall m :: m in s.net ==> Justified(g, m) && AskedFor(s.net, m))
    && s.done <= s.net
    && (forall m :: m in s.done ==> Answered(g, s, m))
    && (forall k :: UserKey(k) ==> Settled(g, s, k))
  }

  // ---------------------------------------------------------------- one delivery

  lemma AnswerBucket(g: Setting, s: Session, m: Message, keys: seq<(Key, Hash)>)
    requires Fair(g) && Valid(g.a) && m.ReqBucket? && Justified(g, m) && PossibleListing(g.e, g.a, m, keys)
    ensures forall x :: x in Replies(g.e, g.a, m, keys) ==> Justified(g, x)
    ensures Replies(g.e, g.a, m, keys) <= s.net ==> Answered(g, s, m)
  {
    hide Fair, ListsUser, Visible;
    VisibleListsUser(g, m.bucket, keys);
    assert RepBucket(m.bucket, Visible(keys)) in Replies(g.e, g.a, m, keys);
  }

  /** B's hash of a key does not depend on anything but the value. */
  lemma SameHash(c: Codec, st: KeyMap, st': KeyMap, k: Key)
    requires At(st, k) == At(st', k)
    ensures MyHash(c, st, k) == MyHash(c, st', k) && LocalTime(c, st, k) == LocalTime(c, st', k)
  {
    hide MetaKey;
  }

  lemma AnswerListing(g: Setting, s: Session, m: Message)
    requires m.RepBucket? && Justified(g, m) && Valid(s.b)
    requires forall k :: UserKey(k) ==> Settled(g, s, k)
    requires forall x :: x in s.net ==> Justified(g, x)
    ensures forall x :: x in Replies(g.e, s.b, m, []) ==> Justified(g, x)
    ensures forall k :: Divergent(g, k) && Leaves.BucketOf(g.e.c, k) == m.bucket ==>
      GetVal(k) in s.net + Replies(g.e, s.b, m, [])
  {
    hide UserKey, Settled, Wants, ListsUser, Divergent;
    forall x | x in Wants(g.e.c, s.b.store, m.listing) ensures Justified(g, x) {
      WantIsJustified(g, s, m.bucket, m.listing, x);
    }
    forall k | Divergent(g, k) && Leaves.BucketOf(g.e.c, k) == m.bucket
      ensures GetVal(k) in s.net + Wants(g.e.c, s.b.store, m.listing)
    {
      if GetVal(k) !in s.net {
        DivergentIsWanted(g, s, m.bucket, m.listing, k);
      }
    }
  }

  lemma WantIsJustified(g: Setting, s: Session, bucket: nat, l: seq<(Key, Hash)>, x: Message)
    requires bucket in g.buckets && ListsUser(g, bucket, l) && x in Wants(g.e.c, s.b.store, l)
    requires forall k :: UserKey(k) ==> Settled(g, s, k)
    requires forall y :: y in s.net ==> Justified(g, y)
    ensures Justified(g, x)
  {
    hide UserKey, MyHash, Settled, Divergent;
    var i :| 0 <= i < |l| && MyHash(g.e.c, s.b.store, l[i].0) != l[i].1 && x == GetVal(l[i].0);
    assert UserKey(l[i].0) && Leaves.Holds(g.e.c, g.a.store, bucket, l[i]);
    WantedIsDivergent(g, s, l[i].0);
  }

  lemma DivergentIsWanted(g: Setting, s: Session, bucket: nat, l: seq<(Key, Hash)>, k: Key)
    requires ListsUser(g, bucket, l) && Divergent(g, k) && Leaves.BucketOf(g.e.c, k) == bucket
    requires forall x :: UserKey(x) ==> Settled(g, s, x)
    requires GetVal(k) !in s.net
    ensures GetVal(k) in Wants(g.e.c, s.b.store, l)
  {
    hide UserKey, MyHash, Settled, At;
    NotAskedIsOwn(g, s, k);
    SameHash(g.e.c, s.b.store, g.b, k);
    assert Leaves.Named(l, k);
    var i :| 0 <= i < |l| && l[i].0 == k;
    assert Leaves.Holds(g.e.c, g.a.store, bucket, l[i]);
  }

  lemma NotAskedIsOwn(g: Setting, s: Session, k: Key)
    requires UserKey(k) && Settled(g, s, k) && GetVal(k) !in s.net
    ensures At(s.b.store, k) == At(g.b, k)
  {
  }

  lemma WantedIsDivergent(g: Setting, s: Session, k: Key)
    requires UserKey(k) && k in g.a.store && Leaves.BucketOf(g.e.c, k) in g.buckets && Settled(g, s, k)
    requires MyHash(g.e.c, s.b.store, k) != g.e.c.hash(g.a.store[k])
    requires forall x :: x in s.net ==> Justified(g, x)
    ensures Divergent(g, k)
  {
    hide MetaKey, UserKey, MyHash, Expected;
    if GetVal(k) !in s.net {
      SameHash(g.e.c, s.b.store, g.b, k);
    } else {
      assert Justified(g, GetVal(k));
    }
  }

  lemma AnswerRequest(g: Setting, s: Session, m: Message, keys: seq<(Key, Hash)>)
    requires Fair(g) && Valid(g.a) && m.GetVal? && Justified(g, m)
    ensures forall x :: x in Replies(g.e, g.a, m, keys) ==> Justified(g, x)
    ensures Replies(g.e, g.a, m, keys) <= s.net ==> Answered(g, s, m)
  {
    hide Fair, MetaKey, UserKey, MyHash, Later;
    var k := m.key;
    assert !EndsMeta(k) by { assert UserKey(k); UserIsNotMeta(k); }
    UserUnlessMeta(g, k);
    MetaKeysApart(k, k);
    MetaIsNotEmpty(g, k);
    assert ValueOf(g, k) in Replies(g.e, g.a, m, keys);
  }

  lemma UserIsNotMeta(k: Key)
    requires UserKey(k)
    ensures !EndsMeta(k)
  {
  }

  lemma MetaIsNotEmpty(g: Setting, k: Key)
    requires Fair(g) && UserKey(k) && k in g.a.store
    ensures MetaKey(k) in g.a.store && g.a.store[MetaKey(k)] != []
  {
    hide MetaKey, UserKey, Cluster.Sourced;
    var w := Cluster.HeldWrite(g.e.c, g.a.store, g.writes, k);
    assert |g.e.c.meta(w.ts, w.isDelete)| > 0;
  }

  /** The record that B takes over, or leaves, when a value of A arrives. */
  lemma TakeValue(g: Setting, st: KeyMap, m: Message)
    requires Fair(g) && m.PutVal? && Justified(g, m)
    requires At(st, m.key) == At(g.b, m.key) || At(st, m.key) == Expected(g, m.key)
    ensures At(Live(g.e.c, st, Mutate(MutationOf(g.e.c, m))), m.key) == Expected(g, m.key)
    ensures forall k :: UserKey(k) && k != m.key ==>
      At(Live(g.e.c, st, Mutate(MutationOf(g.e.c, m))), k) == At(st, k)
  {
    hide Cluster.Sourced, UserKey, MyHash, Live, LocalTime, Less, Accepts, At, Lawful, Lww.HoldsRecord, Lww.Sound;
    var k, c := m.key, g.e.c;
    var w := Cluster.HeldWrite(c, g.a.store, g.writes, k);
    CarriesWrite(g, w, m);
    Cluster.PutValReplaces(c, st, m, w);
    var st' := Live(c, st, Mutate(MutationOf(c, m)));
    AcceptsLater(g, st, m, w);
    if Accepts(c, st, MutationOf(c, m)) {
      SameRecord(c, st', g.a.store, w);
      forall x | UserKey(x) && x != k ensures At(st', x) == At(st, x) {
        OtherRecords(c, st, st', w, x);
      }
    }
  }

  lemma CarriesWrite(g: Setting, w: Mutation, m: Message)
    requires MetaKey(w.key) in g.a.store && m == ValueOf(g, w.key) && Lww.HoldsRecord(g.e.c, g.a.store, w)
    ensures Cluster.Carries(g.e.c, m, w)
  {
    hide MetaKey;
  }

  /** The value is accepted exactly when it is later than B's own and not there yet. */
  lemma AcceptsLater(g: Setting, st: KeyMap, m: Message, w: Mutation)
    requires m.PutVal? && Divergent(g, m.key) && MutationOf(g.e.c, m).ts == w.ts && MutationOf(g.e.c, m).key == m.key
    requires w.ts == LocalTime(g.e.c, g.a.store, m.key)
    requires At(st, m.key) == At(g.b, m.key) || At(st, m.key) == Expected(g, m.key)
    ensures Accepts(g.e.c, st, MutationOf(g.e.c, m)) ==> Later(g, m.key)
    ensures !Accepts(g.e.c, st, MutationOf(g.e.c, m)) ==> At(st, m.key) == Expected(g, m.key)
  {
    hide LocalTime, At, UserKey, MyHash, Divergent;
    if At(st, m.key) == At(g.b, m.key) {
      SameHash(g.e.c, st, g.b, m.key);
    } else {
      SameHash(g.e.c, st, g.a.store, m.key);
    }
  }

  lemma SameRecord(c: Codec, st: KeyMap, st': KeyMap, w: Mutation)
    requires Lww.HoldsRecord(c, st, w) && Lww.HoldsRecord(c, st', w)
    ensures At(st, w.key) == At(st', w.key)
  {
    hide MetaKey;
  }

  lemma OtherRecords(c: Codec, st: KeyMap, st': KeyMap, w: Mutation, x: Key)
    requires Cluster.Replaced(c, st, st', w) && UserKey(w.key) && UserKey(x) && x != w.key
    ensures At(st', x) == At(st, x)
  {
    hide MetaKey;
    MetaKeysApart(w.key, x);
    MetaKeysApart(x, w.key);
  }

  // ---------------------------------------------------------------- every delivery keeps the invariant

  /** What has been answered stays answered while only messages are added and the records it speaks of stay. */
  lemma StaysAnswered(g: Setting, s: Session, s': Session, m: Message)
    requires Answered(g, s, m) && s.net <= s'.net
    requires m.PutVal? ==> At(s'.b.store, m.key) == At(s.b.store, m.key) || At(s'.b.store, m.key) == Expected(g, m.key)
    ensures Answered(g, s', m)
  {
    hide Divergent, Expected, At, ValueOf;
    match m
    case ReqBucket(bucket) =>
      var l :| RepBucket(bucket, l) in s.net;
      assert RepBucket(bucket, l) in s'.net;
    case _ =>
  }

  lemma StaysSettled(g: Setting, s: Session, s': Session, k: Key)
    requires Settled(g, s, k) && s.net <= s'.net
    requires At(s'.b.store, k) == At(s.b.store, k) || (At(s'.b.store, k) == Expected(g, k) && GetVal(k) in s'.net)
    ensures Settled(g, s', k)
  {
    hide At, Expected;
  }

  /** Steps that leave B's store as it is. */
  lemma KeepQuiet(g: Setting, s: Session, s': Session, m: Message)
    requires Inv(g, s) && s'.b == s.b && s.net <= s'.net && s'.done == s.done + {m}
    requires forall x :: x in s'.net ==> Justified(g, x) && AskedFor(s'.net, x)
    requires m in s.net && Answered(g, s', m) && !m.PutVal?
    ensures Inv(g, s')
  {
    hide At, Expected, Justified, Answered, Settled, UserKey, Valid;
    forall x | x in s'.done ensures Answered(g, s', x) {
      if x in s.done {
        StaysAnswered(g, s, s', x);
      }
    }
    forall k | UserKey(k) ensures Settled(g, s', k) {
      StaysSettled(g, s, s', k);
    }
  }

  /** The step that may change it; the value was asked for. */
  lemma KeepPut(g: Setting, s: Session, m: Message, keys: seq<(Key, Hash)>)
    requires Fair(g) && Valid(g.a) && Inv(g, s) && m in s.net && m.PutVal?
    ensures Inv(g, Next(g.e, g.a, s, Delivery(m, keys)))
  {
    hide At, Expected, Answered, UserKey, Live, Divergent, Settled, Fair, ValueOf, Justified;
    var s' := Next(g.e, g.a, s, Delivery(m, keys));
    assert Justified(g, m);
    PutKeyIsUser(g, m);
    assert Settled(g, s, m.key);
    SettledEither(g, s, m.key);
    TakeValue(g, s.b.store, m);
    assert s'.net == s.net;
    AnsweredPut(g, s', m);
    forall x | x in s'.done ensures Answered(g, s', x) {
      if x in s.done {
        if x.PutVal? {
          assert Justified(g, x);
          PutKeyIsUser(g, x);
        }
        StaysAnswered(g, s, s', x);
      }
    }
    forall k | UserKey(k) ensures Settled(g, s', k) {
      StaysSettled(g, s, s', k);
    }
  }

  lemma PutKeyIsUser(g: Setting, m: Message)
    requires m.PutVal? && Justified(g, m)
    ensures UserKey(m.key)
  {
  }

  lemma SettledEither(g: Setting, s: Session, k: Key)
    requires Settled(g, s, k)
    ensures At(s.b.store, k) == At(g.b, k) || At(s.b.store, k) == Expected(g, k)
  {
  }

  lemma AnsweredPut(g: Setting, s: Session, m: Message)
    requires m.PutVal? && At(s.b.store, m.key) == Expected(g, m.key)
    ensures Answered(g, s, m)
  {
  }

  lemma KeepNext(g: Setting, s: Session, d: Delivery)
    requires Fair(g) && Valid(g.a) && Inv(g, s) && d.m in s.net && PossibleListing(g.e, g.a, d.m, d.keys)
    ensures Inv(g, Next(g.e, g.a, s, d))
  {
    hide Fair, Valid, Justified, Answered, Settled, UserKey, Replies, PossibleListing, Live;
    var m := d.m;
    var s' := Next(g.e, g.a, s, d);
    assert Justified(g, m);
    KnownKind(g, m);
    match m {
      case PutVal(_, _, _) => KeepPut(g, s, m, d.keys);
      case ReqBucket(_) =>
        AnswerBucket(g, s', m, d.keys);
        RepliesAskedFor(g.e, g.a, s, m, d.keys);
        KeepQuiet(g, s, s', m);
      case GetVal(_) =>
        AnswerRequest(g, s', m, d.keys);
        RepliesAskedFor(g.e, g.a, s, m, d.keys);
        KeepQuiet(g, s, s', m);
      case RepBucket(_, _) =>
        AnswerListing(g, s, m);
        AnsweredListing(g, s', m);
        RepliesAskedFor(g.e, s.b, s, m, []);
        KeepQuiet(g, s, s', m);
      case _ =>
    }
  }

  lemma KnownKind(g: Setting, m: Message)
    requires Justified(g, m)
    ensures m.ReqBucket? || m.RepBucket? || m.GetVal? || m.PutVal?
  {
  }

  lemma RepliesAskedFor(e: Env, r: Replica, s: Session, m: Message, keys: seq<(Key, Hash)>)
    requires Valid(r) && m in s.net && (m.ReqBucket? || m.GetVal? || m.RepBucket?)
    ensures forall x :: x in Replies(e, r, m, keys) ==> AskedFor(s.net, x)
  {
    hide Children, Asks, Root, Visible;
  }

  lemma AnsweredListing(g: Setting, s: Session, m: Message)
    requires m.RepBucket?
    requires forall k :: Divergent(g, k) && Leaves.BucketOf(g.e.c, k) == m.bucket ==> GetVal(k) in s.net
    ensures Answered(g, s, m)
  {
    hide Divergent;
  }

  lemma {:induction false} RunsInv(g: Setting, s0: Session, schedule: seq<Delivery>, s: Session)
    requires Fair(g) && Valid(g.a) && Init(g.buckets, s0) && s0.b.store == g.b && Runs(g.e, g.a, s0, schedule, s)
    ensures Inv(g, s)
    decreases |schedule|
  {
    hide Fair, Inv, Next, PossibleListing;
    if schedule == [] {
      InitInv(g, s0);
    } else {
      var init, d := schedule[..|schedule| - 1], schedule[|schedule| - 1];
      var t :| Runs(g.e, g.a, s0, init, t) && d.m in t.net && PossibleListing(g.e, g.a, d.m, d.keys)
               && Valid(t.b) && s == Next(g.e, g.a, t, d);
      RunsInv(g, s0, init, t);
      KeepNext(g, t, d);
    }
  }

  lemma InitInv(g: Setting, s: Session)
    requires Init(g.buckets, s) && s.b.store == g.b
    ensures Inv(g, s)
  {
    hide At, UserKey, Expected;
  }

  // ---------------------------------------------------------------- for every run

  /**
   At any moment of any run, B holds under every user key its own record or the one it is to hold; when the network has
   drained it holds exactly what it is to hold: of every key listed with another hash the record with the larger time,
   and of all other keys its own record untouched.
   */
  lemma PullResult(g: Setting, s0: Session, schedule: seq<Delivery>, s: Session, k: Key)
    requires Fair(g) && Valid(g.a) && Init(g.buckets, s0) && s0.b.store == g.b && Runs(g.e, g.a, s0, schedule, s)
    requires UserKey(k)
    ensures At(s.b.store, k) == At(g.b, k) || At(s.b.store, k) == Expected(g, k)
    ensures Drained(s) ==> At(s.b.store, k) == Expected(g, k)
  {
    hide Fair, Runs, At, UserKey, Expected, Inv;
    RunsInv(g, s0, schedule, s);
    InvResult(g, s, k);
  }

  lemma InvResult(g: Setting, s: Session, k: Key)
    requires Inv(g, s) && UserKey(k)
    ensures At(s.b.store, k) == At(g.b, k) || At(s.b.store, k) == Expected(g, k)
    ensures Drained(s) ==> At(s.b.store, k) == Expected(g, k)
  {
    hide At, UserKey, Expected, MyHash, Later, MetaKey, ListsUser;
    assert Settled(g, s, k);
    if Drained(s) && Divergent(g, k) {
      var bucket := Leaves.BucketOf(g.e.c, k);
      assert Answered(g, s, ReqBucket(bucket));
      var l :| RepBucket(bucket, l) in s.net;
      assert Answered(g, s, RepBucket(bucket, l));
      assert Answered(g, s, GetVal(k));
      assert Answered(g, s, ValueOf(g, k));
    } else if !Divergent(g, k) {
      OwnIsExpected(g, k);
    }
  }

  lemma OwnIsExpected(g: Setting, k: Key)
    requires !Divergent(g, k)
    ensures Expected(g, k) == At(g.b, k)
  {
  }

  // ---------------------------------------------------------------- both ways

  /** The values that were written have hashes that are not zero, and different ones if they are different. */
  ghost predicate GoodHash(g: Setting) {
    forall v, w :: v in g.writes && w in g.writes ==>
      g.e.c.hash(Lww.Stored(g.e.c, v)) != 0 && NoCollision(g.e.c, Lww.Stored(g.e.c, v), Lww.Stored(g.e.c, w))
  }

  predicate NoCollision(c: Codec, v: Blob, w: Blob) {
    c.hash(v) == c.hash(w) ==> v == w
  }

  /** Held values are told apart by their hashes. */
  lemma HashTells(g: Setting, st: KeyMap, st': KeyMap, k: Key)
    requires Fair(g) && GoodHash(g) && Cluster.Sourced(g.e.c, st, g.writes) && Cluster.Sourced(g.e.c, st', g.writes)
    requires UserKey(k) && k in st && k in st'
    ensures g.e.c.hash(st[k]) != 0 && NoCollision(g.e.c, st[k], st'[k])
  {
    hide MetaKey, UserKey, Lawful, Cluster.Sourced, LocalTime;
    var v := Cluster.HeldWrite(g.e.c, st, g.writes, k);
    var w := Cluster.HeldWrite(g.e.c, st', g.writes, k);
  }

  /** A user key whose record is A's or B's. */
  lemma TimeOfAbsent(g: Setting, st: KeyMap, k: Key)
    requires Fair(g) && Cluster.Sourced(g.e.c, st, g.writes) && UserKey(k) && k !in st
    ensures LocalTime(g.e.c, st, k) == ZERO && At(st, k) == (None, None)
  {
    hide MetaKey, UserKey, Lawful, Cluster.Witness, Lww.Sound;
    if MetaKey(k) in st {
      assert Cluster.Backed(g.e.c, st, g.writes, MetaKey(k));
      var w :| w in g.writes && Cluster.Witness(g.e.c, st, MetaKey(k), w);
      WitnessOfMeta(g.e.c, st, k, w);
      assert false;
    }
  }

  lemma WitnessOfMeta(c: Codec, st: KeyMap, k: Key, w: Mutation)
    requires UserKey(k) && UserKey(w.key) && Cluster.Witness(c, st, MetaKey(k), w)
    ensures k in st
  {
    hide MetaKey, UserKey;
    MetaKeysApart(k, w.key);
  }

  /** Two stores of the same writes that hold a key at the same time hold the same record. */
  lemma SameTime(g: Setting, st: KeyMap, st': KeyMap, k: Key)
    requires Fair(g) && Cluster.Sourced(g.e.c, st, g.writes) && Cluster.Sourced(g.e.c, st', g.writes)
    requires UserKey(k) && k in st && k in st' && LocalTime(g.e.c, st, k) == LocalTime(g.e.c, st', k)
    ensures At(st, k) == At(st', k)
  {
    hide MetaKey, UserKey, Lawful, Cluster.Sourced, LocalTime, Lww.HoldsRecord, At;
    var v := Cluster.HeldWrite(g.e.c, st, g.writes, k);
    var w := Cluster.HeldWrite(g.e.c, st', g.writes, k);
    SameRecord(g.e.c, st, st', v);
  }

  lemma HeldIsLate(g: Setting, st: KeyMap, k: Key)
    requires Fair(g) && Cluster.Sourced(g.e.c, st, g.writes) && UserKey(k) && k in st
    ensures Less(ZERO, LocalTime(g.e.c, st, k))
  {
    hide MetaKey, UserKey, Lawful, Cluster.Sourced, LocalTime, Lww.HoldsRecord, Less;
    var w := Cluster.HeldWrite(g.e.c, st, g.writes, k);
    assert Lww.Sound(w);
  }

  lemma SameCurrent(st: KeyMap, st': KeyMap, k: Key)
    requires At(st, k) == At(st', k)
    ensures Current(st, k) == Current(st', k) && (k in st <==> k in st')
  {
    hide MetaKey;
  }

  /** A key that neither side takes over has equal values already. */
  lemma NeitherMoves(g: Setting, k: Key)
    requires Fair(g) && GoodHash(g) && UserKey(k) && Leaves.BucketOf(g.e.c, k) in g.buckets
    requires !(Divergent(g, k) && Later(g, k))
    requires k in g.b && MyHash(g.e.c, g.a.store, k) != g.e.c.hash(g.b[k]) ==>
      !Less(LocalTime(g.e.c, g.a.store, k), LocalTime(g.e.c, g.b, k))
    ensures Current(g.a.store, k) == Current(g.b, k)
  {
    hide UserKey, LocalTime, Less, Cluster.Sourced, Lawful, MetaKey, GoodHash;
    var c := g.e.c;
    if k !in g.a.store {
      TimeOfAbsent(g, g.a.store, k);
      if k in g.b {
        HeldIsLate(g, g.b, k);
        HashTells(g, g.b, g.b, k);
      }
    } else if k !in g.b {
      TimeOfAbsent(g, g.b, k);
      HeldIsLate(g, g.a.store, k);
      HashTells(g, g.a.store, g.a.store, k);
    } else {
      HashTells(g, g.a.store, g.b, k);
      HashTells(g, g.b, g.a.store, k);
      if Divergent(g, k) {
        OrderIsTotal(LocalTime(c, g.a.store, k), LocalTime(c, g.b, k), ZERO);
        if LocalTime(c, g.a.store, k) == LocalTime(c, g.b, k) {
          SameTime(g, g.a.store, g.b, k);
          SameCurrent(g.a.store, g.b, k);
        }
      }
    }
  }

  /** What the two sides hold when both pulls are through. */
  lemma BothExpected(g: Setting, there: Setting, a': KeyMap, k: Key)
    requires Fair(g) && GoodHash(g) && there.e == g.e && there.b == g.a.store
    requires UserKey(k) && Leaves.BucketOf(g.e.c, k) in g.buckets && Leaves.BucketOf(g.e.c, k) in there.buckets
    requires At(there.a.store, k) == Expected(g, k) && At(a', k) == Expected(there, k)
    ensures Current(a', k) == Current(there.a.store, k)
  {
    hide UserKey, LocalTime, Less, Fair, GoodHash, At, MyHash;
    var c, b' := g.e.c, there.a.store;
    if Divergent(there, k) && Later(there, k) {
      SameCurrent(a', b', k);
    } else {
      SameCurrent(a', g.a.store, k);
      if Divergent(g, k) && Later(g, k) {
        SameCurrent(b', g.a.store, k);
      } else {
        SameCurrent(b', g.b, k);
        SameHash(c, b', g.b, k);
        assert k in g.b ==> b'[k] == g.b[k];
        NeitherMoves(g, k);
      }
    }
  }

  /** Both nodes hold the key with the same value, not the empty one, but with different times. */
  predicate SameValueTwoTimes(g: Setting, k: Key) {
    && k in g.a.store && k in g.b && g.a.store[k] == g.b[k] && g.b[k] != []
    && LocalTime(g.e.c, g.a.store, k) != LocalTime(g.e.c, g.b, k)
  }

  /** Such a key is divergent in neither direction; a key that is listed with another hash is not of this kind. */
  lemma TwoTimesIsNotDivergent(g: Setting, k: Key)
    requires SameValueTwoTimes(g, k)
    ensures !Divergent(g, k) && MyHash(g.e.c, g.a.store, k) == g.e.c.hash(g.b[k])
  {
  }

  /** Keys that neither side takes over: their records agree unless the values do and the times do not. */
  lemma NeitherMovesRecord(g: Setting, k: Key)
    requires Fair(g) && GoodHash(g) && UserKey(k) && Leaves.BucketOf(g.e.c, k) in g.buckets
    requires !(Divergent(g, k) && Later(g, k))
    requires k in g.b && MyHash(g.e.c, g.a.store, k) != g.e.c.hash(g.b[k]) ==>
      !Less(LocalTime(g.e.c, g.a.store, k), LocalTime(g.e.c, g.b, k))
    ensures At(g.a.store, k) == At(g.b, k) <==> !SameValueTwoTimes(g, k)
  {
    hide UserKey, LocalTime, Less, Cluster.Sourced, Lawful, GoodHash, At;
    var c := g.e.c;
    NeitherMoves(g, k);
    if k in g.a.store && k in g.b {
      HashTells(g, g.b, g.a.store, k);
      HashTells(g, g.a.store, g.b, k);
      OrderIsTotal(LocalTime(c, g.a.store, k), LocalTime(c, g.b, k), ZERO);
      if LocalTime(c, g.a.store, k) == LocalTime(c, g.b, k) {
        SameTime(g, g.a.store, g.b, k);
      } else if At(g.a.store, k) == At(g.b, k) {
        SameHash(c, g.a.store, g.b, k);
      }
    } else {
      OneSided(g, k);
    }
  }

  /** A key that one side lacks and that does not move is on neither. */
  lemma OneSided(g: Setting, k: Key)
    requires Fair(g) && GoodHash(g) && UserKey(k) && Leaves.BucketOf(g.e.c, k) in g.buckets
    requires !(Divergent(g, k) && Later(g, k))
    requires k in g.b && MyHash(g.e.c, g.a.store, k) != g.e.c.hash(g.b[k]) ==>
      !Less(LocalTime(g.e.c, g.a.store, k), LocalTime(g.e.c, g.b, k))
    requires k !in g.a.store || k !in g.b
    ensures At(g.a.store, k) == At(g.b, k) == (None, None)
  {
    hide UserKey, LocalTime, Less, Cluster.Sourced, Lawful, GoodHash, MetaKey;
    if k in g.a.store {
      TimeOfAbsent(g, g.b, k);
      HeldIsLate(g, g.a.store, k);
      HashTells(g, g.a.store, g.a.store, k);
    } else {
      TimeOfAbsent(g, g.a.store, k);
      if k in g.b {
        HeldIsLate(g, g.b, k);
        HashTells(g, g.b, g.b, k);
      } else {
        TimeOfAbsent(g, g.b, k);
      }
    }
  }

  /**
   When both pulls are through, the two nodes hold the same record of a key, time and tombstone included, if and only
   if they did not start with the same non-empty value under two different times.
   */
  lemma RecordsAgreeExactly(g: Setting, there: Setting, a': KeyMap, k: Key)
    requires Fair(g) && GoodHash(g) && there.e == g.e && there.b == g.a.store
    requires UserKey(k) && Leaves.BucketOf(g.e.c, k) in g.buckets && Leaves.BucketOf(g.e.c, k) in there.buckets
    requires At(there.a.store, k) == Expected(g, k) && At(a', k) == Expected(there, k)
    ensures At(a', k) == At(there.a.store, k) <==> !SameValueTwoTimes(g, k)
  {
    hide UserKey, LocalTime, Less, Fair, GoodHash, At, MyHash, SameValueTwoTimes;
    var c, b' := g.e.c, there.a.store;
    if SameValueTwoTimes(g, k) {
      TwoTimesIsNotDivergent(g, k);
      KeyAtBoth(g, k);
    }
    if Divergent(g, k) && Later(g, k) {
      SameHash(c, b', g.a.store, k);
      SameAt(b', g.a.store, k);
      OrderIsTotal(LocalTime(c, b', k), LocalTime(c, b', k), ZERO);
    } else {
      SameHash(c, b', g.b, k);
      SameAt(b', g.b, k);
      if !(Divergent(there, k) && Later(there, k)) {
        NeitherMovesRecord(g, k);
      }
    }
  }

  lemma KeyAtBoth(g: Setting, k: Key)
    requires SameValueTwoTimes(g, k)
    ensures k in g.a.store && k in g.b
  {
  }

  lemma SameAt(st: KeyMap, st': KeyMap, k: Key)
    requires At(st, k) == At(st', k)
    ensures k in st <==> k in st'
    ensures k in st ==> st[k] == st'[k]
  {
    hide MetaKey;
  }

  /** A pull leaves B with client writes only. */
  lemma {:induction false} RunsSourced(g: Setting, s0: Session, schedule: seq<Delivery>, s: Session)
    requires Fair(g) && Valid(g.a) && Init(g.buckets, s0) && s0.b.store == g.b && Runs(g.e, g.a, s0, schedule, s)
    ensures Valid(s.b) && Cluster.Sourced(g.e.c, s.b.store, g.writes)
    decreases |schedule|
  {
    hide Cluster.Sourced, Next, PossibleListing, Lawful, UserKey, Lww.Sound;
    if schedule != [] {
      var init, d := schedule[..|schedule| - 1], schedule[|schedule| - 1];
      var t :| Runs(g.e, g.a, s0, init, t) && d.m in t.net && PossibleListing(g.e, g.a, d.m, d.keys)
               && Valid(t.b) && s == Next(g.e, g.a, t, d);
      RunsSourced(g, s0, init, t);
      RunsInv(g, s0, init, t);
      StepSourced(g, t, d);
    }
  }

  lemma StepSourced(g: Setting, t: Session, d: Delivery)
    requires Fair(g) && Valid(g.a) && Valid(t.b) && Inv(g, t) && d.m in t.net && Cluster.Sourced(g.e.c, t.b.store, g.writes)
    ensures Valid(Next(g.e, g.a, t, d).b) && Cluster.Sourced(g.e.c, Next(g.e, g.a, t, d).b.store, g.writes)
  {
    hide Cluster.Sourced, Lawful, UserKey, Lww.Sound, Replies, After, Valid, Settled, Answered, MyHash, Lww.HoldsRecord, LocalTime;
    if d.m.PutVal? {
      var k := d.m.key;
      assert Justified(g, d.m);
      var w := Cluster.HeldWrite(g.e.c, g.a.store, g.writes, k);
      CarriesWrite(g, w, d.m);
      assert Cluster.Genuine(g.e.c, d.m, g.writes);
    }
    Cluster.DeliveredIsSourced(g.e, t.b, d.m, g.writes);
  }

  /**
   After B has pulled from A and A has pulled from what B then holds, both with a drained network, the two hold equal
   values, deletions included, under every user key of the buckets that both asked for.
   */
  lemma BothWaysConverge(g: Setting, s0: Session, schedule: seq<Delivery>, s: Session,
                         buckets: set<nat>, t0: Session, schedule': seq<Delivery>, t: Session, k: Key)
    requires Fair(g) && GoodHash(g) && Valid(g.a)
    requires Init(g.buckets, s0) && s0.b.store == g.b && Runs(g.e, g.a, s0, schedule, s) && Drained(s)
    requires Valid(s.b)
    requires Init(buckets, t0) && t0.b.store == g.a.store && Runs(g.e, s.b, t0, schedule', t) && Drained(t)
    requires UserKey(k) && Leaves.BucketOf(g.e.c, k) in g.buckets && Leaves.BucketOf(g.e.c, k) in buckets
    ensures Current(t.b.store, k) == Current(s.b.store, k)
  {
    hide UserKey, GoodHash, At, MyHash, Runs, Cluster.Sourced, Lawful, Lww.Sound, Expected;
    var there := Setting(g.e, s.b, g.a.store, buckets, g.writes);
    RunsSourced(g, s0, schedule, s);
    PullResult(g, s0, schedule, s, k);
    PullResult(there, t0, schedule', t, k);
    BothExpected(g, there, t.b.store, k);
  }

  /** The same for two drained runs: exactly the keys with one value and two times keep different records. */
  lemma BothWaysRecords(g: Setting, s0: Session, schedule: seq<Delivery>, s: Session,
                        buckets: set<nat>, t0: Session, schedule': seq<Delivery>, t: Session, k: Key)
    requires Fair(g) && GoodHash(g) && Valid(g.a)
    requires Init(g.buckets, s0) && s0.b.store == g.b && Runs(g.e, g.a, s0, schedule, s) && Drained(s)
    requires Valid(s.b)
    requires Init(buckets, t0) && t0.b.store == g.a.store && Runs(g.e, s.b, t0, schedule', t) && Drained(t)
    requires UserKey(k) && Leaves.BucketOf(g.e.c, k) in g.buckets && Leaves.BucketOf(g.e.c, k) in buckets
    ensures At(t.b.store, k) == At(s.b.store, k) <==> !SameValueTwoTimes(g, k)
  {
    hide UserKey, GoodHash, At, MyHash, Runs, Cluster.Sourced, Lawful, Lww.Sound, Expected, SameValueTwoTimes;
    var there := Setting(g.e, s.b, g.a.store, buckets, g.writes);
    RunsSourced(g, s0, schedule, s);
    PullResult(g, s0, schedule, s, k);
    PullResult(there, t0, schedule', t, k);
    RecordsAgreeExactly(g, there, t.b.store, k);
  }

  /** Two puts of one value at two nodes: the times stay apart, whatever is pulled. */
  lemma OneValueTwoTimes(g: Setting, k: Key, body: Blob, ts: Timestamp, ts': Timestamp)
    requires Fair(g) && UserKey(k) && Representable(ts) && Representable(ts') && ts != ts' && g.e.c.normal(body) != []
    requires g.a.store == Live(g.e.c, map[], Put(k, body, ts)) && g.b == Live(g.e.c, map[], Put(k, body, ts'))
    ensures SameValueTwoTimes(g, k) && Expected(g, k) == At(g.b, k) != At(g.a.store, k)
  {
    hide MetaKey, Cluster.Sourced;
    MetaKeysApart(k, k);
    TwoTimesIsNotDivergent(g, k);
  }

  /** Two deletions of one key at different times are told apart by the listing: the later time wins. */
  lemma DeletionsAreCompared(g: Setting, k: Key)
    requires Fair(g) && GoodHash(g) && UserKey(k) && Leaves.BucketOf(g.e.c, k) in g.buckets
    requires k in g.a.store && k in g.b && g.a.store[k] == [] && g.b[k] == []
    ensures Divergent(g, k)
    ensures Expected(g, k) == if Later(g, k) then At(g.a.store, k) else At(g.b, k)
  {
    hide MetaKey, Cluster.Sourced, GoodHash, LocalTime, Less, At, UserKey, Lawful;
    HashTells(g, g.a.store, g.b, k);
  }
}
