/**
 Any number of replicas, their clients and a network that may lose, repeat and reorder messages.  A message, once sent,
 stays in the network and may be delivered at any later time, any number of times, or never.
 */
module Cluster {
  import opened Clock
  import opened Store
  import opened SyncCodec
  import opened Replica
  import Hashing
  import Lww

  datatype Packet = Packet(from: nat, to: nat, message: Message)

  /** `writes` is what the clients did: the times, keys and values of all puts and deletions. */
  datatype State = State(ids: seq<nat>, replicas: seq<Replica>, clocks: seq<Hlc>, net: set<Packet>, writes: set<Mutation>)

  datatype Action =
    | ClientPut(i: nat, key: Key, body: Blob, phys: int, after: int)
    | ClientDel(i: nat, key: Key, phys: int, after: int)
    | Gossip(i: nat, peer: nat)
    | Deliver(packet: Packet, keys: seq<(Key, Hashing.Hash)>)

  // ---------------------------------------------------------------- steps

  ghost predicate Shape(s: State) {
    && |s.ids| == |s.replicas| == |s.clocks|
    && forall i :: 0 <= i < |s.replicas| ==> Valid(s.replicas[i])
  }

  ghost predicate Init(s: State) {
    && Shape(s)
    && (forall i :: 0 <= i < |s.replicas| ==> s.replicas[i].store == map[])
    && (forall i :: 0 <= i < |s.clocks| ==> s.clocks[i] == Hlc(0, 0))
    && (forall i, j :: 0 <= i < j < |s.ids| ==> s.ids[i] != s.ids[j])
    && s.net == {} && s.writes == {}
  }

  /** The time that the clock of replica i gives a write. */
  function Stamp(s: State, i: nat, phys: int, after: int): Timestamp
    requires i < |s.clocks| && i < |s.ids|
  {
    var c := AfterNow(s.clocks[i], phys, after);
    Timestamp(c.wall, c.logical, s.ids[i])
  }

  /** A client may write under a user key while the clock runs forward and its time can be sent on. */
  predicate MayWrite(s: State, i: nat, key: Key, phys: int, after: int) {
    && i < |s.clocks| == |s.ids| == |s.replicas|
    && UserKey(key)
    && Behind(s.clocks[i], AfterNow(s.clocks[i], phys, after))
    && Representable(Stamp(s, i, phys, after)) && Less(ZERO, Stamp(s, i, phys, after))
  }

  ghost predicate Enabled(e: Env, s: State, a: Action) {
    match a
    case ClientPut(i, key, _, phys, after) => MayWrite(s, i, key, phys, after)
    case ClientDel(i, key, phys, after) => MayWrite(s, i, key, phys, after)
    case Gossip(i, peer) => i < |s.replicas| && peer < |s.replicas|
    case Deliver(p, keys) =>
      p in s.net && p.to < |s.replicas| && PossibleListing(e, s.replicas[p.to], p.message, keys)
  }

  /** The mutation that stands for a client's write. */
  function WriteOf(s: State, a: Action): Mutation
    requires (a.ClientPut? || a.ClientDel?) && a.i < |s.clocks| && a.i < |s.ids|
  {
    match a
    case ClientPut(i, key, body, phys, after) => Mutation(Stamp(s, i, phys, after), key, body, false)
    case ClientDel(i, key, phys, after) => Mutation(Stamp(s, i, phys, after), key, [], true)
  }

  /** The command that the engine runs for it. */
  function CommandOf(w: Mutation): Command {
    if w.isDelete then Del(w.key, w.ts) else Put(w.key, w.value, w.ts)
  }

  ghost function Next(e: Env, s: State, a: Action): (s': State)
    requires Shape(s) && Enabled(e, s, a)
    ensures Shape(s')
  {
    match a
    case ClientPut(i, _, _, phys, after) => Written(e, s, i, AfterNow(s.clocks[i], phys, after), WriteOf(s, a))
    case ClientDel(i, _, phys, after) => Written(e, s, i, AfterNow(s.clocks[i], phys, after), WriteOf(s, a))
    case Gossip(i, peer) =>
      s.(replicas := s.replicas[i := Refreshed(e, s.replicas[i])],
         net := s.net + {Packet(i, peer, SyncInit(Root(e, s.replicas[i])))})
    case Deliver(p, keys) =>
      s.(replicas := s.replicas[p.to := After(e, s.replicas[p.to], p.message)],
         net := s.net + Answers(p, Replies(e, s.replicas[p.to], p.message, keys)))
  }

  ghost function Written(e: Env, s: State, i: nat, clock: Hlc, w: Mutation): (s': State)
    requires Shape(s) && i < |s.replicas|
    ensures Shape(s')
  {
    var r := s.replicas[i];
    s.(replicas := s.replicas[i := r.(store := Live(e.c, r.store, CommandOf(w)))],
       clocks := s.clocks[i := clock], writes := s.writes + {w})
  }

  function Answers(p: Packet, ms: set<Message>): set<Packet> {
    set m | m in ms :: Packet(p.to, p.from, m)
  }

  datatype Outcome = NoRun | RunsTo(state: State)

  ghost function Execute(e: Env, s: State, schedule: seq<Action>): (o: Outcome)
    requires Shape(s)
    ensures o.RunsTo? ==> Shape(o.state)
    decreases |schedule|
  {
    if schedule == [] then RunsTo(s)
    else
      match Execute(e, s, schedule[..|schedule| - 1])
      case NoRun => NoRun
      case RunsTo(m) =>
        var a := schedule[|schedule| - 1];
        if Enabled(e, m, a) then RunsTo(Next(e, m, a)) else NoRun
  }

  // ---------------------------------------------------------------- what every step keeps

  /** The key belongs to a record that is wholly some write. */
  ghost predicate Backed(c: Codec, st: KeyMap, writes: set<Mutation>, x: Key) {
    exists w :: w in writes && Witness(c, st, x, w)
  }

  predicate Witness(c: Codec, st: KeyMap, x: Key, w: Mutation) {
    (x == w.key || x == MetaKey(w.key)) && Lww.HoldsRecord(c, st, w)
  }

  ghost predicate Sourced(c: Codec, st: KeyMap, writes: set<Mutation>) {
    forall x :: x in st ==> Backed(c, st, writes, x)
  }

  /** A value on its way is wholly some write. */
  predicate Carries(c: Codec, m: Message, w: Mutation) {
    m.PutVal? && m.key == w.key && m.meta == c.meta(w.ts, w.isDelete) && m.value == Lww.Stored(c, w)
  }

  ghost predicate Genuine(c: Codec, m: Message, writes: set<Mutation>) {
    m.PutVal? ==> exists w :: w in writes && Carries(c, m, w)
  }

  /** The clock has reached the time. */
  predicate Reaches(clock: Hlc, ts: Timestamp) {
    ts.wall < clock.wall || (ts.wall == clock.wall && ts.logical <= clock.logical)
  }

  /** A write came from one of the replicas, whose clock has reached it. */
  ghost predicate Issued(s: State, w: Mutation) {
    exists i :: 0 <= i < |s.ids| && i < |s.clocks| && w.ts.node == s.ids[i] && Reaches(s.clocks[i], w.ts)
  }

  ghost predicate WritesInv(s: State) {
    && (forall i, j :: 0 <= i < j < |s.ids| ==> s.ids[i] != s.ids[j])
    && (forall w :: w in s.writes ==> Lww.Sound(w) && Issued(s, w))
    && (forall w, w' :: w in s.writes && w' in s.writes && w.ts == w'.ts ==> w == w')
  }

  ghost predicate Inv(e: Env, s: State) {
    && Shape(s) && WritesInv(s)
    && (forall i :: 0 <= i < |s.replicas| ==> Sourced(e.c, s.replicas[i].store, s.writes))
    && (forall p :: p in s.net ==> Genuine(e.c, p.message, s.writes))
  }

  // ---------------------------------------------------------------- stores

  lemma MoreWrites(c: Codec, st: KeyMap, writes: set<Mutation>, w: Mutation)
    requires Sourced(c, st, writes)
    ensures Sourced(c, st, writes + {w})
  {
    hide Witness;
    forall x | x in st ensures Backed(c, st, writes + {w}, x) {
      assert Backed(c, st, writes, x);
      var v :| v in writes && Witness(c, st, x, v);
      assert v in writes + {w};
    }
  }

  /** The store differs only in the record of one key, and that record is wholly a write. */
  predicate Replaced(c: Codec, st: KeyMap, st': KeyMap, w: Mutation) {
    && Lww.HoldsRecord(c, st', w)
    && (forall x :: x in st' && x != w.key && x != MetaKey(w.key) ==> x in st && st'[x] == st[x])
    && (forall x :: x in st && x != w.key && x != MetaKey(w.key) ==> x in st')
  }

  lemma OthersHeld(c: Codec, st: KeyMap, st': KeyMap, w: Mutation, v: Mutation)
    requires Replaced(c, st, st', w) && UserKey(w.key) && UserKey(v.key) && v.key != w.key && Lww.HoldsRecord(c, st, v)
    ensures Lww.HoldsRecord(c, st', v)
  {
    hide MetaKey;
    MetaKeysApart(v.key, w.key);
    MetaKeysApart(w.key, v.key);
  }

  lemma ReplacedIsSourced(c: Codec, st: KeyMap, st': KeyMap, writes: set<Mutation>, w: Mutation)
    requires Sourced(c, st, writes) && w in writes && Replaced(c, st, st', w)
    requires forall v :: v in writes ==> UserKey(v.key)
    ensures Sourced(c, st', writes)
  {
    hide Lww.HoldsRecord, MetaKey, UserKey;
    forall x | x in st' ensures Backed(c, st', writes, x) {
      if x == w.key || x == MetaKey(w.key) {
        assert Witness(c, st', x, w);
      } else {
        assert Backed(c, st, writes, x);
        var v :| v in writes && Witness(c, st, x, v);
        OthersHeld(c, st, st', w, v);
        assert Witness(c, st', x, v);
      }
    }
  }

  lemma CommandReplaces(c: Codec, st: KeyMap, w: Mutation)
    requires Lawful(c) && UserKey(w.key)
    ensures Replaced(c, st, Live(c, st, CommandOf(w)), w)
  {
    hide MetaKey;
    MetaKeysApart(w.key, w.key);
  }

  /** A value that carries a write either leaves the store as it is or puts in exactly that write. */
  lemma PutValReplaces(c: Codec, st: KeyMap, m: Message, w: Mutation)
    requires Lawful(c) && Lww.Sound(w) && Carries(c, m, w)
    ensures MutationOf(c, m) == Mutation(w.ts, w.key, Lww.Stored(c, w), w.isDelete)
    ensures var st' := Live(c, st, Mutate(MutationOf(c, m)));
      if Accepts(c, st, MutationOf(c, m)) then Replaced(c, st, st', w) else st' == st
  {
    hide MetaKey, LessEq;
    MetaKeysApart(w.key, w.key);
    var mu := MutationOf(c, m);
    assert mu == Mutation(w.ts, w.key, Lww.Stored(c, w), w.isDelete);
    assert Lww.Stored(c, mu) == Lww.Stored(c, w);
  }

  // ---------------------------------------------------------------- messages

  /** A value that is answered to a request is wholly a write. */
  lemma AnswerIsGenuine(e: Env, r: Replica, m: Message, keys: seq<(Key, Hashing.Hash)>, writes: set<Mutation>, out: Message)
    requires Valid(r) && Sourced(e.c, r.store, writes) && out in Replies(e, r, m, keys)
    requires forall w :: w in writes ==> UserKey(w.key)
    ensures Genuine(e.c, out, writes)
  {
    hide Replies, UserKey, Witness, Carries, Valid;
    if out.PutVal? {
      OnlyGetValPuts(e, r, m, keys, out);
      var x := m.key + META_SUFFIX;
      assert Backed(e.c, r.store, writes, x);
      var w :| w in writes && Witness(e.c, r.store, x, w);
      AnswerCarries(e.c, r.store, m.key, w);
    }
  }

  lemma AnswerCarries(c: Codec, st: KeyMap, k: Key, w: Mutation)
    requires UserKey(w.key) && Witness(c, st, k + META_SUFFIX, w)
    ensures k + META_SUFFIX in st && Carries(c, PutVal(k, st[k + META_SUFFIX], Current(st, k)), w)
  {
    hide MetaKey, UserKey;
    MetaOfUser(w.key, k);
  }

  lemma OnlyGetValPuts(e: Env, r: Replica, m: Message, keys: seq<(Key, Hashing.Hash)>, out: Message)
    requires Valid(r) && out in Replies(e, r, m, keys) && out.PutVal?
    ensures m.GetVal? && m.key + META_SUFFIX in r.store
    ensures out == PutVal(m.key, r.store[m.key + META_SUFFIX], Current(r.store, m.key))
  {
    hide Children, Root, Node;
  }

  lemma MetaOfUser(user: Key, k: Key)
    requires UserKey(user)
    ensures k + META_SUFFIX != user
    ensures k + META_SUFFIX == MetaKey(user) ==> k == user
  {
    var x := k + META_SUFFIX;
    assert x[|x| - 5..] == META_SUFFIX && x[..|k|] == k;
    MetaKeysApart(user, user);
    assert MetaKey(user)[..|user|] == user;
  }

  // ---------------------------------------------------------------- steps keep the invariant

  lemma NewTime(s: State, i: nat, phys: int, after: int, w: Mutation)
    requires |s.ids| == |s.clocks| == |s.replicas| && WritesInv(s) && i < |s.clocks| && w in s.writes
    requires Behind(s.clocks[i], AfterNow(s.clocks[i], phys, after))
    ensures w.ts != Stamp(s, i, phys, after)
  {
    var j :| 0 <= j < |s.ids| && w.ts.node == s.ids[j] && Reaches(s.clocks[j], w.ts);
  }

  /** A write gets a time that no write has. */
  lemma KeepWrites(e: Env, s: State, i: nat, phys: int, after: int, w: Mutation)
    requires Shape(s) && WritesInv(s) && MayWrite(s, i, w.key, phys, after) && w.ts == Stamp(s, i, phys, after)
    ensures WritesInv(Written(e, s, i, AfterNow(s.clocks[i], phys, after), w))
  {
    hide AfterNow, Live, Less, UserKey, Valid, Representable;
    var s' := Written(e, s, i, AfterNow(s.clocks[i], phys, after), w);
    assert s'.ids == s.ids && s'.writes == s.writes + {w};
    forall v | v in s'.writes ensures Lww.Sound(v) && Issued(s', v) {
      if v == w {
        assert Reaches(s'.clocks[i], w.ts);
      } else {
        assert Issued(s, v);
        var j :| 0 <= j < |s.ids| && j < |s.clocks| && v.ts.node == s.ids[j] && Reaches(s.clocks[j], v.ts);
        assert Reaches(s'.clocks[j], v.ts);
      }
    }
    forall v, v' | v in s'.writes && v' in s'.writes && v.ts == v'.ts ensures v == v' {
      if v in s.writes {
        NewTime(s, i, phys, after, v);
      }
      if v' in s.writes {
        NewTime(s, i, phys, after, v');
      }
    }
  }

  lemma MoreGenuine(c: Codec, m: Message, writes: set<Mutation>, w: Mutation)
    requires Genuine(c, m, writes)
    ensures Genuine(c, m, writes + {w})
  {
    if m.PutVal? {
      var v :| v in writes && Carries(c, m, v);
      assert v in writes + {w};
    }
  }

  lemma KeepWrite(e: Env, s: State, i: nat, phys: int, after: int, w: Mutation)
    requires Lawful(e.c) && Inv(e, s)
    requires MayWrite(s, i, w.key, phys, after) && w.ts == Stamp(s, i, phys, after)
    ensures Inv(e, Written(e, s, i, AfterNow(s.clocks[i], phys, after), w))
  {
    hide Sourced, Genuine, Lawful, Live, AfterNow, WritesInv, Representable, Less, Behind, UserKey;
    var s' := Written(e, s, i, AfterNow(s.clocks[i], phys, after), w);
    KeepWrites(e, s, i, phys, after, w);
    AllUserKeys(s');
    forall j | 0 <= j < |s'.replicas| ensures Sourced(e.c, s'.replicas[j].store, s'.writes) {
      MoreWrites(e.c, s.replicas[j].store, s.writes, w);
      if j == i {
        CommandReplaces(e.c, s.replicas[i].store, w);
        ReplacedIsSourced(e.c, s.replicas[i].store, s'.replicas[i].store, s'.writes, w);
      }
    }
    forall p | p in s'.net ensures Genuine(e.c, p.message, s'.writes) {
      MoreGenuine(e.c, p.message, s.writes, w);
    }
  }

  lemma AllUserKeys(s: State)
    requires WritesInv(s)
    ensures forall w :: w in s.writes ==> UserKey(w.key) && Lww.Sound(w)
  {
  }

  lemma KeepDeliver(e: Env, s: State, p: Packet, keys: seq<(Key, Hashing.Hash)>)
    requires Lawful(e.c) && Inv(e, s) && Enabled(e, s, Deliver(p, keys))
    ensures Inv(e, Next(e, s, Deliver(p, keys)))
  {
    hide Sourced, Genuine, Lawful, Live, WritesInv, Replies, PossibleListing, UserKey, After, Refreshed;
    var s' := Next(e, s, Deliver(p, keys));
    AllUserKeys(s);
    assert WritesInv(s') by { SameWrites(s, s'); }
    DeliveredIsSourced(e, s.replicas[p.to], p.message, s.writes);
    forall q | q in s'.net ensures Genuine(e.c, q.message, s'.writes) {
      if q !in s.net {
        AnswerIsGenuine(e, s.replicas[p.to], p.message, keys, s.writes, q.message);
      }
    }
  }

  lemma SameWrites(s: State, s': State)
    requires WritesInv(s) && s'.ids == s.ids && s'.clocks == s.clocks && s'.writes == s.writes
    ensures WritesInv(s')
  {
    forall w | w in s'.writes ensures Issued(s', w) {
      assert Issued(s, w);
    }
  }

  lemma DeliveredIsSourced(e: Env, r: Replica, m: Message, writes: set<Mutation>)
    requires Lawful(e.c) && Valid(r) && Sourced(e.c, r.store, writes) && Genuine(e.c, m, writes)
    requires forall w :: w in writes ==> UserKey(w.key) && Lww.Sound(w)
    ensures Sourced(e.c, After(e, r, m).store, writes)
  {
    hide Sourced, Lawful, Live, UserKey, Lww.Sound, Carries, Replaced, Accepts;
    if m.PutVal? {
      var w :| w in writes && Carries(e.c, m, w);
      PutValReplaces(e.c, r.store, m, w);
      if Accepts(e.c, r.store, MutationOf(e.c, m)) {
        ReplacedIsSourced(e.c, r.store, After(e, r, m).store, writes, w);
      }
    }
  }

  lemma KeepNext(e: Env, s: State, a: Action)
    requires Lawful(e.c) && Inv(e, s) && Enabled(e, s, a)
    ensures Inv(e, Next(e, s, a))
  {
    hide Sourced, Genuine, Lawful, Live, WritesInv, Root, Written;
    match a
    case ClientPut(i, key, body, phys, after) => KeepWrite(e, s, i, phys, after, WriteOf(s, a));
    case ClientDel(i, key, phys, after) => KeepWrite(e, s, i, phys, after, WriteOf(s, a));
    case Deliver(p, keys) => KeepDeliver(e, s, p, keys);
    case Gossip(i, peer) =>
      SameWrites(s, Next(e, s, a));
      NoValue(e.c, SyncInit(Root(e, s.replicas[i])), s.writes);
  }

  lemma NoValue(c: Codec, m: Message, writes: set<Mutation>)
    requires !m.PutVal?
    ensures Genuine(c, m, writes)
  {
  }

  lemma {:induction false} ReachableInv(e: Env, s0: State, schedule: seq<Action>, s: State)
    requires Lawful(e.c) && Init(s0) && Execute(e, s0, schedule) == RunsTo(s)
    ensures Inv(e, s)
    decreases |schedule|
  {
    hide Lawful, Next, Inv;
    if schedule == [] {
      assert Inv(e, s0) by { InitInv(e, s0); }
    } else {
      var init := schedule[..|schedule| - 1];
      var m := Execute(e, s0, init).state;
      ReachableInv(e, s0, init, m);
      KeepNext(e, m, schedule[|schedule| - 1]);
    }
  }

  lemma InitInv(e: Env, s: State)
    requires Init(s)
    ensures Inv(e, s)
  {
  }

  // ---------------------------------------------------------------- for every run

  /**
   In every run, whatever a replica holds under a key is exactly one client's put or deletion: value, time and
   tombstone are never mixed from several writes.
   */
  lemma HeldRecordIsAWrite(e: Env, s0: State, schedule: seq<Action>, s: State, i: nat, k: Key) returns (w: Mutation)
    requires Lawful(e.c) && Init(s0) && Execute(e, s0, schedule) == RunsTo(s)
    requires i < |s.replicas| && UserKey(k) && k in s.replicas[i].store
    ensures w in s.writes && w.key == k && Lww.HoldsRecord(e.c, s.replicas[i].store, w)
    ensures LocalTime(e.c, s.replicas[i].store, k) == w.ts
  {
    hide Execute, Sourced, WritesInv, Genuine;
    ReachableInv(e, s0, schedule, s);
    AllUserKeys(s);
    w := HeldWrite(e.c, s.replicas[i].store, s.writes, k);
  }

  /** What a sourced store holds under a user key. */
  lemma HeldWrite(c: Codec, st: KeyMap, writes: set<Mutation>, k: Key) returns (w: Mutation)
    requires Lawful(c) && Sourced(c, st, writes) && UserKey(k) && k in st
    requires forall v :: v in writes ==> UserKey(v.key) && Lww.Sound(v)
    ensures w in writes && w.key == k && Lww.HoldsRecord(c, st, w)
    ensures LocalTime(c, st, k) == w.ts
  {
    hide Witness, UserKey, Lawful, LocalTime, Lww.HoldsRecord, Lww.Sound;
    assert Backed(c, st, writes, k);
    w :| w in writes && Witness(c, st, k, w);
    WitnessIsHeld(c, st, k, w);
  }

  lemma WitnessIsHeld(c: Codec, st: KeyMap, k: Key, w: Mutation)
    requires Lawful(c) && UserKey(k) && Lww.Sound(w) && Witness(c, st, k, w)
    ensures w.key == k && Lww.HoldsRecord(c, st, w) && LocalTime(c, st, k) == w.ts
  {
    hide MetaKey, UserKey, Lawful, LocalTime, Lww.HoldsRecord;
    MetaKeysApart(w.key, k);
    Lww.TimeOfHeld(c, st, w);
  }

  /** In every run, replicas that hold a key at the same time hold the same value and the same metadata. */
  lemma SameTimeSameRecord(e: Env, s0: State, schedule: seq<Action>, s: State, i: nat, j: nat, k: Key)
    requires Lawful(e.c) && Init(s0) && Execute(e, s0, schedule) == RunsTo(s)
    requires i < |s.replicas| && j < |s.replicas| && UserKey(k)
    requires k in s.replicas[i].store && k in s.replicas[j].store
    requires LocalTime(e.c, s.replicas[i].store, k) == LocalTime(e.c, s.replicas[j].store, k)
    ensures s.replicas[i].store[k] == s.replicas[j].store[k]
    ensures MetaKey(k) in s.replicas[i].store && MetaKey(k) in s.replicas[j].store
    ensures s.replicas[i].store[MetaKey(k)] == s.replicas[j].store[MetaKey(k)]
  {
    hide MetaKey, Execute, LocalTime, Sourced, Genuine;
    var v := HeldRecordIsAWrite(e, s0, schedule, s, i, k);
    var w := HeldRecordIsAWrite(e, s0, schedule, s, j, k);
    ReachableInv(e, s0, schedule, s);
    assert v == w;
  }

  // ---------------------------------------------------------------- writes are what the clients asked for

  predicate IsWrite(a: Action) {
    a.ClientPut? || a.ClientDel?
  }

  /** The client's action asks for exactly this write, on the replica with this id. */
  predicate Asks(ids: seq<nat>, a: Action, w: Mutation) {
    && IsWrite(a)
    && a.i < |ids| && w.ts.node == ids[a.i] && w.ts.wall >= a.phys && w.key == a.key
    && w.isDelete == a.ClientDel? && w.value == if a.ClientPut? then a.body else []
  }

  predicate AskedFor(ids: seq<nat>, schedule: seq<Action>, w: Mutation) {
    exists j :: 0 <= j < |schedule| && Asks(ids, schedule[j], w)
  }

  ghost predicate Adds(ids: seq<nat>, a: Action, writes: set<Mutation>, writes': set<Mutation>) {
    if IsWrite(a) then exists w :: Asks(ids, a, w) && writes' == writes + {w} else writes' == writes
  }

  /** A client's action adds the write it asks for; no other step adds any. */
  lemma StepWrites(e: Env, s: State, a: Action)
    requires Shape(s) && Enabled(e, s, a)
    ensures Next(e, s, a).ids == s.ids && |Next(e, s, a).replicas| == |s.replicas|
    ensures Adds(s.ids, a, s.writes, Next(e, s, a).writes)
  {
    hide Live, Replies, After, Refreshed, Root, Valid, PossibleListing, Representable, UserKey;
    if IsWrite(a) {
      var w := WriteOf(s, a);
      assert Asks(s.ids, a, w) && Next(e, s, a).writes == s.writes + {w};
    }
  }

  ghost predicate Answered(ids: seq<nat>, writes: set<Mutation>, a: Action) {
    IsWrite(a) ==> exists w :: w in writes && Asks(ids, a, w)
  }

  /** The writes are what the actions of the schedule ask for, and every client's action has its write. */
  ghost predicate Recorded(ids: seq<nat>, schedule: seq<Action>, writes: set<Mutation>) {
    && (forall w :: w in writes ==> AskedFor(ids, schedule, w))
    && (forall j :: 0 <= j < |schedule| ==> Answered(ids, writes, schedule[j]))
  }

  lemma RecordMore(ids: seq<nat>, schedule: seq<Action>, a: Action, writes: set<Mutation>, writes': set<Mutation>)
    requires Recorded(ids, schedule, writes)
    requires Adds(ids, a, writes, writes')
    ensures Recorded(ids, schedule + [a], writes')
  {
    hide Asks;
    var longer := schedule + [a];
    forall w | w in writes' ensures AskedFor(ids, longer, w) {
      if w in writes {
        var j :| 0 <= j < |schedule| && Asks(ids, schedule[j], w);
        assert Asks(ids, longer[j], w);
      } else {
        assert Asks(ids, longer[|schedule|], w);
      }
    }
    forall j | 0 <= j < |longer| ensures Answered(ids, writes', longer[j]) {
      if j < |schedule| {
        assert Answered(ids, writes, schedule[j]);
      }
    }
  }

  /** In every run the writes are exactly what the clients asked for. */
  lemma {:induction false} WritesAreAskedFor(e: Env, s0: State, schedule: seq<Action>, s: State)
    requires Init(s0) && Execute(e, s0, schedule) == RunsTo(s)
    ensures s.ids == s0.ids && Recorded(s.ids, schedule, s.writes)
    decreases |schedule|
  {
    hide Next, Enabled, Recorded, Init, Adds, Shape;
    InitShape(s0);
    if schedule == [] {
      StartsEmpty(s0);
    } else {
      var last := |schedule| - 1;
      var m, a := Execute(e, s0, schedule[..last]).state, schedule[last];
      WritesAreAskedFor(e, s0, schedule[..last], m);
      StepWrites(e, m, a);
      RecordMore(s.ids, schedule[..last], a, m.writes, s.writes);
      assert schedule[..last] + [a] == schedule;
    }
  }

  lemma InitShape(s: State)
    requires Init(s)
    ensures Shape(s)
  {
  }

  lemma StartsEmpty(s: State)
    requires Init(s)
    ensures Recorded(s.ids, [], s.writes)
  {
  }

  /**
   In every run, whatever a replica holds under a key was put there by one action of a client: the normalised body of a
   put, or the empty value of a deletion, with a metadata record of the time that this action was given by its replica.
   */
  lemma HeldRecordWasAskedFor(e: Env, s0: State, schedule: seq<Action>, s: State, i: nat, k: Key) returns (j: nat, ts: Timestamp)
    requires Lawful(e.c) && Init(s0) && Execute(e, s0, schedule) == RunsTo(s)
    requires i < |s.replicas| && UserKey(k) && k in s.replicas[i].store
    ensures j < |schedule| && IsWrite(schedule[j]) && schedule[j].key == k
    ensures schedule[j].i < |s.ids| && ts.node == s.ids[schedule[j].i] && ts.wall >= schedule[j].phys
    ensures s.replicas[i].store[k] == if schedule[j].ClientPut? then e.c.normal(schedule[j].body) else []
    ensures k + META_SUFFIX in s.replicas[i].store
    ensures s.replicas[i].store[k + META_SUFFIX] == e.c.meta(ts, schedule[j].ClientDel?)
  {
    hide Execute, Init, Lawful, LocalTime, MetaKey;
    var w := HeldRecordIsAWrite(e, s0, schedule, s, i, k);
    WritesAreAskedFor(e, s0, schedule, s);
    assert AskedFor(s.ids, schedule, w);
    j :| 0 <= j < |schedule| && Asks(s.ids, schedule[j], w);
    ts := w.ts;
    MetaKeysApart(k, k);
  }

  /** A client's write is held by its replica at once, and no other key or replica changes. */
  lemma WriteIsHeld(e: Env, s: State, a: Action)
    requires Lawful(e.c) && Shape(s) && Enabled(e, s, a) && IsWrite(a)
    ensures var st, st' := s.replicas[a.i].store, Next(e, s, a).replicas[a.i].store;
      && a.key in st' && st'[a.key] == (if a.ClientPut? then e.c.normal(a.body) else [])
      && OnlyTouches(st, st', {a.key, a.key + META_SUFFIX})
      && forall j :: 0 <= j < |s.replicas| && j != a.i ==> Next(e, s, a).replicas[j] == s.replicas[j]
  {
    hide MetaKey, Valid, Representable, AfterNow;
    MetaKeysApart(a.key, a.key);
  }
}
