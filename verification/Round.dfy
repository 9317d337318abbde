/**
 A whole round of anti-entropy over one network: A has announced its root, and the drill-down, the listings and the
 values of all buckets are under way at the same time.  Values change B's leaves, live ones at once and the interior of
 the tree when B refreshes it, while node replies are still being compared.  Messages are delivered in any order, any
 number of times.
 */
module Round {
  import opened Hashing
  import opened Clock
  import opened Store
  import opened SyncCodec
  import opened Replica
  import Cluster
  import DrillDown
  import Leaves
  import Lww
  import Merkle
  import Pull

  type Session = Pull.Session
  type Delivery = Pull.Delivery

  ghost predicate Init(e: Env, a: Replica, s: Session) {
    DrillDown.Announcing(e, a) && Valid(s.b) && s.net == {SyncInit(Root(e, a))} && s.done == {}
  }

  /** Requests go to A, everything else to B. */
  predicate ToA(m: Message) {
    m.ReqNode? || m.ReqBucket? || m.GetVal?
  }

  ghost function Next(e: Env, a: Replica, s: Session, d: Delivery): (s': Session)
    requires Valid(a) && Valid(s.b)
    ensures Valid(s'.b)
  {
    if ToA(d.m) then Pull.Session(s.b, s.net + Replies(e, a, d.m, d.keys), s.done + {d.m})
    else Pull.Session(After(e, s.b, d.m), s.net + Replies(e, s.b, d.m, []), s.done + {d.m})
  }

  ghost predicate Enabled(e: Env, a: Replica, s: Session, d: Delivery) {
    d.m in s.net && PossibleListing(e, a, d.m, d.keys)
  }

  /** The moments of a run: trace[i] is the session before the delivery schedule[i]. */
  ghost predicate IsRun(e: Env, a: Replica, schedule: seq<Delivery>, trace: seq<Session>)
    requires Valid(a)
  {
    && |trace| == |schedule| + 1 && Init(e, a, trace[0])
    && (forall i :: 0 <= i < |trace| ==> Valid(trace[i].b))
    && (forall i :: 0 <= i < |schedule| ==> StepAt(e, a, schedule, trace, i))
  }

  ghost predicate StepAt(e: Env, a: Replica, schedule: seq<Delivery>, trace: seq<Session>, i: nat)
    requires Valid(a) && |trace| == |schedule| + 1 && i < |schedule| && Valid(trace[i].b)
  {
    Enabled(e, a, trace[i], schedule[i]) && trace[i + 1] == Next(e, a, trace[i], schedule[i])
  }

  lemma RunLength(e: Env, a: Replica, schedule: seq<Delivery>, trace: seq<Session>)
    requires Valid(a) && IsRun(e, a, schedule, trace)
    ensures |trace| == |schedule| + 1
  {
  }

  // ---------------------------------------------------------------- node requests

  ghost predicate Placed(e: Env, a: Replica, m: Message) {
    DrillDown.Drills(m) ==> DrillDown.Placed(e, LeavesOf(e, a), m)
  }

  lemma ReplyIsPlaced(e: Env, a: Replica, r: Replica, m: Message, keys: seq<(Key, Hash)>, x: Message)
    requires DrillDown.Announcing(e, a) && Valid(r) && Placed(e, a, m) && (m.ReqNode? ==> r == a)
    requires x in Replies(e, r, m, keys)
    ensures Placed(e, a, x)
  {
    hide LeavesOf, Root, Children, DrillDown.ChildrenOf, DrillDown.Tree, Node;
    match m
    case ReqNode(level, parent) => DrillDown.ChildrenAgree(e, a, level, parent);
    case RepNode(level, parent, hashes) =>
      var i :| 0 <= i < WAYS && Node(e, r, level, parent * WAYS + i) != hashes[i] && x == Ask(level, parent * WAYS + i);
      if level < 4 {
        DrillDown.WidthTimesWays(level - 1);
      }
    case _ =>
  }

  lemma {:induction false} NetIsPlaced(e: Env, a: Replica, schedule: seq<Delivery>, trace: seq<Session>, n: nat)
    requires Valid(a) && IsRun(e, a, schedule, trace) && n < |trace|
    ensures forall m :: m in trace[n].net ==> Placed(e, a, m)
    decreases n
  {
    hide Placed, Replies, After, LeavesOf, Root, PossibleListing;
    if n == 0 {
      assert Placed(e, a, SyncInit(Root(e, a))) by { RootIsPlaced(e, a); }
    } else {
      NetIsPlaced(e, a, schedule, trace, n - 1);
      var s, d := trace[n - 1], schedule[n - 1];
      assert StepAt(e, a, schedule, trace, n - 1);
      forall x | x in trace[n].net && x !in s.net ensures Placed(e, a, x) {
        ReplyIsPlaced(e, a, if ToA(d.m) then a else s.b, d.m, if ToA(d.m) then d.keys else [], x);
      }
    }
  }

  lemma RootIsPlaced(e: Env, a: Replica)
    requires Valid(a)
    ensures Placed(e, a, SyncInit(Root(e, a)))
  {
    hide LeavesOf, Root, DrillDown.Tree;
    DrillDown.RootIsTree(e, a);
  }

  /** However messages are repeated and whatever values arrive, no more than 1 + 16 + 256 + 4096 node requests are made. */
  lemma NodeRequestsAreFew(e: Env, a: Replica, schedule: seq<Delivery>, trace: seq<Session>, n: nat, requests: seq<Message>)
    requires Valid(a) && IsRun(e, a, schedule, trace) && n < |trace| && DrillDown.Apart(requests)
    requires forall i :: 0 <= i < |requests| ==> requests[i] in trace[n].net && requests[i].ReqNode?
    ensures |requests| <= DrillDown.NODE_REQUESTS
  {
    hide LeavesOf, DrillDown.Placed, IsRun;
    NetIsPlaced(e, a, schedule, trace, n);
    forall i | 0 <= i < |requests| ensures DrillDown.Placed(e, LeavesOf(e, a), requests[i]) {
      assert Placed(e, a, requests[i]);
    }
    DrillDown.FewMessages(e, LeavesOf(e, a), requests);
  }

  // ---------------------------------------------------------------- which buckets are asked for

  /** At moment i a reply about bucket b was handled while the leaf differed from A's. */
  ghost predicate SeenToDiffer(e: Env, a: Replica, schedule: seq<Delivery>, trace: seq<Session>, b: nat, i: nat)
    requires |trace| == |schedule| + 1 && i < |schedule|
  {
    var m := schedule[i].m;
    && b < LEAVES && m.RepNode? && m.level == 4 && m.parent == b / WAYS
    && LeavesOf(e, trace[i].b)[b] != LeavesOf(e, a)[b]
  }

  /** A leaf reply makes B ask for a bucket exactly when B's leaf, as it is then, is not A's. */
  lemma LeafReplyAsks(e: Env, a: Replica, r: Replica, m: Message, b: nat)
    requires DrillDown.Announcing(e, a) && Valid(r) && m.RepNode? && Placed(e, a, m)
    ensures ReqBucket(b) in Replies(e, r, m, []) <==>
      b < LEAVES && m.level == 4 && m.parent == b / WAYS && LeavesOf(e, r)[b] != LeavesOf(e, a)[b]
  {
    hide LeavesOf, Node, DrillDown.ChildrenOf;
    if ReqBucket(b) in Replies(e, r, m, []) {
      var i :| 0 <= i < WAYS && Node(e, r, m.level, m.parent * WAYS + i) != m.hashes[i]
               && ReqBucket(b) == Ask(m.level, m.parent * WAYS + i);
      ChildLeaf(e, a, r, m, i);
    }
    if b < LEAVES && m.level == 4 && m.parent == b / WAYS && LeavesOf(e, r)[b] != LeavesOf(e, a)[b] {
      var i := b - m.parent * WAYS;
      ChildLeaf(e, a, r, m, i);
      assert Ask(m.level, m.parent * WAYS + i) == ReqBucket(b);
    }
  }

  /** At the leaves' level, what is compared are A's leaf and B's leaf. */
  lemma ChildLeaf(e: Env, a: Replica, r: Replica, m: Message, i: nat)
    requires Valid(r) && m.RepNode? && m.level == 4 && Placed(e, a, m) && i < WAYS
    ensures m.parent * WAYS + i < LEAVES && (m.parent * WAYS + i) / WAYS == m.parent
    ensures m.hashes[i] == LeavesOf(e, a)[m.parent * WAYS + i]
    ensures Node(e, r, 4, m.parent * WAYS + i) == LeavesOf(e, r)[m.parent * WAYS + i]
  {
    hide LeavesOf;
    var la := LeavesOf(e, a);
    assert DrillDown.ChildrenOf(e, la, 4, m.parent)[i] == DrillDown.Tree(e, la, 4, m.parent * WAYS + i);
    assert Merkle.Level(e.h, la, 4) == la;
  }

  lemma OnlyRepliesAsk(e: Env, r: Replica, m: Message, keys: seq<(Key, Hash)>, b: nat)
    requires Valid(r) && ReqBucket(b) in Replies(e, r, m, keys)
    ensures m.RepNode?
  {
    hide Root, Children, Node;
  }

  /** The buckets asked for are exactly those whose leaf differed at a moment when a reply about it was handled. */
  lemma {:induction false} AskedExactlyWhenSeen(e: Env, a: Replica, schedule: seq<Delivery>, trace: seq<Session>, n: nat, b: nat)
    requires Valid(a) && IsRun(e, a, schedule, trace) && n < |trace|
    ensures ReqBucket(b) in trace[n].net <==> exists i :: 0 <= i < n && SeenToDiffer(e, a, schedule, trace, b, i)
    decreases n
  {
    hide LeavesOf, Replies, After, Root, PossibleListing, SeenToDiffer;
    if n > 0 {
      AskedExactlyWhenSeen(e, a, schedule, trace, n - 1, b);
      NetIsPlaced(e, a, schedule, trace, n - 1);
      assert StepAt(e, a, schedule, trace, n - 1);
      AskedNow(e, a, schedule, trace, n - 1, b);
    }
  }

  lemma AskedNow(e: Env, a: Replica, schedule: seq<Delivery>, trace: seq<Session>, i: nat, b: nat)
    requires Valid(a) && DrillDown.Announcing(e, a) && |trace| == |schedule| + 1 && i < |schedule| && Valid(trace[i].b)
    requires StepAt(e, a, schedule, trace, i) && Placed(e, a, schedule[i].m)
    ensures ReqBucket(b) in trace[i + 1].net <==>
      ReqBucket(b) in trace[i].net || SeenToDiffer(e, a, schedule, trace, b, i)
  {
    hide LeavesOf, Replies, After, PossibleListing, Placed;
    var s, d := trace[i], schedule[i];
    if d.m.RepNode? {
      LeafReplyAsks(e, a, s.b, d.m, b);
    } else {
      var r, keys := if ToA(d.m) then a else s.b, if ToA(d.m) then d.keys else [];
      if ReqBucket(b) in Replies(e, r, d.m, keys) {
        OnlyRepliesAsk(e, r, d.m, keys, b);
      }
    }
  }

  // ---------------------------------------------------------------- what B holds

  function AskedBuckets(net: set<Message>): set<nat> {
    set m | m in net && m.ReqBucket? :: m.bucket
  }

  /** The messages of the pull among all messages. */
  function Pulls(ms: set<Message>): set<Message> {
    set m | m in ms && !DrillDown.Drills(m)
  }

  function Part(s: Session): Session {
    Pull.Session(s.b, Pulls(s.net), Pulls(s.done))
  }

  /** The setting of the pull with the buckets asked for so far. */
  function SoFar(g: Pull.Setting, net: set<Message>): Pull.Setting {
    g.(buckets := AskedBuckets(net))
  }

  /** More buckets: what B holds and has been sent is justified as before. */
  lemma MoreBuckets(g: Pull.Setting, g': Pull.Setting, s: Session, s': Session)
    requires Pull.Inv(g, s) && g' == g.(buckets := g'.buckets) && g.buckets <= g'.buckets
    requires Valid(s'.b) && s'.b.store == s.b.store && s'.done == s.done && s.net <= s'.net
    requires forall m :: m in s'.net && m !in s.net ==> m.ReqBucket? && m.bucket in g'.buckets
    requires forall b :: b in g'.buckets ==> ReqBucket(b) in s'.net
    ensures Pull.Inv(g', s')
  {
    hide Pull.Justified, Pull.Answered, Pull.Settled, UserKey;
    forall m | m in s'.net ensures Pull.Justified(g', m) && Pull.AskedFor(s'.net, m) {
      if m in s.net {
        StaysJustified(g, g', m);
      } else {
        NewRequest(g', m);
      }
    }
    forall m | m in s'.done ensures Pull.Answered(g', s', m) {
      StaysAnswered(g, g', s, s', m);
    }
    forall k | UserKey(k) ensures Pull.Settled(g', s', k) {
      StaysSettled(g, g', s, s', k);
    }
  }

  lemma NewRequest(g: Pull.Setting, m: Message)
    requires m.ReqBucket? && m.bucket in g.buckets
    ensures Pull.Justified(g, m)
  {
  }

  lemma StaysJustified(g: Pull.Setting, g': Pull.Setting, m: Message)
    requires Pull.Justified(g, m) && g' == g.(buckets := g'.buckets) && g.buckets <= g'.buckets
    ensures Pull.Justified(g', m)
  {
    hide UserKey, MyHash;
  }

  lemma SameExpected(g: Pull.Setting, g': Pull.Setting, k: Key)
    requires Pull.Divergent(g, k) && g' == g.(buckets := g'.buckets) && g.buckets <= g'.buckets
    ensures Pull.Expected(g', k) == Pull.Expected(g, k)
  {
    hide UserKey, MyHash, LocalTime, Less, Pull.At;
  }

  lemma StaysAnswered(g: Pull.Setting, g': Pull.Setting, s: Session, s': Session, m: Message)
    requires Pull.Answered(g, s, m) && Pull.Justified(g, m) && g' == g.(buckets := g'.buckets) && g.buckets <= g'.buckets
    requires s'.b.store == s.b.store && s.net <= s'.net
    ensures Pull.Answered(g', s', m)
  {
    hide UserKey, MyHash, Pull.Expected, Pull.At, Pull.ListsUser;
    match m
    case ReqBucket(bucket) =>
      var l :| RepBucket(bucket, l) in s.net;
      assert RepBucket(bucket, l) in s'.net;
    case PutVal(k, _, _) => SameExpected(g, g', k);
    case _ =>
  }

  lemma StaysSettled(g: Pull.Setting, g': Pull.Setting, s: Session, s': Session, k: Key)
    requires Pull.Settled(g, s, k) && g' == g.(buckets := g'.buckets) && g.buckets <= g'.buckets
    requires s'.b.store == s.b.store && s.net <= s'.net && forall m :: m in s.net ==> Pull.Justified(g, m)
    ensures Pull.Settled(g', s', k)
  {
    hide UserKey, MyHash, Pull.Expected, Pull.At;
    if GetVal(k) in s.net {
      assert Pull.Justified(g, GetVal(k));
      SameExpected(g, g', k);
    }
  }

  /** A delivery of the drill-down: B's store stays, and at most buckets are asked for. */
  lemma DrillReplies(e: Env, r: Replica, m: Message, keys: seq<(Key, Hash)>, x: Message)
    requires Valid(r) && DrillDown.Drills(m) && x in Replies(e, r, m, keys)
    ensures DrillDown.Drills(x) || x.ReqBucket?
  {
    hide Root, Children, Node;
  }

  lemma PullReplies(e: Env, r: Replica, m: Message, keys: seq<(Key, Hash)>, x: Message)
    requires Valid(r) && !DrillDown.Drills(m) && x in Replies(e, r, m, keys)
    ensures !DrillDown.Drills(x) && !x.ReqBucket?
  {
  }

  lemma KeepInv(g: Pull.Setting, s: Session, d: Delivery)
    requires Pull.Fair(g) && Valid(g.a) && Valid(s.b) && Enabled(g.e, g.a, s, d)
    requires Pull.Inv(SoFar(g, s.net), Part(s))
    ensures Pull.Inv(SoFar(g, Next(g.e, g.a, s, d).net), Part(Next(g.e, g.a, s, d)))
  {
    hide Pull.Inv, Replies, PossibleListing, After, Pull.Fair, Valid;
    var s', here := Next(g.e, g.a, s, d), SoFar(g, s.net);
    if DrillDown.Drills(d.m) {
      DrillStep(g, s, d);
    } else {
      var r, keys := if ToA(d.m) then g.a else s.b, if ToA(d.m) then d.keys else [];
      forall x | x in Replies(g.e, r, d.m, keys) ensures !DrillDown.Drills(x) && !x.ReqBucket? {
        PullReplies(g.e, r, d.m, keys, x);
      }
      assert AskedBuckets(s'.net) == AskedBuckets(s.net);
      assert Pulls(s'.net) == Pulls(s.net) + Replies(g.e, r, d.m, keys) && Pulls(s'.done) == Pulls(s.done) + {d.m};
      FairSoFar(g, s.net);
      Pull.KeepNext(here, Part(s), d);
      assert Part(s') == Pull.Next(g.e, g.a, Part(s), d);
    }
  }

  lemma FairSoFar(g: Pull.Setting, net: set<Message>)
    requires Pull.Fair(g)
    ensures Pull.Fair(SoFar(g, net))
  {
  }

  lemma DrillStep(g: Pull.Setting, s: Session, d: Delivery)
    requires Valid(g.a) && Valid(s.b) && DrillDown.Drills(d.m)
    requires Pull.Inv(SoFar(g, s.net), Part(s))
    ensures Pull.Inv(SoFar(g, Next(g.e, g.a, s, d).net), Part(Next(g.e, g.a, s, d)))
  {
    hide Replies, Pull.Justified, Pull.Answered, Pull.Settled, LeavesOf;
    var s' := Next(g.e, g.a, s, d);
    var r, keys := if ToA(d.m) then g.a else s.b, if ToA(d.m) then d.keys else [];
    forall x | x in s'.net && x !in s.net ensures DrillDown.Drills(x) || x.ReqBucket? {
      DrillReplies(g.e, r, d.m, keys, x);
    }
    forall b | b in AskedBuckets(s'.net) ensures ReqBucket(b) in Part(s').net {
    }
    assert Pulls(s'.done) == Pulls(s.done);
    MoreBuckets(SoFar(g, s.net), SoFar(g, s'.net), Part(s), Part(s'));
  }

  lemma {:induction false} RunInv(g: Pull.Setting, schedule: seq<Delivery>, trace: seq<Session>, n: nat)
    requires Pull.Fair(g) && Valid(g.a) && IsRun(g.e, g.a, schedule, trace) && n < |trace| && trace[0].b.store == g.b
    ensures Pull.Inv(SoFar(g, trace[n].net), Part(trace[n]))
    decreases n
  {
    hide Pull.Inv, Next, Pull.Fair, Root, LeavesOf, Enabled;
    if n == 0 {
      StartInv(g, trace[0]);
    } else {
      RunInv(g, schedule, trace, n - 1);
      assert StepAt(g.e, g.a, schedule, trace, n - 1);
      KeepInv(g, trace[n - 1], schedule[n - 1]);
    }
  }

  lemma StartInv(g: Pull.Setting, s: Session)
    requires Init(g.e, g.a, s) && s.b.store == g.b
    ensures Pull.Inv(SoFar(g, s.net), Part(s))
  {
    hide Root, LeavesOf, Pull.At, Pull.Expected, UserKey;
    assert AskedBuckets(s.net) == {} && Pulls(s.net) == {};
  }

  /** Every message that was sent has arrived. */
  predicate Drained(s: Session) {
    s.net <= s.done
  }

  /**
   At any moment of any round, B holds under every user key its own record or the one it is to hold for the buckets
   asked for so far; when the network has drained, it holds exactly that: of every key of an asked bucket that A lists
   with another hash the record with the larger time, and of every other key its own record untouched.
   */
  lemma RoundResult(g: Pull.Setting, schedule: seq<Delivery>, trace: seq<Session>, n: nat, k: Key)
    requires Pull.Fair(g) && Valid(g.a) && IsRun(g.e, g.a, schedule, trace) && n < |trace| && trace[0].b.store == g.b
    requires g.buckets == AskedBuckets(trace[n].net) && UserKey(k)
    ensures Pull.At(trace[n].b.store, k) == Pull.At(g.b, k) || Pull.At(trace[n].b.store, k) == Pull.Expected(g, k)
    ensures Drained(trace[n]) ==> Pull.At(trace[n].b.store, k) == Pull.Expected(g, k)
  {
    hide Pull.Inv, IsRun, Pull.Fair, Pull.At, Pull.Expected, UserKey;
    RunInv(g, schedule, trace, n);
    assert SoFar(g, trace[n].net) == g;
    if Drained(trace[n]) {
      assert Pull.Drained(Part(trace[n]));
    }
    Pull.InvResult(g, Part(trace[n]), k);
  }

  // ---------------------------------------------------------------- no lasting difference is missed

  /** Throughout the run, B's leaf b is not A's, and what differs at some moment shows in the trees of that moment. */
  ghost predicate DiffersThroughout(e: Env, a: Replica, trace: seq<Session>, b: nat) {
    b < LEAVES && forall i :: 0 <= i < |trace| ==> Shows(e, a, trace[i].b, b)
  }

  ghost predicate Shows(e: Env, a: Replica, r: Replica, b: nat)
    requires b < LEAVES
  {
    LeavesOf(e, r)[b] != LeavesOf(e, a)[b] && DrillDown.CollisionFree(e.h, LeavesOf(e, a), LeavesOf(e, r))
  }

  /** The way down to leaf b, as far as it has been gone: what was delivered has been answered. */
  ghost predicate OnTheWay(e: Env, a: Replica, s: Session, b: nat) {
    && s.done <= s.net
    && (forall m :: m in s.net && !m.SyncInit? ==> SyncInit(Root(e, a)) in s.done)
    && (SyncInit(Root(e, a)) in s.done ==> ReqNode(1, 0) in s.net)
    && (forall m :: m in s.done && DrillDown.Drills(m) ==> Passed(e, a, s.net, m, b))
  }

  ghost predicate Passed(e: Env, a: Replica, net: set<Message>, m: Message, b: nat) {
    match m
    case ReqNode(level, parent) =>
      1 <= level <= 4 && parent < Merkle.Width(level - 1)
      && RepNode(level, parent, DrillDown.ChildrenOf(e, LeavesOf(e, a), level, parent)) in net
    case RepNode(level, parent, _) =>
      1 <= level <= 4 && (parent == DrillDown.Up(b, level - 1) ==> Ask(level, DrillDown.Up(b, level)) in net)
    case _ => true
  }

  /** The interior of B's tree is that of some moment of the run, once B has refreshed it. */
  ghost predicate SeenMoment(e: Env, trace: seq<Session>, n: nat)
    requires n < |trace|
  {
    exists j :: 0 <= j <= n && trace[n].b.seen == LeavesOf(e, trace[j].b)
  }

  lemma {:induction false} TreeIsOfSomeMoment(e: Env, a: Replica, schedule: seq<Delivery>, trace: seq<Session>, n: nat)
    requires Valid(a) && IsRun(e, a, schedule, trace) && n < |trace|
    ensures SyncInit(Root(e, a)) in trace[n].done ==> SeenMoment(e, trace, n)
    decreases n
  {
    hide Replies, LeavesOf, Root, PossibleListing, DrillDown.Placed, Live;
    if n > 0 {
      var s, d := trace[n - 1], schedule[n - 1];
      TreeIsOfSomeMoment(e, a, schedule, trace, n - 1);
      NetIsPlaced(e, a, schedule, trace, n - 1);
      assert StepAt(e, a, schedule, trace, n - 1);
      if d.m.SyncInit? {
        assert trace[n].b.seen == LeavesOf(e, trace[n - 1].b);
      } else if SyncInit(Root(e, a)) in trace[n].done {
        var j :| 0 <= j <= n - 1 && trace[n - 1].b.seen == LeavesOf(e, trace[j].b);
        assert trace[n].b.seen == LeavesOf(e, trace[j].b);
      }
    }
  }

  /** A reply on the way to leaf b is compared with a tree in which the leaf differs: B goes on towards it. */
  lemma GoesOn(e: Env, a: Replica, r: Replica, past: Replica, m: Message, b: nat)
    requires DrillDown.Announcing(e, a) && Valid(r) && m.RepNode? && Placed(e, a, m) && b < LEAVES
    requires r.seen == LeavesOf(e, past) && Shows(e, a, past, b) && Shows(e, a, r, b)
    requires m.parent == DrillDown.Up(b, m.level - 1)
    ensures Ask(m.level, DrillDown.Up(b, m.level)) in Replies(e, r, m, [])
  {
    hide LeavesOf, DrillDown.CollisionFree, DrillDown.Up, DrillDown.ChildrenOf, Ask, DrillDown.Tree;
    var la, level := LeavesOf(e, a), m.level;
    var child := DrillDown.Up(b, level);
    var leaves := if level == 4 then LeavesOf(e, r) else LeavesOf(e, past);
    DrillDown.UpSplits(b, level);
    DrillDown.DifferAll(e, la, leaves, b, level);
    var i := child - m.parent * WAYS;
    ChildHash(e, a, m, i);
    NodeOf(e, r, level, child, leaves);
    assert Node(e, r, level, m.parent * WAYS + i) != m.hashes[i];
  }

  lemma ChildHash(e: Env, a: Replica, m: Message, i: nat)
    requires m.RepNode? && Placed(e, a, m) && i < WAYS
    ensures |m.hashes| == WAYS && m.parent * WAYS + i < Merkle.Width(m.level)
    ensures m.hashes[i] == DrillDown.Tree(e, LeavesOf(e, a), m.level, m.parent * WAYS + i)
  {
    hide LeavesOf, DrillDown.Tree;
    DrillDown.WidthTimesWays(m.level - 1);
  }

  lemma NodeOf(e: Env, r: Replica, level: nat, index: nat, leaves: seq<Hash>)
    requires Valid(r) && 1 <= level <= 4 && index < Merkle.Width(level)
    requires leaves == if level == 4 then LeavesOf(e, r) else r.seen
    ensures |leaves| == LEAVES && Node(e, r, level, index) == DrillDown.Tree(e, leaves, level, index)
  {
    hide LeavesOf;
  }

  lemma StillPassed(e: Env, a: Replica, net: set<Message>, more: set<Message>, m: Message, b: nat)
    requires Passed(e, a, net, m, b)
    ensures Passed(e, a, net + more, m, b)
  {
    hide LeavesOf, DrillDown.ChildrenOf, DrillDown.Up, Ask;
  }

  /** What a delivery of the drill-down answers. */
  lemma PassedNow(e: Env, a: Replica, schedule: seq<Delivery>, trace: seq<Session>, n: nat, b: nat)
    requires Valid(a) && IsRun(e, a, schedule, trace) && n < |schedule| && DiffersThroughout(e, a, trace, b)
    requires OnTheWay(e, a, trace[n], b) && schedule[n].m in trace[n].net && Placed(e, a, schedule[n].m)
    requires DrillDown.Drills(schedule[n].m)
    ensures Passed(e, a, Next(e, a, trace[n], schedule[n]).net, schedule[n].m, b)
    ensures schedule[n].m.SyncInit? ==> ReqNode(1, 0) in Next(e, a, trace[n], schedule[n]).net
  {
    hide LeavesOf, DrillDown.ChildrenOf, DrillDown.Up, Ask, DrillDown.CollisionFree, Root, Children, DrillDown.Tree, Node;
    var s, d := trace[n], schedule[n];
    assert Shows(e, a, s.b, b);
    match d.m
    case SyncInit(root) => RootDiffers(e, a, s.b, b);
    case ReqNode(level, parent) => DrillDown.ChildrenAgree(e, a, level, parent);
    case RepNode(level, parent, hashes) =>
      TreeIsOfSomeMoment(e, a, schedule, trace, n);
      var j :| 0 <= j <= n && s.b.seen == LeavesOf(e, trace[j].b);
      assert Shows(e, a, trace[j].b, b);
      if parent == DrillDown.Up(b, level - 1) {
        GoesOn(e, a, s.b, trace[j].b, d.m, b);
      }
  }

  lemma RootDiffers(e: Env, a: Replica, r: Replica, b: nat)
    requires Valid(a) && Valid(r) && b < LEAVES && Shows(e, a, r, b)
    ensures Root(e, r) != Root(e, a) && DrillDown.Tree(e, LeavesOf(e, a), 0, 0) == Root(e, a)
  {
    hide LeavesOf, DrillDown.CollisionFree, Root, DrillDown.Tree;
    DrillDown.RootIsTree(e, a);
    DrillDown.RootIsTree(e, r);
    DrillDown.DifferAll(e, LeavesOf(e, a), LeavesOf(e, r), b, 0);
    DrillDown.UpToRoot(e, LeavesOf(e, a), LeavesOf(e, r), b);
  }

  lemma {:induction false} RunOnTheWay(e: Env, a: Replica, schedule: seq<Delivery>, trace: seq<Session>, n: nat, b: nat)
    requires Valid(a) && IsRun(e, a, schedule, trace) && n < |trace| && DiffersThroughout(e, a, trace, b)
    ensures OnTheWay(e, a, trace[n], b)
    decreases n
  {
    hide DiffersThroughout, Replies, After, LeavesOf, Root, PossibleListing, Passed, Placed;
    if n > 0 {
      RunOnTheWay(e, a, schedule, trace, n - 1, b);
      NetIsPlaced(e, a, schedule, trace, n - 1);
      assert StepAt(e, a, schedule, trace, n - 1);
      var s, d := trace[n - 1], schedule[n - 1];
      var more := if ToA(d.m) then Replies(e, a, d.m, d.keys) else Replies(e, s.b, d.m, []);
      assert trace[n].net == s.net + more;
      if DrillDown.Drills(d.m) {
        PassedNow(e, a, schedule, trace, n - 1, b);
      }
      if d.m.SyncInit? {
        InitIsRoot(e, a, d.m);
      }
      forall m | m in trace[n].done && DrillDown.Drills(m) ensures Passed(e, a, trace[n].net, m, b) {
        if m in s.done {
          StillPassed(e, a, s.net, more, m, b);
        }
      }
    }
  }

  lemma InitIsRoot(e: Env, a: Replica, m: Message)
    requires Valid(a) && m.SyncInit? && Placed(e, a, m)
    ensures m == SyncInit(Root(e, a))
  {
    hide LeavesOf, DrillDown.Tree, Root;
    DrillDown.RootIsTree(e, a);
  }

  lemma {:induction false} WayDown(e: Env, a: Replica, s: Session, b: nat, level: nat)
    requires OnTheWay(e, a, s, b) && Drained(s) && SyncInit(Root(e, a)) in s.net && b < LEAVES && 1 <= level <= 4
    ensures Ask(level, DrillDown.Up(b, level)) in s.net
    decreases level
  {
    hide LeavesOf, DrillDown.ChildrenOf, DrillDown.Up, Root;
    var parent := DrillDown.Up(b, level - 1);
    if level == 1 {
      DrillDown.UpIsRoot(b);
    } else {
      WayDown(e, a, s, b, level - 1);
    }
    assert ReqNode(level, parent) in s.net;
    assert Passed(e, a, s.net, ReqNode(level, parent), b);
    var rep := RepNode(level, parent, DrillDown.ChildrenOf(e, LeavesOf(e, a), level, parent));
    assert Passed(e, a, s.net, rep, b);
  }

  /** When the network has drained, every bucket whose leaf differed throughout the run has been asked for. */
  lemma LastingDifferenceIsAsked(e: Env, a: Replica, schedule: seq<Delivery>, trace: seq<Session>, b: nat)
    requires Valid(a) && IsRun(e, a, schedule, trace) && Drained(trace[|schedule|]) && DiffersThroughout(e, a, trace, b)
    ensures b in AskedBuckets(trace[|schedule|].net)
  {
    hide DiffersThroughout, OnTheWay, Root, DrillDown.Up, LeavesOf;
    var n := |schedule|;
    RunOnTheWay(e, a, schedule, trace, n, b);
    StartStays(e, a, schedule, trace, n);
    assert b < LEAVES by { assert DiffersThroughout(e, a, trace, b); InRange(e, a, trace, b); }
    WayDown(e, a, trace[n], b, 4);
    DrillDown.UpLeaf(b);
    assert ReqBucket(b) in trace[n].net;
  }

  lemma InRange(e: Env, a: Replica, trace: seq<Session>, b: nat)
    requires DiffersThroughout(e, a, trace, b)
    ensures b < LEAVES
  {
  }

  lemma {:induction false} StartStays(e: Env, a: Replica, schedule: seq<Delivery>, trace: seq<Session>, n: nat)
    requires Valid(a) && IsRun(e, a, schedule, trace) && n < |trace|
    ensures SyncInit(Root(e, a)) in trace[n].net
    decreases n
  {
    hide Replies, After, LeavesOf, Root, PossibleListing;
    if n > 0 {
      StartStays(e, a, schedule, trace, n - 1);
      assert StepAt(e, a, schedule, trace, n - 1);
    }
  }

  /**
   A round repairs every lasting difference: if B's leaf of a user key of A differs from A's at every moment of a
   drained round, the hashes of the values differ and A's record is later, then B ends with A's record.
   */
  lemma RoundRepairs(g: Pull.Setting, schedule: seq<Delivery>, trace: seq<Session>, k: Key)
    requires Pull.Fair(g) && Valid(g.a) && IsRun(g.e, g.a, schedule, trace) && trace[0].b.store == g.b
    requires Drained(trace[|schedule|]) && g.buckets == AskedBuckets(trace[|schedule|].net)
    requires UserKey(k) && k in g.a.store && DiffersThroughout(g.e, g.a, trace, Leaves.BucketOf(g.e.c, k))
    requires MyHash(g.e.c, g.b, k) != g.e.c.hash(g.a.store[k]) && Pull.Later(g, k)
    ensures Pull.At(trace[|schedule|].b.store, k) == Pull.At(g.a.store, k)
  {
    hide IsRun, Pull.Fair, Pull.At, UserKey, DiffersThroughout, Pull.Later, MyHash;
    RunLength(g.e, g.a, schedule, trace);
    LastingDifferenceIsAsked(g.e, g.a, schedule, trace, Leaves.BucketOf(g.e.c, k));
    RoundResult(g, schedule, trace, |schedule|, k);
  }

  // ---------------------------------------------------------------- a round in each direction

  lemma {:induction false} RunSourced(g: Pull.Setting, schedule: seq<Delivery>, trace: seq<Session>, n: nat)
    requires Pull.Fair(g) && Valid(g.a) && IsRun(g.e, g.a, schedule, trace) && n < |trace| && trace[0].b.store == g.b
    ensures Cluster.Sourced(g.e.c, trace[n].b.store, g.writes)
    decreases n
  {
    hide Cluster.Sourced, Next, Enabled, Lawful, UserKey, Lww.Sound, Init;
    if n > 0 {
      RunSourced(g, schedule, trace, n - 1);
      RunInv(g, schedule, trace, n - 1);
      assert StepAt(g.e, g.a, schedule, trace, n - 1);
      StepSourced(g, trace[n - 1], schedule[n - 1]);
    }
  }

  lemma StepSourced(g: Pull.Setting, s: Session, d: Delivery)
    requires Pull.Fair(g) && Valid(g.a) && Valid(s.b) && Enabled(g.e, g.a, s, d)
    requires Pull.Inv(SoFar(g, s.net), Part(s)) && Cluster.Sourced(g.e.c, s.b.store, g.writes)
    ensures Cluster.Sourced(g.e.c, Next(g.e, g.a, s, d).b.store, g.writes)
  {
    hide Pull.Inv, Replies, PossibleListing, Pull.Fair, Cluster.Sourced, Live, LeavesOf;
    if d.m.PutVal? {
      FairSoFar(g, s.net);
      Pull.StepSourced(SoFar(g, s.net), Part(s), d);
    }
  }

  /**
   After a drained round of B with A and a drained round of A with B, the two hold equal values, deletions included,
   under every user key of a bucket asked for in both, and equal records except where they started with the same
   non-empty value under two times.
   */
  lemma TwoRoundsConverge(g: Pull.Setting, schedule: seq<Delivery>, trace: seq<Session>,
                          a: Replica, b: Replica, schedule': seq<Delivery>, trace': seq<Session>, k: Key)
    requires Pull.Fair(g) && Pull.GoodHash(g) && Valid(g.a) && IsRun(g.e, g.a, schedule, trace) && trace[0].b.store == g.b
    requires Drained(trace[|schedule|]) && g.buckets == AskedBuckets(trace[|schedule|].net)
    requires Valid(b) && b.store == trace[|schedule|].b.store
    requires IsRun(g.e, b, schedule', trace') && trace'[0].b.store == g.a.store && Drained(trace'[|schedule'|])
    requires a == trace'[|schedule'|].b && UserKey(k)
    requires Leaves.BucketOf(g.e.c, k) in g.buckets && Leaves.BucketOf(g.e.c, k) in AskedBuckets(trace'[|schedule'|].net)
    ensures Current(a.store, k) == Current(b.store, k)
    ensures Pull.At(a.store, k) == Pull.At(b.store, k) <==> !Pull.SameValueTwoTimes(g, k)
  {
    hide IsRun, UserKey, Pull.GoodHash, Pull.At, MyHash, Cluster.Sourced, Lawful, Lww.Sound, Pull.Expected, Pull.SameValueTwoTimes;
    RunLength(g.e, g.a, schedule, trace);
    RunLength(g.e, b, schedule', trace');
    var there := Pull.Setting(g.e, b, g.a.store, AskedBuckets(trace'[|schedule'|].net), g.writes);
    RunSourced(g, schedule, trace, |schedule|);
    RoundResult(g, schedule, trace, |schedule|, k);
    RoundResult(there, schedule', trace', |schedule'|, k);
    Pull.BothExpected(g, there, a.store, k);
    Pull.RecordsAgreeExactly(g, there, a.store, k);
  }
}
