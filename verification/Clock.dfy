/**
 The hybrid logical clock and its thread-local batches (src/engine/clock.cpp, src/engine/clock.hpp).

 Every reading of the physical clock is a parameter. Logical counters are 32 bits wide.
 */
module Clock {
  const UINT32_MAX: int := 0xFFFF_FFFF
  const BATCH_SIZE: int := 50

  datatype Timestamp = Timestamp(wall: int, logical: nat, node: nat)

  /** `Timestamp::operator<`. */
  predicate Less(a: Timestamp, b: Timestamp) {
    if a.wall != b.wall then a.wall < b.wall
    else if a.logical != b.logical then a.logical < b.logical
    else a.node < b.node
  }

  /** `Timestamp::operator<=`, which is the negation of the reversed `operator<`. */
  predicate LessEq(a: Timestamp, b: Timestamp) {
    !Less(b, a)
  }

  /** The order is total: exactly one of less, equal, greater; it is transitive; and <= is < or equal. */
  lemma OrderIsTotal(a: Timestamp, b: Timestamp, c: Timestamp)
    ensures Less(a, b) || a == b || Less(b, a)
    ensures !(Less(a, b) && Less(b, a)) && !Less(a, a)
    ensures Less(a, b) && Less(b, c) ==> Less(a, c)
    ensures LessEq(a, b) <==> Less(a, b) || a == b
  {
  }

  // ---------------------------------------------------------------- the global clock

  /** `max_wall_time_` and `max_logical_`. */
  datatype Hlc = Hlc(wall: int, logical: nat)

  /** The clock a is behind the clock b. */
  predicate Behind(a: Hlc, b: Hlc) {
    a.wall < b.wall || (a.wall == b.wall && a.logical < b.logical)
  }

  function Max(a: int, b: int): int {
    if a < b then b else a
  }

  /** `now`: `phys` is the first reading, `after` the one taken when the overflow spin has ended. */
  function AfterNow(c: Hlc, phys: int, after: int): Hlc {
    if phys > c.wall then Hlc(phys, 0)
    else if c.logical == UINT32_MAX then Hlc(after, 0)
    else Hlc(c.wall, c.logical + 1)
  }

  /** `update`; the additions wrap at 32 bits. */
  function AfterUpdate(c: Hlc, m: Timestamp, phys: int): Hlc {
    var wall := Max(Max(c.wall, m.wall), phys);
    if wall == c.wall && wall == m.wall then Hlc(wall, (Max(c.logical, m.logical) + 1) % (UINT32_MAX + 1))
    else if wall == c.wall then Hlc(wall, (c.logical + 1) % (UINT32_MAX + 1))
    else if wall == m.wall then Hlc(wall, (m.logical + 1) % (UINT32_MAX + 1))
    else Hlc(wall, 0)
  }

  datatype Reservation = Refused | Granted(start: nat)

  /** `reserve_logical`: the clock afterwards and the first logical value of the batch. */
  function AfterReserve(c: Hlc, forPhys: int, count: nat, phys: int): (r: (Hlc, Reservation))
  {
    if forPhys < Max(phys, c.wall) then (c, Refused)
    else
      var d := if forPhys > c.wall then Hlc(forPhys, 0) else c;
      if UINT32_MAX - d.logical < count then (d, Refused)
      else (Hlc(d.wall, d.logical + count), Granted(d.logical + 1))
  }

  predicate Bounded(c: Hlc) {
    c.logical <= UINT32_MAX
  }

  /** `now` moves the clock forward exactly when it does not end an overflow spin on a reading that went back. */
  lemma NowAdvances(c: Hlc, phys: int, after: int)
    requires Bounded(c)
    ensures Bounded(AfterNow(c, phys, after))
    ensures Behind(c, AfterNow(c, phys, after)) <==> phys > c.wall || c.logical < UINT32_MAX || after > c.wall
  {
  }

  /** The logical value that `update` is about to increase, if it increases one. */
  predicate UpdateWraps(c: Hlc, m: Timestamp, phys: int) {
    phys <= Max(c.wall, m.wall) &&
    ((c.wall >= m.wall && c.logical == UINT32_MAX) || (m.wall >= c.wall && m.logical == UINT32_MAX))
  }

  /**
   `update` takes the clock beyond both its old value and the message exactly when the counter it increases is
   not the largest 32-bit value.
   */
  lemma UpdateAdvances(c: Hlc, m: Timestamp, phys: int)
    requires Bounded(c) && m.logical <= UINT32_MAX
    ensures Bounded(AfterUpdate(c, m, phys))
    ensures (Behind(c, AfterUpdate(c, m, phys)) && Behind(Hlc(m.wall, m.logical), AfterUpdate(c, m, phys))) <==>
            !UpdateWraps(c, m, phys)
  {
  }

  /** After `update(m)` the next `now` is later than m, and later than everything issued before. */
  lemma NowAfterUpdate(c: Hlc, m: Timestamp, phys: int, phys': int, after: int, node: nat, issued: Timestamp)
    requires Bounded(c) && m.logical <= UINT32_MAX && !UpdateWraps(c, m, phys)
    requires issued.wall < c.wall || (issued.wall == c.wall && issued.logical <= c.logical)
    requires var d := AfterUpdate(c, m, phys); phys' > d.wall || d.logical < UINT32_MAX || after > d.wall
    ensures var d := AfterNow(AfterUpdate(c, m, phys), phys', after);
            Less(m, Timestamp(d.wall, d.logical, node)) && Less(issued, Timestamp(d.wall, d.logical, node))
  {
    UpdateAdvances(c, m, phys);
    NowAdvances(AfterUpdate(c, m, phys), phys', after);
  }

  // ---------------------------------------------------------------- the clock does not run ahead

  /** A state that the clock may take on the way from c, given a physical reading. */
  predicate MayFollow(c: Hlc, phys: int, d: Hlc) {
    Bounded(d) && Behind(c, d) && d.wall >= phys
  }

  /** `now` takes the least state that is later than the clock and not before the last reading taken. */
  lemma NowIsLeast(c: Hlc, phys: int, after: int, d: Hlc)
    requires Bounded(c) && NowSafe(c, phys, after)
    ensures MayFollow(c, if Spins(c, phys) then after else phys, AfterNow(c, phys, after))
    ensures MayFollow(c, if Spins(c, phys) then after else phys, d) ==> !Behind(d, AfterNow(c, phys, after))
  {
  }

  /** The least state that may follow. */
  ghost predicate LeastAfter(c: Hlc, phys: int, d: Hlc) {
    MayFollow(c, phys, d) && forall x :: MayFollow(c, phys, x) ==> !Behind(x, d)
  }

  lemma NowIsLeastAfter(c: Hlc, phys: int, after: int)
    requires Bounded(c) && NowSafe(c, phys, after)
    ensures LeastAfter(c, if Spins(c, phys) then after else phys, AfterNow(c, phys, after))
  {
    forall x ensures MayFollow(c, if Spins(c, phys) then after else phys, x) ==> !Behind(x, AfterNow(c, phys, after)) {
      NowIsLeast(c, phys, after, x);
    }
    NowIsLeast(c, phys, after, c);
  }

  /** `update` takes the least state that is later than the clock and the message and not before the reading. */
  lemma UpdateIsLeast(c: Hlc, m: Timestamp, phys: int, d: Hlc)
    requires Bounded(c) && m.logical <= UINT32_MAX && !UpdateWraps(c, m, phys)
    ensures var e := AfterUpdate(c, m, phys); MayFollow(c, phys, e) && Behind(Hlc(m.wall, m.logical), e)
    ensures MayFollow(c, phys, d) && Behind(Hlc(m.wall, m.logical), d) ==> !Behind(d, AfterUpdate(c, m, phys))
  {
  }

  /** `now` finds the counter used up and waits for the physical clock. */
  predicate Spins(c: Hlc, phys: int) {
    phys <= c.wall && c.logical == UINT32_MAX
  }

  class HybridLogicalClock {
    var maxWallTime: int
    var maxLogical: nat
    const nodeId: nat

    ghost predicate Valid()
      reads this
    {
      maxLogical <= UINT32_MAX
    }

    ghost function State(): Hlc
      reads this
    {
      Hlc(maxWallTime, maxLogical)
    }

    constructor (nodeId: nat)
      ensures Valid() && State() == Hlc(0, 0) && this.nodeId == nodeId
    {
      this.nodeId := nodeId;
      maxWallTime, maxLogical := 0, 0;
    }

    /** The readings are those taken while spinning; the loop ends on the first that is later than the clock. */
    method Now(phys: int, spin: seq<int>, after: int) returns (ts: Timestamp)
      requires Valid()
      requires phys <= maxWallTime && maxLogical == UINT32_MAX ==> exists i :: 0 <= i < |spin| && spin[i] > maxWallTime
      modifies this
      ensures Valid() && State() == AfterNow(old(State()), phys, after)
      ensures Behind(old(State()), State()) <==> NowSafe(old(State()), phys, after)
      ensures NowSafe(old(State()), phys, after) ==>
        LeastAfter(old(State()), if Spins(old(State()), phys) then after else phys, State())
      ensures ts == Timestamp(maxWallTime, maxLogical, nodeId)
    {
      if phys > maxWallTime {
        maxWallTime := phys;
        maxLogical := 0;
      } else if maxLogical == UINT32_MAX {
        var i := 0;
        while spin[i] <= maxWallTime
          invariant 0 <= i < |spin|
          invariant exists k :: i <= k < |spin| && spin[k] > maxWallTime
          decreases |spin| - i
        {
          i := i + 1;
        }
        maxWallTime := after;
        maxLogical := 0;
      } else {
        maxLogical := maxLogical + 1;
      }
      ts := Timestamp(maxWallTime, maxLogical, nodeId);
    }

    method Update(incoming: Timestamp, phys: int)
      requires Valid()
      modifies this
      ensures Valid() && State() == AfterUpdate(old(State()), incoming, phys)
      ensures incoming.logical <= UINT32_MAX ==>
        (Behind(old(State()), State()) && Behind(Hlc(incoming.wall, incoming.logical), State())
         <==> !UpdateWraps(old(State()), incoming, phys))
      ensures incoming.logical <= UINT32_MAX && !UpdateWraps(old(State()), incoming, phys) ==>
        forall d :: MayFollow(old(State()), phys, d) && Behind(Hlc(incoming.wall, incoming.logical), d) ==> !Behind(d, State())
    {
      var wallOld, logicalOld := maxWallTime, maxLogical;
      maxWallTime := Max(Max(wallOld, incoming.wall), phys);
      if maxWallTime == wallOld && maxWallTime == incoming.wall {
        maxLogical := (Max(logicalOld, incoming.logical) + 1) % (UINT32_MAX + 1);
      } else if maxWallTime == wallOld {
        maxLogical := (logicalOld + 1) % (UINT32_MAX + 1);
      } else if maxWallTime == incoming.wall {
        maxLogical := (incoming.logical + 1) % (UINT32_MAX + 1);
      } else {
        maxLogical := 0;
      }
    }

    method ReserveLogical(forPhys: int, count: nat, phys: int) returns (start: int)
      requires Valid()
      modifies this
      ensures Valid() && State() == AfterReserve(old(State()), forPhys, count, phys).0
      ensures AfterReserve(old(State()), forPhys, count, phys).1 == if start < 0 then Refused else Granted(start)
      ensures State() == old(State()) || Behind(old(State()), State())
      ensures start >= 0 && count > 0 ==>
        && !Reaches(old(State()), forPhys, start) && start + count - 1 <= UINT32_MAX
        && State() == Hlc(forPhys, start + count - 1)
      ensures start >= 0 ==> start > 0 && forall k :: 0 < k < start ==> Reaches(old(State()), forPhys, k)
      ensures start >= 0 <==> forPhys >= phys && forPhys >= old(maxWallTime)
                              && (if forPhys == old(maxWallTime) then old(maxLogical) else 0) + count <= UINT32_MAX
    {
      var physNow := Max(phys, maxWallTime);
      if forPhys < physNow {
        return -1;
      }
      if forPhys > maxWallTime {
        maxWallTime := forPhys;
        maxLogical := 0;
      }
      if UINT32_MAX - maxLogical < count {
        return -1;
      }
      start := maxLogical + 1;
      maxLogical := maxLogical + count;
    }
  }

  // ---------------------------------------------------------------- thread-local clocks

  /** The next step of a thread inside `ThreadLocalClock::now`; `phys` is the reading it works with. */
  datatype Pc = Idle | Refill(phys: int) | Retry(phys: int) | Fallback

  /** The cached batch and the thread's step. The exclusive end is a 32-bit value. */
  datatype Local = Local(phys: int, next: nat, end: nat, pc: Pc)

  /** A timestamp handed out; `caller` is the thread, or nobody for a direct call of the global clock. */
  datatype Caller = Direct | Thread(t: nat)
  datatype Issue = Issue(wall: int, logical: nat, caller: Caller)

  datatype State = State(clock: Hlc, locals: seq<Local>, issued: seq<Issue>)

  datatype Action =
    | GlobalNow(phys: int, after: int)
    | GlobalUpdate(m: Timestamp, phys: int)
    | CallNow(t: nat, phys: int)                // the first reading, and the batch if it still serves
    | Step(t: nat, phys: int, after: int)       // the thread's next locked section or reading

  predicate Init(s: State) {
    s.clock == Hlc(0, 0) && s.issued == [] && forall t :: 0 <= t < |s.locals| ==> s.locals[t] == Local(0, 0, 0, Idle)
  }

  /** The conditions under which the clock itself moves forward, see NowAdvances and UpdateAdvances. */
  predicate NowSafe(c: Hlc, phys: int, after: int) {
    phys > c.wall || c.logical < UINT32_MAX || after > c.wall
  }

  predicate Enabled(s: State, a: Action) {
    match a
    case GlobalNow(phys, after) => NowSafe(s.clock, phys, after)
    case GlobalUpdate(m, phys) => m.logical <= UINT32_MAX && !UpdateWraps(s.clock, m, phys)
    case CallNow(t, _) => t < |s.locals| && s.locals[t].pc == Idle
    case Step(t, phys, after) =>
      t < |s.locals| && s.locals[t].pc != Idle && (s.locals[t].pc == Fallback ==> NowSafe(s.clock, phys, after))
  }

  function IssueNow(s: State, phys: int, after: int, caller: Caller): State {
    var c := AfterNow(s.clock, phys, after);
    s.(clock := c, issued := s.issued + [Issue(c.wall, c.logical, caller)])
  }

  function Next(s: State, a: Action): State
    requires Enabled(s, a)
  {
    match a
    case GlobalNow(phys, after) => IssueNow(s, phys, after, Direct)
    case GlobalUpdate(m, phys) => s.(clock := AfterUpdate(s.clock, m, phys))
    case CallNow(t, phys) =>
      var l := s.locals[t];
      if phys == l.phys && l.next < l.end then
        s.(locals := s.locals[t := l.(next := l.next + 1)], issued := s.issued + [Issue(l.phys, l.next, Thread(t))])
      else if phys > l.phys then s.(locals := s.locals[t := Local(phys, 0, 0, Refill(phys))])
      else s.(locals := s.locals[t := l.(pc := Refill(phys))])
    case Step(t, phys, after) =>
      var l := s.locals[t];
      match l.pc
      case Refill(p) =>
        var (c, r) := AfterReserve(s.clock, p, BATCH_SIZE, phys);
        if r.Granted? then
          s.(clock := c, issued := s.issued + [Issue(p, r.start, Thread(t))],
             locals := s.locals[t := Local(p, r.start + 1, (r.start + BATCH_SIZE) % (UINT32_MAX + 1), Idle)])
        else s.(clock := c, locals := s.locals[t := l.(pc := Retry(p))])
      case Retry(p) => s.(locals := s.locals[t := l.(pc := if phys == p then Fallback else Refill(phys))])
      case Fallback => IssueNow(s.(locals := s.locals[t := l.(pc := Idle)]), phys, after, Thread(t))
  }

  datatype Outcome = Reached(state: State) | Stuck

  /** Runs a schedule; it is stuck if it asks for something that is not possible. */
  function Execute(s: State, schedule: seq<Action>): Outcome {
    if schedule == [] then Reached(s)
    else
      var last := |schedule| - 1;
      match Execute(s, schedule[..last])
      case Stuck => Stuck
      case Reached(m) => if Enabled(m, schedule[last]) then Reached(Next(m, schedule[last])) else Stuck
  }

  // ---------------------------------------------------------------- no timestamp is issued twice

  /** The clock has reached the pair. */
  predicate Reaches(c: Hlc, wall: int, logical: nat) {
    wall < c.wall || (wall == c.wall && logical <= c.logical)
  }

  /** The pair is still in thread t's batch. */
  predicate InBatch(l: Local, wall: int, logical: nat) {
    wall == l.phys && l.next <= logical < l.end
  }

  predicate Distinct(issued: seq<Issue>) {
    forall i, j :: 0 <= i < j < |issued| ==> !SamePair(issued[i], issued[j])
  }

  predicate SamePair(a: Issue, b: Issue) {
    a.wall == b.wall && a.logical == b.logical
  }

  predicate LocalOk(s: State, t: nat)
    requires t < |s.locals|
  {
    var l := s.locals[t];
    && (l.next < l.end ==> Reaches(s.clock, l.phys, l.end - 1))
    && (forall i :: 0 <= i < |s.issued| ==> !InBatch(l, s.issued[i].wall, s.issued[i].logical))
  }

  predicate Apart(a: Local, b: Local) {
    a.phys != b.phys || a.next >= a.end || b.next >= b.end || a.end <= b.next || b.end <= a.next
  }

  predicate Inv(s: State) {
    && Bounded(s.clock)
    && Distinct(s.issued)
    && (forall i :: 0 <= i < |s.issued| ==> Reaches(s.clock, s.issued[i].wall, s.issued[i].logical))
    && (forall t :: 0 <= t < |s.locals| ==> LocalOk(s, t))
    && (forall t, u :: 0 <= t < u < |s.locals| ==> Apart(s.locals[t], s.locals[u]))
  }

  lemma ClockMovesForward(s: State, a: Action)
    requires Bounded(s.clock) && Enabled(s, a)
    ensures Bounded(Next(s, a).clock)
    ensures forall wall, logical :: Reaches(s.clock, wall, logical) ==> Reaches(Next(s, a).clock, wall, logical)
  {
  }

  /** What a step issues is reached now, and was in the caller's batch or beyond the clock before. */
  lemma IssuedPairIsFresh(s: State, a: Action)
    requires Inv(s) && Enabled(s, a) && |Next(s, a).issued| > |s.issued|
    ensures var n := Next(s, a).issued[|s.issued|];
            && Next(s, a).issued == s.issued + [n]
            && Reaches(Next(s, a).clock, n.wall, n.logical)
            && (!Reaches(s.clock, n.wall, n.logical) || (a.CallNow? && InBatch(s.locals[a.t], n.wall, n.logical)))
  {
    if a.CallNow? {
      assert LocalOk(s, a.t);
    }
  }

  /** A step leaves a thread's batch alone, shortens it, empties it, or replaces it by one beyond the clock. */
  lemma BatchAfter(s: State, a: Action, t: nat)
    requires Inv(s) && Enabled(s, a) && t < |s.locals|
    ensures var l, l' := s.locals[t], Next(s, a).locals[t];
            || (l'.phys == l.phys && l.next <= l'.next && l'.end == l.end)
            || l'.next >= l'.end
            || (a.Step? && a.t == t && !Reaches(s.clock, l'.phys, l'.next) && Reaches(Next(s, a).clock, l'.phys, l'.end - 1))
  {
  }

  lemma KeepLocal(s: State, a: Action, t: nat)
    requires Inv(s) && Enabled(s, a) && t < |s.locals|
    ensures LocalOk(Next(s, a), t)
  {
    var s' := Next(s, a);
    assert LocalOk(s, t);
    ClockMovesForward(s, a);
    BatchAfter(s, a, t);
    if |s'.issued| > |s.issued| {
      IssuedPairIsFresh(s, a);
      if a.CallNow? && a.t != t {
        assert Apart(s.locals[t], s.locals[a.t]) || Apart(s.locals[a.t], s.locals[t]);
      }
    }
    forall i | 0 <= i < |s'.issued|
      ensures !InBatch(s'.locals[t], s'.issued[i].wall, s'.issued[i].logical)
    {
      assert i < |s.issued| ==> Reaches(s.clock, s.issued[i].wall, s.issued[i].logical);
    }
  }

  lemma KeepApart(s: State, a: Action, t: nat, u: nat)
    requires Inv(s) && Enabled(s, a) && t < u < |s.locals|
    ensures Apart(Next(s, a).locals[t], Next(s, a).locals[u])
  {
    assert LocalOk(s, t) && LocalOk(s, u) && Apart(s.locals[t], s.locals[u]);
    BatchAfter(s, a, t);
    BatchAfter(s, a, u);
  }

  lemma KeepInv(s: State, a: Action)
    requires Inv(s) && Enabled(s, a)
    ensures Inv(Next(s, a))
  {
    var s' := Next(s, a);
    ClockMovesForward(s, a);
    forall t | 0 <= t < |s'.locals|
      ensures LocalOk(s', t)
    {
      KeepLocal(s, a, t);
    }
    forall t, u | 0 <= t < u < |s'.locals|
      ensures Apart(s'.locals[t], s'.locals[u])
    {
      KeepApart(s, a, t, u);
    }
    if |s'.issued| > |s.issued| {
      IssuedPairIsFresh(s, a);
      if a.CallNow? {
        assert LocalOk(s, a.t);
      }
    }
  }

  lemma {:induction false} ReachableInv(s0: State, schedule: seq<Action>, s: State)
    requires Init(s0) && Execute(s0, schedule) == Reached(s)
    ensures Inv(s)
  {
    if schedule != [] {
      var last := |schedule| - 1;
      var m := Execute(s0, schedule[..last]).state;
      ReachableInv(s0, schedule[..last], m);
      KeepInv(m, schedule[last]);
    }
  }

  /**
   Over every interleaving of any number of thread-local clocks with direct calls of `now` and `update`, for
   arbitrary readings of the physical clock, no timestamp is issued twice.
   */
  lemma NoTimestampTwice(s0: State, schedule: seq<Action>, s: State)
    requires Init(s0) && Execute(s0, schedule) == Reached(s)
    ensures forall i, j :: 0 <= i < j < |s.issued| ==>
              Timestamp(s.issued[i].wall, s.issued[i].logical, 0) != Timestamp(s.issued[j].wall, s.issued[j].logical, 0)
  {
    ReachableInv(s0, schedule, s);
    forall i, j | 0 <= i < j < |s.issued|
      ensures Timestamp(s.issued[i].wall, s.issued[i].logical, 0) != Timestamp(s.issued[j].wall, s.issued[j].logical, 0)
    {
      assert !SamePair(s.issued[i], s.issued[j]);
    }
  }

  // ---------------------------------------------------------------- the clock is the latest time it has been shown

  /**
   The wall times that a step shows to the clock: the readings of `now` and `update`, the times of messages, and the
   reading for which a thread reserves, unless the reservation finds it outdated.
   */
  function Shown(s: State, a: Action): set<int>
    requires Enabled(s, a)
  {
    match a
    case GlobalNow(phys, after) => if Spins(s.clock, phys) then {phys, after} else {phys}
    case GlobalUpdate(m, phys) => {m.wall, phys}
    case CallNow(_, _) => {}
    case Step(t, phys, after) =>
      match s.locals[t].pc
      case Refill(p) => if phys <= p then {p} else {}
      case Fallback => if Spins(s.clock, phys) then {phys, after} else {phys}
      case _ => {}
  }

  /** Everything shown to the clock in a run, and the time it starts from. */
  function AllShown(s0: State, schedule: seq<Action>): set<int> {
    if schedule == [] then {0}
    else
      var last := |schedule| - 1;
      AllShown(s0, schedule[..last]) +
      match Execute(s0, schedule[..last])
      case Stuck => {}
      case Reached(m) => if Enabled(m, schedule[last]) then Shown(m, schedule[last]) else {}
  }

  /** The step sets the clock to a physical reading alone: later than the clock and than any message. */
  predicate Resets(s: State, a: Action) {
    match a
    case GlobalNow(phys, _) => phys > s.clock.wall || Spins(s.clock, phys)
    case GlobalUpdate(m, phys) => phys > s.clock.wall && phys > m.wall
    case CallNow(_, _) => false
    case Step(t, phys, _) =>
      t < |s.locals| && s.locals[t].pc == Fallback && (phys > s.clock.wall || Spins(s.clock, phys))
  }

  /** The step moves the clock. */
  predicate Moves(s: State, a: Action) {
    match a
    case GlobalNow(_, _) => true
    case GlobalUpdate(_, _) => true
    case CallNow(_, _) => false
    case Step(t, phys, _) =>
      t < |s.locals| &&
      match s.locals[t].pc
      case Refill(p) => p >= phys && (p > s.clock.wall || (p == s.clock.wall && s.clock.logical <= UINT32_MAX - BATCH_SIZE))
      case Fallback => true
      case _ => false
  }

  /** The last step that moved the clock, if there was one, has set it to a physical reading alone. */
  predicate LastMoveResets(s0: State, schedule: seq<Action>) {
    schedule == [] ||
    var last := |schedule| - 1;
    match Execute(s0, schedule[..last])
    case Stuck => false
    case Reached(m) =>
      if Moves(m, schedule[last]) then Resets(m, schedule[last]) else LastMoveResets(s0, schedule[..last])
  }

  lemma ShownByStep(s: State, a: Action)
    requires Bounded(s.clock) && Enabled(s, a)
    ensures forall w :: w in Shown(s, a) ==> w <= Next(s, a).clock.wall
    ensures s.clock.wall <= Next(s, a).clock.wall
    ensures Next(s, a).clock.wall == s.clock.wall || Next(s, a).clock.wall in Shown(s, a)
    ensures if Moves(s, a) then Behind(s.clock, Next(s, a).clock) else Next(s, a).clock == s.clock
    ensures Moves(s, a) ==> (Next(s, a).clock.logical == 0 <==> Resets(s, a))
  {
  }

  /**
   After every schedule the wall time of the clock is the largest of 0, the physical readings and the message times it
   has been shown: the clock never runs ahead of all it has seen.  Its logical part is 0 exactly when the last step that
   moved the clock has set it to a physical reading alone.
   */
  lemma {:induction false} ClockIsLatestShown(s0: State, schedule: seq<Action>, s: State)
    requires Init(s0) && Execute(s0, schedule) == Reached(s)
    ensures s.clock.wall in AllShown(s0, schedule)
    ensures forall w :: w in AllShown(s0, schedule) ==> w <= s.clock.wall
    ensures s.clock.logical == 0 <==> LastMoveResets(s0, schedule)
  {
    hide Next, Shown, Moves, Resets;
    if schedule != [] {
      var last := |schedule| - 1;
      var m := Execute(s0, schedule[..last]).state;
      ClockIsLatestShown(s0, schedule[..last], m);
      ReachableInv(s0, schedule[..last], m);
      ShownByStep(m, schedule[last]);
    }
  }

  // ---------------------------------------------------------------- what a thread is given

  /** The last timestamp issued, if the step has issued one to thread t. */
  predicate Gives(s: State, s': State, t: nat, wall: int, logical: nat) {
    s'.issued == s.issued + [Issue(wall, logical, Thread(t))] && t < |s'.locals| && s'.locals[t].pc == Idle
  }

  /** A batch can be reserved at the wall time p when the clock is read as `phys`. */
  predicate Reservable(c: Hlc, p: int, phys: int) {
    p >= phys && p >= c.wall && !Reaches(c, p, UINT32_MAX - BATCH_SIZE + 1)
  }

  /** The logical value k is the first one, from 1 on, that the clock has not reached at the wall time. */
  predicate FirstFree(c: Hlc, wall: int, k: nat) {
    k > 0 && !Reaches(c, wall, k) && forall j :: 0 < j < k ==> Reaches(c, wall, j)
  }

  lemma FirstFreeIs(c: Hlc, wall: int, k: nat)
    requires wall >= c.wall && FirstFree(c, wall, k)
    ensures k == if wall > c.wall then 1 else c.logical + 1
  {
    assert !Reaches(c, wall, if wall > c.wall then 1 else c.logical + 1);
  }

  /**
   A call that runs alone is served from the batch if that has the time of the reading; otherwise, if a batch can be
   reserved there, with the first free logical value, the 49 that follow being kept; otherwise, when the physical clock
   stands still, with the least time that is later than the clock.
   */
  lemma SoloNow(s: State, t: nat, phys: int, after: int, k: nat)
    requires Inv(s) && t < |s.locals| && s.locals[t].pc == Idle && NowSafe(s.clock, phys, after)
    ensures var s1 := Next(s, CallNow(t, phys)); var l := s.locals[t];
      if phys == l.phys && l.next < l.end
      then Gives(s, s1, t, phys, l.next) && s1.clock == s.clock && s1.locals[t] == l.(next := l.next + 1)
      else
        && Enabled(s1, Step(t, phys, after))
        && var s2 := Next(s1, Step(t, phys, after));
           if Reservable(s.clock, phys, phys) && FirstFree(s.clock, phys, k)
           then
             && Gives(s, s2, t, phys, k) && s2.clock == Hlc(phys, k + BATCH_SIZE - 1)
             && s2.locals[t] == Local(phys, k + 1, (k + BATCH_SIZE) % (UINT32_MAX + 1), Idle)
           else if !Reservable(s.clock, phys, phys) then
             && Enabled(s2, Step(t, phys, after))
             && var s3 := Next(s2, Step(t, phys, after));
                && Enabled(s3, Step(t, phys, after))
                && var s4 := Next(s3, Step(t, phys, after));
                   && Gives(s, s4, t, s4.clock.wall, s4.clock.logical)
                   && LeastAfter(s.clock, if Spins(s.clock, phys) then after else phys, s4.clock)
           else true
  {
    if !(phys == s.locals[t].phys && s.locals[t].next < s.locals[t].end) {
      var s1 := Next(s, CallNow(t, phys));
      var s2 := Next(s1, Step(t, phys, after));
      if Reservable(s.clock, phys, phys) && FirstFree(s.clock, phys, k) {
        FirstFreeIs(s.clock, phys, k);
      }
      if !Reservable(s.clock, phys, phys) {
        assert s2.clock == s.clock && s2.locals[t].pc == Retry(phys);
        NowIsLeastAfter(s.clock, phys, after);
      }
    }
  }

  /** If the physical clock has moved when a reservation is refused, the thread reserves again at the new time. */
  lemma RetriesWhereClockMoved(s: State, t: nat, p: int, phys: int, after: int, k: nat)
    requires Inv(s) && t < |s.locals| && s.locals[t].pc == Retry(p) && phys != p
    requires Reservable(s.clock, phys, phys) && FirstFree(s.clock, phys, k)
    ensures Enabled(s, Step(t, phys, after))
    ensures var s1 := Next(s, Step(t, phys, after));
      && Enabled(s1, Step(t, phys, after))
      && Gives(s, Next(s1, Step(t, phys, after)), t, phys, k)
  {
    FirstFreeIs(s.clock, phys, k);
  }

  /** The timestamp has been issued to thread t. */
  predicate Given(issued: seq<Issue>, wall: int, logical: nat, t: nat) {
    Issue(wall, logical, Thread(t)) in issued
  }

  /** All of the thread's batch up to what is next has been issued to it. */
  predicate ServedInOrder(issued: seq<Issue>, l: Local, t: nat) {
    l.next < l.end ==>
      l.end - BATCH_SIZE < l.next && forall k: nat :: l.end - BATCH_SIZE <= k < l.next ==> Given(issued, l.phys, k, t)
  }

  lemma KeepServed(s: State, a: Action, t: nat)
    requires Inv(s) && Enabled(s, a) && t < |s.locals| && ServedInOrder(s.issued, s.locals[t], t)
    ensures |Next(s, a).locals| == |s.locals| && ServedInOrder(Next(s, a).issued, Next(s, a).locals[t], t)
  {
    var s' := Next(s, a);
    var l := s'.locals[t];
    assert s.issued <= s'.issued;
    if l.next < l.end {
      forall k: nat | l.end - BATCH_SIZE <= k < l.next ensures Given(s'.issued, l.phys, k, t) {
        if k == l.next - 1 && |s'.issued| > |s.issued| && (a.CallNow? || a.Step?) && a.t == t && s.locals[t].pc != Fallback {
          assert s'.issued[|s'.issued| - 1] == Issue(l.phys, k, Thread(t));
        } else {
          assert Given(s.issued, l.phys, k, t);
        }
      }
    }
  }

  /** In every run a thread uses up its batch without leaving anything out: what is next follows what was issued. */
  lemma {:induction false} BatchesAreServedInOrder(s0: State, schedule: seq<Action>, s: State, t: nat)
    requires Init(s0) && Execute(s0, schedule) == Reached(s) && t < |s.locals|
    ensures ServedInOrder(s.issued, s.locals[t], t)
  {
    hide Next, Enabled, ServedInOrder;
    if schedule == [] {
      NothingServed(s0, t);
    } else {
      var last := |schedule| - 1;
      var m := Execute(s0, schedule[..last]).state;
      ReachableInv(s0, schedule[..last], m);
      SameLocals(m, schedule[last]);
      BatchesAreServedInOrder(s0, schedule[..last], m, t);
      KeepServed(m, schedule[last], t);
    }
  }

  lemma NothingServed(s: State, t: nat)
    requires Init(s) && t < |s.locals|
    ensures ServedInOrder(s.issued, s.locals[t], t)
  {
  }

  lemma SameLocals(s: State, a: Action)
    requires Enabled(s, a)
    ensures |Next(s, a).locals| == |s.locals|
  {
  }

  // ---------------------------------------------------------------- each caller's timestamps rise

  /** A direct call of `now` returns something later than everything issued or reserved before it. */
  lemma DirectNowIsLatest(s0: State, schedule: seq<Action>, s: State, phys: int, after: int)
    requires Init(s0) && Execute(s0, schedule) == Reached(s) && NowSafe(s.clock, phys, after)
    ensures var c := AfterNow(s.clock, phys, after);
            && (forall i :: 0 <= i < |s.issued| ==> Behind(Hlc(s.issued[i].wall, s.issued[i].logical), c))
            && (forall t, wall, k: nat :: 0 <= t < |s.locals| && InBatch(s.locals[t], wall, k) ==> Behind(Hlc(wall, k), c))
  {
    ReachableInv(s0, schedule, s);
    NowAdvances(s.clock, phys, after);
    forall t, wall, k: nat | 0 <= t < |s.locals| && InBatch(s.locals[t], wall, k)
      ensures Behind(Hlc(wall, k), AfterNow(s.clock, phys, after))
    {
      assert LocalOk(s, t);
    }
  }

  predicate Mine(x: Issue, t: nat) {
    x.caller == Thread(t)
  }

  predicate Earlier(x: Issue, wall: int, logical: nat) {
    Behind(Hlc(x.wall, x.logical), Hlc(wall, logical))
  }

  predicate Rising(issued: seq<Issue>, t: nat) {
    forall i, j :: 0 <= i < j < |issued| && Mine(issued[i], t) && Mine(issued[j], t) ==>
      Earlier(issued[i], issued[j].wall, issued[j].logical)
  }

  /** A call that is answered from the cached batch. */
  predicate Serves(s: State, a: Action, t: nat) {
    a.CallNow? && a.t == t && t < |s.locals|
    && s.locals[t].pc == Idle && a.phys == s.locals[t].phys && s.locals[t].next < s.locals[t].end
  }

  /** Thread t has been given something that is not below what is next in its batch. */
  predicate Overtaken(s: State, t: nat)
    requires t < |s.locals|
  {
    exists i :: 0 <= i < |s.issued| && Mine(s.issued[i], t) && !Earlier(s.issued[i], s.locals[t].phys, s.locals[t].next)
  }

  /** What is issued otherwise than from a batch is later than everything before it. */
  lemma OtherIssuesAreLatest(s: State, a: Action, t: nat, i: nat)
    requires Inv(s) && Enabled(s, a) && !Serves(s, a, t) && |Next(s, a).issued| > |s.issued| && i < |s.issued|
    requires Mine(Next(s, a).issued[|s.issued|], t)
    ensures var n := Next(s, a).issued[|s.issued|];
            Next(s, a).issued == s.issued + [n] && Earlier(s.issued[i], n.wall, n.logical)
  {
    IssuedPairIsFresh(s, a);
    assert Reaches(s.clock, s.issued[i].wall, s.issued[i].logical);
  }

  /**
   One step: a thread's timestamps go on rising if and only if the step does not answer from a batch that the thread
   has been taken beyond.
   */
  lemma StepKeepsOrderExactly(s: State, a: Action, t: nat)
    requires Inv(s) && Enabled(s, a) && t < |s.locals| && Rising(s.issued, t)
    ensures Rising(Next(s, a).issued, t) <==> !(Serves(s, a, t) && Overtaken(s, t))
  {
    hide Inv, Reaches;
    var s' := Next(s, a);
    if Serves(s, a, t) {
      var n := Issue(s.locals[t].phys, s.locals[t].next, Thread(t));
      assert s'.issued == s.issued + [n];
      if Overtaken(s, t) {
        var i :| 0 <= i < |s.issued| && Mine(s.issued[i], t) && !Earlier(s.issued[i], n.wall, n.logical);
        assert s'.issued[i] == s.issued[i] && s'.issued[|s.issued|] == n && Mine(s'.issued[i], t) && Mine(n, t);
      }
    } else if |s'.issued| > |s.issued| && Mine(s'.issued[|s.issued|], t) {
      forall i | 0 <= i < |s.issued|
        ensures s'.issued == s.issued + [s'.issued[|s.issued|]]
        ensures Earlier(s.issued[i], s'.issued[|s.issued|].wall, s'.issued[|s.issued|].logical)
      {
        OtherIssuesAreLatest(s, a, t, i);
      }
    }
  }

  /** The thread's step that asks the global clock although part of its batch is left. */
  predicate FallsBack(s: State, a: Action, t: nat) {
    a.Step? && a.t == t && t < |s.locals| && s.locals[t].pc == Fallback
  }

  /** A step that gives the thread a new batch or drops the old one. */
  predicate Renews(s: State, a: Action, t: nat) {
    && t < |s.locals| && Enabled(s, a)
    && ((a.Step? && a.t == t && s.locals[t].pc.Refill? && Next(s, a).locals[t].pc == Idle)
        || (a.CallNow? && a.t == t && a.phys > s.locals[t].phys))
  }

  /** After the schedule, the batch of thread t is one that a fallback of the thread has passed over. */
  predicate PassedOver(s0: State, schedule: seq<Action>, t: nat)
    decreases |schedule|
  {
    schedule != [] &&
    var last := |schedule| - 1;
    match Execute(s0, schedule[..last])
    case Stuck => false
    case Reached(m) =>
      FallsBack(m, schedule[last], t) || (!Renews(m, schedule[last], t) && PassedOver(s0, schedule[..last], t))
  }

  /** The call at position k of the schedule is answered from a batch that a fallback has passed over. */
  predicate ServedLate(s0: State, schedule: seq<Action>, t: nat, k: nat)
    requires k < |schedule|
  {
    && Execute(s0, schedule[..k]).Reached?
    && Serves(Execute(s0, schedule[..k]).state, schedule[k], t) && PassedOver(s0, schedule[..k], t)
  }

  /** What is left of a batch lies beyond all the thread was given, or below it, as a fallback has passed it over or not. */
  predicate BatchPlace(s: State, t: nat, passed: bool)
    requires t < |s.locals|
  {
    s.locals[t].next < s.locals[t].end ==> (passed <==> Overtaken(s, t))
  }

  lemma KeepBatchPlace(s: State, a: Action, t: nat, passed: bool)
    requires Inv(s) && Enabled(s, a) && t < |s.locals| && BatchPlace(s, t, passed)
    ensures BatchPlace(Next(s, a), t, FallsBack(s, a, t) || (!Renews(s, a, t) && passed))
  {
    var s' := Next(s, a);
    if s'.locals[t].next < s'.locals[t].end {
      if FallsBack(s, a, t) {
        FallbackOvertakes(s, a, t);
      } else if Renews(s, a, t) {
        NewBatchIsBeyond(s, a, t);
      } else {
        SameBatch(s, a, t);
      }
    }
  }

  lemma FallbackOvertakes(s: State, a: Action, t: nat)
    requires Inv(s) && Enabled(s, a) && FallsBack(s, a, t) && s.locals[t].next < s.locals[t].end
    ensures Overtaken(Next(s, a), t)
  {
    assert LocalOk(s, t);
    NowAdvances(s.clock, a.phys, a.after);
    var n := Next(s, a).issued[|s.issued|];
    assert Mine(n, t) && !Earlier(n, s.locals[t].phys, s.locals[t].next);
  }

  lemma NewBatchIsBeyond(s: State, a: Action, t: nat)
    requires Inv(s) && Enabled(s, a) && Renews(s, a, t) && Next(s, a).locals[t].next < Next(s, a).locals[t].end
    ensures !Overtaken(Next(s, a), t)
  {
    var s' := Next(s, a);
    forall i | 0 <= i < |s'.issued|
      ensures Earlier(s'.issued[i], s'.locals[t].phys, s'.locals[t].next)
    {
      assert i < |s.issued| ==> Reaches(s.clock, s.issued[i].wall, s.issued[i].logical);
    }
  }

  lemma SameBatch(s: State, a: Action, t: nat)
    requires Inv(s) && Enabled(s, a) && t < |s.locals| && !FallsBack(s, a, t) && !Renews(s, a, t)
    requires Next(s, a).locals[t].next < Next(s, a).locals[t].end
    ensures s.locals[t].next < s.locals[t].end
    ensures Overtaken(Next(s, a), t) <==> Overtaken(s, t)
  {
    var s', l, l' := Next(s, a), s.locals[t], Next(s, a).locals[t];
    assert l'.phys == l.phys && l'.end == l.end && l.next <= l'.next;
    assert forall i :: 0 <= i < |s.issued| ==> s'.issued[i] == s.issued[i];
    assert LocalOk(s, t);
    forall i | 0 <= i < |s.issued| && Mine(s.issued[i], t)
      ensures Earlier(s.issued[i], l'.phys, l'.next) <==> Earlier(s.issued[i], l.phys, l.next)
    {
      assert !InBatch(l, s.issued[i].wall, s.issued[i].logical);
    }
  }

  lemma {:induction false} ReachableBatchPlace(s0: State, schedule: seq<Action>, s: State, t: nat)
    requires Init(s0) && Execute(s0, schedule) == Reached(s) && t < |s.locals|
    ensures BatchPlace(s, t, PassedOver(s0, schedule, t))
  {
    hide Inv, FallsBack, Renews, BatchPlace, Next, Enabled;
    if schedule == [] {
      assert BatchPlace(s, t, false) by { EmptyBatch(s0, t); }
    } else {
      var last := |schedule| - 1;
      var m := Execute(s0, schedule[..last]).state;
      SameThreads(m, schedule[last]);
      ReachableInv(s0, schedule[..last], m);
      ReachableBatchPlace(s0, schedule[..last], m, t);
      KeepBatchPlace(m, schedule[last], t, PassedOver(s0, schedule[..last], t));
    }
  }

  lemma EmptyBatch(s: State, t: nat)
    requires Init(s) && t < |s.locals|
    ensures BatchPlace(s, t, false)
  {
  }

  lemma SameThreads(s: State, a: Action)
    requires Enabled(s, a)
    ensures |Next(s, a).locals| == |s.locals| && s.issued <= Next(s, a).issued
  {
  }

  /** Once out of order, a thread's timestamps stay out of order. */
  lemma RisingOfPrefix(xs: seq<Issue>, ys: seq<Issue>, t: nat)
    requires xs <= ys && Rising(ys, t)
    ensures Rising(xs, t)
  {
    assert forall i :: 0 <= i < |xs| ==> xs[i] == ys[i];
  }

  /**
   A thread's timestamps are strictly increasing if and only if none of its calls is answered from a batch that a
   fallback of the thread has passed over.
   */
  lemma {:induction false} RisesExactlyUnlessServedLate(s0: State, schedule: seq<Action>, s: State, t: nat)
    requires Init(s0) && Execute(s0, schedule) == Reached(s) && t < |s.locals|
    ensures Rising(s.issued, t) <==> forall k :: 0 <= k < |schedule| ==> !ServedLate(s0, schedule, t, k)
  {
    hide Inv, Rising, Serves, Overtaken, PassedOver, Next, Enabled;
    if schedule == [] {
      assert Rising(s.issued, t) by { NothingIssued(s0, t); }
    } else {
      var last := |schedule| - 1;
      var a := schedule[last];
      var init := schedule[..last];
      var m := Execute(s0, init).state;
      SameThreads(m, a);
      ReachableInv(s0, init, m);
      ReachableBatchPlace(s0, init, m, t);
      RisesExactlyUnlessServedLate(s0, init, m, t);
      LateInPrefix(s0, schedule, t);
      if Rising(m.issued, t) {
        StepKeepsOrderExactly(m, a, t);
        ServedFromLeft(m, a, t);
      } else if Rising(s.issued, t) {
        RisingOfPrefix(m.issued, s.issued, t);
      }
    }
  }

  lemma NothingIssued(s: State, t: nat)
    requires Init(s)
    ensures Rising(s.issued, t)
  {
  }

  lemma ServedFromLeft(s: State, a: Action, t: nat)
    requires t < |s.locals|
    ensures Serves(s, a, t) ==> s.locals[t].next < s.locals[t].end
  {
  }

  /** The calls of a schedule that are answered late are those of its beginning and perhaps the last. */
  lemma LateInPrefix(s0: State, schedule: seq<Action>, t: nat)
    requires schedule != []
    ensures var last := |schedule| - 1;
            (forall k :: 0 <= k < |schedule| ==> !ServedLate(s0, schedule, t, k)) <==>
            (forall k :: 0 <= k < last ==> !ServedLate(s0, schedule[..last], t, k)) && !ServedLate(s0, schedule, t, last)
  {
    hide Execute, Serves, PassedOver;
    var last := |schedule| - 1;
    forall k | 0 <= k < last ensures ServedLate(s0, schedule[..last], t, k) <==> ServedLate(s0, schedule, t, k) {
      assert schedule[..last][..k] == schedule[..k] && schedule[..last][k] == schedule[k];
    }
  }

  /** A schedule whose readings in thread t never go back. */
  predicate ReadingsRise(schedule: seq<Action>, t: nat) {
    forall i, j :: 0 <= i < j < |schedule| && IsReading(schedule[i], t) && IsReading(schedule[j], t) ==>
      schedule[i].phys <= schedule[j].phys
  }

  predicate IsReading(a: Action, t: nat) {
    (a.CallNow? || a.Step?) && a.t == t
  }

  /** Thread t has read the physical clock, and not always before p. */
  predicate HasRead(schedule: seq<Action>, t: nat, p: int) {
    exists i :: 0 <= i < |schedule| && IsReading(schedule[i], t) && p <= schedule[i].phys
  }

  /** While readings rise, a batch is used up before the thread looks for another. */
  predicate SpentFirst(s: State, schedule: seq<Action>, t: nat)
    requires t < |s.locals|
  {
    var l := s.locals[t];
    && (l.next < l.end ==> HasRead(schedule, t, l.phys) && l.pc == Idle)
    && (l.pc.Refill? || l.pc.Retry? ==> HasRead(schedule, t, l.pc.phys))
  }

  lemma HasReadGrows(schedule: seq<Action>, a: Action, t: nat, p: int)
    requires HasRead(schedule, t, p) || (IsReading(a, t) && p <= a.phys)
    ensures HasRead(schedule + [a], t, p)
  {
    if HasRead(schedule, t, p) {
      var i :| 0 <= i < |schedule| && IsReading(schedule[i], t) && p <= schedule[i].phys;
      assert (schedule + [a])[i] == schedule[i];
    } else {
      assert (schedule + [a])[|schedule|] == a;
    }
  }

  lemma NextReading(schedule: seq<Action>, a: Action, t: nat, p: int)
    requires ReadingsRise(schedule + [a], t) && HasRead(schedule, t, p) && IsReading(a, t)
    ensures p <= a.phys
  {
    var i :| 0 <= i < |schedule| && IsReading(schedule[i], t) && p <= schedule[i].phys;
    assert (schedule + [a])[i] == schedule[i] && (schedule + [a])[|schedule|] == a;
  }

  lemma KeepSpentFirst(s: State, schedule: seq<Action>, a: Action, t: nat)
    requires Enabled(s, a) && t < |s.locals| && SpentFirst(s, schedule, t) && ReadingsRise(schedule + [a], t)
    ensures SpentFirst(Next(s, a), schedule + [a], t)
  {
    hide HasRead, ReadingsRise;
    var l, l' := s.locals[t], Next(s, a).locals[t];
    if IsReading(a, t) && l.next < l.end {
      NextReading(schedule, a, t, l.phys);
    }
    if l'.next < l'.end {
      HasReadGrows(schedule, a, t, l'.phys);
    }
    if l'.pc.Refill? || l'.pc.Retry? {
      HasReadGrows(schedule, a, t, l'.pc.phys);
    }
  }

  lemma {:induction false} ReachableSpentFirst(s0: State, schedule: seq<Action>, s: State, t: nat)
    requires Init(s0) && Execute(s0, schedule) == Reached(s) && t < |s.locals| && ReadingsRise(schedule, t)
    ensures SpentFirst(s, schedule, t)
  {
    hide SpentFirst, Next, Enabled;
    if schedule == [] {
      assert SpentFirst(s0, [], t) by { StartsSpent(s0, t); }
    } else {
      var last := |schedule| - 1;
      var m := Execute(s0, schedule[..last]).state;
      SameThreads(m, schedule[last]);
      ReachableSpentFirst(s0, schedule[..last], m, t);
      assert schedule == schedule[..last] + [schedule[last]];
      KeepSpentFirst(m, schedule[..last], schedule[last], t);
    }
  }

  lemma StartsSpent(s: State, t: nat)
    requires Init(s) && t < |s.locals|
    ensures SpentFirst(s, [], t)
  {
  }

  lemma {:induction false} PassedOverIsSpent(s0: State, schedule: seq<Action>, s: State, t: nat)
    requires Init(s0) && Execute(s0, schedule) == Reached(s) && t < |s.locals| && ReadingsRise(schedule, t)
    requires PassedOver(s0, schedule, t)
    ensures s.locals[t].next >= s.locals[t].end
  {
    hide Inv, ReadingsRise, HasRead;
    var last := |schedule| - 1;
    var m, a := Execute(s0, schedule[..last]).state, schedule[last];
    SameThreads(m, a);
    ReadingsRiseBefore(schedule, t, last);
    ReachableInv(s0, schedule[..last], m);
    if FallsBack(m, a, t) {
      ReachableSpentFirst(s0, schedule[..last], m, t);
    } else {
      PassedOverIsSpent(s0, schedule[..last], m, t);
      if s.locals[t].next < s.locals[t].end {
        SameBatch(m, a, t);
      }
    }
  }

  lemma ReadingsRiseBefore(schedule: seq<Action>, t: nat, k: nat)
    requires ReadingsRise(schedule, t) && k <= |schedule|
    ensures ReadingsRise(schedule[..k], t)
  {
  }

  lemma {:induction false} RunsBefore(s0: State, schedule: seq<Action>, s: State, k: nat)
    requires Execute(s0, schedule) == Reached(s) && k <= |schedule|
    ensures Execute(s0, schedule[..k]).Reached? && |Execute(s0, schedule[..k]).state.locals| == |s.locals|
    decreases |schedule|
  {
    hide Next, Enabled;
    if k < |schedule| {
      var last := |schedule| - 1;
      var m := Execute(s0, schedule[..last]).state;
      SameThreads(m, schedule[last]);
      RunsBefore(s0, schedule[..last], m, k);
      assert schedule[..last][..k] == schedule[..k];
    } else {
      assert schedule[..k] == schedule;
    }
  }

  /** If the physical clock that thread t reads never goes back, the thread's timestamps are strictly increasing. */
  lemma ThreadTimestampsRise(s0: State, schedule: seq<Action>, s: State, t: nat)
    requires Init(s0) && Execute(s0, schedule) == Reached(s) && t < |s.locals| && ReadingsRise(schedule, t)
    ensures Rising(s.issued, t)
  {
    hide Execute, PassedOver, ReadingsRise, Rising;
    RisesExactlyUnlessServedLate(s0, schedule, s, t);
    forall k | 0 <= k < |schedule| ensures !ServedLate(s0, schedule, t, k) {
      RunsBefore(s0, schedule, s, k);
      ReadingsRiseBefore(schedule, t, k);
      if PassedOver(s0, schedule[..k], t) {
        PassedOverIsSpent(s0, schedule[..k], Execute(s0, schedule[..k]).state, t);
      }
    }
  }

  /** Without that they need not be: a reading that goes back and returns lets an old batch serve after a fallback. */
  lemma BackwardReadingBreaksOrder()
    ensures exists s0, schedule, s :: Init(s0) && Execute(s0, schedule) == Reached(s) && |s.locals| == 1 && !Rising(s.issued, 0)
  {
    hide Execute, Rising;
    var s0 := State(Hlc(0, 0), [Local(0, 0, 0, Idle)], []);
    Nowhere(s0);
    var x1, s1 := Then(s0, [], s0, CallNow(0, 100));
    var x2, s2 := Then(s0, x1, s1, Step(0, 100, 0));
    assert s2 == State(Hlc(100, 50), [Local(100, 2, 51, Idle)], [Issue(100, 1, Thread(0))]);
    var x7, s7 := FallbackThenBatch(s0, x2, s2);
    OutOfOrder(s7.issued);
    assert Init(s0) && Execute(s0, x7) == Reached(s7) && |s7.locals| == 1;
  }

  lemma Nowhere(s0: State)
    ensures Execute(s0, []) == Reached(s0)
  {
  }

  lemma OutOfOrder(issued: seq<Issue>)
    requires issued == [Issue(100, 1, Thread(0)), Issue(100, 51, Thread(0)), Issue(100, 2, Thread(0))]
    ensures !Rising(issued, 0)
  {
    assert Mine(issued[1], 0) && Mine(issued[2], 0);
  }

  lemma FallbackThenBatch(s0: State, x2: seq<Action>, s2: State) returns (x7: seq<Action>, s7: State)
    requires s2 == State(Hlc(100, 50), [Local(100, 2, 51, Idle)], [Issue(100, 1, Thread(0))])
    requires Execute(s0, x2) == Reached(s2)
    ensures Execute(s0, x7) == Reached(s7) && |s7.locals| == 1
    ensures s7.issued == [Issue(100, 1, Thread(0)), Issue(100, 51, Thread(0)), Issue(100, 2, Thread(0))]
  {
    hide Execute;
    var x3, s3 := Then(s0, x2, s2, CallNow(0, 99));
    var x4, s4 := Then(s0, x3, s3, Step(0, 99, 0));
    var x5, s5 := Then(s0, x4, s4, Step(0, 99, 0));
    assert s5 == s2.(locals := [Local(100, 2, 51, Fallback)]);
    var x6, s6 := Then(s0, x5, s5, Step(0, 99, 0));
    x7, s7 := Then(s0, x6, s6, CallNow(0, 100));
  }

  lemma Then(s0: State, schedule: seq<Action>, m: State, a: Action) returns (longer: seq<Action>, s: State)
    requires Execute(s0, schedule) == Reached(m) && Enabled(m, a)
    ensures s == Next(m, a) && Execute(s0, longer) == Reached(s)
  {
    longer, s := schedule + [a], Next(m, a);
    assert longer[..|schedule|] == schedule;
  }
}
