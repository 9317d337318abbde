/**
 The optimistic-count protocol by which any number of consumers take items from one producer's sub-queue
 (lib/concurrentqueue/concurrentqueue.h: `dequeue` and `dequeue_bulk` of both producer classes).

 One transition is one atomic operation; indices are unbounded. `dequeue` takes the same steps as
 `dequeue_bulk` with a maximum of one.
 */
module DequeueProtocol {

  /** The next atomic operation of a consumer, with the locals it still needs. */
  datatype Pc =
    | Idle
    | LoadTail(max: nat)
    | LoadOvercommit(max: nat, tail: int)
    | LoadOptimistic(max: nat, tail: int, over: int)
    | AddOptimistic(desired: nat, over: int)
    | ReloadTail(desired: nat, over: int, mine: int)
    | GiveBackSome(short: nat, actual: nat)
    | TakeHead(actual: nat)
    | GiveBackAll(desired: nat)

  /** Consumer t took the items at first, first + 1, ..., first + count - 1. */
  datatype Delivery = Delivery(t: nat, first: nat, count: nat)

  datatype State<T> = State(
    items: seq<T>,          // everything published so far; tailIndex is its length
    head: nat,              // headIndex
    optimistic: nat,        // dequeueOptimisticCount
    overcommit: nat,        // dequeueOvercommit
    consumers: seq<Pc>,
    deliveries: seq<Delivery>)

  datatype Action<T> =
    | Publish(batch: seq<T>)         // the producer stores a larger tailIndex
    | Call(t: nat, max: nat)
    | Step(t: nat)

  predicate Init<T(==)>(s: State<T>) {
    && s.items == [] && s.head == s.optimistic == s.overcommit == 0 && s.deliveries == []
    && forall t :: 0 <= t < |s.consumers| ==> s.consumers[t] == Idle
  }

  predicate Enabled<T>(s: State<T>, a: Action<T>) {
    match a
    case Publish(_) => true
    case Call(t, max) => t < |s.consumers| && s.consumers[t] == Idle && max > 0
    case Step(t) => t < |s.consumers| && s.consumers[t] != Idle
  }

  function Goto<T>(s: State<T>, t: nat, pc: Pc): State<T>
    requires t < |s.consumers|
  {
    s.(consumers := s.consumers[t := pc])
  }

  function Min(a: int, b: int): int {
    if a < b then a else b
  }

  function Advance<T>(s: State<T>, t: nat): State<T>
    requires Enabled(s, Step(t))
  {
    match s.consumers[t]
    case LoadTail(max) => Goto(s, t, LoadOvercommit(max, |s.items|))
    case LoadOvercommit(max, tail) => Goto(s, t, LoadOptimistic(max, tail, s.overcommit))
    case LoadOptimistic(max, tail, over) =>
      var desired := tail - (s.optimistic - over);
      if desired > 0 then Goto(s, t, AddOptimistic(Min(desired, max), over)) else Goto(s, t, Idle)
    case AddOptimistic(desired, over) =>
      Goto(s.(optimistic := s.optimistic + desired), t, ReloadTail(desired, over, s.optimistic))
    case ReloadTail(desired, over, mine) =>
      var available := |s.items| - (mine - over);
      if available <= 0 then Goto(s, t, GiveBackAll(desired))
      else if available < desired then Goto(s, t, GiveBackSome(desired - available, available))
      else Goto(s, t, TakeHead(desired))
    case GiveBackSome(short, actual) => Goto(s.(overcommit := s.overcommit + short), t, TakeHead(actual))
    case TakeHead(actual) =>
      Goto(s.(head := s.head + actual, deliveries := s.deliveries + [Delivery(t, s.head, actual)]), t, Idle)
    case GiveBackAll(desired) => Goto(s.(overcommit := s.overcommit + desired), t, Idle)
  }

  function Next<T>(s: State<T>, a: Action<T>): State<T>
    requires Enabled(s, a)
  {
    match a
    case Publish(batch) => s.(items := s.items + batch)
    case Call(t, max) => Goto(s, t, LoadTail(max))
    case Step(t) => Advance(s, t)
  }

  datatype Outcome<T> = Reached(state: State<T>) | Stuck

  /** Runs a schedule; it is stuck if it asks for something that is not possible. */
  function Execute<T>(s: State<T>, schedule: seq<Action<T>>): Outcome<T> {
    if schedule == [] then Reached(s)
    else
      var last := |schedule| - 1;
      match Execute(s, schedule[..last])
      case Stuck => Stuck
      case Reached(m) => if Enabled(m, schedule[last]) then Reached(Next(m, schedule[last])) else Stuck
  }

  // ---------------------------------------------------------------- sums

  function Total<A>(xs: seq<A>, f: A -> nat): nat {
    if xs == [] then 0 else Total(xs[..|xs| - 1], f) + f(xs[|xs| - 1])
  }

  lemma {:induction false} TotalUpdate<A>(xs: seq<A>, f: A -> nat, i: nat, x: A)
    requires i < |xs|
    ensures Total(xs[i := x], f) == Total(xs, f) - f(xs[i]) + f(x)
    ensures f(xs[i]) <= Total(xs, f)
  {
    var last := |xs| - 1;
    if i == last {
      assert xs[i := x][..last] == xs[..last];
    } else {
      assert xs[i := x][..last] == xs[..last][i := x];
      TotalUpdate(xs[..last], f, i, x);
    }
  }

  lemma {:induction false} TotalZero<A>(xs: seq<A>, f: A -> nat)
    requires forall i :: 0 <= i < |xs| ==> f(xs[i]) == 0
    ensures Total(xs, f) == 0
  {
    if xs != [] {
      TotalZero(xs[..|xs| - 1], f);
    }
  }

  lemma TotalAppend<A>(xs: seq<A>, f: A -> nat, x: A)
    ensures Total(xs + [x], f) == Total(xs, f) + f(x)
  {
    assert (xs + [x])[..|xs|] == xs;
  }

  // ---------------------------------------------------------------- the invariant

  /** What a consumer has added to the optimistic count and not yet passed on to the head or the overcommit. */
  function Pending(pc: Pc): nat {
    match pc
    case ReloadTail(desired, _, _) => desired
    case GiveBackSome(short, actual) => short + actual
    case TakeHead(actual) => actual
    case GiveBackAll(desired) => desired
    case _ => 0
  }

  /** The part of it that will be added to the head. */
  function PendingHead(pc: Pc): nat {
    match pc
    case GiveBackSome(_, actual) => actual
    case TakeHead(actual) => actual
    case _ => 0
  }

  /** The part of it that will be added to the overcommit. */
  function PendingOver(pc: Pc): nat {
    match pc
    case GiveBackSome(short, _) => short
    case GiveBackAll(desired) => desired
    case _ => 0
  }

  /** One increment of the optimistic count: how much of it has been granted and how much refused so far. */
  datatype Claim = Claim(size: nat, granted: nat, refused: nat)

  function Size(c: Claim): nat { c.size }
  function Granted(c: Claim): nat { c.granted }
  function Refused(c: Claim): nat { c.refused }

  /** The claims in the order of their increments account for all three counters. */
  predicate Accounts<T>(s: State<T>, claims: seq<Claim>) {
    && Total(claims, Size) == s.optimistic
    && Total(claims, Granted) == s.head + Total(s.consumers, PendingHead)
    && Total(claims, Refused) == s.overcommit + Total(s.consumers, PendingOver)
    && forall k :: 0 <= k < |claims| ==> claims[k].granted + claims[k].refused <= claims[k].size
  }

  /** A grant fits below the tail even if everything claimed before it and not refused is granted too. */
  predicate Fits(claims: seq<Claim>, k: nat, tail: int)
    requires k < |claims|
  {
    claims[k].granted > 0 ==>
      Total(claims[..k], Size) - Total(claims[..k], Refused) + claims[k].granted <= tail
  }

  /** Consumer t's locals: the overcommit it saw was given back by claims made before its own. */
  predicate LocalsOk<T>(s: State<T>, claims: seq<Claim>, pos: seq<nat>, t: nat)
    requires t < |s.consumers| == |pos|
  {
    match s.consumers[t]
    case LoadOptimistic(max, _, over) => over <= s.overcommit
    case AddOptimistic(_, over) => over <= s.overcommit
    case ReloadTail(desired, over, mine) =>
      && pos[t] < |claims|
      && claims[pos[t]] == Claim(desired, 0, 0)
      && mine == Total(claims[..pos[t]], Size)
      && over <= Total(claims[..pos[t]], Refused)
    case _ => true
  }

  /** Where delivery i starts; the head is where the next one will. */
  function StartOf(ds: seq<Delivery>, head: nat, i: nat): nat {
    if i < |ds| then ds[i].first else head
  }

  predicate MeetsNext(ds: seq<Delivery>, head: nat, i: nat)
    requires i < |ds|
  {
    ds[i].first + ds[i].count == StartOf(ds, head, i + 1)
  }

  /** The deliveries follow each other without gap or overlap from 0 to the head. */
  predicate Tiled(ds: seq<Delivery>, head: nat) {
    StartOf(ds, head, 0) == 0 && forall i :: 0 <= i < |ds| ==> MeetsNext(ds, head, i)
  }

  predicate Inv<T(==)>(s: State<T>, claims: seq<Claim>, pos: seq<nat>) {
    && |pos| == |s.consumers|
    && s.optimistic == s.head + s.overcommit + Total(s.consumers, Pending)
    && Accounts(s, claims)
    && (forall k :: 0 <= k < |claims| ==> Fits(claims, k, |s.items|))
    && (forall t :: 0 <= t < |s.consumers| ==> LocalsOk(s, claims, pos, t))
    && (forall t, u :: 0 <= t < u < |pos| && s.consumers[t].ReloadTail? && s.consumers[u].ReloadTail? ==> pos[t] != pos[u])
    && Tiled(s.deliveries, s.head)
  }

  // ---------------------------------------------------------------- the head stays below the tail

  lemma {:induction false} GrantedAndRefused(claims: seq<Claim>)
    requires forall k :: 0 <= k < |claims| ==> claims[k].granted + claims[k].refused <= claims[k].size
    ensures Total(claims, Granted) + Total(claims, Refused) <= Total(claims, Size)
  {
    if claims != [] {
      GrantedAndRefused(claims[..|claims| - 1]);
    }
  }

  /** All grants together fit below the tail: the last one does, together with all before it. */
  lemma {:induction false} GrantsFit(claims: seq<Claim>, j: nat, tail: nat)
    requires j <= |claims|
    requires forall k :: 0 <= k < |claims| ==> claims[k].granted + claims[k].refused <= claims[k].size
    requires forall k :: 0 <= k < |claims| ==> Fits(claims, k, tail)
    ensures Total(claims[..j], Granted) <= tail
  {
    if j > 0 {
      assert claims[..j][..j - 1] == claims[..j - 1];
      if claims[j - 1].granted == 0 {
        GrantsFit(claims, j - 1, tail);
      } else {
        assert Fits(claims, j - 1, tail);
        GrantedAndRefused(claims[..j - 1]);
      }
    }
  }

  lemma HeadBelowTail<T>(s: State<T>, claims: seq<Claim>, pos: seq<nat>)
    requires Inv(s, claims, pos)
    ensures s.head + Total(s.consumers, PendingHead) <= |s.items|
  {
    assert claims[..|claims|] == claims;
    GrantsFit(claims, |claims|, |s.items|);
  }

  // ---------------------------------------------------------------- preservation

  lemma PrefixUpdate(claims: seq<Claim>, k: nat, c: Claim, j: nat, f: Claim -> nat)
    requires k < |claims| && j <= |claims|
    ensures Total(claims[k := c][..j], f) == Total(claims[..j], f) + (if k < j then f(c) - f(claims[k]) else 0)
  {
    if k < j {
      assert claims[k := c][..j] == claims[..j][k := c];
      TotalUpdate(claims[..j], f, k, c);
    } else {
      assert claims[k := c][..j] == claims[..j];
    }
  }

  lemma Totals(ps: seq<Pc>, t: nat, pc: Pc)
    requires t < |ps|
    ensures Total(ps[t := pc], Pending) == Total(ps, Pending) - Pending(ps[t]) + Pending(pc)
    ensures Total(ps[t := pc], PendingHead) == Total(ps, PendingHead) - PendingHead(ps[t]) + PendingHead(pc)
    ensures Total(ps[t := pc], PendingOver) == Total(ps, PendingOver) - PendingOver(ps[t]) + PendingOver(pc)
    ensures PendingHead(ps[t]) <= Total(ps, PendingHead) && PendingOver(ps[t]) <= Total(ps, PendingOver)
  {
    TotalUpdate(ps, Pending, t, pc);
    TotalUpdate(ps, PendingHead, t, pc);
    TotalUpdate(ps, PendingOver, t, pc);
  }

  lemma SimpleTiles<T>(s: State<T>, t: nat)
    requires Enabled(s, Step(t)) && Tiled(s.deliveries, s.head)
    requires !s.consumers[t].AddOptimistic? && !s.consumers[t].ReloadTail?
    ensures Tiled(Advance(s, t).deliveries, Advance(s, t).head)
  {
    var s' := Advance(s, t);
    forall i | 0 <= i < |s'.deliveries|
      ensures MeetsNext(s'.deliveries, s'.head, i)
    {
      assert i < |s.deliveries| ==> MeetsNext(s.deliveries, s.head, i);
    }
  }

  lemma SimpleLocals<T>(s: State<T>, t: nat, claims: seq<Claim>, pos: seq<nat>, u: nat)
    requires Enabled(s, Step(t)) && |pos| == |s.consumers| && u < |s.consumers| && LocalsOk(s, claims, pos, u)
    requires !s.consumers[t].AddOptimistic? && !s.consumers[t].ReloadTail?
    ensures LocalsOk(Advance(s, t), claims, pos, u)
  {
    hide Total;
  }

  /** The operations that make no claim and decide none. */
  lemma KeepSimple<T>(s: State<T>, t: nat, claims: seq<Claim>, pos: seq<nat>)
    requires Inv(s, claims, pos) && Enabled(s, Step(t))
    requires !s.consumers[t].AddOptimistic? && !s.consumers[t].ReloadTail?
    ensures Inv(Advance(s, t), claims, pos)
  {
    hide Total, Fits, LocalsOk, Tiled;
    var s' := Advance(s, t);
    Totals(s.consumers, t, s'.consumers[t]);
    SimpleTiles(s, t);
    forall u | 0 <= u < |s'.consumers|
      ensures LocalsOk(s', claims, pos, u)
    {
      SimpleLocals(s, t, claims, pos, u);
    }
  }

  /** A claim that is not decided yet leaves room for all. */
  lemma ClaimFits(claims: seq<Claim>, c: Claim, k: nat, tail: nat)
    requires c.granted == 0 && k <= |claims| && (k < |claims| ==> Fits(claims, k, tail))
    ensures Fits(claims + [c], k, tail)
  {
    hide Total;
    assert (claims + [c])[..k] == claims[..k];
  }

  lemma KeepClaim<T>(s: State<T>, t: nat, claims: seq<Claim>, pos: seq<nat>)
    requires Inv(s, claims, pos) && Enabled(s, Step(t)) && s.consumers[t].AddOptimistic?
    ensures Inv(Advance(s, t), claims + [Claim(s.consumers[t].desired, 0, 0)], pos[t := |claims|])
  {
    hide Total, Fits, Tiled;
    var s' := Advance(s, t);
    var c := Claim(s.consumers[t].desired, 0, 0);
    var claims', pos' := claims + [c], pos[t := |claims|];
    Totals(s.consumers, t, s'.consumers[t]);
    TotalAppend(claims, Size, c);
    TotalAppend(claims, Granted, c);
    TotalAppend(claims, Refused, c);
    forall k | 0 <= k < |claims'|
      ensures Fits(claims', k, |s'.items|)
    {
      ClaimFits(claims, c, k, |s.items|);
    }
    forall u | 0 <= u < |s'.consumers|
      ensures LocalsOk(s', claims', pos', u)
    {
      assert LocalsOk(s, claims, pos, u);
      if u == t {
        assert claims'[..|claims|] == claims;
      } else if s.consumers[u].ReloadTail? {
        assert claims'[..pos[u]] == claims[..pos[u]];
      }
    }
    forall u, v | 0 <= u < v < |pos'| && s'.consumers[u].ReloadTail? && s'.consumers[v].ReloadTail?
      ensures pos'[u] != pos'[v]
    {
      assert LocalsOk(s, claims, pos, u) && LocalsOk(s, claims, pos, v);
    }
  }

  /** The decision taken when the tail is reloaded, as a grant and a refusal of the consumer's claim. */
  function Decision<T>(s: State<T>, t: nat): Claim
    requires Enabled(s, Step(t)) && s.consumers[t].ReloadTail?
  {
    var pc := s.consumers[t];
    var available := |s.items| - (pc.mine - pc.over);
    var granted := if available <= 0 then 0 else Min(available, pc.desired);
    Claim(pc.desired, granted, pc.desired - granted)
  }

  lemma DecisionFits<T>(s: State<T>, t: nat, claims: seq<Claim>, pos: seq<nat>, k: nat)
    requires Inv(s, claims, pos) && Enabled(s, Step(t)) && s.consumers[t].ReloadTail?
    requires k < |claims| && pos[t] < |claims|
    ensures Fits(claims[pos[t] := Decision(s, t)], k, |s.items|)
  {
    assert LocalsOk(s, claims, pos, t) && Fits(claims, k, |s.items|);
    PrefixUpdate(claims, pos[t], Decision(s, t), k, Size);
    PrefixUpdate(claims, pos[t], Decision(s, t), k, Refused);
  }

  lemma DecisionLocals<T>(s: State<T>, t: nat, claims: seq<Claim>, pos: seq<nat>, u: nat)
    requires Inv(s, claims, pos) && Enabled(s, Step(t)) && s.consumers[t].ReloadTail?
    requires u < |s.consumers| && pos[t] < |claims|
    ensures LocalsOk(Advance(s, t), claims[pos[t] := Decision(s, t)], pos, u)
  {
    assert LocalsOk(s, claims, pos, t) && LocalsOk(s, claims, pos, u);
    if u != t && s.consumers[u].ReloadTail? {
      PrefixUpdate(claims, pos[t], Decision(s, t), pos[u], Size);
      PrefixUpdate(claims, pos[t], Decision(s, t), pos[u], Refused);
    }
  }

  lemma KeepDecision<T>(s: State<T>, t: nat, claims: seq<Claim>, pos: seq<nat>)
    requires Inv(s, claims, pos) && Enabled(s, Step(t)) && s.consumers[t].ReloadTail?
    ensures pos[t] < |claims| && Inv(Advance(s, t), claims[pos[t] := Decision(s, t)], pos)
  {
    hide Total, Fits, Tiled;
    var s', c := Advance(s, t), Decision(s, t);
    assert LocalsOk(s, claims, pos, t);
    var claims' := claims[pos[t] := c];
    Totals(s.consumers, t, s'.consumers[t]);
    TotalUpdate(claims, Size, pos[t], c);
    TotalUpdate(claims, Granted, pos[t], c);
    TotalUpdate(claims, Refused, pos[t], c);
    forall k | 0 <= k < |claims'|
      ensures Fits(claims', k, |s'.items|)
    {
      DecisionFits(s, t, claims, pos, k);
    }
    forall u | 0 <= u < |s'.consumers|
      ensures LocalsOk(s', claims', pos, u)
    {
      DecisionLocals(s, t, claims, pos, u);
    }
  }

  lemma KeepNext<T>(s: State<T>, a: Action<T>, claims: seq<Claim>, pos: seq<nat>)
    returns (claims': seq<Claim>, pos': seq<nat>)
    requires Inv(s, claims, pos) && Enabled(s, a)
    ensures Inv(Next(s, a), claims', pos')
  {
    claims', pos' := claims, pos;
    match a
    case Publish(batch) =>
      var s' := Next(s, a);
      forall k | 0 <= k < |claims|
        ensures Fits(claims, k, |s'.items|)
      {
        assert Fits(claims, k, |s.items|);
      }
      forall u | 0 <= u < |s'.consumers|
        ensures LocalsOk(s', claims, pos, u)
      {
        assert LocalsOk(s, claims, pos, u);
      }
    case Call(t, max) =>
      var s' := Next(s, a);
      Totals(s.consumers, t, LoadTail(max));
      forall u | 0 <= u < |s'.consumers|
        ensures LocalsOk(s', claims, pos, u)
      {
        assert LocalsOk(s, claims, pos, u);
      }
    case Step(t) =>
      if s.consumers[t].AddOptimistic? {
        KeepClaim(s, t, claims, pos);
        claims', pos' := claims + [Claim(s.consumers[t].desired, 0, 0)], pos[t := |claims|];
      } else if s.consumers[t].ReloadTail? {
        KeepDecision(s, t, claims, pos);
        claims' := claims[pos[t] := Decision(s, t)];
      } else {
        KeepSimple(s, t, claims, pos);
      }
  }

  lemma {:induction false} ReachableInv<T>(s0: State<T>, schedule: seq<Action<T>>, s: State<T>)
    returns (claims: seq<Claim>, pos: seq<nat>)
    requires Init(s0) && Execute(s0, schedule) == Reached(s)
    ensures Inv(s, claims, pos)
  {
    if schedule == [] {
      claims, pos := [], seq(|s.consumers|, _ => 0);
      TotalZero(s.consumers, Pending);
      TotalZero(s.consumers, PendingHead);
      TotalZero(s.consumers, PendingOver);
    } else {
      var last := |schedule| - 1;
      var m := Execute(s0, schedule[..last]).state;
      claims, pos := ReachableInv(s0, schedule[..last], m);
      claims, pos := KeepNext(m, schedule[last], claims, pos);
    }
  }

  // ---------------------------------------------------------------- what callers rely on

  /**
   After every schedule of one producer and any number of consumers, the optimistic count is the head plus the
   overcommit plus what consumers have still to pass on, and the head together with all granted takes stays
   within the published items.
   */
  lemma CountersBalance<T>(s0: State<T>, schedule: seq<Action<T>>, s: State<T>)
    requires Init(s0) && Execute(s0, schedule) == Reached(s)
    ensures s.optimistic == s.head + s.overcommit + Total(s.consumers, Pending)
    ensures s.head + Total(s.consumers, PendingHead) <= |s.items|
  {
    var claims, pos := ReachableInv(s0, schedule, s);
    HeadBelowTail(s, claims, pos);
  }

  predicate Covers(d: Delivery, i: nat) {
    d.first <= i < d.first + d.count
  }

  predicate Delivered(ds: seq<Delivery>, i: nat) {
    exists k :: 0 <= k < |ds| && Covers(ds[k], i)
  }

  /** Every index below the head went to exactly one consumer, and every delivery lies within the published items. */
  lemma EachIndexDeliveredOnce<T>(s0: State<T>, schedule: seq<Action<T>>, s: State<T>)
    requires Init(s0) && Execute(s0, schedule) == Reached(s)
    ensures forall i: nat :: Delivered(s.deliveries, i) <==> i < s.head
    ensures forall i: nat, k, m :: 0 <= k < m < |s.deliveries| ==> !(Covers(s.deliveries[k], i) && Covers(s.deliveries[m], i))
    ensures forall k :: 0 <= k < |s.deliveries| ==> s.deliveries[k].first + s.deliveries[k].count <= |s.items|
  {
    var claims, pos := ReachableInv(s0, schedule, s);
    HeadBelowTail(s, claims, pos);
    forall k, m | 0 <= k < m < |s.deliveries|
      ensures s.deliveries[k].first + s.deliveries[k].count <= s.deliveries[m].first
    {
      FirstsRise(s.deliveries, s.head, k, m);
    }
    forall k | 0 <= k < |s.deliveries|
      ensures s.deliveries[k].first + s.deliveries[k].count <= s.head
    {
      FirstsRise(s.deliveries, s.head, k, |s.deliveries|);
    }
    forall i: nat | i < s.head
      ensures Delivered(s.deliveries, i)
    {
      var k := Locate(s.deliveries, s.head, i, 0);
    }
  }

  lemma {:induction false} FirstsRise(ds: seq<Delivery>, head: nat, k: nat, m: nat)
    requires Tiled(ds, head) && k < m <= |ds|
    ensures ds[k].first + ds[k].count <= StartOf(ds, head, m)
    decreases m
  {
    assert MeetsNext(ds, head, m - 1);
    if m > k + 1 {
      FirstsRise(ds, head, k, m - 1);
    }
  }

  lemma {:induction false} Locate(ds: seq<Delivery>, head: nat, i: nat, from: nat) returns (k: nat)
    requires Tiled(ds, head) && i < head && from < |ds| && ds[from].first <= i
    ensures k < |ds| && Covers(ds[k], i)
    decreases |ds| - from
  {
    if i < ds[from].first + ds[from].count {
      k := from;
    } else {
      assert MeetsNext(ds, head, from);
      k := Locate(ds, head, i, from + 1);
    }
  }

  /** One consumer alone runs `dequeue_bulk` to its end. */
  function Solo<T>(s: State<T>, t: nat, steps: nat): State<T>
    requires t < |s.consumers|
    ensures |Solo(s, t, steps).consumers| == |s.consumers|
    decreases steps
  {
    if steps == 0 || s.consumers[t] == Idle then s else Solo(Advance(s, t), t, steps - 1)
  }

  /**
   The counters are never left too pessimistic: when all consumers are idle, a call that runs alone takes
   exactly as many items as are left, up to its maximum.
   */
  lemma SoloDequeueTakesWhatIsLeft<T>(s0: State<T>, schedule: seq<Action<T>>, s: State<T>, t: nat, max: nat)
    requires Init(s0) && Execute(s0, schedule) == Reached(s)
    requires forall u :: 0 <= u < |s.consumers| ==> s.consumers[u] == Idle
    requires t < |s.consumers| && max > 0
    ensures s.head <= |s.items|
    ensures var s' := Solo(Next(s, Call(t, max)), t, 6);
            && s'.consumers == s.consumers
            && s'.head == s.head + Min(|s.items| - s.head, max)
  {
    CountersBalance(s0, schedule, s);
    TotalZero(s.consumers, Pending);
    var s1 := Next(s, Call(t, max));
    var s2 := Advance(s1, t);
    var s3 := Advance(s2, t);
    var s4 := Advance(s3, t);
    assert Solo(s1, t, 6) == Solo(s2, t, 5) == Solo(s3, t, 4) == Solo(s4, t, 3);
    if s.head < |s.items| {
      var s5 := Advance(s4, t);
      var s6 := Advance(s5, t);
      var s7 := Advance(s6, t);
      assert Solo(s4, t, 3) == Solo(s5, t, 2) == Solo(s6, t, 1) == Solo(s7, t, 0);
      assert s7.consumers == s.consumers;
    } else {
      assert s4.consumers == s.consumers;
    }
  }

  /** What the producer has published in a run, in order. */
  function PublishedIn<T>(schedule: seq<Action<T>>): seq<T> {
    if schedule == [] then []
    else
      var last := |schedule| - 1;
      PublishedIn(schedule[..last]) + if schedule[last].Publish? then schedule[last].batch else []
  }

  lemma {:induction false} ItemsArePublished<T>(s0: State<T>, schedule: seq<Action<T>>, s: State<T>)
    requires Init(s0) && Execute(s0, schedule) == Reached(s)
    ensures s.items == PublishedIn(schedule)
  {
    if schedule != [] {
      var last := |schedule| - 1;
      ItemsArePublished(s0, schedule[..last], Execute(s0, schedule[..last]).state);
    }
  }
}
