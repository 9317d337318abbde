/**
 What a caller gets from the block pool of FreeList: a call that runs alone takes the next block of the pool, then the
 first of the list, then a new one; and in every run a call gives up on the list only if it has seen it empty.
 */
module BlockSupply {
  import opened FreeList

  // ---------------------------------------------------------------- calls that run alone

  /** Thread t alone takes up to n steps of its call. */
  function Solo(s: State, t: nat, mallocOk: bool, n: nat): State
    decreases n
  {
    if n > 0 && Enabled(s, Step(t, mallocOk)) then Solo(Advance(s, t, mallocOk), t, mallocOk, n - 1) else s
  }

  predicate AllIdle(s: State) {
    forall t :: 0 <= t < |s.threads| ==> s.threads[t].pc == Idle
  }

  /** The thread after its call: idle, with the block it has gained. */
  function Served(th: Thread, canAlloc: bool, gained: set<Node>): Thread {
    Thread(Idle, th.held + gained, canAlloc)
  }

  lemma SoloStep(s: State, t: nat, ok: bool, n: nat)
    requires n > 0 && Enabled(s, Step(t, ok))
    ensures Solo(s, t, ok, n) == Solo(Advance(s, t, ok), t, ok, n - 1)
  {
  }

  lemma SoloDone(s: State, t: nat, ok: bool, n: nat)
    requires t < |s.threads| && s.threads[t].pc == Idle
    ensures Solo(s, t, ok, n) == s
  {
  }

  /** There is one chain from the head. */
  lemma ChainIsUnique(s: State, list: seq<Node>, list': seq<Node>)
    requires Chain(s, list) && Chain(s, list')
    ensures list == list'
  {
    SameAt(s, list, list', if |list| < |list'| then |list| else |list'|);
  }

  lemma {:induction false} SameAt(s: State, list: seq<Node>, list': seq<Node>, i: nat)
    requires Chain(s, list) && Chain(s, list') && i <= |list| && i <= |list'|
    ensures list[..i] == list'[..i] && LinkAt(list, i) == LinkAt(list', i)
    decreases i
  {
    if i > 0 {
      SameAt(s, list, list', i - 1);
      assert LinkedAt(s.next, list, i - 1) && LinkedAt(s.next, list', i - 1);
    }
  }

  /** At rest nobody refers to any block: a listed block has the reference of the list, one that is held has none. */
  lemma ListedWord(s: State, list: seq<Node>, place: seq<Place>, n: Node)
    requires Inv(s, list, place) && AllIdle(s) && n in list
    ensures n < |s.refs| && s.refs[n] == Word(0, 1)
  {
    assert NodeOk(s, place, n);
    RefCountZero(s.threads, n);
  }

  lemma HeldWord(s: State, list: seq<Node>, place: seq<Place>, t: nat, n: Node)
    requires Inv(s, list, place) && AllIdle(s) && t < |s.threads| && n in s.threads[t].held
    ensures n < |s.refs| && s.refs[n] == Word(0, 0) && n !in list
  {
    assert HeldOk(s, place, t);
    assert NodeOk(s, place, n);
    RefCountZero(s.threads, n);
  }

  /** While the pool has blocks, a call takes the next one of them. */
  lemma SoloTakesFromPool(s: State, t: nat, canAlloc: bool, ok: bool)
    requires |s.refs| == |s.next| && t < |s.threads| && s.threads[t].pc == Idle && s.poolIndex < s.poolSize
    ensures Solo(Next(s, CallRequisition(t, canAlloc)), t, ok, 7)
         == s.(poolIndex := s.poolIndex + 1, threads := s.threads[t := Served(s.threads[t], canAlloc, {s.poolIndex})])
  {
    var s1 := Next(s, CallRequisition(t, canAlloc));
    var s2 := Advance(s1, t, ok);
    var s3 := Advance(s2, t, ok);
    hide Solo;
    SoloStep(s1, t, ok, 7);
    SoloStep(s2, t, ok, 6);
    SoloDone(s3, t, ok, 5);
  }

  /** With the pool used up and the list empty, a call creates a block if it may and can, and otherwise gets none. */
  lemma SoloCreates(s: State, t: nat, canAlloc: bool, ok: bool)
    requires |s.refs| == |s.next| && t < |s.threads| && s.threads[t].pc == Idle && s.poolIndex >= s.poolSize && s.head == Null
    ensures Solo(Next(s, CallRequisition(t, canAlloc)), t, ok, 7)
         == if canAlloc && ok
            then s.(refs := s.refs + [Word(0, 0)], next := s.next + [Null],
                    threads := s.threads[t := Served(s.threads[t], canAlloc, {|s.refs|})])
            else s.(threads := s.threads[t := Served(s.threads[t], canAlloc, {})])
  {
    var s1 := Next(s, CallRequisition(t, canAlloc));
    var s2 := Advance(s1, t, ok);
    var s3 := Advance(s2, t, ok);
    hide Solo;
    SoloStep(s1, t, ok, 7);
    SoloStep(s2, t, ok, 6);
    if canAlloc {
      SoloStep(s3, t, ok, 5);
      SoloDone(Advance(s3, t, ok), t, ok, 4);
    } else {
      SoloDone(s3, t, ok, 5);
    }
    assert s.threads[t].held + {} == s.threads[t].held;
  }

  /** With the pool used up, a call takes the first block of the list, and the list goes on behind it. */
  lemma SoloTakesFirst(s: State, t: nat, canAlloc: bool, ok: bool)
    requires |s.refs| == |s.next| && t < |s.threads| && s.threads[t].pc == Idle && s.poolIndex >= s.poolSize
    requires s.head.To? && s.head.node < |s.refs| && s.refs[s.head.node] == Word(0, 1)
    ensures Solo(Next(s, CallRequisition(t, canAlloc)), t, ok, 7)
         == s.(head := s.next[s.head.node], refs := s.refs[s.head.node := Word(0, 0)],
               threads := s.threads[t := Served(s.threads[t], canAlloc, {s.head.node})])
  {
    hide Solo;
    var h := s.head.node;
    var s1 := Next(s, CallRequisition(t, canAlloc));
    var s3 := Goto(s1, t, LoadRefs(h));
    SoloReachesList(s1, t, ok);
    SoloPops(s3, t, ok, h);
    var th := s.threads[t];
    Twice(s.threads, t, th.(pc := PoolLoad, canAlloc := canAlloc), Thread(LoadRefs(h), th.held, canAlloc));
    Twice(s.threads, t, Thread(LoadRefs(h), th.held, canAlloc), Served(th, canAlloc, {h}));
  }

  lemma SoloReachesList(s: State, t: nat, ok: bool)
    requires |s.refs| == |s.next| && t < |s.threads| && s.threads[t].pc == PoolLoad && s.poolIndex >= s.poolSize && s.head.To?
    ensures Solo(s, t, ok, 7) == Solo(Goto(s, t, LoadRefs(s.head.node)), t, ok, 5)
  {
    hide Solo;
    var s2 := Goto(s, t, LoadHead);
    assert Advance(s, t, ok) == s2;
    SoloStep(s, t, ok, 7);
    Twice(s.threads, t, s.threads[t].(pc := LoadHead), s.threads[t].(pc := LoadRefs(s.head.node)));
    assert Advance(s2, t, ok) == Goto(s, t, LoadRefs(s.head.node));
    SoloStep(s2, t, ok, 6);
  }

  lemma SoloPops(s: State, t: nat, ok: bool, h: Node)
    requires |s.refs| == |s.next| && t < |s.threads| && s.threads[t].pc == LoadRefs(h)
    requires s.head == To(h) && h < |s.refs| && s.refs[h] == Word(0, 1)
    ensures Solo(s, t, ok, 5)
         == Obtain(s.(head := s.next[h], refs := s.refs[h := Word(0, 0)]), t, h)
  {
    hide Solo;
    var two := s.refs[h := Word(0, 2)];
    var s1 := Goto(s, t, CasRefs(h, Word(0, 1)));
    var s2 := Goto(s.(refs := two), t, LoadNext(h));
    var s3 := Goto(s.(refs := two), t, CasHead(h, s.next[h]));
    var s4 := Goto(s.(refs := two, head := s.next[h]), t, SubTwo(h));
    assert Advance(s, t, ok) == s1;
    SoloStep(s, t, ok, 5);
    Take2(s, t, ok, h);
    SoloStep(s1, t, ok, 4);
    Take3(s, t, ok, h);
    SoloStep(s2, t, ok, 3);
    Take4(s, t, ok, h);
    SoloStep(s3, t, ok, 2);
    Take5(s, t, ok, h);
    SoloStep(s4, t, ok, 1);
    SoloDone(Advance(s4, t, ok), t, ok, 0);
  }

  lemma Twice<T>(xs: seq<T>, i: nat, x: T, y: T)
    requires i < |xs|
    ensures xs[i := x][i := y] == xs[i := y]
  {
  }

  lemma Take2(s: State, t: nat, ok: bool, h: Node)
    requires |s.refs| == |s.next| && t < |s.threads| && h < |s.refs| && s.refs[h] == Word(0, 1)
    ensures var s1 := Goto(s, t, CasRefs(h, Word(0, 1)));
      Enabled(s1, Step(t, ok)) && Advance(s1, t, ok) == Goto(s.(refs := s.refs[h := Word(0, 2)]), t, LoadNext(h))
  {
    Twice(s.threads, t, s.threads[t].(pc := CasRefs(h, Word(0, 1))), s.threads[t].(pc := LoadNext(h)));
  }

  lemma Take3(s: State, t: nat, ok: bool, h: Node)
    requires |s.refs| == |s.next| && t < |s.threads| && h < |s.refs|
    ensures var s2 := Goto(s.(refs := s.refs[h := Word(0, 2)]), t, LoadNext(h));
      Enabled(s2, Step(t, ok)) && Advance(s2, t, ok) == Goto(s.(refs := s.refs[h := Word(0, 2)]), t, CasHead(h, s.next[h]))
  {
    Twice(s.threads, t, s.threads[t].(pc := LoadNext(h)), s.threads[t].(pc := CasHead(h, s.next[h])));
  }

  lemma Take4(s: State, t: nat, ok: bool, h: Node)
    requires |s.refs| == |s.next| && t < |s.threads| && h < |s.refs| && s.head == To(h)
    ensures var s3 := Goto(s.(refs := s.refs[h := Word(0, 2)]), t, CasHead(h, s.next[h]));
      && Enabled(s3, Step(t, ok))
      && Advance(s3, t, ok) == Goto(s.(refs := s.refs[h := Word(0, 2)], head := s.next[h]), t, SubTwo(h))
  {
    Twice(s.threads, t, s.threads[t].(pc := CasHead(h, s.next[h])), s.threads[t].(pc := SubTwo(h)));
  }

  lemma Take5(s: State, t: nat, ok: bool, h: Node)
    requires |s.refs| == |s.next| && t < |s.threads| && h < |s.refs|
    ensures var s4 := Goto(s.(refs := s.refs[h := Word(0, 2)], head := s.next[h]), t, SubTwo(h));
      && Enabled(s4, Step(t, ok))
      && Advance(s4, t, ok) == Obtain(s.(head := s.next[h], refs := s.refs[h := Word(0, 0)]), t, h)
  {
    Twice(s.threads, t, s.threads[t].(pc := SubTwo(h)), s.threads[t].(pc := Idle, held := s.threads[t].held + {h}));
    Twice(s.refs, h, Word(0, 2), Word(0, 0));
  }

  lemma RestOfChain(s: State, s': State, list: seq<Node>)
    requires Chain(s, list) && list != [] && s'.next == s.next && s'.head == LinkAt(list, 1)
    ensures Chain(s', list[1..])
  {
    forall i | 0 <= i < |list[1..]| ensures LinkedAt(s'.next, list[1..], i) {
      assert LinkedAt(s.next, list, i + 1);
    }
  }

  /**
   From every reachable state at rest, a call of `requisition_block` that runs alone ends with the next block of the pool;
   when the pool is used up, with the first block of the list; when that is empty too, with a new block exactly if it may
   allocate and the allocation succeeds.  Nobody else is affected.
   */
  lemma SoloRequisition(s0: State, schedule: seq<Action>, s: State, list: seq<Node>, t: nat, canAlloc: bool, ok: bool)
    requires Init(s0) && Execute(s0, schedule) == Reached(s) && AllIdle(s) && t < |s.threads| && Chain(s, list)
    ensures var s' := Solo(Next(s, CallRequisition(t, canAlloc)), t, ok, 7);
      var gained :=
        if s.poolIndex < s.poolSize then {s.poolIndex}
        else if list != [] then {list[0]}
        else if canAlloc && ok then {|s.refs|} else {};
      && s'.threads == s.threads[t := Served(s.threads[t], canAlloc, gained)]
      && gained !! s.threads[t].held
      && Chain(s', if s.poolIndex >= s.poolSize && list != [] then list[1..] else list)
      && s'.poolIndex == (if s.poolIndex < s.poolSize then s.poolIndex + 1 else s.poolIndex)
      && |s'.refs| == |s.refs| + (if gained == {|s.refs|} then 1 else 0)
  {
    hide Solo, Execute, Init, NodeOk, PcOk;
    var list', place := ReachableInv(s0, schedule, s);
    ChainIsUnique(s, list, list');
    assert HeldOk(s, place, t);
    if s.poolIndex < s.poolSize {
      SoloTakesFromPool(s, t, canAlloc, ok);
    } else if list != [] {
      assert LinkedAt(s.next, list, 0);
      ListedWord(s, list, place, list[0]);
      SoloTakesFirst(s, t, canAlloc, ok);
      RestOfChain(s, Solo(Next(s, CallRequisition(t, canAlloc)), t, ok, 7), list);
    } else {
      SoloCreates(s, t, canAlloc, ok);
    }
  }

  /** From every reachable state at rest, giving back a block that is recycled puts it in front of the list. */
  lemma SoloAdd(s0: State, schedule: seq<Action>, s: State, list: seq<Node>, t: nat, n: Node, ok: bool)
    requires Init(s0) && Execute(s0, schedule) == Reached(s) && AllIdle(s) && t < |s.threads| && Chain(s, list)
    requires n in s.threads[t].held
    ensures var s' := Solo(Next(s, CallAdd(t, n)), t, ok, 5);
      && s'.threads == s.threads[t := s.threads[t].(held := s.threads[t].held - {n})]
      && Chain(s', if Recyclable(s, n) then [n] + list else list)
      && s'.poolIndex == s.poolIndex && |s'.refs| == |s.refs|
  {
    hide Solo, Execute, Init, NodeOk, PcOk;
    var list', place := ReachableInv(s0, schedule, s);
    ChainIsUnique(s, list, list');
    HeldWord(s, list, place, t, n);
    var s1 := Next(s, CallAdd(t, n));
    if Recyclable(s, n) {
      SoloPushes(s1, t, ok, n);
      Pushed(s, Solo(s1, t, ok, 5), list, n);
    } else {
      SoloDone(s1, t, ok, 5);
    }
  }

  lemma SoloPushes(s: State, t: nat, ok: bool, n: Node)
    requires |s.refs| == |s.next| && t < |s.threads| && s.threads[t].pc == SetShould(n) && n < |s.refs| && s.refs[n] == Word(0, 0)
    ensures Solo(s, t, ok, 5) == Goto(s.(head := To(n), next := s.next[n := s.head], refs := s.refs[n := Word(0, 1)]), t, Idle)
  {
    hide Solo;
    var flagged, linked := s.(refs := s.refs[n := Word(1, 0)]), s.(refs := s.refs[n := Word(1, 0)], next := s.next[n := s.head]);
    var s1 := Goto(flagged, t, AddLoadHead(n, ToAdd));
    var s2 := Goto(flagged, t, StoreNext(n, s.head, ToAdd));
    var s3 := Goto(linked, t, StoreRefs(n, s.head, ToAdd));
    var s4 := Goto(linked.(refs := s.refs[n := Word(0, 1)]), t, AddCasHead(n, s.head, ToAdd));
    assert Advance(s, t, ok) == s1;
    SoloStep(s, t, ok, 5);
    Push2(flagged, t, ok, n);
    SoloStep(s1, t, ok, 4);
    Push3(flagged, t, ok, n);
    SoloStep(s2, t, ok, 3);
    Push4(linked, t, ok, n, s.head);
    Twice(s.refs, n, Word(1, 0), Word(0, 1));
    SoloStep(s3, t, ok, 2);
    Push5(linked.(refs := s.refs[n := Word(0, 1)]), t, ok, n);
    SoloStep(s4, t, ok, 1);
    SoloDone(Advance(s4, t, ok), t, ok, 0);
  }

  lemma Push2(s: State, t: nat, ok: bool, n: Node)
    requires |s.refs| == |s.next| && t < |s.threads| && n < |s.refs|
    ensures var s1 := Goto(s, t, AddLoadHead(n, ToAdd));
      Enabled(s1, Step(t, ok)) && Advance(s1, t, ok) == Goto(s, t, StoreNext(n, s.head, ToAdd))
  {
    Twice(s.threads, t, s.threads[t].(pc := AddLoadHead(n, ToAdd)), s.threads[t].(pc := StoreNext(n, s.head, ToAdd)));
  }

  lemma Push3(s: State, t: nat, ok: bool, n: Node)
    requires |s.refs| == |s.next| && t < |s.threads| && n < |s.refs|
    ensures var s2 := Goto(s, t, StoreNext(n, s.head, ToAdd));
      && Enabled(s2, Step(t, ok))
      && Advance(s2, t, ok) == Goto(s.(next := s.next[n := s.head]), t, StoreRefs(n, s.head, ToAdd))
  {
    Twice(s.threads, t, s.threads[t].(pc := StoreNext(n, s.head, ToAdd)), s.threads[t].(pc := StoreRefs(n, s.head, ToAdd)));
  }

  lemma Push4(s: State, t: nat, ok: bool, n: Node, top: Link)
    requires |s.refs| == |s.next| && t < |s.threads| && n < |s.refs|
    ensures var s3 := Goto(s, t, StoreRefs(n, top, ToAdd));
      && Enabled(s3, Step(t, ok))
      && Advance(s3, t, ok) == Goto(s.(refs := s.refs[n := Word(0, 1)]), t, AddCasHead(n, top, ToAdd))
  {
    Twice(s.threads, t, s.threads[t].(pc := StoreRefs(n, top, ToAdd)), s.threads[t].(pc := AddCasHead(n, top, ToAdd)));
  }

  lemma Push5(s: State, t: nat, ok: bool, n: Node)
    requires |s.refs| == |s.next| && t < |s.threads| && n < |s.refs|
    ensures var s4 := Goto(s, t, AddCasHead(n, s.head, ToAdd));
      Enabled(s4, Step(t, ok)) && Advance(s4, t, ok) == Goto(s.(head := To(n)), t, Idle)
  {
    Twice(s.threads, t, s.threads[t].(pc := AddCasHead(n, s.head, ToAdd)), s.threads[t].(pc := Idle));
  }

  lemma Pushed(s: State, s': State, list: seq<Node>, n: Node)
    requires Chain(s, list) && n !in list && n < |s.next| && s'.head == To(n) && s'.next == s.next[n := s.head]
    ensures Chain(s', [n] + list)
  {
    forall i | 0 <= i < |[n] + list| ensures LinkedAt(s'.next, [n] + list, i) {
      if i > 0 {
        assert LinkedAt(s.next, list, i - 1);
      }
    }
  }

  // ---------------------------------------------------------------- giving up on the list

  /** Step k of the run is one in which thread t looks at the head of the list and finds none. */
  predicate SeesEmpty(s0: State, schedule: seq<Action>, t: nat, k: nat) {
    && k < |schedule| && schedule[k].Step? && schedule[k].t == t
    && Execute(s0, schedule[..k]).Reached?
    && var m := Execute(s0, schedule[..k]).state;
       m.head == Null && t < |m.threads| && (m.threads[t].pc == LoadHead || m.threads[t].pc.CasHead?)
  }

  /** After i steps of the run thread t is inside a call. */
  predicate Busy(s0: State, schedule: seq<Action>, t: nat, i: nat) {
    i <= |schedule| && Execute(s0, schedule[..i]).Reached?
    && var m := Execute(s0, schedule[..i]).state; t < |m.threads| && m.threads[t].pc != Idle
  }

  /** Thread t has found the list empty in step k, and has been in the same call since, for the first n steps of the run. */
  ghost predicate SawEmptyAt(s0: State, schedule: seq<Action>, t: nat, k: nat, n: nat) {
    SeesEmpty(s0, schedule, t, k) && k < n && forall i :: k < i < n ==> Busy(s0, schedule, t, i)
  }

  ghost predicate SawEmpty(s0: State, schedule: seq<Action>, t: nat, n: nat) {
    exists k: nat :: SawEmptyAt(s0, schedule, t, k, n)
  }

  /** The thread is in the loop of `try_get`. */
  predicate TryingList(pc: Pc) {
    pc == LoadHead || pc.LoadRefs? || pc.CasRefs? || pc.LoadNext? || pc.CasHead? || pc.SubOne?
    || (AddingNow(pc) && pc.ret.ToTryGet?)
  }

  /** The head that the loop will test next is null, or has been. */
  predicate GivingUp(pc: Pc) {
    pc == Create || (pc.SubOne? && pc.reloaded == Null) || (AddingNow(pc) && pc.ret == ToTryGet(Null))
  }

  /** The step of another thread, or a call, does not make thread t give up. */
  lemma OthersLeave(m: State, a: Action, t: nat)
    requires Enabled(m, a) && t < |m.threads| && !(a.Step? && a.t == t)
    ensures var pc' := Next(m, a).threads[t].pc;
      pc' == m.threads[t].pc || (m.threads[t].pc == Idle && (pc' == PoolLoad || pc'.SetShould?))
  {
    if a.Step? {
      OtherSteps(m, a.t, a.mallocOk, t);
    }
  }

  lemma OtherSteps(m: State, u: nat, ok: bool, t: nat)
    requires Enabled(m, Step(u, ok)) && t < |m.threads| && t != u
    ensures |Advance(m, u, ok).threads| == |m.threads| && Advance(m, u, ok).threads[t] == m.threads[t]
  {
  }

  /** A thread decides to give up only if the head is null as it looks. */
  lemma OwnSteps(m: State, t: nat, ok: bool)
    requires Enabled(m, Step(t, ok))
    ensures var pc, pc' := m.threads[t].pc, Advance(m, t, ok).threads[t].pc;
      GivingUp(pc') || (TryingList(pc) && pc' == Idle) ==>
        GivingUp(pc) || (m.head == Null && (pc == LoadHead || pc.CasHead?))
  {
  }

  lemma GivingUpStep(m: State, a: Action, t: nat)
    requires Enabled(m, a) && t < |m.threads|
    ensures |Next(m, a).threads| == |m.threads|
    ensures var pc, pc' := m.threads[t].pc, Next(m, a).threads[t].pc;
      GivingUp(pc') || (TryingList(pc) && pc' == Idle) ==>
        GivingUp(pc) || (a.Step? && a.t == t && m.head == Null && (pc == LoadHead || pc.CasHead?))
  {
    SameThreads(m, a);
    hide Advance, Enabled;
    if a.Step? && a.t == t {
      OwnSteps(m, t, a.mallocOk);
    } else {
      OthersLeave(m, a, t);
    }
  }

  lemma SawBefore(s0: State, schedule: seq<Action>, t: nat)
    requires schedule != [] && SawEmpty(s0, schedule[..|schedule| - 1], t, |schedule| - 1)
    requires Busy(s0, schedule[..|schedule| - 1], t, |schedule| - 1)
    ensures SawEmpty(s0, schedule, t, |schedule|)
  {
    hide Execute;
    var n := |schedule| - 1;
    var shorter := schedule[..n];
    var k: nat :| SawEmptyAt(s0, shorter, t, k, n);
    assert shorter[..k] == schedule[..k];
    forall i | k < i < n + 1 ensures Busy(s0, schedule, t, i) {
      assert shorter[..i] == schedule[..i];
      assert i < n ==> Busy(s0, shorter, t, i);
    }
    assert SawEmptyAt(s0, schedule, t, k, n + 1);
  }

  lemma {:induction false} GivingUpSaw(s0: State, schedule: seq<Action>, s: State, t: nat)
    requires Init(s0) && Execute(s0, schedule) == Reached(s) && t < |s.threads| && GivingUp(s.threads[t].pc)
    ensures SawEmpty(s0, schedule, t, |schedule|)
    decreases |schedule|
  {
    hide Next, Enabled, SawEmpty;
    if schedule != [] {
      var n := |schedule| - 1;
      var m := Execute(s0, schedule[..n]).state;
      SameThreads(m, schedule[n]);
      GivingUpStep(m, schedule[n], t);
      SawStep(s0, schedule, t);
    }
  }

  lemma SameThreads(m: State, a: Action)
    requires Enabled(m, a)
    ensures |Next(m, a).threads| == |m.threads|
  {
  }

  /** One step back: either the step itself has seen the empty list, or the thread was giving up before it. */
  lemma SawStep(s0: State, schedule: seq<Action>, t: nat)
    requires Init(s0) && schedule != [] && Execute(s0, schedule[..|schedule| - 1]).Reached?
    requires var m, a := Execute(s0, schedule[..|schedule| - 1]).state, schedule[|schedule| - 1];
      t < |m.threads|
      && (GivingUp(m.threads[t].pc)
          || (a.Step? && a.t == t && m.head == Null && (m.threads[t].pc == LoadHead || m.threads[t].pc.CasHead?)))
    ensures SawEmpty(s0, schedule, t, |schedule|)
    decreases |schedule|, 0
  {
    hide Execute, Init;
    var n := |schedule| - 1;
    var m, a := Execute(s0, schedule[..n]).state, schedule[n];
    if a.Step? && a.t == t && m.head == Null && (m.threads[t].pc == LoadHead || m.threads[t].pc.CasHead?) {
      assert SawEmptyAt(s0, schedule, t, n, n + 1);
    } else {
      GivingUpSaw(s0, schedule[..n], m, t);
      assert schedule[..n][..n] == schedule[..n];
      SawBefore(s0, schedule, t);
    }
  }

  /**
   In every run a call of `try_get` comes back empty-handed, or `requisition_block` goes on to allocate, only if the
   thread has seen the list empty during that call.
   */
  lemma GivesUpOnlyOnEmptyList(s0: State, schedule: seq<Action>, m: State, a: Action, t: nat)
    requires Init(s0) && Execute(s0, schedule) == Reached(m) && Enabled(m, a) && t < |m.threads| && TryingList(m.threads[t].pc)
    requires t < |Next(m, a).threads| && (Next(m, a).threads[t].pc == Idle || Next(m, a).threads[t].pc == Create)
    ensures SawEmpty(s0, schedule + [a], t, |schedule| + 1)
  {
    hide Next, Enabled, Execute, SawEmpty;
    GivingUpStep(m, a, t);
    var longer := schedule + [a];
    assert longer[..|longer| - 1] == schedule;
    SawStep(s0, longer, t);
  }
}
