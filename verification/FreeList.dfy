/**
 The reference-counted lock-free free list and the block pool around it
 (lib/concurrentqueue/concurrentqueue.h: `FreeList`, `requisition_block`, `add_block_to_free_list`).

 One transition is one atomic operation of one thread; threads are interleaved arbitrarily and memory is
 sequentially consistent. Blocks are numbered: the first `poolSize` belong to the initial pool, later ones
 are created by `create<Block>()`.
 */
module FreeList {
  type Node = nat

  datatype Link = Null | To(node: Node)

  /** `freeListRefs`, split into its SHOULD_BE_ON_FREELIST bit and its REFS_MASK bits. */
  datatype Word = Word(should: int, count: int)

  /** What `add_knowing_refcount_is_zero` returns to: `add`, or the loop of `try_get` with its `head`. */
  datatype Return = ToAdd | ToTryGet(head: Link)

  /** The next atomic operation of a thread, with the locals it still needs. */
  datatype Pc =
    | Idle
      // requisition_block
    | PoolLoad
    | PoolFetchAdd
    | Create
      // try_get
    | LoadHead
    | LoadRefs(h: Node)
    | CasRefs(h: Node, seen: Word)
    | LoadNext(h: Node)
    | CasHead(h: Node, nx: Link)
    | SubTwo(h: Node)
    | SubOne(h: Node, reloaded: Link)
      // add
    | SetShould(n: Node)
      // add_knowing_refcount_is_zero
    | AddLoadHead(n: Node, ret: Return)
    | StoreNext(n: Node, top: Link, ret: Return)
    | StoreRefs(n: Node, top: Link, ret: Return)
    | AddCasHead(n: Node, top: Link, ret: Return)
    | GiveUpRef(n: Node, top: Link, ret: Return)

  /** `held` are the blocks the thread owns; `canAlloc` is the AllocationMode of its current request. */
  datatype Thread = Thread(pc: Pc, held: set<Node>, canAlloc: bool)

  datatype State = State(
    poolSize: nat,         // initialBlockPoolSize
    recycle: bool,         // Traits::RECYCLE_ALLOCATED_BLOCKS
    poolIndex: nat,        // initialBlockPoolIndex
    head: Link,            // freeListHead
    next: seq<Link>,       // freeListNext of every block
    refs: seq<Word>,       // freeListRefs of every block
    threads: seq<Thread>)

  datatype Action =
    | Step(t: nat, mallocOk: bool)          // the thread's next atomic operation
    | CallRequisition(t: nat, canAlloc: bool)
    | CallAdd(t: nat, n: Node)              // add_block_to_free_list
    | HandOver(t: nat, u: nat, n: Node)     // the owner of a block changes outside the list

  // ---------------------------------------------------------------- transitions

  predicate Init(s: State) {
    && s.poolIndex == 0
    && s.head == Null
    && |s.refs| == |s.next| == s.poolSize
    && (forall n :: 0 <= n < s.poolSize ==> s.refs[n] == Word(0, 0) && s.next[n] == Null)
    && (forall t :: 0 <= t < |s.threads| ==> s.threads[t].pc == Idle && s.threads[t].held == {})
  }

  /** Does releasing block n put it on the list, or does it free the memory? */
  predicate Recyclable(s: State, n: Node) {
    n < s.poolSize || s.recycle
  }

  predicate Enabled(s: State, a: Action) {
    match a
    case Step(t, _) => t < |s.threads| && s.threads[t].pc != Idle && Derefs(s, s.threads[t].pc)
    case CallRequisition(t, _) => t < |s.threads| && s.threads[t].pc == Idle
    case CallAdd(t, n) => t < |s.threads| && s.threads[t].pc == Idle && n in s.threads[t].held
    case HandOver(t, u, n) => t < |s.threads| && u < |s.threads| && t != u && n in s.threads[t].held
  }

  /** The block whose fields the operation touches exists. */
  predicate Derefs(s: State, pc: Pc) {
    |s.next| == |s.refs| &&
    match pc
    case LoadRefs(h) => h < |s.refs|
    case CasRefs(h, _) => h < |s.refs|
    case LoadNext(h) => h < |s.refs|
    case SubTwo(h) => h < |s.refs|
    case SubOne(h, _) => h < |s.refs|
    case SetShould(n) => n < |s.refs|
    case StoreNext(n, _, _) => n < |s.refs|
    case StoreRefs(n, _, _) => n < |s.refs|
    case GiveUpRef(n, _, _) => n < |s.refs|
    case _ => true
  }

  function Next(s: State, a: Action): State
    requires Enabled(s, a)
  {
    match a
    case Step(t, ok) => Advance(s, t, ok)
    case CallRequisition(t, canAlloc) => s.(threads := s.threads[t := s.threads[t].(pc := PoolLoad, canAlloc := canAlloc)])
    case CallAdd(t, n) =>
      var rest := s.threads[t].(held := s.threads[t].held - {n});
      s.(threads := s.threads[t := if Recyclable(s, n) then rest.(pc := SetShould(n)) else rest])
    case HandOver(t, u, n) =>
      var given := s.threads[t := s.threads[t].(held := s.threads[t].held - {n})];
      s.(threads := given[u := given[u].(held := given[u].held + {n})])
  }

  function Goto(s: State, t: nat, pc: Pc): State
    requires t < |s.threads|
  {
    s.(threads := s.threads[t := s.threads[t].(pc := pc)])
  }

  function Obtain(s: State, t: nat, n: Node): State
    requires t < |s.threads|
  {
    s.(threads := s.threads[t := s.threads[t].(pc := Idle, held := s.threads[t].held + {n})])
  }

  function SetRefs(s: State, n: Node, w: Word): State
    requires n < |s.refs|
  {
    s.(refs := s.refs[n := w])
  }

  /** The head test of the loop in `try_get`; a null head sends `requisition_block` on to allocation. */
  function LoopTest(head: Link, canAlloc: bool): Pc {
    if head.To? then LoadRefs(head.node) else if canAlloc then Create else Idle
  }

  function ReturnTo(ret: Return, canAlloc: bool): Pc {
    match ret
    case ToAdd => Idle
    case ToTryGet(head) => LoopTest(head, canAlloc)
  }

  function Advance(s: State, t: nat, mallocOk: bool): State
    requires Enabled(s, Step(t, mallocOk))
  {
    var th := s.threads[t];
    match th.pc
    case PoolLoad => Goto(s, t, if s.poolIndex >= s.poolSize then LoadHead else PoolFetchAdd)
    case PoolFetchAdd =>
      var s' := s.(poolIndex := s.poolIndex + 1);
      if s.poolIndex < s.poolSize then Obtain(s', t, s.poolIndex) else Goto(s', t, LoadHead)
    case Create =>
      if mallocOk then Obtain(s.(refs := s.refs + [Word(0, 0)], next := s.next + [Null]), t, |s.refs|)
      else Goto(s, t, Idle)
    case LoadHead => Goto(s, t, LoopTest(s.head, th.canAlloc))
    case LoadRefs(h) => Goto(s, t, if s.refs[h].count == 0 then LoadHead else CasRefs(h, s.refs[h]))
    case CasRefs(h, seen) =>
      if s.refs[h] == seen then Goto(SetRefs(s, h, seen.(count := seen.count + 1)), t, LoadNext(h))
      else Goto(s, t, LoadHead)
    case LoadNext(h) => Goto(s, t, CasHead(h, s.next[h]))
    case CasHead(h, nx) =>
      if s.head == To(h) then Goto(s.(head := nx), t, SubTwo(h)) else Goto(s, t, SubOne(h, s.head))
    case SubTwo(h) => Obtain(SetRefs(s, h, s.refs[h].(count := s.refs[h].count - 2)), t, h)
    case SubOne(h, reloaded) =>
      Goto(SetRefs(s, h, s.refs[h].(count := s.refs[h].count - 1)), t,
           if s.refs[h] == Word(1, 1) then AddLoadHead(h, ToTryGet(reloaded)) else LoopTest(reloaded, th.canAlloc))
    case SetShould(n) =>
      Goto(SetRefs(s, n, s.refs[n].(should := s.refs[n].should + 1)), t,
           if s.refs[n] == Word(0, 0) then AddLoadHead(n, ToAdd) else Idle)
    case AddLoadHead(n, ret) => Goto(s, t, StoreNext(n, s.head, ret))
    case StoreNext(n, top, ret) => Goto(s.(next := s.next[n := top]), t, StoreRefs(n, top, ret))
    case StoreRefs(n, top, ret) => Goto(SetRefs(s, n, Word(0, 1)), t, AddCasHead(n, top, ret))
    case AddCasHead(n, top, ret) =>
      if s.head == top then Goto(s.(head := To(n)), t, ReturnTo(ret, th.canAlloc))
      else Goto(s, t, GiveUpRef(n, s.head, ret))
    case GiveUpRef(n, top, ret) =>
      Goto(SetRefs(s, n, Word(s.refs[n].should + 1, s.refs[n].count - 1)), t,
           if s.refs[n] == Word(0, 1) then StoreNext(n, top, ret) else ReturnTo(ret, th.canAlloc))
  }

  // ---------------------------------------------------------------- the invariant

  /** Where a block is; a block is in exactly one place. */
  datatype Place = Pool | Held(t: nat) | Adding(t: nat) | Listed | Pending | Popped(t: nat) | Destroyed

  /** The threads that have raised the block's count in `try_get` and not yet lowered it. */
  predicate References(pc: Pc, n: Node) {
    match pc
    case LoadNext(h) => h == n
    case CasHead(h, _) => h == n
    case SubOne(h, _) => h == n
    case _ => false
  }

  function RefCount(ts: seq<Thread>, n: Node): nat {
    if ts == [] then 0
    else RefCount(ts[..|ts| - 1], n) + (if References(ts[|ts| - 1].pc, n) then 1 else 0)
  }

  /** In `add_knowing_refcount_is_zero`: before the count is stored, or after. */
  predicate AddingEarly(pc: Pc, n: Node) {
    match pc
    case AddLoadHead(m, _) => m == n
    case StoreNext(m, _, _) => m == n
    case StoreRefs(m, _, _) => m == n
    case _ => false
  }

  predicate AddingLate(pc: Pc, n: Node) {
    match pc
    case AddCasHead(m, _, _) => m == n
    case GiveUpRef(m, _, _) => m == n
    case _ => false
  }

  predicate NodeOk(s: State, place: seq<Place>, n: Node)
    requires n < |s.refs| == |place|
  {
    var r := RefCount(s.threads, n);
    var w := s.refs[n];
    match place[n]
    case Pool => w == Word(0, r)
    case Held(t) => t < |s.threads| && (n in s.threads[t].held || s.threads[t].pc == SetShould(n)) && w == Word(0, r)
    case Adding(t) =>
      t < |s.threads| &&
      ((AddingEarly(s.threads[t].pc, n) && w == Word(1, 0) && r == 0)
       || (AddingLate(s.threads[t].pc, n) && w == Word(0, r + 1)))
    case Listed => w == Word(0, r + 1)
    case Pending => w == Word(1, r) && r >= 1
    case Popped(t) => t < |s.threads| && s.threads[t].pc == SubTwo(n) && w == Word(0, r + 2)
    case Destroyed => !Recyclable(s, n) && w == Word(0, r)
  }

  predicate LinkOk(s: State, l: Link) {
    l.To? ==> l.node < |s.refs| && Recyclable(s, l.node)
  }

  /** The block whose fields the thread's operation works on. */
  function Target(pc: Pc): Link {
    match pc
    case LoadRefs(h) => To(h)
    case CasRefs(h, _) => To(h)
    case LoadNext(h) => To(h)
    case CasHead(h, _) => To(h)
    case SubTwo(h) => To(h)
    case SubOne(h, _) => To(h)
    case SetShould(n) => To(n)
    case AddLoadHead(n, _) => To(n)
    case StoreNext(n, _, _) => To(n)
    case StoreRefs(n, _, _) => To(n)
    case AddCasHead(n, _, _) => To(n)
    case GiveUpRef(n, _, _) => To(n)
    case _ => Null
  }

  /** The link the thread has read earlier and may still store. */
  function Seen(pc: Pc): Link {
    match pc
    case CasHead(_, nx) => nx
    case SubOne(_, reloaded) => reloaded
    case StoreNext(_, top, _) => top
    case StoreRefs(_, top, _) => top
    case AddCasHead(_, top, _) => top
    case GiveUpRef(_, top, _) => top
    case _ => Null
  }

  /** The head with which the loop of `try_get` resumes after the call. */
  function Resume(pc: Pc): Link {
    if AddingNow(pc) && pc.ret.ToTryGet? then pc.ret.head else Null
  }

  /** The thread knows what the target's next field holds. */
  predicate KnowsNext(pc: Pc) {
    pc.CasHead? || pc.StoreRefs? || pc.AddCasHead?
  }

  predicate AddingNow(pc: Pc) {
    pc.AddLoadHead? || pc.StoreNext? || pc.StoreRefs? || pc.AddCasHead? || pc.GiveUpRef?
  }

  predicate PcOk(s: State, place: seq<Place>, t: nat, pc: Pc)
    requires |s.refs| == |s.next| == |place|
  {
    && LinkOk(s, Target(pc)) && LinkOk(s, Seen(pc)) && LinkOk(s, Resume(pc))
    && (KnowsNext(pc) ==> s.next[Target(pc).node] == Seen(pc))
    && (pc.SubTwo? ==> place[pc.h] == Popped(t))
    && (pc.SetShould? ==> place[pc.n] == Held(t))
    && (AddingNow(pc) ==> place[pc.n] == Adding(t))
    && (pc.CasRefs? ==> pc.seen.count != 0)
  }

  predicate HeldOk(s: State, place: seq<Place>, t: nat)
    requires t < |s.threads|
  {
    forall n :: n in s.threads[t].held ==> n < |place| && place[n] == Held(t) && s.threads[t].pc != SetShould(n)
  }

  /** `list` is the chain of blocks from the head; it has no repetition, so it is acyclic. */
  predicate Chain(s: State, list: seq<Node>) {
    && s.head == LinkAt(list, 0)
    && (forall i :: 0 <= i < |list| ==> LinkedAt(s.next, list, i))
    && (forall i, j :: 0 <= i < j < |list| ==> list[i] != list[j])
  }

  predicate LinkedAt(next: seq<Link>, list: seq<Node>, i: nat)
    requires i < |list|
  {
    list[i] < |next| && next[list[i]] == LinkAt(list, i + 1)
  }

  function LinkAt(list: seq<Node>, i: nat): Link {
    if i < |list| then To(list[i]) else Null
  }

  predicate ListOk(s: State, list: seq<Node>, place: seq<Place>)
    requires |s.refs| == |s.next| == |place|
  {
    && Chain(s, list)
    && (forall n :: 0 <= n < |place| ==> (place[n] == Listed <==> n in list))
    && (forall n :: n in list ==> n < |place| && Recyclable(s, n))
    && (forall n :: 0 <= n < |s.next| ==> LinkOk(s, s.next[n]))
  }

  predicate Inv(s: State, list: seq<Node>, place: seq<Place>) {
    && |s.refs| == |s.next| == |place| >= s.poolSize
    && (forall n :: 0 <= n < |place| ==> (place[n] == Pool <==> s.poolIndex <= n < s.poolSize))
    && ListOk(s, list, place)
    && (forall n :: 0 <= n < |place| ==> NodeOk(s, place, n))
    && (forall t :: 0 <= t < |s.threads| ==> PcOk(s, place, t, s.threads[t].pc))
    && (forall t :: 0 <= t < |s.threads| ==> HeldOk(s, place, t))
  }

  // ---------------------------------------------------------------- counting references

  function Bit(pc: Pc, n: Node): nat {
    if References(pc, n) then 1 else 0
  }

  lemma {:induction false} RefCountUpdate(ts: seq<Thread>, t: nat, th: Thread, n: Node)
    requires t < |ts|
    ensures RefCount(ts[t := th], n) == RefCount(ts, n) - Bit(ts[t].pc, n) + Bit(th.pc, n)
  {
    var last := |ts| - 1;
    if t == last {
      assert ts[t := th][..last] == ts[..last];
    } else {
      assert ts[t := th][..last] == ts[..last][t := th];
      RefCountUpdate(ts[..last], t, th, n);
    }
  }

  lemma {:induction false} RefCountBounds(ts: seq<Thread>, t: nat, n: Node)
    requires t < |ts|
    ensures Bit(ts[t].pc, n) <= RefCount(ts, n) <= |ts| - 1 + Bit(ts[t].pc, n)
  {
    var last := |ts| - 1;
    if t < last {
      RefCountBounds(ts[..last], t, n);
    } else if last > 0 {
      RefCountBounds(ts[..last], 0, n);
    }
  }

  lemma {:induction false} RefCountZero(ts: seq<Thread>, n: Node)
    requires forall t :: 0 <= t < |ts| ==> !References(ts[t].pc, n)
    ensures RefCount(ts, n) == 0
  {
    if ts != [] {
      RefCountZero(ts[..|ts| - 1], n);
    }
  }

  // ---------------------------------------------------------------- preservation

  /** The block, if any, that the thread holds a reference to, is adding or has just taken. */
  function Concern(pc: Pc): Link {
    if pc.LoadRefs? || pc.CasRefs? then Null else Target(pc)
  }

  predicate Concerns(pc: Pc, n: Node) {
    Concern(pc) == To(n)
  }

  predicate OwnedByOther(p: Place, t: nat) {
    (p.Held? || p.Adding? || p.Popped?) && p.t != t
  }

  /** The two sequences agree except at k, where the second may have one element more. */
  predicate SameBut<T(==)>(a: seq<T>, b: seq<T>, k: nat) {
    && (|b| == |a| || (k == |a| && |b| == |a| + 1))
    && (forall n :: 0 <= n < |a| && n != k ==> b[n] == a[n])
  }

  /** A transition of thread t that touches at most block k. */
  ghost predicate Touches(s: State, s': State, t: nat, k: Node, place: seq<Place>, place': seq<Place>) {
    && |s.refs| == |s.next| == |place| && |s'.refs| == |s'.next| == |place'|
    && s'.poolSize == s.poolSize && s'.recycle == s.recycle
    && t < |s.threads| == |s'.threads| && s'.threads == s.threads[t := s'.threads[t]]
    && SameBut(s.refs, s'.refs, k) && SameBut(s.next, s'.next, k) && SameBut(place, place', k)
    && (forall n :: n != k ==> !Concerns(s.threads[t].pc, n) && !Concerns(s'.threads[t].pc, n))
    && (forall n :: n != k ==> (n in s'.threads[t].held <==> n in s.threads[t].held))
    && (k < |place| ==> place'[k] == place[k] || !OwnedByOther(place[k], t))
    && (k < |place| && s'.next[k] != s.next[k] ==> RefCount(s.threads, k) == 0 && !OwnedByOther(place[k], t))
  }

  lemma OtherNode(s: State, s': State, t: nat, k: Node, place: seq<Place>, place': seq<Place>, n: Node)
    requires Touches(s, s', t, k, place, place')
    requires n < |place| && n != k && NodeOk(s, place, n)
    ensures NodeOk(s', place', n)
  {
    RefCountUpdate(s.threads, t, s'.threads[t], n);
    assert !Concerns(s.threads[t].pc, n) && !Concerns(s'.threads[t].pc, n);
  }

  lemma OtherPc(s: State, s': State, t: nat, k: Node, place: seq<Place>, place': seq<Place>, u: nat)
    requires Touches(s, s', t, k, place, place')
    requires u < |s.threads| && u != t && PcOk(s, place, u, s.threads[u].pc)
    ensures PcOk(s', place', u, s'.threads[u].pc)
  {
    RefCountBounds(s.threads, u, k);
  }

  lemma OtherHeld(s: State, s': State, t: nat, k: Node, place: seq<Place>, place': seq<Place>, u: nat)
    requires Touches(s, s', t, k, place, place')
    requires u < |s.threads| && u != t && HeldOk(s, place, u)
    ensures HeldOk(s', place', u)
  {
  }

  /** Such a transition preserves the invariant if it does so for thread t, for block k and for the list. */
  lemma OneBlock(s: State, s': State, t: nat, k: Node, list: seq<Node>, list': seq<Node>, place: seq<Place>, place': seq<Place>)
    requires Inv(s, list, place) && Touches(s, s', t, k, place, place')
    requires forall n :: 0 <= n < |place'| ==> (place'[n] == Pool <==> s'.poolIndex <= n < s'.poolSize)
    requires ListOk(s', list', place')
    requires k < |place'| ==> NodeOk(s', place', k)
    requires PcOk(s', place', t, s'.threads[t].pc)
    requires k in s'.threads[t].held ==> k < |place'| && place'[k] == Held(t) && s'.threads[t].pc != SetShould(k)
    ensures Inv(s', list', place')
  {
    forall n | 0 <= n < |place'|
      ensures NodeOk(s', place', n)
    {
      if n != k {
        OtherNode(s, s', t, k, place, place', n);
      }
    }
    forall u | 0 <= u < |s'.threads|
      ensures PcOk(s', place', u, s'.threads[u].pc)
      ensures HeldOk(s', place', u)
    {
      assert HeldOk(s, place, u);
      if u != t {
        OtherPc(s, s', t, k, place, place', u);
        OtherHeld(s, s', t, k, place, place', u);
      } else {
        forall n | n in s'.threads[t].held && n != k
          ensures n < |place'| && place'[n] == Held(t) && s'.threads[t].pc != SetShould(n)
        {
          assert n in s.threads[t].held && !Concerns(s'.threads[t].pc, n);
        }
      }
    }
  }

  lemma HeadOk(s: State, list: seq<Node>, place: seq<Place>)
    requires |s.refs| == |s.next| == |place| && ListOk(s, list, place)
    ensures LinkOk(s, s.head)
  {
    if list != [] {
      assert list[0] in list;
    }
  }

  /** The list does not change when only a block that is not on it changes. */
  lemma SameList(s: State, s': State, k: Node, list: seq<Node>, place: seq<Place>, place': seq<Place>)
    requires |s.refs| == |s.next| == |place| && ListOk(s, list, place) && |s'.refs| == |s'.next| == |place'|
    requires s'.poolSize == s.poolSize && s'.recycle == s.recycle && s'.head == s.head
    requires SameBut(s.next, s'.next, k) && SameBut(place, place', k)
    requires k < |place'| ==> (place'[k] == Listed <==> k in list) && LinkOk(s', s'.next[k])
    requires k in list ==> s'.next[k] == s.next[k]
    ensures ListOk(s', list, place')
  {
    forall i | 0 <= i < |list|
      ensures LinkedAt(s'.next, list, i)
    {
      assert LinkedAt(s.next, list, i);
    }
    forall n | 0 <= n < |place'|
      ensures LinkOk(s', s'.next[n])
    {
      if n != k {
        assert LinkOk(s, s.next[n]);
      }
    }
  }

  /** The list after its head has been unlinked. */
  lemma PopList(s: State, s': State, list: seq<Node>, place: seq<Place>, p: Place)
    requires |s.refs| == |s.next| == |place| && ListOk(s, list, place) && list != [] && p != Listed
    requires s' == s.(head := LinkAt(list, 1), threads := s'.threads)
    ensures list[0] < |place| && ListOk(s', list[1..], place[list[0] := p])
  {
    var list' := list[1..];
    assert list[0] in list;
    forall i | 0 <= i < |list'|
      ensures LinkedAt(s'.next, list', i)
    {
      assert LinkedAt(s.next, list, i + 1);
    }
    assert forall n :: n in list <==> n == list[0] || n in list';
  }

  /** The list after block n, whose successor is the old head, has been linked in front. */
  lemma PushList(s: State, s': State, n: Node, list: seq<Node>, place: seq<Place>)
    requires |s.refs| == |s.next| == |place| && ListOk(s, list, place)
    requires n < |place| && n !in list && Recyclable(s, n) && s.next[n] == s.head
    requires s' == s.(head := To(n), threads := s'.threads)
    ensures ListOk(s', [n] + list, place[n := Listed])
  {
    var list' := [n] + list;
    forall i | 0 <= i < |list'|
      ensures LinkedAt(s'.next, list', i)
    {
      assert i > 0 ==> LinkedAt(s.next, list, i - 1);
    }
  }

  /** Operations that only read, or that fail: nothing but the thread's program counter changes. */
  lemma KeepLocal(s: State, t: nat, th: Thread, list: seq<Node>, place: seq<Place>)
    requires Inv(s, list, place) && t < |s.threads| && PcOk(s, place, t, th.pc)
    requires Concern(s.threads[t].pc) == Null && Concern(th.pc) == Null && th.held == s.threads[t].held
    ensures Inv(s.(threads := s.threads[t := th]), list, place)
  {
    var s' := s.(threads := s.threads[t := th]);
    assert HeldOk(s, place, t);
    SameList(s, s', |place|, list, place, place);
    OneBlock(s, s', t, |place|, list, list, place, place);
  }

  lemma KeepCreate(s: State, t: nat, list: seq<Node>, place: seq<Place>) returns (place': seq<Place>)
    requires Inv(s, list, place) && t < |s.threads| && s.threads[t].pc.Create?
    ensures Inv(Advance(s, t, true), list, place')
  {
    var s' := Advance(s, t, true);
    place' := place + [Held(t)];
    forall u | 0 <= u < |s'.threads|
      ensures !References(s'.threads[u].pc, |place|)
    {
      assert PcOk(s, place, u, s.threads[u].pc);
    }
    RefCountZero(s'.threads, |place|);
    assert |place| !in list;
    SameList(s, s', |place|, list, place, place');
    OneBlock(s, s', t, |place|, list, list, place, place');
  }

  /** The state after thread t has become th and block k has got reference word w and successor l. */
  function Effect(s: State, t: nat, th: Thread, k: Node, w: Word, l: Link, head: Link): State
    requires t < |s.threads| && k < |s.refs| && k < |s.next|
  {
    s.(threads := s.threads[t := th], refs := s.refs[k := w], next := s.next[k := l], head := head)
  }

  /** What a transition must establish for its own thread, for its block and for the list. */
  predicate Admissible(s: State, t: nat, th: Thread, k: Node, w: Word, l: Link, head: Link, p: Place,
                       list': seq<Node>, place: seq<Place>)
  {
    && t < |s.threads| && k < |s.refs| == |s.next| == |place|
    && (var s' := Effect(s, t, th, k, w, l, head);
        var place' := place[k := p];
        && ListOk(s', list', place')
        && NodeOk(s', place', k)
        && PcOk(s', place', t, th.pc))
    && Concern(s.threads[t].pc) in {Null, To(k)} && Concern(th.pc) in {Null, To(k)}
    && th.held - {k} == s.threads[t].held - {k}
    && (k in th.held ==> p == Held(t) && th.pc != SetShould(k))
    && (p == place[k] || (!OwnedByOther(place[k], t) && place[k] != Pool && p != Pool))
    && (l == s.next[k] || (RefCount(s.threads, k) == 0 && !OwnedByOther(place[k], t)))
  }

  lemma KeepEffect(s: State, t: nat, th: Thread, k: Node, w: Word, l: Link, head: Link, p: Place,
                   list: seq<Node>, list': seq<Node>, place: seq<Place>)
    requires Inv(s, list, place)
    requires Admissible(s, t, th, k, w, l, head, p, list', place)
    ensures Inv(Effect(s, t, th, k, w, l, head), list', place[k := p])
  {
    var s' := Effect(s, t, th, k, w, l, head);
    forall n | n != k
      ensures n in th.held <==> n in s.threads[t].held
    {
      assert n in th.held - {k} <==> n in s.threads[t].held - {k};
    }
    assert Touches(s, s', t, k, place, place[k := p]);
    OneBlock(s, s', t, k, list, list', place, place[k := p]);
  }

  /** The part of the invariant that the operation of thread t on block k depends on. */
  predicate View(s: State, t: nat, k: Node, list: seq<Node>, place: seq<Place>) {
    && t < |s.threads| && k < |s.refs| == |s.next| == |place|
    && ListOk(s, list, place)
    && NodeOk(s, place, k)
    && PcOk(s, place, t, s.threads[t].pc)
    && HeldOk(s, place, t)
  }

  /** Raising or lowering a count: the head, the successors and the block's place stay as they are. */
  lemma CountChange(s: State, t: nat, pc: Pc, k: Node, w: Word, list: seq<Node>, place: seq<Place>)
    requires View(s, t, k, list, place)
    requires PcOk(s, place, t, pc) && !pc.SetShould? && !s.threads[t].pc.SetShould? && !AddingNow(pc) && !pc.SubTwo?
    requires Concern(s.threads[t].pc) in {Null, To(k)} && Concern(pc) in {Null, To(k)}
    requires !AddingNow(s.threads[t].pc) && !s.threads[t].pc.SubTwo?
    requires w == Word(s.refs[k].should, s.refs[k].count + Bit(pc, k) - Bit(s.threads[t].pc, k))
    requires Bit(pc, k) > Bit(s.threads[t].pc, k) ==> s.refs[k].count != 0
    requires place[k] == Pending ==> w.count >= 1
    ensures Admissible(s, t, s.threads[t].(pc := pc), k, w, s.next[k], s.head, place[k], list, place)
  {
    var th := s.threads[t].(pc := pc);
    RefCountUpdate(s.threads, t, th, k);
    RefCountBounds(s.threads, t, k);
    SameList(s, Effect(s, t, th, k, w, s.next[k], s.head), k, list, place, place);
  }

  /** The thread that adds or has taken block k moves on; nobody else's count changes. */
  lemma OwnMove(s: State, t: nat, th: Thread, k: Node, w: Word, p: Place, list: seq<Node>, place: seq<Place>)
    requires View(s, t, k, list, place) && Concern(s.threads[t].pc) == To(k) && Concern(th.pc) in {Null, To(k)}
    requires place[k] != Listed && place[k] != Pool && !OwnedByOther(place[k], t)
    requires p != Listed && p != Pool
    requires th.held - {k} == s.threads[t].held - {k} && (k in th.held ==> p == Held(t) && th.pc != SetShould(k))
    requires NodeOk(Effect(s, t, th, k, w, s.next[k], s.head), place[k := p], k)
    requires PcOk(Effect(s, t, th, k, w, s.next[k], s.head), place[k := p], t, th.pc)
    ensures Admissible(s, t, th, k, w, s.next[k], s.head, p, list, place)
  {
    SameList(s, Effect(s, t, th, k, w, s.next[k], s.head), k, list, place, place[k := p]);
  }

  lemma CasHeadPops(s: State, t: nat, list: seq<Node>, place: seq<Place>)
    requires t < |s.threads| && s.threads[t].pc.CasHead? && s.head == To(s.threads[t].pc.h)
    requires View(s, t, s.threads[t].pc.h, list, place)
    ensures list != []
    ensures var h := s.threads[t].pc.h;
            Admissible(s, t, s.threads[t].(pc := SubTwo(h)), h, s.refs[h], s.next[h], s.threads[t].pc.nx, Popped(t), list[1..], place)
  {
    var h := s.threads[t].pc.h;
    var th := s.threads[t].(pc := SubTwo(h));
    assert list[0] == h && h in list && LinkedAt(s.next, list, 0);
    RefCountUpdate(s.threads, t, th, h);
    PopList(s, s.(head := s.threads[t].pc.nx, threads := s.threads[t := th]), list, place, Popped(t));
    assert s.refs[h := s.refs[h]] == s.refs && s.next[h := s.next[h]] == s.next;
  }

  lemma AddCasPushes(s: State, t: nat, list: seq<Node>, place: seq<Place>)
    requires t < |s.threads| && s.threads[t].pc.AddCasHead? && s.head == s.threads[t].pc.top
    requires View(s, t, s.threads[t].pc.n, list, place)
    ensures var n := s.threads[t].pc.n;
            Admissible(s, t, s.threads[t].(pc := ReturnTo(s.threads[t].pc.ret, s.threads[t].canAlloc)), n,
                       s.refs[n], s.next[n], To(n), Listed, [n] + list, place)
  {
    var n := s.threads[t].pc.n;
    var th := s.threads[t].(pc := ReturnTo(s.threads[t].pc.ret, s.threads[t].canAlloc));
    RefCountUpdate(s.threads, t, th, n);
    PushList(s, s.(head := To(n), threads := s.threads[t := th]), n, list, place);
    assert s.refs[n := s.refs[n]] == s.refs && s.next[n := s.next[n]] == s.next;
  }

  lemma StoreNextOk(s: State, t: nat, list: seq<Node>, place: seq<Place>)
    requires t < |s.threads| && s.threads[t].pc.StoreNext?
    requires View(s, t, s.threads[t].pc.n, list, place)
    ensures var pc := s.threads[t].pc;
            Admissible(s, t, s.threads[t].(pc := StoreRefs(pc.n, pc.top, pc.ret)), pc.n,
                       s.refs[pc.n], pc.top, s.head, place[pc.n], list, place)
  {
    var pc := s.threads[t].pc;
    var th := s.threads[t].(pc := StoreRefs(pc.n, pc.top, pc.ret));
    RefCountUpdate(s.threads, t, th, pc.n);
    SameList(s, Effect(s, t, th, pc.n, s.refs[pc.n], pc.top, s.head), pc.n, list, place, place);
  }

  /** `try_get` up to the point where the count is raised or the attempt given up. */
  lemma KeepTryGetRead(s: State, t: nat, list: seq<Node>, place: seq<Place>)
    requires Inv(s, list, place) && t < |s.threads|
    requires s.threads[t].pc.PoolLoad? || s.threads[t].pc.LoadHead? || s.threads[t].pc.LoadRefs?
    ensures Derefs(s, s.threads[t].pc) && Inv(Advance(s, t, true), list, place)
  {
    assert PcOk(s, place, t, s.threads[t].pc);
    HeadOk(s, list, place);
    KeepLocal(s, t, Advance(s, t, true).threads[t], list, place);
  }

  lemma Viewed(s: State, t: nat, list: seq<Node>, place: seq<Place>)
    requires Inv(s, list, place) && t < |s.threads| && Target(s.threads[t].pc).To?
    ensures View(s, t, Target(s.threads[t].pc).node, list, place)
  {
    assert PcOk(s, place, t, s.threads[t].pc) && HeldOk(s, place, t);
    assert NodeOk(s, place, Target(s.threads[t].pc).node);
  }

  /** The two ways in which a transition of thread t on block k meets KeepEffect. */
  lemma KeepCount(s: State, t: nat, pc: Pc, k: Node, w: Word, list: seq<Node>, place: seq<Place>)
    requires Inv(s, list, place) && View(s, t, k, list, place)
    requires PcOk(s, place, t, pc) && !pc.SetShould? && !s.threads[t].pc.SetShould? && !AddingNow(pc) && !pc.SubTwo?
    requires Concern(s.threads[t].pc) in {Null, To(k)} && Concern(pc) in {Null, To(k)}
    requires !AddingNow(s.threads[t].pc) && !s.threads[t].pc.SubTwo?
    requires w == Word(s.refs[k].should, s.refs[k].count + Bit(pc, k) - Bit(s.threads[t].pc, k))
    requires Bit(pc, k) > Bit(s.threads[t].pc, k) ==> s.refs[k].count != 0
    requires place[k] == Pending ==> w.count >= 1
    ensures Inv(Goto(SetRefs(s, k, w), t, pc), list, place)
  {
    CountChange(s, t, pc, k, w, list, place);
    KeepEffect(s, t, s.threads[t].(pc := pc), k, w, s.next[k], s.head, place[k], list, list, place);
    assert s.next[k := s.next[k]] == s.next && place[k := place[k]] == place;
  }

  lemma KeepOwn(s: State, t: nat, th: Thread, k: Node, w: Word, p: Place, list: seq<Node>, place: seq<Place>)
    requires Inv(s, list, place) && View(s, t, k, list, place)
    requires Concern(s.threads[t].pc) == To(k) && Concern(th.pc) in {Null, To(k)}
    requires place[k] != Listed && place[k] != Pool && !OwnedByOther(place[k], t)
    requires p != Listed && p != Pool
    requires th.held - {k} == s.threads[t].held - {k} && (k in th.held ==> p == Held(t) && th.pc != SetShould(k))
    requires NodeOk(s.(refs := s.refs[k := w], threads := s.threads[t := th]), place[k := p], k)
    requires PcOk(s.(refs := s.refs[k := w], threads := s.threads[t := th]), place[k := p], t, th.pc)
    ensures Inv(s.(refs := s.refs[k := w], threads := s.threads[t := th]), list, place[k := p])
  {
    assert Effect(s, t, th, k, w, s.next[k], s.head) == s.(refs := s.refs[k := w], threads := s.threads[t := th]) by {
      assert s.next[k := s.next[k]] == s.next;
    }
    OwnMove(s, t, th, k, w, p, list, place);
    KeepEffect(s, t, th, k, w, s.next[k], s.head, p, list, list, place);
  }

  lemma KeepCasRefs(s: State, t: nat, list: seq<Node>, place: seq<Place>)
    requires Inv(s, list, place) && t < |s.threads| && s.threads[t].pc.CasRefs?
    ensures Derefs(s, s.threads[t].pc) && Inv(Advance(s, t, true), list, place)
  {
    hide Inv, ListOk;
    var pc := s.threads[t].pc;
    Viewed(s, t, list, place);
    if s.refs[pc.h] == pc.seen {
      KeepCount(s, t, LoadNext(pc.h), pc.h, pc.seen.(count := pc.seen.count + 1), list, place);
    } else {
      KeepLocal(s, t, s.threads[t].(pc := LoadHead), list, place);
    }
  }

  lemma KeepLoadNext(s: State, t: nat, list: seq<Node>, place: seq<Place>)
    requires Inv(s, list, place) && t < |s.threads| && s.threads[t].pc.LoadNext?
    ensures Derefs(s, s.threads[t].pc) && Inv(Advance(s, t, true), list, place)
  {
    hide Inv;
    var h := s.threads[t].pc.h;
    Viewed(s, t, list, place);
    RefCountBounds(s.threads, t, h);
    KeepCount(s, t, CasHead(h, s.next[h]), h, s.refs[h], list, place);
    assert SetRefs(s, h, s.refs[h]) == s;
  }

  /** The popping CAS: it succeeds only on the head of the list, whose successor cannot have changed meanwhile. */
  lemma KeepCasHead(s: State, t: nat, list: seq<Node>, place: seq<Place>) returns (list': seq<Node>, place': seq<Place>)
    requires Inv(s, list, place) && t < |s.threads| && s.threads[t].pc.CasHead?
    ensures Inv(Advance(s, t, true), list', place')
  {
    hide Inv, ListOk;
    var pc := s.threads[t].pc;
    var h := pc.h;
    Viewed(s, t, list, place);
    RefCountBounds(s.threads, t, h);
    assert s.refs[h := s.refs[h]] == s.refs && s.next[h := s.next[h]] == s.next;
    if s.head == To(h) {
      CasHeadPops(s, t, list, place);
      list', place' := list[1..], place[h := Popped(t)];
      KeepEffect(s, t, s.threads[t].(pc := SubTwo(h)), h, s.refs[h], s.next[h], pc.nx, Popped(t), list, list', place);
    } else {
      HeadOk(s, list, place);
      KeepCount(s, t, SubOne(h, s.head), h, s.refs[h], list, place);
      list', place' := list, place;
    }
  }

  lemma KeepSubTwo(s: State, t: nat, list: seq<Node>, place: seq<Place>) returns (place': seq<Place>)
    requires Inv(s, list, place) && t < |s.threads| && s.threads[t].pc.SubTwo?
    ensures Derefs(s, s.threads[t].pc) && s.refs[s.threads[t].pc.h].should == 0
    ensures Inv(Advance(s, t, true), list, place')
  {
    hide Inv, ListOk;
    Viewed(s, t, list, place);
    var h, s' := s.threads[t].pc.h, Advance(s, t, true);
    RefCountUpdate(s.threads, t, s'.threads[t], h);
    place' := place[h := Held(t)];
    KeepOwn(s, t, s'.threads[t], h, s'.refs[h], Held(t), list, place);
  }

  /** The thread that drops the last reference to a flagged block becomes the one that adds it. */
  lemma KeepLastRelease(s: State, t: nat, list: seq<Node>, place: seq<Place>) returns (place': seq<Place>)
    requires Inv(s, list, place) && t < |s.threads| && s.threads[t].pc.SubOne?
    requires Derefs(s, s.threads[t].pc) && s.refs[s.threads[t].pc.h] == Word(1, 1)
    ensures Inv(Advance(s, t, true), list, place')
    ensures s.threads[t].pc.h < |place| && place' == place[s.threads[t].pc.h := Adding(t)]
  {
    hide Inv, ListOk;
    Viewed(s, t, list, place);
    var h, s' := s.threads[t].pc.h, Advance(s, t, true);
    RefCountBounds(s.threads, t, h);
    assert place[h] == Pending;
    RefCountUpdate(s.threads, t, s'.threads[t], h);
    place' := place[h := Adding(t)];
    KeepOwn(s, t, s'.threads[t], h, Word(1, 0), Adding(t), list, place);
  }

  lemma KeepSubOne(s: State, t: nat, list: seq<Node>, place: seq<Place>)
    requires Inv(s, list, place) && t < |s.threads| && s.threads[t].pc.SubOne?
    requires Derefs(s, s.threads[t].pc) && s.refs[s.threads[t].pc.h] != Word(1, 1)
    ensures Inv(Advance(s, t, true), list, place)
  {
    hide Inv, ListOk;
    var pc := s.threads[t].pc;
    var w := s.refs[pc.h].(count := s.refs[pc.h].count - 1);
    Viewed(s, t, list, place);
    RefCountBounds(s.threads, t, pc.h);
    KeepCount(s, t, LoopTest(pc.reloaded, s.threads[t].canAlloc), pc.h, w, list, place);
  }

  lemma KeepSetShould(s: State, t: nat, list: seq<Node>, place: seq<Place>) returns (place': seq<Place>)
    requires Inv(s, list, place) && t < |s.threads| && s.threads[t].pc.SetShould?
    ensures Derefs(s, s.threads[t].pc) && Inv(Advance(s, t, true), list, place')
    ensures var n := s.threads[t].pc.n;
      n < |place| && place' == place[n := if s.refs[n] == Word(0, 0) then Adding(t) else Pending]
  {
    hide Inv, ListOk;
    Viewed(s, t, list, place);
    var n, s' := s.threads[t].pc.n, Advance(s, t, true);
    RefCountUpdate(s.threads, t, s'.threads[t], n);
    var p := if s.refs[n] == Word(0, 0) then Adding(t) else Pending;
    place' := place[n := p];
    KeepOwn(s, t, s'.threads[t], n, s'.refs[n], p, list, place);
  }

  lemma KeepAddLoadHead(s: State, t: nat, list: seq<Node>, place: seq<Place>)
    requires Inv(s, list, place) && t < |s.threads| && s.threads[t].pc.AddLoadHead?
    ensures Inv(Advance(s, t, true), list, place)
  {
    hide Inv, ListOk;
    Viewed(s, t, list, place);
    var n, s' := s.threads[t].pc.n, Advance(s, t, true);
    HeadOk(s, list, place);
    RefCountUpdate(s.threads, t, s'.threads[t], n);
    assert s.refs[n := s.refs[n]] == s.refs && place[n := Adding(t)] == place;
    KeepOwn(s, t, s'.threads[t], n, s.refs[n], Adding(t), list, place);
  }

  lemma KeepStoreNext(s: State, t: nat, list: seq<Node>, place: seq<Place>)
    requires Inv(s, list, place) && t < |s.threads| && s.threads[t].pc.StoreNext?
    ensures Derefs(s, s.threads[t].pc) && Inv(Advance(s, t, true), list, place)
  {
    hide Inv, ListOk;
    Viewed(s, t, list, place);
    var pc, s' := s.threads[t].pc, Advance(s, t, true);
    StoreNextOk(s, t, list, place);
    assert s.refs[pc.n := s.refs[pc.n]] == s.refs && place[pc.n := place[pc.n]] == place;
    KeepEffect(s, t, s'.threads[t], pc.n, s.refs[pc.n], pc.top, s.head, place[pc.n], list, list, place);
  }

  lemma KeepStoreRefs(s: State, t: nat, list: seq<Node>, place: seq<Place>)
    requires Inv(s, list, place) && t < |s.threads| && s.threads[t].pc.StoreRefs?
    ensures Derefs(s, s.threads[t].pc) && Inv(Advance(s, t, true), list, place)
  {
    hide Inv, ListOk;
    Viewed(s, t, list, place);
    var n, s' := s.threads[t].pc.n, Advance(s, t, true);
    RefCountUpdate(s.threads, t, s'.threads[t], n);
    assert place[n := Adding(t)] == place;
    KeepOwn(s, t, s'.threads[t], n, Word(0, 1), Adding(t), list, place);
  }

  lemma KeepAddCasHead(s: State, t: nat, list: seq<Node>, place: seq<Place>) returns (list': seq<Node>, place': seq<Place>)
    requires Inv(s, list, place) && t < |s.threads| && s.threads[t].pc.AddCasHead?
    ensures Inv(Advance(s, t, true), list', place')
  {
    if s.head == s.threads[t].pc.top {
      list', place' := KeepAddCasDone(s, t, list, place);
    } else {
      KeepAddCasFailed(s, t, list, place);
      list', place' := list, place;
    }
  }

  lemma KeepAddCasDone(s: State, t: nat, list: seq<Node>, place: seq<Place>) returns (list': seq<Node>, place': seq<Place>)
    requires Inv(s, list, place) && t < |s.threads| && s.threads[t].pc.AddCasHead? && s.head == s.threads[t].pc.top
    ensures Inv(Advance(s, t, true), list', place')
  {
    hide Inv, ListOk;
    Viewed(s, t, list, place);
    var n, s' := s.threads[t].pc.n, Advance(s, t, true);
    assert s.refs[n := s.refs[n]] == s.refs && s.next[n := s.next[n]] == s.next;
    AddCasPushes(s, t, list, place);
    list', place' := [n] + list, place[n := Listed];
    KeepEffect(s, t, s'.threads[t], n, s.refs[n], s.next[n], To(n), Listed, list, list', place);
  }

  lemma AddCasFails(s: State, t: nat, list: seq<Node>, place: seq<Place>)
    requires t < |s.threads| && s.threads[t].pc.AddCasHead? && s.head != s.threads[t].pc.top
    requires View(s, t, s.threads[t].pc.n, list, place)
    ensures var n, th := s.threads[t].pc.n, Advance(s, t, true).threads[t];
      && Advance(s, t, true) == s.(threads := s.threads[t := th]) && th.held == s.threads[t].held
      && place[n] == Adding(t) && n !in th.held && Concern(th.pc) == To(n)
      && NodeOk(s.(threads := s.threads[t := th]), place, n) && PcOk(s.(threads := s.threads[t := th]), place, t, th.pc)
  {
    HeadOk(s, list, place);
    RefCountUpdate(s.threads, t, Advance(s, t, true).threads[t], s.threads[t].pc.n);
  }

  lemma KeepAddCasFailed(s: State, t: nat, list: seq<Node>, place: seq<Place>)
    requires Inv(s, list, place) && t < |s.threads| && s.threads[t].pc.AddCasHead? && s.head != s.threads[t].pc.top
    ensures Inv(Advance(s, t, true), list, place)
  {
    hide Inv, ListOk, NodeOk, PcOk, HeldOk;
    Viewed(s, t, list, place);
    var n := s.threads[t].pc.n;
    AddCasFails(s, t, list, place);
    assert s.refs[n := s.refs[n]] == s.refs && place[n := Adding(t)] == place;
    KeepOwn(s, t, Advance(s, t, true).threads[t], n, s.refs[n], Adding(t), list, place);
  }

  lemma GiveUpOk(s: State, t: nat, list: seq<Node>, place: seq<Place>)
    requires t < |s.threads| && s.threads[t].pc.GiveUpRef? && View(s, t, s.threads[t].pc.n, list, place)
    ensures var n, s' := s.threads[t].pc.n, Advance(s, t, true);
      var p := if s.refs[n] == Word(0, 1) then Adding(t) else Pending;
      && s' == s.(refs := s.refs[n := s'.refs[n]], threads := s.threads[t := s'.threads[t]])
      && s'.threads[t].held == s.threads[t].held && n !in s.threads[t].held && place[n] == Adding(t)
      && Concern(s.threads[t].pc) == To(n) && Concern(s'.threads[t].pc) in {Null, To(n)}
      && NodeOk(s', place[n := p], n) && PcOk(s', place[n := p], t, s'.threads[t].pc)
  {
    hide ListOk;
    RefCountUpdate(s.threads, t, Advance(s, t, true).threads[t], s.threads[t].pc.n);
  }

  lemma KeepGiveUpRef(s: State, t: nat, list: seq<Node>, place: seq<Place>) returns (place': seq<Place>)
    requires Inv(s, list, place) && t < |s.threads| && s.threads[t].pc.GiveUpRef?
    ensures Derefs(s, s.threads[t].pc) && Inv(Advance(s, t, true), list, place')
    ensures var n := s.threads[t].pc.n;
      n < |place| && place' == place[n := if s.refs[n] == Word(0, 1) then Adding(t) else Pending]
  {
    hide Inv, ListOk, NodeOk, PcOk, HeldOk;
    Viewed(s, t, list, place);
    GiveUpOk(s, t, list, place);
    var n, s' := s.threads[t].pc.n, Advance(s, t, true);
    var p := if s.refs[n] == Word(0, 1) then Adding(t) else Pending;
    place' := place[n := p];
    KeepOwn(s, t, s'.threads[t], n, s'.refs[n], p, list, place);
  }

  lemma KeepPool(s: State, t: nat, list: seq<Node>, place: seq<Place>) returns (place': seq<Place>)
    requires Inv(s, list, place) && t < |s.threads| && s.threads[t].pc.PoolFetchAdd?
    ensures Inv(Advance(s, t, true), list, place')
  {
    var s', k := Advance(s, t, true), s.poolIndex;
    assert HeldOk(s, place, t);
    if k < s.poolSize {
      place' := place[k := Held(t)];
      assert NodeOk(s, place, k);
      PoolTouches(s, t, list, place);
      OneBlock(s, s', t, k, list, list, place, place');
    } else {
      place' := place;
      SameList(s, s', |place|, list, place, place);
      OneBlock(s, s', t, |place|, list, list, place, place);
    }
  }

  lemma PoolTouches(s: State, t: nat, list: seq<Node>, place: seq<Place>)
    requires View(s, t, s.poolIndex, list, place) && s.threads[t].pc.PoolFetchAdd? && s.poolIndex < s.poolSize
    requires place[s.poolIndex] == Pool
    ensures var s', k := Advance(s, t, true), s.poolIndex;
            var place' := place[k := Held(t)];
            Touches(s, s', t, k, place, place') && NodeOk(s', place', k) && ListOk(s', list, place')
            && PcOk(s', place', t, s'.threads[t].pc)
  {
    var s', k := Advance(s, t, true), s.poolIndex;
    RefCountUpdate(s.threads, t, s'.threads[t], k);
    SameList(s, s', k, list, place, place[k := Held(t)]);
  }

  lemma KeepCallAdd(s: State, t: nat, n: Node, list: seq<Node>, place: seq<Place>) returns (place': seq<Place>)
    requires Inv(s, list, place) && Enabled(s, CallAdd(t, n))
    ensures Inv(Next(s, CallAdd(t, n)), list, place')
  {
    assert PcOk(s, place, t, s.threads[t].pc) && HeldOk(s, place, t) && NodeOk(s, place, n);
    var s' := Next(s, CallAdd(t, n));
    var th, p := s'.threads[t], if Recyclable(s, n) then Held(t) else Destroyed;
    place' := place[n := p];
    CallAddOk(s, t, n, list, place);
    KeepEffect(s, t, th, n, s.refs[n], s.next[n], s.head, p, list, list, place);
    assert s.refs[n := s.refs[n]] == s.refs && s.next[n := s.next[n]] == s.next;
  }

  lemma CallAddOk(s: State, t: nat, n: Node, list: seq<Node>, place: seq<Place>)
    requires View(s, t, n, list, place) && Enabled(s, CallAdd(t, n))
    ensures Admissible(s, t, Next(s, CallAdd(t, n)).threads[t], n, s.refs[n], s.next[n], s.head,
                       if Recyclable(s, n) then Held(t) else Destroyed, list, place)
  {
    var th, p := Next(s, CallAdd(t, n)).threads[t], if Recyclable(s, n) then Held(t) else Destroyed;
    RefCountUpdate(s.threads, t, th, n);
    SameList(s, Effect(s, t, th, n, s.refs[n], s.next[n], s.head), n, list, place, place[n := p]);
  }

  lemma {:induction false} RefCountSamePcs(ts: seq<Thread>, ts': seq<Thread>, n: Node)
    requires |ts| == |ts'| && forall t :: 0 <= t < |ts| ==> ts[t].pc == ts'[t].pc
    ensures RefCount(ts, n) == RefCount(ts', n)
  {
    if ts != [] {
      RefCountSamePcs(ts[..|ts| - 1], ts'[..|ts'| - 1], n);
    }
  }

  lemma HandOverThread(s: State, t: nat, u: nat, n: Node, place: seq<Place>, v: nat)
    requires |s.refs| == |s.next| == |place| && Enabled(s, HandOver(t, u, n)) && n < |place| && place[n] == Held(t)
    requires v < |s.threads| && PcOk(s, place, v, s.threads[v].pc) && HeldOk(s, place, v)
    requires s.threads[t].pc != SetShould(n)
    ensures var s' := Next(s, HandOver(t, u, n));
            PcOk(s', place[n := Held(u)], v, s'.threads[v].pc) && HeldOk(s', place[n := Held(u)], v)
  {
  }

  lemma HandOverNode(s: State, t: nat, u: nat, n: Node, place: seq<Place>, m: Node)
    requires |s.refs| == |s.next| == |place| && Enabled(s, HandOver(t, u, n)) && n < |place| && place[n] == Held(t)
    requires m < |place| && NodeOk(s, place, m) && NodeOk(s, place, n)
    ensures NodeOk(Next(s, HandOver(t, u, n)), place[n := Held(u)], m)
  {
    RefCountSamePcs(s.threads, Next(s, HandOver(t, u, n)).threads, m);
  }

  lemma KeepHandOver(s: State, t: nat, u: nat, n: Node, list: seq<Node>, place: seq<Place>) returns (place': seq<Place>)
    requires Inv(s, list, place) && Enabled(s, HandOver(t, u, n))
    ensures Inv(Next(s, HandOver(t, u, n)), list, place')
  {
    var s' := Next(s, HandOver(t, u, n));
    assert HeldOk(s, place, t) && NodeOk(s, place, n);
    place' := place[n := Held(u)];
    SameList(s, s', n, list, place, place');
    forall m | 0 <= m < |place'|
      ensures NodeOk(s', place', m)
    {
      HandOverNode(s, t, u, n, place, m);
    }
    forall v | 0 <= v < |s'.threads|
      ensures PcOk(s', place', v, s'.threads[v].pc)
      ensures HeldOk(s', place', v)
    {
      assert PcOk(s, place, v, s.threads[v].pc) && HeldOk(s, place, v);
      HandOverThread(s, t, u, n, place, v);
    }
  }

  lemma DerefsOk(s: State, t: nat, list: seq<Node>, place: seq<Place>)
    requires Inv(s, list, place) && t < |s.threads|
    ensures Derefs(s, s.threads[t].pc)
  {
    assert PcOk(s, place, t, s.threads[t].pc);
  }

  lemma KeepStep(s: State, t: nat, ok: bool, list: seq<Node>, place: seq<Place>) returns (list': seq<Node>, place': seq<Place>)
    requires Inv(s, list, place) && Enabled(s, Step(t, ok))
    ensures Inv(Advance(s, t, ok), list', place')
  {
    list', place' := list, place;
    match s.threads[t].pc
    case PoolLoad => KeepTryGetRead(s, t, list, place);
    case PoolFetchAdd => place' := KeepPool(s, t, list, place);
    case Create =>
      if ok {
        place' := KeepCreate(s, t, list, place);
      } else {
        KeepLocal(s, t, s.threads[t].(pc := Idle), list, place);
      }
    case LoadHead => KeepTryGetRead(s, t, list, place);
    case LoadRefs(_) => KeepTryGetRead(s, t, list, place);
    case CasRefs(_, _) => KeepCasRefs(s, t, list, place);
    case LoadNext(_) => KeepLoadNext(s, t, list, place);
    case CasHead(_, _) => list', place' := KeepCasHead(s, t, list, place);
    case SubTwo(_) => place' := KeepSubTwo(s, t, list, place);
    case SubOne(h, _) =>
      if s.refs[h] == Word(1, 1) {
        place' := KeepLastRelease(s, t, list, place);
      } else {
        KeepSubOne(s, t, list, place);
      }
    case SetShould(_) => place' := KeepSetShould(s, t, list, place);
    case AddLoadHead(_, _) => KeepAddLoadHead(s, t, list, place);
    case StoreNext(_, _, _) => KeepStoreNext(s, t, list, place);
    case StoreRefs(_, _, _) => KeepStoreRefs(s, t, list, place);
    case AddCasHead(_, _, _) => list', place' := KeepAddCasHead(s, t, list, place);
    case GiveUpRef(_, _, _) => place' := KeepGiveUpRef(s, t, list, place);
  }

  lemma KeepNext(s: State, a: Action, list: seq<Node>, place: seq<Place>) returns (list': seq<Node>, place': seq<Place>)
    requires Inv(s, list, place) && Enabled(s, a)
    ensures Inv(Next(s, a), list', place')
  {
    list', place' := list, place;
    match a
    case Step(t, ok) => list', place' := KeepStep(s, t, ok, list, place);
    case CallRequisition(t, canAlloc) => KeepLocal(s, t, s.threads[t].(pc := PoolLoad, canAlloc := canAlloc), list, place);
    case CallAdd(t, n) => place' := KeepCallAdd(s, t, n, list, place);
    case HandOver(t, u, n) => place' := KeepHandOver(s, t, u, n, list, place);
  }

  // ---------------------------------------------------------------- every run

  datatype Outcome = Reached(state: State) | Stuck

  /** Runs a schedule; it is stuck if it asks for something that is not possible. */
  function Execute(s: State, schedule: seq<Action>): Outcome {
    if schedule == [] then Reached(s)
    else
      var last := |schedule| - 1;
      match Execute(s, schedule[..last])
      case Stuck => Stuck
      case Reached(m) => if Enabled(m, schedule[last]) then Reached(Next(m, schedule[last])) else Stuck
  }

  lemma InitInv(s: State)
    requires Init(s)
    ensures Inv(s, [], seq(|s.refs|, _ => Pool))
  {
    var place := seq(|s.refs|, _ => Pool);
    forall n | 0 <= n < |place|
      ensures NodeOk(s, place, n)
    {
      RefCountZero(s.threads, n);
    }
  }

  /** The invariant holds after every schedule of any number of threads. */
  lemma {:induction false} ReachableInv(s0: State, schedule: seq<Action>, s: State)
    returns (list: seq<Node>, place: seq<Place>)
    requires Init(s0) && Execute(s0, schedule) == Reached(s)
    ensures Inv(s, list, place)
  {
    if schedule == [] {
      InitInv(s0);
      list, place := [], seq(|s.refs|, _ => Pool);
    } else {
      var last := |schedule| - 1;
      var m := Execute(s0, schedule[..last]).state;
      list, place := ReachableInv(s0, schedule[..last], m);
      list, place := KeepNext(m, schedule[last], list, place);
    }
  }

  // ---------------------------------------------------------------- what callers rely on

  /** Thread t owns block n: it holds it, or is between taking it off the list and returning, or is adding it. */
  predicate OwnedBy(s: State, t: nat, n: Node)
    requires t < |s.threads|
  {
    var pc := s.threads[t].pc;
    n in s.threads[t].held || pc == SetShould(n) || pc == SubTwo(n) || (AddingNow(pc) && pc.n == n)
  }

  predicate Owned(s: State, n: Node) {
    exists t :: 0 <= t < |s.threads| && OwnedBy(s, t, n)
  }

  predicate Unused(s: State, n: Node) {
    s.poolIndex <= n < s.poolSize
  }

  /** The block waits to be added by a thread that still holds a reference to it. */
  predicate Flagged(s: State, n: Node)
    requires n < |s.refs|
  {
    s.refs[n].should == 1 && !Owned(s, n) && exists t :: 0 <= t < |s.threads| && References(s.threads[t].pc, n)
  }

  /** The block is in exactly one of the four places, except that a block that is not recycled may be freed. */
  predicate InOnePlace(s: State, list: seq<Node>, n: Node)
    requires n < |s.refs|
  {
    && (Unused(s, n) ==> n !in list && !Owned(s, n) && !Flagged(s, n))
    && (n in list ==> !Owned(s, n) && s.refs[n].should == 0)
    && (Recyclable(s, n) ==> Unused(s, n) || n in list || Owned(s, n) || Flagged(s, n))
    && (forall t, u :: 0 <= t < u < |s.threads| ==> !(OwnedBy(s, t, n) && OwnedBy(s, u, n)))
  }

  lemma {:induction false} SomeReference(ts: seq<Thread>, n: Node) returns (t: nat)
    requires RefCount(ts, n) >= 1
    ensures t < |ts| && References(ts[t].pc, n)
  {
    t := |ts| - 1;
    if !References(ts[t].pc, n) {
      t := SomeReference(ts[..|ts| - 1], n);
    }
  }

  lemma OwnerPlace(s: State, list: seq<Node>, place: seq<Place>, t: nat, n: Node)
    requires Inv(s, list, place) && t < |s.threads| && OwnedBy(s, t, n)
    ensures n < |place| && (place[n].Held? || place[n].Adding? || place[n].Popped?) && place[n].t == t
  {
    assert PcOk(s, place, t, s.threads[t].pc) && HeldOk(s, place, t);
  }

  lemma PlaceOwner(s: State, list: seq<Node>, place: seq<Place>, n: Node)
    requires Inv(s, list, place) && n < |place| && (place[n].Held? || place[n].Adding? || place[n].Popped?)
    ensures Owned(s, n)
  {
    assert NodeOk(s, place, n);
    assert OwnedBy(s, place[n].t, n);
  }

  lemma PlaceUnique(s: State, list: seq<Node>, place: seq<Place>, n: Node)
    requires Inv(s, list, place) && n < |place|
    ensures InOnePlace(s, list, n)
    ensures 0 <= s.refs[n].should <= 1 && 0 <= s.refs[n].count <= |s.threads| + 2
  {
    forall t | 0 <= t < |s.threads| && OwnedBy(s, t, n)
      ensures (place[n].Held? || place[n].Adding? || place[n].Popped?) && place[n].t == t
    {
      OwnerPlace(s, list, place, t, n);
    }
    assert NodeOk(s, place, n);
    if place[n].Held? || place[n].Adding? || place[n].Popped? {
      PlaceOwner(s, list, place, n);
    }
    if place[n] == Pending {
      var t := SomeReference(s.threads, n);
    }
    if s.threads == [] {
      RefCountZero(s.threads, n);
    } else {
      RefCountBounds(s.threads, 0, n);
    }
  }

  /**
   After every schedule of any number of threads the list is a finite chain without repetition that ends in
   null; every block is in exactly one place, so no two threads own the same block; every operation touches a
   block that exists; and the packed reference word stays within its two fields.
   */
  lemma EveryBlockInOnePlace(s0: State, schedule: seq<Action>, s: State)
    requires Init(s0) && Execute(s0, schedule) == Reached(s)
    ensures |s.refs| == |s.next|
    ensures exists list :: Chain(s, list) && forall n :: 0 <= n < |s.refs| ==> InOnePlace(s, list, n)
    ensures forall t :: 0 <= t < |s.threads| ==> Derefs(s, s.threads[t].pc)
    ensures forall n :: 0 <= n < |s.refs| ==> 0 <= s.refs[n].should <= 1 && 0 <= s.refs[n].count <= |s.threads| + 2
  {
    var list, place := ReachableInv(s0, schedule, s);
    forall n | 0 <= n < |s.refs|
      ensures InOnePlace(s, list, n)
      ensures 0 <= s.refs[n].should <= 1 && 0 <= s.refs[n].count <= |s.threads| + 2
    {
      PlaceUnique(s, list, place, n);
    }
    forall t | 0 <= t < |s.threads|
      ensures Derefs(s, s.threads[t].pc)
    {
      DerefsOk(s, t, list, place);
    }
  }

  /** The assertion after the successful CAS on the head never fails, and the block taken was the first of the list. */
  lemma TakenBlockIsNotFlagged(s0: State, schedule: seq<Action>, s: State, t: nat)
    requires Init(s0) && Execute(s0, schedule) == Reached(s)
    requires t < |s.threads| && s.threads[t].pc.SubTwo?
    ensures s.threads[t].pc.h < |s.refs| && s.refs[s.threads[t].pc.h].should == 0
    ensures forall u :: 0 <= u < |s.threads| && OwnedBy(s, u, s.threads[t].pc.h) ==> u == t
  {
    var list, place := ReachableInv(s0, schedule, s);
    var place' := KeepSubTwo(s, t, list, place);
    PlaceUnique(s, list, place, s.threads[t].pc.h);
    assert OwnedBy(s, t, s.threads[t].pc.h);
  }

  /**
   The popping CAS can succeed only on the first block of the list, and what the thread has read as that block's
   successor still is its successor, however often blocks were taken and put back meanwhile; it unlinks exactly that
   block.
   */
  lemma CasTakesFirst(s0: State, schedule: seq<Action>, s: State, t: nat)
    requires Init(s0) && Execute(s0, schedule) == Reached(s)
    requires t < |s.threads| && s.threads[t].pc.CasHead? && s.head == To(s.threads[t].pc.h)
    ensures Enabled(s, Step(t, true))
    ensures s.threads[t].pc.h < |s.next| && s.next[s.threads[t].pc.h] == s.threads[t].pc.nx
    ensures exists list :: list != [] && list[0] == s.threads[t].pc.h && Chain(s, list)
                           && Chain(Advance(s, t, true), list[1..])
  {
    hide NodeOk, HeldOk;
    var list, place := ReachableInv(s0, schedule, s);
    Viewed(s, t, list, place);
    CasHeadPops(s, t, list, place);
    var h := s.threads[t].pc.h;
    assert s.next[h := s.next[h]] == s.next && s.refs[h := s.refs[h]] == s.refs;
    assert list[0] == h && Chain(s, list) && Chain(Advance(s, t, true), list[1..]);
  }

  /** Thread t is inside the adding of block n, and no other thread has the block in any way. */
  predicate SoleAdder(s: State, t: nat, n: Node) {
    && t < |s.threads| && AddingNow(s.threads[t].pc) && s.threads[t].pc.n == n
    && forall u :: 0 <= u < |s.threads| && OwnedBy(s, u, n) ==> u == t
  }

  lemma AddingIsSole(s: State, list: seq<Node>, place: seq<Place>, t: nat, n: Node)
    requires Inv(s, list, place) && n < |place| && place[n] == Adding(t)
    ensures SoleAdder(s, t, n)
  {
    assert NodeOk(s, place, n);
    forall u | 0 <= u < |s.threads| && OwnedBy(s, u, n) ensures u == t {
      OwnerPlace(s, list, place, u, n);
    }
  }

  lemma PendingIsFlagged(s: State, list: seq<Node>, place: seq<Place>, n: Node)
    requires Inv(s, list, place) && n < |place| && place[n] == Pending
    ensures Flagged(s, n)
  {
    assert NodeOk(s, place, n);
    var t := SomeReference(s.threads, n);
    forall u | 0 <= u < |s.threads| ensures !OwnedBy(s, u, n) {
      if OwnedBy(s, u, n) {
        OwnerPlace(s, list, place, u, n);
      }
    }
  }

  /** The thread that drops the last reference to a flagged block becomes the only one to add it. */
  lemma LastReleaserAdds(s0: State, schedule: seq<Action>, s: State, t: nat)
    requires Init(s0) && Execute(s0, schedule) == Reached(s) && t < |s.threads| && s.threads[t].pc.SubOne?
    ensures Derefs(s, s.threads[t].pc)
    ensures s.refs[s.threads[t].pc.h] == Word(1, 1) ==>
      Flagged(s, s.threads[t].pc.h) && SoleAdder(Advance(s, t, true), t, s.threads[t].pc.h)
  {
    hide Inv, Flagged, SoleAdder;
    var list, place := ReachableInv(s0, schedule, s);
    DerefsOk(s, t, list, place);
    var h := s.threads[t].pc.h;
    if s.refs[h] == Word(1, 1) {
      LastReferenceIsPending(s, t, list, place);
      PendingIsFlagged(s, list, place, h);
      var place' := KeepLastRelease(s, t, list, place);
      AddingIsSole(Advance(s, t, true), list, place', t, h);
    }
  }

  lemma LastReferenceIsPending(s: State, t: nat, list: seq<Node>, place: seq<Place>)
    requires Inv(s, list, place) && t < |s.threads| && s.threads[t].pc.SubOne?
    requires Derefs(s, s.threads[t].pc) && s.refs[s.threads[t].pc.h] == Word(1, 1)
    ensures s.threads[t].pc.h < |place| && place[s.threads[t].pc.h] == Pending
  {
    hide Inv, ListOk;
    Viewed(s, t, list, place);
    RefCountBounds(s.threads, t, s.threads[t].pc.h);
  }

  /**
   Setting the flag on a block nobody refers to makes the caller the only one to add it; otherwise the block is left to
   a thread that still refers to it, and nobody is adding it.
   */
  lemma SetFlagDecides(s0: State, schedule: seq<Action>, s: State, t: nat)
    requires Init(s0) && Execute(s0, schedule) == Reached(s) && t < |s.threads| && s.threads[t].pc.SetShould?
    ensures Derefs(s, s.threads[t].pc)
    ensures var n, s' := s.threads[t].pc.n, Advance(s, t, true);
      if s.refs[n] == Word(0, 0) then SoleAdder(s', t, n) else n < |s'.refs| && Flagged(s', n)
  {
    hide Inv, Flagged, SoleAdder;
    var list, place := ReachableInv(s0, schedule, s);
    DerefsOk(s, t, list, place);
    var n := s.threads[t].pc.n;
    var place' := KeepSetShould(s, t, list, place);
    if s.refs[n] == Word(0, 0) {
      AddingIsSole(Advance(s, t, true), list, place', t, n);
    } else {
      PendingIsFlagged(Advance(s, t, true), list, place', n);
    }
  }

  /** After a failed push either the caller tries again, as the only one, or a thread that still refers to the block will. */
  lemma FailedPushIsRetriedOnce(s0: State, schedule: seq<Action>, s: State, t: nat)
    requires Init(s0) && Execute(s0, schedule) == Reached(s) && t < |s.threads| && s.threads[t].pc.GiveUpRef?
    ensures Derefs(s, s.threads[t].pc)
    ensures var n, s' := s.threads[t].pc.n, Advance(s, t, true);
      if s.refs[n] == Word(0, 1) then SoleAdder(s', t, n) else n < |s'.refs| && Flagged(s', n)
  {
    hide Inv, Flagged, SoleAdder;
    var list, place := ReachableInv(s0, schedule, s);
    DerefsOk(s, t, list, place);
    var n := s.threads[t].pc.n;
    var place' := KeepGiveUpRef(s, t, list, place);
    if s.refs[n] == Word(0, 1) {
      AddingIsSole(Advance(s, t, true), list, place', t, n);
    } else {
      PendingIsFlagged(Advance(s, t, true), list, place', n);
    }
  }

  /** A block that is recycled, has left the initial pool and is in no thread's hands. */
  predicate Loose(s: State, n: Node) {
    n < |s.refs| && Recyclable(s, n) && !Unused(s, n) && forall t :: 0 <= t < |s.threads| ==> n !in s.threads[t].held
  }

  /** When no thread is inside an operation, the list holds exactly the loose blocks. */
  lemma IdleListIsExact(s0: State, schedule: seq<Action>, s: State)
    requires Init(s0) && Execute(s0, schedule) == Reached(s)
    requires forall t :: 0 <= t < |s.threads| ==> s.threads[t].pc == Idle
    ensures exists list :: Chain(s, list) && forall n: Node :: n in list <==> Loose(s, n)
  {
    var list, place := ReachableInv(s0, schedule, s);
    forall n: Node
      ensures n in list <==> Loose(s, n)
    {
      if n < |s.refs| {
        PlaceUnique(s, list, place, n);
        assert forall t :: 0 <= t < |s.threads| && n in s.threads[t].held ==> OwnedBy(s, t, n);
      }
    }
  }
}
