/**
 Last writer wins: the store that a collection of mutations leaves behind does not depend on the order in which they
 arrive, nor on how often each arrives.
 */
module Lww {
  import opened Clock
  import opened Store

  /** The mutations that the engine handles as intended. */
  predicate Sound(m: Mutation) {
    UserKey(m.key) && Representable(m.ts) && Less(ZERO, m.ts)
  }

  /** No two different mutations of one key carry the same time. */
  predicate Distinct(ms: set<Mutation>) {
    forall m, m' :: m in ms && m' in ms && m.key == m'.key && m.ts == m'.ts ==> m == m'
  }

  predicate Proper(ms: set<Mutation>) {
    Distinct(ms) && forall m :: m in ms ==> Sound(m)
  }

  function ApplyAll(c: Codec, st: KeyMap, ms: seq<Mutation>): KeyMap
    decreases |ms|
  {
    if ms == [] then st else Live(c, ApplyAll(c, st, ms[..|ms| - 1]), Mutate(ms[|ms| - 1]))
  }

  /** What an accepted mutation stores. */
  function Stored(c: Codec, m: Mutation): Blob {
    if m.isDelete then [] else c.normal(m.value)
  }

  /** The mutation is the latest of its key. */
  predicate Latest(ms: set<Mutation>, w: Mutation) {
    w in ms && forall m :: m in ms && m.key == w.key ==> LessEq(m.ts, w.ts)
  }

  /** The store holds the record of a mutation: its value and its metadata, not mixed with another's. */
  predicate HoldsRecord(c: Codec, st: KeyMap, m: Mutation) {
    && m.key in st && st[m.key] == Stored(c, m)
    && MetaKey(m.key) in st && st[MetaKey(m.key)] == c.meta(m.ts, m.isDelete)
  }

  /** The store holds exactly the latest mutation of every key. */
  ghost predicate Reflects(c: Codec, st: KeyMap, ms: set<Mutation>) {
    && (forall w :: Latest(ms, w) ==> HoldsRecord(c, st, w))
    && (forall x :: x in st ==> exists m :: m in ms && (x == m.key || x == MetaKey(m.key)))
  }

  // ---------------------------------------------------------------- one mutation

  lemma AcceptedIsHeld(c: Codec, st: KeyMap, m: Mutation)
    requires Sound(m) && Accepts(c, st, m) && Lawful(c)
    ensures HoldsRecord(c, Live(c, st, Mutate(m)), m)
  {
    MetaKeysApart(m.key, m.key);
  }

  lemma OthersUntouched(c: Codec, st: KeyMap, m: Mutation, k: Key)
    requires Sound(m) && UserKey(k) && k != m.key
    ensures var st' := Live(c, st, Mutate(m));
      && (k in st' <==> k in st) && (k in st ==> st'[k] == st[k])
      && (MetaKey(k) in st' <==> MetaKey(k) in st) && (MetaKey(k) in st ==> st'[MetaKey(k)] == st[MetaKey(k)])
  {
    hide MetaKey;
    MetaKeysApart(m.key, k);
    MetaKeysApart(k, m.key);
  }

  lemma TimeOfHeld(c: Codec, st: KeyMap, m: Mutation)
    requires HoldsRecord(c, st, m) && Lawful(c) && Representable(m.ts)
    ensures LocalTime(c, st, m.key) == m.ts
  {
  }

  // ---------------------------------------------------------------- the latest of a set

  lemma {:induction false} SomeLatest(ms: set<Mutation>, k: Key) returns (w: Mutation)
    requires exists m :: m in ms && m.key == k
    ensures w.key == k && Latest(ms, w)
    decreases |ms|
  {
    var m :| m in ms && m.key == k;
    var rest := ms - {m};
    if exists m' :: m' in rest && m'.key == k {
      w := SomeLatest(rest, k);
      if Less(w.ts, m.ts) {
        w := m;
      }
    } else {
      w := m;
    }
  }

  // ---------------------------------------------------------------- any sequence

  /** One more mutation: the store goes on reflecting what was applied. */
  lemma KeepReflects(c: Codec, st: KeyMap, ms: set<Mutation>, m: Mutation)
    requires Lawful(c) && Proper(ms + {m}) && Reflects(c, st, ms)
    ensures Reflects(c, Live(c, st, Mutate(m)), ms + {m})
  {
    hide Live, Lawful, MetaKey, HoldsRecord, Accepts, UserKey;
    var st' := Live(c, st, Mutate(m));
    assert Sound(m);
    DecideAgainst(c, st, ms, m);
    forall w | Latest(ms + {m}, w) ensures HoldsRecord(c, st', w) {
      KeepLatest(c, st, ms, m, w);
    }
    forall x | x in st' ensures exists n :: n in ms + {m} && (x == n.key || x == MetaKey(n.key)) {
      NothingElse(c, st, m, x);
      if x in st {
        var n :| n in ms && (x == n.key || x == MetaKey(n.key));
        assert n in ms + {m};
      } else {
        assert m in ms + {m};
      }
    }
  }

  lemma NothingElse(c: Codec, st: KeyMap, m: Mutation, x: Key)
    requires x in Live(c, st, Mutate(m))
    ensures x in st || x == m.key || x == MetaKey(m.key)
  {
  }

  /** The mutation is taken exactly when it is later than all applied before on its key. */
  lemma DecideAgainst(c: Codec, st: KeyMap, ms: set<Mutation>, m: Mutation)
    requires Lawful(c) && Proper(ms + {m}) && Reflects(c, st, ms)
    ensures Accepts(c, st, m) <==> forall n :: n in ms && n.key == m.key ==> Less(n.ts, m.ts)
  {
    if exists n :: n in ms && n.key == m.key {
      var w := SomeLatest(ms, m.key);
      assert w in ms + {m};
      TimeOfHeld(c, st, w);
    } else {
      NoTime(c, st, ms, m);
    }
  }

  lemma NoTime(c: Codec, st: KeyMap, ms: set<Mutation>, m: Mutation)
    requires Proper(ms + {m}) && Reflects(c, st, ms) && forall n :: n in ms ==> n.key != m.key
    ensures LocalTime(c, st, m.key) == ZERO
  {
    hide MetaKey, UserKey;
    var x := MetaKey(m.key);
    if x in st {
      var n :| n in ms && (x == n.key || x == MetaKey(n.key));
      assert n in ms + {m} && m in ms + {m};
      MetaKeysApart(m.key, n.key);
      assert false;
    }
  }

  lemma KeepLatest(c: Codec, st: KeyMap, ms: set<Mutation>, m: Mutation, w: Mutation)
    requires Lawful(c) && Proper(ms + {m}) && Reflects(c, st, ms) && Latest(ms + {m}, w)
    requires Accepts(c, st, m) <==> forall n :: n in ms && n.key == m.key ==> Less(n.ts, m.ts)
    ensures HoldsRecord(c, Live(c, st, Mutate(m)), w)
  {
    hide Lawful, MetaKey, UserKey, Accepts;
    if w == m && Accepts(c, st, m) {
      assert Sound(m);
      AcceptedIsHeld(c, st, m);
    } else {
      assert w in ms;
      assert Latest(ms, w);
      assert HoldsRecord(c, st, w);
      if w.key == m.key {
        assert m in ms + {m} && w in ms + {m};
        assert !Accepts(c, st, m);
        Rejected(c, st, m);
      } else {
        assert Sound(m) && Sound(w);
        OthersUntouched(c, st, m, w.key);
      }
    }
  }

  lemma Rejected(c: Codec, st: KeyMap, m: Mutation)
    requires !Accepts(c, st, m)
    ensures Live(c, st, Mutate(m)) == st
  {
  }

  function Elements(ms: seq<Mutation>): set<Mutation> {
    set m | m in ms
  }

  lemma {:induction false} RunReflects(c: Codec, ms: seq<Mutation>)
    requires Lawful(c) && Proper(Elements(ms))
    ensures Reflects(c, ApplyAll(c, map[], ms), Elements(ms))
    decreases |ms|
  {
    hide Reflects, Lawful, Live;
    if ms == [] {
      assert Reflects(c, map[], {}) by { NothingReflectsNothing(c); }
      assert Elements(ms) == {};
    } else {
      var init, m := ms[..|ms| - 1], ms[|ms| - 1];
      assert Elements(ms) == Elements(init) + {m};
      RunReflects(c, init);
      KeepReflects(c, ApplyAll(c, map[], init), Elements(init), m);
    }
  }

  lemma NothingReflectsNothing(c: Codec)
    ensures Reflects(c, map[], {})
  {
  }

  /** A store is determined by what it reflects. */
  lemma ReflectsOnlyOne(c: Codec, a: KeyMap, b: KeyMap, ms: set<Mutation>)
    requires Reflects(c, a, ms) && Reflects(c, b, ms)
    ensures a == b
  {
    hide MetaKey;
    forall x | x in a || x in b ensures x in a && x in b && a[x] == b[x] {
      var m :| m in ms && (x == m.key || x == MetaKey(m.key));
      var w := SomeLatest(ms, m.key);
      assert HoldsRecord(c, a, w) && HoldsRecord(c, b, w);
    }
  }

  /**
   Two sequences with the same mutations, in any order and with any repetitions, give the same store, and it holds for
   every key exactly the record of its latest mutation.
   */
  lemma OrderDoesNotMatter(c: Codec, xs: seq<Mutation>, ys: seq<Mutation>)
    requires Lawful(c) && Elements(xs) == Elements(ys) && Proper(Elements(xs))
    ensures ApplyAll(c, map[], xs) == ApplyAll(c, map[], ys)
    ensures forall w :: Latest(Elements(xs), w) ==> HoldsRecord(c, ApplyAll(c, map[], xs), w)
  {
    hide Lawful, ApplyAll;
    RunReflects(c, xs);
    RunReflects(c, ys);
    ReflectsOnlyOne(c, ApplyAll(c, map[], xs), ApplyAll(c, map[], ys), Elements(xs));
  }

  // ---------------------------------------------------------------- local writes

  /**
   A local put does not ask what is stored.  It does what a mutation with its time would do if and only if its time is
   later than the stored one; otherwise the mutation would be refused, and the put takes the time of the key back to
   its own.
   */
  lemma PutIsMutationExactlyWhenLater(c: Codec, st: KeyMap, key: Key, body: Blob, now: Timestamp)
    requires Lawful(c) && UserKey(key) && Representable(now)
    ensures Accepts(c, st, Mutation(now, key, body, false)) <==> Less(LocalTime(c, st, key), now)
    ensures now != LocalTime(c, st, key) ==>
      (Live(c, st, Put(key, body, now)) == Live(c, st, Mutate(Mutation(now, key, body, false)))
       <==> Less(LocalTime(c, st, key), now))
    ensures LocalTime(c, Live(c, st, Put(key, body, now)), key) == now
  {
    OrderIsTotal(now, LocalTime(c, st, key), now);
  }

  /** The same holds of a local deletion. */
  lemma DelIsMutationExactlyWhenLater(c: Codec, st: KeyMap, key: Key, now: Timestamp)
    requires Lawful(c) && UserKey(key) && Representable(now)
    ensures Accepts(c, st, Mutation(now, key, [], true)) <==> Less(LocalTime(c, st, key), now)
    ensures now != LocalTime(c, st, key) ==>
      (Live(c, st, Del(key, now)) == Live(c, st, Mutate(Mutation(now, key, [], true)))
       <==> Less(LocalTime(c, st, key), now))
    ensures LocalTime(c, Live(c, st, Del(key, now)), key) == now
  {
    OrderIsTotal(now, LocalTime(c, st, key), now);
  }
}
