/**
 What the leaves of the Merkle index stand for: leaf b is the XOR of the hashes of the stored values of all keys whose
 hash falls into bucket b.  Every application to the store changes the leaves by exactly one XOR.
 */
module Leaves {
  import opened Hashing
  import opened Store
  import Merkle

  function BucketOf(c: Codec, key: Key): nat {
    Bucket(c.hash(key))
  }

  /** What a key adds to leaf b. */
  function Part(c: Codec, key: Key, v: Blob, b: nat): Hash {
    if BucketOf(c, key) == b then c.hash(v) else 0
  }

  ghost function Leaf(c: Codec, st: KeyMap, b: nat): Hash
    decreases |st|
  {
    if st == map[] then 0
    else
      var k :| k in st;
      Xor(Part(c, k, st[k], b), Leaf(c, st - {k}, b))
  }

  /** The order in which keys are taken does not matter. */
  lemma {:induction false} LeafPick(c: Codec, st: KeyMap, b: nat, k: Key)
    requires k in st
    ensures Leaf(c, st, b) == Xor(Part(c, k, st[k], b), Leaf(c, st - {k}, b))
    decreases |st|
  {
    hide Xor, Part;
    var k0 :| k0 in st && Leaf(c, st, b) == Xor(Part(c, k0, st[k0], b), Leaf(c, st - {k0}, b));
    if k != k0 {
      var p, p0 := Part(c, k, st[k], b), Part(c, k0, st[k0], b);
      var both := st - {k0} - {k};
      LeafPick(c, st - {k0}, b, k);
      LeafPick(c, st - {k}, b, k0);
      assert st - {k} - {k0} == both;
      XorSwap(p0, p, Leaf(c, both, b));
    }
  }

  lemma XorSwap(a: Hash, b: Hash, d: Hash)
    ensures Xor(a, Xor(b, d)) == Xor(b, Xor(a, d))
  {
    hide Xor;
    XorAssociative(a, b, d);
    XorCommutative(a, b);
    XorAssociative(b, a, d);
  }

  /** The hash of what is stored under a key, zero when nothing is. */
  function StoredHash(c: Codec, st: KeyMap, key: Key): Hash {
    if key in st then c.hash(st[key]) else 0
  }

  lemma LeafUpdate(c: Codec, st: KeyMap, key: Key, v: Blob, b: nat)
    ensures Leaf(c, st[key := v], b) ==
      if BucketOf(c, key) == b then Xor(Leaf(c, st, b), Xor(StoredHash(c, st, key), c.hash(v))) else Leaf(c, st, b)
  {
    hide Leaf, Xor;
    var st' := st[key := v];
    LeafPick(c, st', b, key);
    assert st' - {key} == st - {key};
    var rest := Leaf(c, st - {key}, b);
    if key in st {
      LeafPick(c, st, b, key);
    } else {
      assert st - {key} == st;
    }
    XorZero(rest);
    XorCommutative(rest, c.hash(v));
    if key in st {
      XorCommutative(rest, c.hash(st[key]));
      XorReplace(rest, c.hash(st[key]), c.hash(v));
    } else {
      XorZero(c.hash(v));
    }
  }

  ghost function All(c: Codec, st: KeyMap): (r: seq<Hash>)
    ensures |r| == LEAVES
  {
    seq(LEAVES, b requires 0 <= b < LEAVES => Leaf(c, st, b))
  }

  /** Storing one value is one XOR on one leaf. */
  lemma AllUpdate(c: Codec, st: KeyMap, key: Key, v: Blob)
    ensures All(c, st[key := v])
         == Merkle.Changed(All(c, st), Merkle.Delta(BucketOf(c, key), Xor(StoredHash(c, st, key), c.hash(v))))
  {
    hide Leaf, Xor;
    forall b | 0 <= b < LEAVES
      ensures All(c, st[key := v])[b]
           == Merkle.Changed(All(c, st), Merkle.Delta(BucketOf(c, key), Xor(StoredHash(c, st, key), c.hash(v))))[b]
    {
      LeafUpdate(c, st, key, v, b);
    }
  }

  lemma AllEmpty(c: Codec)
    ensures All(c, map[]) == seq(LEAVES, _ => 0)
  {
  }

  // ---------------------------------------------------------------- listings

  /** A listing of a bucket: every key of the bucket once, with the hash of its value. */
  ghost predicate Lists(c: Codec, st: KeyMap, b: nat, listing: seq<(Key, Hash)>) {
    && (forall i :: 0 <= i < |listing| ==> Holds(c, st, b, listing[i]))
    && (forall i, j :: 0 <= i < j < |listing| ==> listing[i].0 != listing[j].0)
    && Covers(c, st, b, listing)
  }

  predicate Holds(c: Codec, st: KeyMap, b: nat, e: (Key, Hash)) {
    e.0 in st && BucketOf(c, e.0) == b && e.1 == c.hash(st[e.0])
  }

  ghost predicate Covers(c: Codec, st: KeyMap, b: nat, listing: seq<(Key, Hash)>) {
    forall k :: k in st && BucketOf(c, k) == b ==> Named(listing, k)
  }

  ghost predicate Named(listing: seq<(Key, Hash)>, k: Key) {
    exists i :: 0 <= i < |listing| && listing[i].0 == k
  }

  lemma NamedInConcat(xs: seq<(Key, Hash)>, ys: seq<(Key, Hash)>, k: Key)
    requires Named(xs, k) || Named(ys, k)
    ensures Named(xs + ys, k)
  {
    if Named(xs, k) {
      var i :| 0 <= i < |xs| && xs[i].0 == k;
      assert (xs + ys)[i].0 == k;
    } else {
      var i :| 0 <= i < |ys| && ys[i].0 == k;
      assert (xs + ys)[|xs| + i].0 == k;
    }
  }

  function XorOf(listing: seq<(Key, Hash)>): Hash {
    if listing == [] then 0 else Xor(listing[0].1, XorOf(listing[1..]))
  }

  lemma {:induction false} EmptyBucket(c: Codec, st: KeyMap, b: nat)
    requires forall k :: k in st ==> BucketOf(c, k) != b
    ensures Leaf(c, st, b) == 0
    decreases |st|
  {
    hide Xor;
    if st != map[] {
      var k :| k in st;
      LeafPick(c, st, b, k);
      EmptyBucket(c, st - {k}, b);
      XorZero(0);
    }
  }

  /** The leaf is the XOR of the hashes in any listing of its bucket. */
  lemma {:induction false} LeafOfListing(c: Codec, st: KeyMap, b: nat, listing: seq<(Key, Hash)>)
    requires Lists(c, st, b, listing)
    ensures Leaf(c, st, b) == XorOf(listing)
    decreases |listing|
  {
    hide Xor, Leaf;
    if listing == [] {
      EmptyBucket(c, st, b);
    } else {
      var k := listing[0].0;
      LeafPick(c, st, b, k);
      ListsRest(c, st, b, listing);
      LeafOfListing(c, st - {k}, b, listing[1..]);
    }
  }

  lemma ListsRest(c: Codec, st: KeyMap, b: nat, listing: seq<(Key, Hash)>)
    requires Lists(c, st, b, listing) && listing != []
    ensures Lists(c, st - {listing[0].0}, b, listing[1..])
  {
    var rest, st' := listing[1..], st - {listing[0].0};
    forall k | k in st' && BucketOf(c, k) == b ensures Named(rest, k) {
      assert Named(listing, k);
      var i :| 0 <= i < |listing| && listing[i].0 == k;
      assert rest[i - 1].0 == k;
    }
  }

  lemma ListsMore(c: Codec, st: KeyMap, b: nat, listing: seq<(Key, Hash)>, key: Key, v: Blob)
    requires Lists(c, st, b, listing) && key !in st
    ensures Lists(c, st[key := v], b, if BucketOf(c, key) == b then listing + [(key, c.hash(v))] else listing)
  {
    hide Lists;
    var one: KeyMap := map[key := v];
    var ys := if BucketOf(c, key) == b then [(key, c.hash(v))] else [];
    assert Lists(c, one, b, ys) by { ListsOne(c, key, v, b); }
    ListsUnion(c, st, one, b, listing, ys);
    assert st + one == st[key := v] && listing + [] == listing;
  }

  lemma ListsOne(c: Codec, key: Key, v: Blob, b: nat)
    ensures Lists(c, map[key := v], b, if BucketOf(c, key) == b then [(key, c.hash(v))] else [])
  {
    if BucketOf(c, key) == b {
      assert [(key, c.hash(v))][0].0 == key;
    }
  }

  /** Listings of disjoint stores make a listing of their union. */
  lemma ListsUnion(c: Codec, st: KeyMap, st': KeyMap, b: nat, xs: seq<(Key, Hash)>, ys: seq<(Key, Hash)>)
    requires Lists(c, st, b, xs) && Lists(c, st', b, ys) && st.Keys !! st'.Keys
    ensures Lists(c, st + st', b, xs + ys)
  {
    hide Named, Covers;
    forall i | 0 <= i < |xs + ys| ensures Holds(c, st + st', b, (xs + ys)[i]) {
      if i < |xs| {
        assert Holds(c, st, b, xs[i]);
      } else {
        assert Holds(c, st', b, ys[i - |xs|]);
      }
    }
    forall i, j | 0 <= i < j < |xs + ys| ensures (xs + ys)[i].0 != (xs + ys)[j].0 {
      if i < |xs| <= j {
        assert Holds(c, st, b, xs[i]) && Holds(c, st', b, ys[j - |xs|]);
      }
    }
    CoversUnion(c, st, st', b, xs, ys);
  }

  lemma CoversUnion(c: Codec, st: KeyMap, st': KeyMap, b: nat, xs: seq<(Key, Hash)>, ys: seq<(Key, Hash)>)
    requires Covers(c, st, b, xs) && Covers(c, st', b, ys)
    ensures Covers(c, st + st', b, xs + ys)
  {
    hide Named;
    forall k | k in st + st' && BucketOf(c, k) == b ensures Named(xs + ys, k) {
      NamedInConcat(xs, ys, k);
    }
  }
}
