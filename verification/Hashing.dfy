/**
 64-bit hashes.  The hash function itself (XXH3) is a parameter of everything that uses it; what is fixed here is how
 hashes are combined and how the leaf of a key is found from the hash of the key.
 */
module Hashing {
  import opened Arith

  type Hash = bv64

  /** The fan-out of the Merkle tree and the number of its leaves. */
  const WAYS := 16
  const LEAVES := 65536

  function Xor(a: Hash, b: Hash): Hash {
    a ^ b
  }

  lemma XorAssociative(a: Hash, b: Hash, c: Hash)
    ensures Xor(Xor(a, b), c) == Xor(a, Xor(b, c))
  {
  }

  lemma XorCommutative(a: Hash, b: Hash)
    ensures Xor(a, b) == Xor(b, a)
  {
  }

  lemma XorZero(a: Hash)
    ensures Xor(a, 0) == a && Xor(0, a) == a && Xor(a, a) == 0
  {
  }

  /** Replacing one summand: the difference is the XOR of the old and the new one. */
  lemma XorReplace(rest: Hash, before: Hash, after: Hash)
    ensures Xor(Xor(rest, before), Xor(before, after)) == Xor(rest, after)
  {
  }

  function Half(h: Hash): Hash {
    h >> 1
  }

  predicate Odd(h: Hash) {
    h & 1 == 1
  }

  /** The low k bits of a hash as a number. */
  function LowBits(h: Hash, k: nat): (n: nat)
    ensures n < PowerOfTwo(k)
    decreases k
  {
    if k == 0 then 0 else 2 * LowBits(Half(h), k - 1) + if Odd(h) then 1 else 0
  }

  /** The leaf of a key: the top sixteen bits of the hash of the key. */
  function Bucket(keyHash: Hash): (b: nat)
    ensures b < LEAVES
  {
    assert PowerOfTwo(4) == 16 && PowerOfTwo(8) == 256 && PowerOfTwo(12) == 4096 && PowerOfTwo(16) == 65536;
    LowBits(keyHash >> 48, 16)
  }

  // ---------------------------------------------------------------- hashes as numbers

  function Double(h: Hash): Hash {
    h << 1
  }

  /** The hash whose low k bits are given as a number. */
  function FromBits(n: nat, k: nat): Hash
    decreases k
  {
    if k == 0 then 0 else Xor(Double(FromBits(n / 2, k - 1)), if n % 2 == 1 then 1 else 0)
  }

  /** The largest hash of k bits. */
  function Limit(k: nat): Hash
    decreases 64 - k
  {
    if k >= 64 then 0xFFFF_FFFF_FFFF_FFFF else Half(Limit(k + 1))
  }

  lemma HalfAndOdd(h: Hash)
    ensures Xor(Double(Half(h)), if Odd(h) then 1 else 0) == h
  {
  }

  /** The hash has at most k bits. */
  predicate Within(h: Hash, k: nat) {
    h <= Limit(k)
  }

  lemma HalfWithin(h: Hash, k: nat)
    requires 0 < k <= 64 && Within(h, k)
    ensures Within(Half(h), k - 1)
  {
    assert Limit(k - 1) == Half(Limit(k));
  }

  lemma LimitZero()
    ensures Limit(0) == 0
  {
    assert Limit(60) == 0xFFFFFFFFFFFFFFF;
    assert Limit(56) == 0xFFFFFFFFFFFFFF;
    assert Limit(52) == 0xFFFFFFFFFFFFF;
    assert Limit(48) == 0xFFFFFFFFFFFF;
    assert Limit(44) == 0xFFFFFFFFFFF;
    assert Limit(40) == 0xFFFFFFFFFF;
    assert Limit(36) == 0xFFFFFFFFF;
    assert Limit(32) == 0xFFFFFFFF;
    assert Limit(28) == 0xFFFFFFF;
    assert Limit(24) == 0xFFFFFF;
    assert Limit(20) == 0xFFFFF;
    assert Limit(16) == 0xFFFF;
    assert Limit(12) == 0xFFF;
    assert Limit(8) == 0xFF;
    assert Limit(4) == 0xF;
    assert Limit(0) == 0x0;
  }

  lemma AnyWithin(h: Hash)
    ensures Within(h, 64)
  {
  }

  lemma NoneWithin(h: Hash)
    requires Within(h, 0)
    ensures h == 0
  {
    LimitZero();
  }

  lemma BitsSplit(h: Hash, k: nat)
    requires k > 0
    ensures LowBits(h, k) / 2 == LowBits(Half(h), k - 1)
    ensures LowBits(h, k) % 2 == 1 <==> Odd(h)
  {
    hide PowerOfTwo, Half, Odd;
  }

  /** A hash of k bits is given back by its bits. */
  lemma {:induction false} BitsRoundTrip(h: Hash, k: nat)
    requires k <= 64 && Within(h, k)
    ensures FromBits(LowBits(h, k), k) == h
    decreases k
  {
    hide Xor, Double, Half, Odd, LowBits, PowerOfTwo, Within, Limit;
    if k == 0 {
      NoneWithin(h);
    } else {
      HalfWithin(h, k);
      BitsRoundTrip(Half(h), k - 1);
      HalfAndOdd(h);
      BitsSplit(h, k);
    }
  }

  // ---------------------------------------------------------------- the top bits of a hash

  function Halves(h: Hash, n: nat): Hash
    decreases n
  {
    if n == 0 then h else Halves(Half(h), n - 1)
  }

  lemma {:induction false} HalvesAdd(h: Hash, m: nat, n: nat)
    ensures Halves(h, m + n) == Halves(Halves(h, m), n)
    decreases m
  {
    if m > 0 {
      HalvesAdd(Half(h), m - 1, n);
    }
  }

  function Drop8(h: Hash): Hash {
    h >> 8
  }

  lemma EightShifts(h: Hash)
    ensures Half(Half(Half(Half(Half(Half(Half(Half(h)))))))) == Drop8(h)
  {
  }

  lemma SixDrops(h: Hash)
    ensures Drop8(Drop8(Drop8(Drop8(Drop8(Drop8(h)))))) == h >> 48
  {
  }

  lemma EightHalves(h: Hash)
    ensures Halves(h, 8) == Drop8(h)
  {
    hide Half, Drop8;
    EightShifts(h);
    var h4 := Half(Half(Half(Half(h))));
    assert Halves(h, 4) == h4;
    assert Halves(h4, 4) == Half(Half(Half(Half(h4))));
    HalvesAdd(h, 4, 4);
  }

  lemma {:induction false} HalvesDrop(h: Hash, n: nat)
    ensures Halves(h, 8 + n) == Halves(Drop8(h), n)
  {
    hide Half, Drop8;
    EightHalves(h);
    HalvesAdd(h, 8, n);
  }

  lemma TopHalves(h: Hash)
    ensures Halves(h, 48) == h >> 48
  {
    SixDrops(h);
    hide Half, Drop8;
    var h1 := Drop8(h);
    var h2 := Drop8(h1);
    var h3 := Drop8(h2);
    var h4 := Drop8(h3);
    var h5 := Drop8(h4);
    HalvesDrop(h, 40);
    HalvesDrop(h1, 32);
    HalvesDrop(h2, 24);
    HalvesDrop(h3, 16);
    HalvesDrop(h4, 8);
    HalvesDrop(h5, 0);
  }

  /** Dropping the low n bits divides the number. */
  lemma {:induction false} DropBits(h: Hash, k: nat, n: nat)
    ensures LowBits(h, k + n) / PowerOfTwo(n) == LowBits(Halves(h, n), k)
    decreases n
  {
    hide Half, Odd, LowBits, PowerOfTwo;
    if n == 0 {
      PowerZero();
    } else {
      BitsSplit(h, k + n);
      DropBits(Half(h), k, n - 1);
      DivideTwice(LowBits(h, k + n), n);
    }
  }

  /** The hash as a number. */
  function AsNumber(h: Hash): nat {
    LowBits(h, 64)
  }

  lemma Power48()
    ensures PowerOfTwo(48) == 0x1_0000_0000_0000
  {
    assert PowerOfTwo(4) == 0x10 && PowerOfTwo(8) == 0x100 && PowerOfTwo(12) == 0x1000 && PowerOfTwo(16) == 0x1_0000;
    assert PowerOfTwo(20) == 0x10_0000 && PowerOfTwo(24) == 0x100_0000 && PowerOfTwo(28) == 0x1000_0000;
    assert PowerOfTwo(32) == 0x1_0000_0000 && PowerOfTwo(36) == 0x10_0000_0000 && PowerOfTwo(40) == 0x100_0000_0000;
    assert PowerOfTwo(44) == 0x1000_0000_0000;
  }

  /** The leaf of a key is its hash, as a number of 64 bits, divided by 2^48. */
  lemma BucketIsTop(h: Hash)
    ensures Bucket(h) == AsNumber(h) / 0x1_0000_0000_0000
  {
    hide LowBits, PowerOfTwo;
    DropBits(h, 16, 48);
    TopHalves(h);
    Power48();
  }

  /** The low bits are the remainder of the number. */
  lemma {:induction false} KeepBits(h: Hash, k: nat, n: nat)
    ensures LowBits(h, k + n) % PowerOfTwo(k) == LowBits(h, k)
    decreases k
  {
    hide Half, Odd, PowerOfTwo;
    if k == 0 {
      PowerZero();
    } else {
      KeepBits(Half(h), k - 1, n);
      PowerStep(k);
      DoubledRemainder(LowBits(Half(h), k - 1 + n), PowerOfTwo(k - 1), if Odd(h) then 1 else 0);
    }
  }
}
