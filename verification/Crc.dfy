/**
 The CRC-32 of the write-ahead log (src/engine/wal.hpp, `compute_crc`; section 8 of RFC 1952).
 */
module Crc {
  import opened Arith
  import opened Polynomials

  type Byte = x: int | 0 <= x < 256

  const POLYNOMIAL: bv32 := 0xEDB88320

  /** The low k binary digits of n. */
  function Digits(n: nat, k: nat): bv32
    decreases k
  {
    if k == 0 then 0 else Xor(Double(Digits(n / 2, k - 1)), if n % 2 == 1 then 1 else 0)
  }

  /** A byte in the low eight bits of a word. */
  function Word(b: Byte): bv32 {
    Digits(b, 8)
  }

  function Double(c: bv32): bv32 {
    c << 1
  }

  function Xor(a: bv32, b: bv32): bv32 {
    a ^ b
  }

  function Half(c: bv32): bv32 {
    c >> 1
  }

  predicate Odd(c: bv32) {
    c & 1 == 1
  }

  /** One bit of the division. */
  function BitStep(c: bv32): bv32 {
    if Odd(c) then Xor(Half(c), POLYNOMIAL) else Half(c)
  }

  function BitSteps(c: bv32, n: nat): bv32
    decreases n
  {
    if n == 0 then c else BitSteps(BitStep(c), n - 1)
  }

  function ByteStep(c: bv32, b: Byte): bv32 {
    BitSteps(Xor(c, Word(b)), 8)
  }

  /** The state after a stream of bytes. */
  function Feed(c: bv32, bytes: seq<Byte>): bv32
    decreases |bytes|
  {
    if bytes == [] then c else Feed(ByteStep(c, bytes[0]), bytes[1..])
  }

  /** The checksum of a record: of the operation byte, the key and the payload in this order. */
  function Checksum(op: Byte, key: seq<Byte>, payload: seq<Byte>): bv32 {
    !Feed(0xFFFF_FFFF, [op] + key + payload)
  }

  // ---------------------------------------------------------------- the loops

  /** The mask of the source selects the polynomial exactly when the low bit is set. */
  lemma MaskSelects(c: bv32)
    ensures (c >> 1) ^ (POLYNOMIAL & (0 - (c & 1))) == BitStep(c)
  {
    assert c & 1 == 1 || c & 1 == 0;
  }

  lemma {:induction false} BitStepsSnoc(c: bv32, n: nat)
    ensures BitSteps(c, n + 1) == BitStep(BitSteps(c, n))
    decreases n
  {
    if n > 0 {
      BitStepsSnoc(BitStep(c), n - 1);
    }
  }

  lemma {:induction false} FeedConcat(c: bv32, xs: seq<Byte>, ys: seq<Byte>)
    ensures Feed(c, xs + ys) == Feed(Feed(c, xs), ys)
    decreases |xs|
  {
    if xs == [] {
      assert xs + ys == ys;
    } else {
      assert (xs + ys)[1..] == xs[1..] + ys;
      FeedConcat(ByteStep(c, xs[0]), xs[1..], ys);
    }
  }

  /** The `process` closure of `compute_crc`. */
  method Process(c: bv32, data: seq<Byte>) returns (crc: bv32)
    ensures crc == Feed(c, data)
  {
    crc := c;
    for i := 0 to |data|
      invariant crc == Feed(c, data[..i])
    {
      ghost var before := crc;
      crc := crc ^ Word(data[i]);
      for j := 0 to 8
        invariant crc == BitSteps(Xor(before, Word(data[i])), j)
      {
        MaskSelects(crc);
        BitStepsSnoc(Xor(before, Word(data[i])), j);
        crc := (crc >> 1) ^ (POLYNOMIAL & (0 - (crc & 1)));
      }
      assert data[..i + 1] == data[..i] + [data[i]];
      FeedConcat(c, data[..i], [data[i]]);
    }
    assert data[..|data|] == data;
  }

  method ComputeCrc(op: Byte, key: seq<Byte>, payload: seq<Byte>) returns (crc: bv32)
    ensures crc == Checksum(op, key, payload)
    ensures IsCrc32([op] + key + payload, crc)
  {
    hide Feed, IsCrc32;
    crc := Process(0xFFFF_FFFF, [op]);
    FeedConcat(0xFFFF_FFFF, [op], key);
    crc := Process(crc, key);
    FeedConcat(0xFFFF_FFFF, [op] + key, payload);
    crc := Process(crc, payload);
    crc := !crc;
    ChecksumIsRemainder(op, key, payload);
  }

  // ---------------------------------------------------------------- four corrupted bytes

  /** The bit step loses nothing: the high bit of the result tells whether the polynomial was added. */
  lemma BitStepInjective(a: bv32, b: bv32)
    ensures BitStep(a) == BitStep(b) ==> a == b
  {
  }

  /** Every state is the result of a bit step, so with injectivity the bit step is a bijection. */
  lemma BitStepOnto(c: bv32) returns (d: bv32)
    ensures BitStep(d) == c
  {
    hide Xor, Half, Odd, Double;
    if c <= 0x7FFF_FFFF {
      d := Double(c);
      DoubleUndone(c);
    } else {
      var e := Xor(c, POLYNOMIAL);
      d := Xor(Double(e), 1);
      HighBitClears(c);
      OddDoubleUndone(e);
      XorAssociative(c, POLYNOMIAL, POLYNOMIAL);
      XorSelf(POLYNOMIAL);
      XorSelf(c);
    }
  }

  lemma HighBitClears(c: bv32)
    requires c > 0x7FFF_FFFF
    ensures Xor(c, POLYNOMIAL) <= 0x7FFF_FFFF
  {
  }

  lemma OddDoubleUndone(e: bv32)
    requires e <= 0x7FFF_FFFF
    ensures Odd(Xor(Double(e), 1)) && Half(Xor(Double(e), 1)) == e
  {
  }

  lemma BitStepLinear(a: bv32, b: bv32)
    ensures BitStep(Xor(a, b)) == Xor(BitStep(a), BitStep(b))
  {
    hide Xor, Half, Odd;
    HalfXor(a, b);
    XorMoves(Half(a), Half(b), POLYNOMIAL);
  }

  lemma HalfXor(a: bv32, b: bv32)
    ensures Half(Xor(a, b)) == Xor(Half(a), Half(b))
    ensures Odd(Xor(a, b)) <==> Odd(a) != Odd(b)
  {
  }

  lemma XorAssociative(x: bv32, y: bv32, z: bv32)
    ensures Xor(Xor(x, y), z) == Xor(x, Xor(y, z))
  {
  }

  lemma XorCommutative(x: bv32, y: bv32)
    ensures Xor(x, y) == Xor(y, x)
  {
  }

  lemma XorSelf(x: bv32)
    ensures Xor(x, x) == 0 && Xor(x, 0) == x
  {
  }

  lemma XorMoves(x: bv32, y: bv32, p: bv32)
    ensures Xor(Xor(x, p), Xor(y, p)) == Xor(x, y)
    ensures Xor(Xor(x, p), y) == Xor(Xor(x, y), p)
    ensures Xor(x, Xor(y, p)) == Xor(Xor(x, y), p)
  {
    hide Xor;
    XorAssociative(x, y, p);
    XorAssociative(x, p, y);
    XorCommutative(p, y);
    XorAssociative(Xor(x, p), y, p);
    XorAssociative(Xor(x, y), p, p);
    XorSelf(p);
    XorSelf(Xor(x, y));
  }

  lemma {:induction false} BitStepsInjective(a: bv32, b: bv32, n: nat)
    ensures BitSteps(a, n) == BitSteps(b, n) ==> a == b
    decreases n
  {
    if n > 0 {
      BitStepInjective(a, b);
      BitStepsInjective(BitStep(a), BitStep(b), n - 1);
    }
  }

  lemma {:induction false} BitStepsLinear(a: bv32, b: bv32, n: nat)
    ensures BitSteps(Xor(a, b), n) == Xor(BitSteps(a, n), BitSteps(b, n))
    decreases n
  {
    hide BitStep, Xor;
    if n > 0 {
      BitStepLinear(a, b);
      BitStepsLinear(BitStep(a), BitStep(b), n - 1);
    }
  }

  lemma {:induction false} BitStepsAdd(c: bv32, m: nat, n: nat)
    ensures BitSteps(c, m + n) == BitSteps(BitSteps(c, m), n)
    decreases m
  {
    if m > 0 {
      BitStepsAdd(BitStep(c), m - 1, n);
    }
  }

  function Ones(k: nat): bv32 {
    if k == 0 then 0 else Xor(Double(Ones(k - 1)), 1)
  }

  lemma {:induction false} DigitsBound(n: nat, k: nat)
    requires k <= 8
    ensures Digits(n, k) <= Ones(k) <= 0xFF
    decreases k
  {
    hide Xor, Double;
    if k > 0 {
      DigitsBound(n / 2, k - 1);
      AppendDigit(Digits(n / 2, k - 1), Ones(k - 1), if n % 2 == 1 then 1 else 0);
    }
    OnesBelow(k);
  }

  lemma AppendDigit(x: bv32, y: bv32, d: bv32)
    requires x <= y <= 0xFF && d <= 1
    ensures Xor(Double(x), d) <= Xor(Double(y), 1)
  {
  }

  lemma OnesBelow(k: nat)
    requires k <= 8
    ensures Ones(k) <= 0xFF
  {
    assert Ones(1) == 0x1 && Ones(2) == 0x3;
    assert Ones(3) == 0x7 && Ones(4) == 0xF;
    assert Ones(5) == 0x1F && Ones(6) == 0x3F;
    assert Ones(7) == 0x7F && Ones(8) == 0xFF;
  }

  lemma LastDigit(x: bv32, p: bv32, y: bv32, q: bv32)
    requires x <= 0xFF && y <= 0xFF && p <= 1 && q <= 1
    ensures Xor(Double(x), p) == Xor(Double(y), q) ==> x == y && p == q
  {
  }

  lemma {:induction false} DigitsInjective(m: nat, n: nat, k: nat)
    requires k <= 8 && m < PowerOfTwo(k) && n < PowerOfTwo(k)
    ensures Digits(m, k) == Digits(n, k) ==> m == n
    decreases k
  {
    hide Xor, Double;
    if k > 0 {
      DigitsBound(m / 2, k - 1);
      DigitsBound(n / 2, k - 1);
      LastDigit(Digits(m / 2, k - 1), if m % 2 == 1 then 1 else 0, Digits(n / 2, k - 1), if n % 2 == 1 then 1 else 0);
      DigitsInjective(m / 2, n / 2, k - 1);
    }
  }

  lemma WordInjective(a: Byte, b: Byte)
    ensures Word(a) == Word(b) ==> a == b
    ensures Word(a) <= 0xFF
  {
    hide Xor, Double;
    assert PowerOfTwo(4) == 16 && PowerOfTwo(6) == 64 && PowerOfTwo(8) == 256;
    DigitsBound(a, 8);
    DigitsInjective(a, b, 8);
  }

  /** Up to four bytes, the first in the lowest position. */
  function Pack(bytes: seq<Byte>): bv32 {
    if bytes == [] then 0 else Xor(Shift8(Pack(bytes[1..])), Word(bytes[0]))
  }

  function Shift8(c: bv32): bv32 {
    c << 8
  }

  lemma DoubleUndone(c: bv32)
    requires c <= 0x7FFF_FFFF
    ensures BitStep(Double(c)) == c
  {
  }

  lemma EightDoublings(c: bv32)
    requires c <= 0x00FF_FFFF
    ensures var d4 := Double(Double(Double(Double(c)))); Double(Double(Double(Double(d4)))) == Shift8(c)
    ensures Double(c) <= 0x7FFF_FFFF && Double(Double(c)) <= 0x7FFF_FFFF && Double(Double(Double(c))) <= 0x7FFF_FFFF
    ensures var d4 := Double(Double(Double(Double(c))));
            d4 <= 0x7FFF_FFFF && Double(d4) <= 0x7FFF_FFFF
            && Double(Double(d4)) <= 0x7FFF_FFFF && Double(Double(Double(d4))) <= 0x7FFF_FFFF
  {
  }

  /** Three bytes moved up by one byte come down again in eight bit steps that never meet the polynomial. */
  lemma EightStepsUndoShift(c: bv32)
    requires c <= 0x00FF_FFFF
    ensures BitSteps(Shift8(c), 8) == c
  {
    EightDoublings(c);
    hide BitStep, Shift8, Double;
    var d1 := Double(c);
    var d2 := Double(d1);
    var d3 := Double(d2);
    var d4 := Double(d3);
    var d5 := Double(d4);
    var d6 := Double(d5);
    var d7 := Double(d6);
    DoubleUndone(d7);
    DoubleUndone(d6);
    DoubleUndone(d5);
    DoubleUndone(d4);
    DoubleUndone(d3);
    DoubleUndone(d2);
    DoubleUndone(d1);
    DoubleUndone(c);
    assert BitSteps(Double(d7), 8) == BitSteps(d7, 7) == BitSteps(d6, 6) == BitSteps(d5, 5) == BitSteps(d4, 4);
    assert BitSteps(d4, 4) == BitSteps(d3, 3) == BitSteps(d2, 2) == BitSteps(d1, 1) == BitSteps(c, 0);
  }

  /** Packing up to four bytes loses nothing. */
  lemma {:induction false} PackInjective(xs: seq<Byte>, ys: seq<Byte>)
    requires |xs| == |ys| <= 4
    ensures Pack(xs) == Pack(ys) ==> xs == ys
  {
    hide Xor, Shift8, Word;
    if xs != [] {
      PackBound(xs[1..]);
      PackBound(ys[1..]);
      LimitBound(|xs| - 1);
      WordInjective(xs[0], ys[0]);
      WordInjective(ys[0], xs[0]);
      Unpack(Pack(xs[1..]), Word(xs[0]), Pack(ys[1..]), Word(ys[0]));
      PackInjective(xs[1..], ys[1..]);
    }
  }

  lemma Unpack(a: bv32, x: bv32, b: bv32, y: bv32)
    requires a <= 0x00FF_FFFF && b <= 0x00FF_FFFF && x <= 0xFF && y <= 0xFF
    ensures Xor(Shift8(a), x) == Xor(Shift8(b), y) ==> a == b && x == y
  {
  }

  function Limit(n: nat): bv32 {
    if n == 0 then 0 else if n == 1 then 0xFF else if n == 2 then 0xFFFF else 0x00FF_FFFF
  }

  lemma {:induction false} PackBound(xs: seq<Byte>)
    requires |xs| <= 3
    ensures Pack(xs) <= Limit(|xs|)
  {
    hide Xor, Shift8, Word;
    if xs != [] {
      PackBound(xs[1..]);
      WordInjective(xs[0], 0);
      PackGrows(Pack(xs[1..]), Word(xs[0]), |xs|);
    }
  }

  lemma PackGrows(c: bv32, x: bv32, n: nat)
    requires 1 <= n <= 3 && c <= Limit(n - 1) && x <= 0xFF
    ensures Xor(Shift8(c), x) <= Limit(n)
  {
  }

  /** Up to four bytes have the same effect as one word that is divided bit by bit. */
  lemma {:induction false} FeedIsDivision(c: bv32, bytes: seq<Byte>)
    requires |bytes| <= 4
    ensures Feed(c, bytes) == BitSteps(Xor(c, Pack(bytes)), 8 * |bytes|)
    decreases |bytes|
  {
    hide Xor, Shift8, BitStep, Word;
    if bytes == [] {
      XorSelf(c);
    } else {
      var w, rest := Word(bytes[0]), bytes[1..];
      var r := Pack(rest);
      FeedIsDivision(ByteStep(c, bytes[0]), rest);
      PackBound(rest);
      LimitBound(|rest|);
      EightStepsUndoShift(r);
      BitStepsLinear(Xor(c, w), Shift8(r), 8);
      XorAssociative(c, w, Shift8(r));
      XorCommutative(w, Shift8(r));
      BitStepsAdd(Xor(c, Pack(bytes)), 8, 8 * |rest|);
    }
  }

  lemma LimitBound(n: nat)
    ensures Limit(n) <= 0x00FF_FFFF
  {
  }

  lemma {:induction false} FeedInjective(c: bv32, d: bv32, bytes: seq<Byte>)
    ensures Feed(c, bytes) == Feed(d, bytes) ==> c == d
    decreases |bytes|
  {
    hide Xor, BitStep, Word;
    if bytes != [] {
      var w := Word(bytes[0]);
      FeedInjective(ByteStep(c, bytes[0]), ByteStep(d, bytes[0]), bytes[1..]);
      BitStepsInjective(Xor(c, w), Xor(d, w), 8);
      XorRightInjective(c, d, w);
    }
  }

  lemma XorRightInjective(c: bv32, d: bv32, w: bv32)
    ensures Xor(c, w) == Xor(d, w) ==> c == d
    ensures Xor(w, c) == Xor(w, d) ==> c == d
  {
  }

  /**
   Two streams of equal length that differ, but only inside a window of four consecutive bytes, have different
   checksums.
   */
  lemma FourByteBurstDetected(before: seq<Byte>, xs: seq<Byte>, ys: seq<Byte>, after: seq<Byte>)
    requires |xs| == |ys| <= 4 && xs != ys
    ensures Feed(0xFFFF_FFFF, before + xs + after) != Feed(0xFFFF_FFFF, before + ys + after)
  {
    hide Feed, Xor, Pack;
    var c := Feed(0xFFFF_FFFF, before);
    FeedConcat(0xFFFF_FFFF, before, xs);
    FeedConcat(0xFFFF_FFFF, before, ys);
    FeedConcat(0xFFFF_FFFF, before + xs, after);
    FeedConcat(0xFFFF_FFFF, before + ys, after);
    FeedInjective(Feed(c, xs), Feed(c, ys), after);
    FeedIsDivision(c, xs);
    FeedIsDivision(c, ys);
    BitStepsInjective(Xor(c, Pack(xs)), Xor(c, Pack(ys)), 8 * |xs|);
    XorRightInjective(Pack(xs), Pack(ys), c);
    PackInjective(xs, ys);
  }

  // ---------------------------------------------------------------- the checksum as four bytes

  function DigitsValue(x: bv32, k: nat): (n: nat)
    ensures n < PowerOfTwo(k)
    decreases k
  {
    if k == 0 then 0 else 2 * DigitsValue(Half(x), k - 1) + if Odd(x) then 1 else 0
  }

  lemma {:induction false} DigitsOfValue(x: bv32, k: nat)
    requires k <= 8 && x <= Ones(k)
    ensures Digits(DigitsValue(x, k), k) == x
    decreases k
  {
    hide Xor, Double, Half, Odd, PowerOfTwo, DigitsValue;
    if k == 0 {
      ZeroOnly(x);
    } else {
      OnesBelow(k - 1);
      HalfBound(x, Ones(k - 1));
      DigitsOfValue(Half(x), k - 1);
      HalfAndOdd(x);
      ValueSplits(x, k);
    }
  }

  lemma ValueSplits(x: bv32, k: nat)
    requires k > 0
    ensures DigitsValue(x, k) / 2 == DigitsValue(Half(x), k - 1)
    ensures DigitsValue(x, k) % 2 == 1 <==> Odd(x)
  {
    hide PowerOfTwo, Half, Odd;
  }

  lemma ZeroOnly(x: bv32)
    requires x <= 0
    ensures x == 0
  {
  }

  lemma HalfBound(x: bv32, y: bv32)
    requires y <= 0xFF && x <= Xor(Double(y), 1)
    ensures Half(x) <= y
  {
  }

  lemma HalfAndOdd(x: bv32)
    ensures Xor(Double(Half(x)), if Odd(x) then 1 else 0) == x
  {
  }

  function LowByte(c: bv32): Byte {
    assert PowerOfTwo(4) == 16 && PowerOfTwo(6) == 64 && PowerOfTwo(8) == 256;
    DigitsValue(Low(c), 8)
  }

  function Low(c: bv32): bv32 {
    c & 0xFF
  }

  function Drop8(c: bv32): bv32 {
    c >> 8
  }

  /** The n low bytes of a word, lowest first. */
  function Bytes(c: bv32, n: nat): (r: seq<Byte>)
    ensures |r| == n
    decreases n
  {
    if n == 0 then [] else [LowByte(c)] + Bytes(Drop8(c), n - 1)
  }

  function BytesLimit(n: nat): bv32 {
    if n >= 4 then 0xFFFF_FFFF else Limit(n)
  }

  lemma {:induction false} PackBytes(c: bv32, n: nat)
    requires n <= 4 && c <= BytesLimit(n)
    ensures Pack(Bytes(c, n)) == c
    decreases n
  {
    hide Xor, Shift8, Low, Drop8;
    if n == 0 {
      ZeroOnly(c);
    } else {
      DropBound(c, n);
      PackBytes(Drop8(c), n - 1);
      LowBound(c);
      OnesAll();
      DigitsOfValue(Low(c), 8);
      assert Bytes(c, n)[1..] == Bytes(Drop8(c), n - 1);
      SplitLow(c);
    }
  }

  lemma OnesAll()
    ensures Ones(8) == 0xFF
  {
    assert Ones(2) == 0x3 && Ones(4) == 0xF && Ones(6) == 0x3F;
  }

  lemma LowBound(c: bv32)
    ensures Low(c) <= 0xFF
  {
  }

  lemma DropBound(c: bv32, n: nat)
    requires 1 <= n <= 4 && c <= BytesLimit(n)
    ensures Drop8(c) <= BytesLimit(n - 1)
  {
  }

  lemma SplitLow(c: bv32)
    ensures Xor(Shift8(Drop8(c)), Low(c)) == c
  {
  }

  /** A checksum written as four bytes reads back as itself. */
  lemma ChecksumBytes(c: bv32)
    ensures Pack(Bytes(c, 4)) == c
  {
    AnyBelow(c);
    PackBytes(c, 4);
  }

  lemma AnyBelow(c: bv32)
    ensures c <= 0xFFFF_FFFF
  {
  }

  // ---------------------------------------------------------------- the checksum as a remainder

  /** x^32 + x^26 + x^23 + x^22 + x^16 + x^12 + x^11 + x^10 + x^8 + x^7 + x^5 + x^4 + x^2 + x + 1 */
  const GENERATOR: Polynomial := {32, 26, 23, 22, 16, 12, 11, 10, 8, 7, 5, 4, 2, 1, 0}

  /** The low k bits of a word, lowest first. */
  function RegisterBits(c: bv32, k: nat): (r: seq<bool>)
    ensures |r| == k
    decreases k
  {
    if k == 0 then [] else [Odd(c)] + RegisterBits(Half(c), k - 1)
  }

  /** A word as a polynomial: its lowest bit is the coefficient of x^31. */
  function Coefficients(c: bv32): Polynomial {
    Poly(RegisterBits(c, 32))
  }

  /** The low k bits of a number, lowest first. */
  function NumberBits(n: nat, k: nat): (r: seq<bool>)
    ensures |r| == k
    decreases k
  {
    if k == 0 then [] else [n % 2 == 1] + NumberBits(n / 2, k - 1)
  }

  /** The bits of a stream, of each byte the lowest first. */
  function StreamBits(bytes: seq<Byte>): (r: seq<bool>)
    ensures |r| == 8 * |bytes|
  {
    if bytes == [] then [] else NumberBits(bytes[0], 8) + StreamBits(bytes[1..])
  }

  function FirstFlipped(bits: seq<bool>, n: nat): (r: seq<bool>)
    ensures |r| == |bits|
  {
    seq(|bits|, i requires 0 <= i < |bits| => if i < n then !bits[i] else bits[i])
  }

  function Zeros(n: nat): (r: seq<bool>)
    ensures |r| == n
  {
    seq(n, _ => false)
  }

  /** What section 8 of RFC 1952 divides: the bits followed by 32 zeros, the first 32 complemented. */
  function Dividend(bytes: seq<Byte>): Polynomial {
    Poly(FirstFlipped(StreamBits(bytes) + Zeros(32), 32))
  }

  /** The complement of the word is the remainder of the stream modulo the generator. */
  ghost predicate IsCrc32(bytes: seq<Byte>, crc: bv32) {
    IsRemainder(Dividend(bytes), Coefficients(!crc), GENERATOR, 32)
  }

  // ---------------------------------------------------------------- words as polynomials

  lemma {:induction false} BitsOfXor(a: bv32, b: bv32, k: nat, i: nat)
    requires i < k
    ensures RegisterBits(Xor(a, b), k)[i] == (RegisterBits(a, k)[i] != RegisterBits(b, k)[i])
    decreases k
  {
    hide Xor, Half, Odd;
    HalfXor(a, b);
    if i > 0 {
      BitsOfXor(Half(a), Half(b), k - 1, i - 1);
    }
  }

  lemma CoefficientsOfXor(a: bv32, b: bv32)
    ensures Coefficients(Xor(a, b)) == Plus(Coefficients(a), Coefficients(b))
  {
    hide Xor, RegisterBits, Poly;
    forall e: nat ensures e in Coefficients(Xor(a, b)) <==> e in Plus(Coefficients(a), Coefficients(b)) {
      InPoly(RegisterBits(Xor(a, b), 32), e);
      InPoly(RegisterBits(a, 32), e);
      InPoly(RegisterBits(b, 32), e);
      if e < 32 {
        BitsOfXor(a, b, 32, 31 - e);
      }
    }
  }

  lemma {:induction false} BitsSplit(c: bv32, m: nat, n: nat)
    ensures RegisterBits(c, m + n) == RegisterBits(c, m) + RegisterBits(Halves(c, m), n)
    decreases m
  {
    hide Half, Odd;
    if m > 0 {
      BitsSplit(Half(c), m - 1, n);
    }
  }

  function Halves(c: bv32, n: nat): bv32
    decreases n
  {
    if n == 0 then c else Halves(Half(c), n - 1)
  }

  lemma {:induction false} HalvesAdd(c: bv32, m: nat, n: nat)
    ensures Halves(c, m + n) == Halves(Halves(c, m), n)
    decreases m
  {
    hide Half;
    if m > 0 {
      HalvesAdd(Half(c), m - 1, n);
    }
  }

  lemma EightShifts(c: bv32)
    ensures Half(Half(Half(Half(Half(Half(Half(Half(c)))))))) == Drop8(c)
  {
  }

  lemma FourDrops(c: bv32)
    ensures Drop8(Drop8(Drop8(Drop8(c)))) == 0
  {
  }

  lemma HalvesDrop(c: bv32, n: nat)
    ensures Halves(c, 8 + n) == Halves(Drop8(c), n)
  {
    EightShifts(c);
    hide Half, Drop8;
    var c4 := Half(Half(Half(Half(c))));
    assert Halves(c, 4) == c4;
    assert Halves(c4, 4) == Half(Half(Half(Half(c4))));
    HalvesAdd(c, 4, 4);
    HalvesAdd(c, 8, n);
  }

  lemma NothingLeft(c: bv32)
    ensures Halves(c, 32) == 0
  {
    FourDrops(c);
    hide Half, Drop8;
    HalvesDrop(c, 24);
    HalvesDrop(Drop8(c), 16);
    HalvesDrop(Drop8(Drop8(c)), 8);
    HalvesDrop(Drop8(Drop8(Drop8(c))), 0);
  }

  lemma ZeroIsEven()
    ensures !Odd(0) && Half(0) == 0
  {
  }

  lemma BitsCons(c: bv32, k: nat)
    requires k > 0
    ensures RegisterBits(c, k) == [Odd(c)] + RegisterBits(Half(c), k - 1)
  {
  }

  /** Half of a word: its bits move by one place. */
  lemma BitsOfHalf(c: bv32)
    ensures RegisterBits(Half(c), 32) == RegisterBits(c, 32)[1..] + [false]
  {
    hide Half, Odd, RegisterBits, Halves;
    NothingLeft(c);
    ZeroIsEven();
    BitsSplit(c, 32, 1);
    BitsCons(0, 1);
    BitsCons(c, 32);
    BitsCons(c, 33);
    assert RegisterBits(c, 33)[1..] == RegisterBits(Half(c), 32);
    assert (RegisterBits(c, 32) + RegisterBits(0, 1))[1..] == RegisterBits(c, 32)[1..] + RegisterBits(0, 1);
    assert RegisterBits(Half(0), 0) == [];
  }

  lemma PolySingle(b: bool)
    ensures Poly([b]) == if b then {0} else {}
  {
    hide Poly;
    forall e: nat ensures e in Poly([b]) <==> b && e == 0 {
      InPoly([b], e);
    }
  }

  /** Multiplying by x moves the highest coefficient out of the word. */
  lemma CoefficientsOfHalf(c: bv32)
    ensures Shift(Coefficients(c), 1) == Plus(if Odd(c) then {32} else {}, Coefficients(Half(c)))
  {
    hide Half, Odd, Poly, Plus, Shift, RegisterBits;
    BitsOfHalf(c);
    var bits := RegisterBits(c, 32);
    var rest := bits[1..];
    FirstBit(c);
    assert bits == [Odd(c)] + rest;
    PolyConcat([Odd(c)], rest);
    PolyConcat(rest, [false]);
    PolySingle(false);
    PolySingle(Odd(c));
    PlusSelf(Shift(Poly(rest), 1));
    ShiftPlus(Shift(Poly([Odd(c)]), 31), Poly(rest), 1);
    ShiftTwice(Poly([Odd(c)]), 31, 1);
    ShiftEmpty(32);
    ShiftOne(32);
  }

  lemma FirstBit(c: bv32)
    ensures RegisterBits(c, 32)[0] == Odd(c)
  {
  }

  lemma ShiftOne(k: nat)
    ensures Shift({0}, k) == {k}
  {
    hide Shift;
    forall e: nat ensures e in Shift({0}, k) <==> e == k {
      InShift({0}, k, e);
    }
  }

  lemma PolynomialBits0()
    ensures RegisterBits(0xedb88320, 8) == [false, false, false, false, false, true, false, false]
    ensures Halves(0xedb88320, 8) == 0x00edb883
  {
    // the word, halved eight times
    assert Half(0xedb88320) == 0x76dc4190 && !Odd(0xedb88320);
    assert Half(0x76dc4190) == 0x3b6e20c8 && !Odd(0x76dc4190);
    assert Half(0x3b6e20c8) == 0x1db71064 && !Odd(0x3b6e20c8);
    assert Half(0x1db71064) == 0x0edb8832 && !Odd(0x1db71064);
    assert Half(0x0edb8832) == 0x076dc419 && !Odd(0x0edb8832);
    assert Half(0x076dc419) == 0x03b6e20c && Odd(0x076dc419);
    assert Half(0x03b6e20c) == 0x01db7106 && !Odd(0x03b6e20c);
    assert Half(0x01db7106) == 0x00edb883 && !Odd(0x01db7106);
  }

  lemma PolynomialBits1()
    ensures RegisterBits(0x00edb883, 8) == [true, true, false, false, false, false, false, true]
    ensures Halves(0x00edb883, 8) == 0x0000edb8
  {
    // the word, halved eight times
    assert Half(0x00edb883) == 0x0076dc41 && Odd(0x00edb883);
    assert Half(0x0076dc41) == 0x003b6e20 && Odd(0x0076dc41);
    assert Half(0x003b6e20) == 0x001db710 && !Odd(0x003b6e20);
    assert Half(0x001db710) == 0x000edb88 && !Odd(0x001db710);
    assert Half(0x000edb88) == 0x00076dc4 && !Odd(0x000edb88);
    assert Half(0x00076dc4) == 0x0003b6e2 && !Odd(0x00076dc4);
    assert Half(0x0003b6e2) == 0x0001db71 && !Odd(0x0003b6e2);
    assert Half(0x0001db71) == 0x0000edb8 && Odd(0x0001db71);
  }

  lemma PolynomialBits2()
    ensures RegisterBits(0x0000edb8, 8) == [false, false, false, true, true, true, false, true]
    ensures Halves(0x0000edb8, 8) == 0x000000ed
  {
    // the word, halved eight times
    assert Half(0x0000edb8) == 0x000076dc && !Odd(0x0000edb8);
    assert Half(0x000076dc) == 0x00003b6e && !Odd(0x000076dc);
    assert Half(0x00003b6e) == 0x00001db7 && !Odd(0x00003b6e);
    assert Half(0x00001db7) == 0x00000edb && Odd(0x00001db7);
    assert Half(0x00000edb) == 0x0000076d && Odd(0x00000edb);
    assert Half(0x0000076d) == 0x000003b6 && Odd(0x0000076d);
    assert Half(0x000003b6) == 0x000001db && !Odd(0x000003b6);
    assert Half(0x000001db) == 0x000000ed && Odd(0x000001db);
  }

  lemma PolynomialBits3()
    ensures RegisterBits(0x000000ed, 8) == [true, false, true, true, false, true, true, true]
    ensures Halves(0x000000ed, 8) == 0x00000000
  {
    // the word, halved eight times
    assert Half(0x000000ed) == 0x00000076 && Odd(0x000000ed);
    assert Half(0x00000076) == 0x0000003b && !Odd(0x00000076);
    assert Half(0x0000003b) == 0x0000001d && Odd(0x0000003b);
    assert Half(0x0000001d) == 0x0000000e && Odd(0x0000001d);
    assert Half(0x0000000e) == 0x00000007 && !Odd(0x0000000e);
    assert Half(0x00000007) == 0x00000003 && Odd(0x00000007);
    assert Half(0x00000003) == 0x00000001 && Odd(0x00000003);
    assert Half(0x00000001) == 0x00000000 && Odd(0x00000001);
  }

  const LOW_BITS: seq<bool> :=
    [false, false, false, false, false, true, false, false, true, true, false, false, false, false, false, true]
  const HIGH_BITS: seq<bool> :=
    [false, false, false, true, true, true, false, true, true, false, true, true, false, true, true, true]

  lemma PolynomialBits()
    ensures RegisterBits(POLYNOMIAL, 32) == LOW_BITS + HIGH_BITS
  {
    hide Half, Odd, RegisterBits, Halves;
    PolynomialBits0();
    PolynomialBits1();
    PolynomialBits2();
    PolynomialBits3();
    BitsSplit(0xEDB88320, 8, 24);
    BitsSplit(0x00EDB883, 8, 16);
    BitsSplit(0x0000EDB8, 8, 8);
  }

  /** The constant of the source is the generator without its highest power, the lowest bit first. */
  lemma PolynomialIsGenerator()
    ensures Coefficients(POLYNOMIAL) == GENERATOR - {32}
  {
    hide Poly, RegisterBits;
    PolynomialBits();
    forall e: nat ensures e in Coefficients(POLYNOMIAL) <==> e in GENERATOR - {32} {
      InPoly(LOW_BITS + HIGH_BITS, e);
    }
  }

  /** One bit of the division multiplies by x, modulo the generator. */
  lemma BitStepTimesX(c: bv32)
    ensures Congruent(Shift(Coefficients(c), 1), Coefficients(BitStep(c)), GENERATOR)
  {
    hide Half, Odd, Coefficients, Shift, Xor;
    CoefficientsOfHalf(c);
    if Odd(c) {
      CoefficientsOfXor(Half(c), POLYNOMIAL);
      PolynomialIsGenerator();
      TimesOne(GENERATOR);
      var h := Coefficients(Half(c));
      assert Plus(Plus({32}, h), Plus(h, GENERATOR - {32})) == GENERATOR;
      assert Times([true], GENERATOR) == Plus(Shift(Coefficients(c), 1), Coefficients(BitStep(c)));
    } else {
      PlusSelf(Coefficients(Half(c)));
      CongruentSelf(Coefficients(Half(c)), GENERATOR);
    }
  }

  lemma TimesOne(g: Polynomial)
    ensures Times([true], g) == g
  {
    hide Shift;
    ShiftNone(g);
    assert [true][..0] == [];
  }

  lemma {:induction false} BitStepsTimesX(c: bv32, n: nat)
    ensures Congruent(Shift(Coefficients(c), n), Coefficients(BitSteps(c, n)), GENERATOR)
    decreases n
  {
    hide BitStep, Coefficients, Shift, Congruent;
    if n == 0 {
      ShiftNone(Coefficients(c));
      CongruentSelf(Coefficients(c), GENERATOR);
    } else {
      BitStepTimesX(c);
      CongruentShift(Shift(Coefficients(c), 1), Coefficients(BitStep(c)), GENERATOR, n - 1);
      ShiftTwice(Coefficients(c), 1, n - 1);
      BitStepsTimesX(BitStep(c), n - 1);
      CongruentTrans(Shift(Coefficients(c), n), Shift(Coefficients(BitStep(c)), n - 1), Coefficients(BitSteps(c, n)), GENERATOR);
    }
  }

  // ---------------------------------------------------------------- streams as polynomials

  lemma {:induction false} BitsOfDigits(n: nat, k: nat)
    requires k <= 8
    ensures RegisterBits(Digits(n, k), k) == NumberBits(n, k)
    ensures Halves(Digits(n, k), k) == 0
    decreases k
  {
    hide Xor, Double, Half, Odd;
    if k > 0 {
      DigitsBound(n / 2, k - 1);
      Undigit(Digits(n / 2, k - 1), n % 2 == 1);
      BitsOfDigits(n / 2, k - 1);
    }
  }

  lemma Undigit(x: bv32, d: bool)
    requires x <= 0xFF
    ensures Half(Xor(Double(x), if d then 1 else 0)) == x && Odd(Xor(Double(x), if d then 1 else 0)) == d
  {
  }

  lemma {:induction false} BitsOfZero(k: nat)
    ensures RegisterBits(0, k) == Zeros(k)
    decreases k
  {
    hide Half, Odd;
    ZeroIsEven();
    if k > 0 {
      BitsOfZero(k - 1);
    }
  }

  lemma PolyZeros(k: nat)
    ensures Poly(Zeros(k)) == {}
  {
    hide Poly;
    forall e: nat ensures e !in Poly(Zeros(k)) {
      InPoly(Zeros(k), e);
    }
  }

  /** A byte enters the register at the high end. */
  lemma CoefficientsOfWord(b: Byte)
    ensures Coefficients(Word(b)) == Shift(Poly(NumberBits(b, 8)), 24)
  {
    hide RegisterBits, Halves, NumberBits, Poly, Digits, Shift, Plus;
    BitsOfDigits(b, 8);
    BitsSplit(Word(b), 8, 24);
    BitsOfZero(24);
    PolyConcat(NumberBits(b, 8), Zeros(24));
    PolyZeros(24);
    PlusSelf(Shift(Poly(NumberBits(b, 8)), 24));
  }

  /** A byte: the register times x^8, plus the byte times x^32. */
  lemma ByteStepDivides(c: bv32, b: Byte)
    ensures Congruent(Plus(Shift(Coefficients(c), 8), Shift(Poly(NumberBits(b, 8)), 32)), Coefficients(ByteStep(c, b)), GENERATOR)
  {
    hide Coefficients, Shift, Plus, Poly, NumberBits, Congruent, Xor, Word, BitSteps;
    CoefficientsOfXor(c, Word(b));
    CoefficientsOfWord(b);
    ShiftPlus(Coefficients(c), Coefficients(Word(b)), 8);
    ShiftTwice(Poly(NumberBits(b, 8)), 24, 8);
    BitStepsTimesX(Xor(c, Word(b)), 8);
  }

  /** A stream: the register times x^8 for each byte, plus the stream times x^32. */
  lemma {:induction false} FeedDivides(c: bv32, bytes: seq<Byte>)
    ensures Congruent(Plus(Shift(Coefficients(c), 8 * |bytes|), Shift(Poly(StreamBits(bytes)), 32)),
                      Coefficients(Feed(c, bytes)), GENERATOR)
    decreases |bytes|
  {
    hide Coefficients, Shift, Plus, Poly, NumberBits, Congruent, ByteStep;
    if bytes == [] {
      ShiftNone(Coefficients(c));
      PolyZeros(0);
      assert Zeros(0) == [];
      ShiftEmpty(32);
      PlusSelf(Coefficients(c));
      CongruentSelf(Coefficients(c), GENERATOR);
    } else {
      var first, rest := bytes[0], bytes[1..];
      var d, n := ByteStep(c, first), 8 * |rest|;
      var p, q := Poly(NumberBits(first, 8)), Poly(StreamBits(rest));
      ByteStepDivides(c, first);
      FeedDivides(d, rest);
      var sum := Plus(Shift(Coefficients(c), 8), Shift(p, 32));
      CongruentShift(sum, Coefficients(d), GENERATOR, n);
      CongruentPlus(Shift(sum, n), Shift(Coefficients(d), n), Shift(q, 32), GENERATOR);
      StreamSplits(Coefficients(c), first, rest);
      CongruentTrans(Plus(Shift(sum, n), Shift(q, 32)), Plus(Shift(Coefficients(d), n), Shift(q, 32)),
        Coefficients(Feed(c, bytes)), GENERATOR);
    }
  }

  lemma StreamSplits(r: Polynomial, first: Byte, rest: seq<Byte>)
    ensures var n, p, q := 8 * |rest|, Poly(NumberBits(first, 8)), Poly(StreamBits(rest));
      Plus(Shift(Plus(Shift(r, 8), Shift(p, 32)), n), Shift(q, 32))
      == Plus(Shift(r, 8 + n), Shift(Poly(NumberBits(first, 8) + StreamBits(rest)), 32))
  {
    hide Shift, Plus, Poly, NumberBits, StreamBits;
    var n, p, q := 8 * |rest|, Poly(NumberBits(first, 8)), Poly(StreamBits(rest));
    ShiftPlus(Shift(r, 8), Shift(p, 32), n);
    ShiftTwice(r, 8, n);
    ShiftTwice(p, 32, n);
    ShiftTwice(p, n, 32);
    PolyConcat(NumberBits(first, 8), StreamBits(rest));
    ShiftPlus(Shift(p, n), q, 32);
    PlusAssociative(Shift(r, 8 + n), Shift(p, 32 + n), Shift(q, 32));
  }

  // ---------------------------------------------------------------- the initial register

  function AllOnes(n: nat): (r: seq<bool>)
    ensures |r| == n
  {
    seq(n, _ => true)
  }

  lemma EightOdd(c: bv32)
    requires Low(c) == 0xFF
    ensures Odd(c) && Odd(Half(c)) && Odd(Half(Half(c))) && Odd(Half(Half(Half(c))))
    ensures var d := Half(Half(Half(Half(c)))); Odd(d) && Odd(Half(d)) && Odd(Half(Half(d))) && Odd(Half(Half(Half(d))))
  {
  }

  lemma EightOnes(c: bv32)
    requires Low(c) == 0xFF
    ensures RegisterBits(c, 8) == AllOnes(8)
  {
    EightOdd(c);
    hide Half, Odd, Low;
    var d := Half(Half(Half(Half(c))));
    assert RegisterBits(c, 4) == AllOnes(4) && Halves(c, 4) == d;
    assert RegisterBits(d, 4) == AllOnes(4);
    BitsSplit(c, 4, 4);
  }

  lemma OnesBytes()
    ensures Low(0xFFFF_FFFF) == 0xFF && Drop8(0xFFFF_FFFF) == 0x00FF_FFFF
    ensures Low(0x00FF_FFFF) == 0xFF && Drop8(0x00FF_FFFF) == 0x0000_FFFF
    ensures Low(0x0000_FFFF) == 0xFF && Drop8(0x0000_FFFF) == 0x0000_00FF && Low(0x0000_00FF) == 0xFF
  {
  }

  lemma OnesBits()
    ensures RegisterBits(0xFFFF_FFFF, 32) == AllOnes(32)
  {
    OnesBytes();
    hide Half, Odd, Low, Drop8, RegisterBits, Halves;
    EightOnes(0xFFFF_FFFF);
    EightOnes(0x00FF_FFFF);
    EightOnes(0x0000_FFFF);
    EightOnes(0x0000_00FF);
    HalvesEight(0xFFFF_FFFF);
    HalvesEight(0x00FF_FFFF);
    HalvesEight(0x0000_FFFF);
    BitsSplit(0xFFFF_FFFF, 8, 24);
    BitsSplit(0x00FF_FFFF, 8, 16);
    BitsSplit(0x0000_FFFF, 8, 8);
  }

  lemma HalvesEight(c: bv32)
    ensures Halves(c, 8) == Drop8(c)
  {
    hide Half, Drop8;
    HalvesDrop(c, 0);
  }

  /** Complementing the first 32 bits adds the initial register, moved to the front. */
  lemma FlippingAddsOnes(bits: seq<bool>)
    requires |bits| >= 32
    ensures Poly(FirstFlipped(bits, 32)) == Plus(Shift(Coefficients(0xFFFF_FFFF), |bits| - 32), Poly(bits))
  {
    hide Poly, Shift, RegisterBits;
    OnesBits();
    forall e: nat
      ensures e in Poly(FirstFlipped(bits, 32)) <==> e in Plus(Shift(Coefficients(0xFFFF_FFFF), |bits| - 32), Poly(bits))
    {
      InPoly(bits, e);
      InPoly(FirstFlipped(bits, 32), e);
      InShift(Coefficients(0xFFFF_FFFF), |bits| - 32, e);
      if e >= |bits| - 32 {
        InPoly(AllOnes(32), e - (|bits| - 32));
      }
    }
  }

  /** The register after a stream is the remainder of the stream modulo the generator. */
  lemma FeedIsRemainder(bytes: seq<Byte>)
    ensures IsRemainder(Dividend(bytes), Coefficients(Feed(0xFFFF_FFFF, bytes)), GENERATOR, 32)
  {
    hide Coefficients, Shift, Plus, Poly, StreamBits, Congruent, Feed;
    var bits := StreamBits(bytes);
    FeedDivides(0xFFFF_FFFF, bytes);
    FlippingAddsOnes(bits + Zeros(32));
    PolyConcat(bits, Zeros(32));
    PolyZeros(32);
    PlusSelf(Shift(Poly(bits), 32));
    CoefficientsBelow(Feed(0xFFFF_FFFF, bytes));
  }

  lemma CoefficientsBelow(c: bv32)
    ensures Below(Coefficients(c), 32)
  {
    hide RegisterBits;
  }

  /** The checksum of a record, complemented, is the remainder of its operation, key and payload. */
  lemma ChecksumIsRemainder(op: Byte, key: seq<Byte>, payload: seq<Byte>)
    ensures IsCrc32([op] + key + payload, Checksum(op, key, payload))
  {
    hide Feed, Dividend, Coefficients;
    FeedIsRemainder([op] + key + payload);
    NotNot(Feed(0xFFFF_FFFF, [op] + key + payload));
  }

  lemma NotNot(c: bv32)
    ensures !!c == c
  {
  }

  /** And it is the only word of which that holds. */
  lemma ChecksumIsTheOnly(op: Byte, key: seq<Byte>, payload: seq<Byte>, crc: bv32)
    ensures crc == Checksum(op, key, payload) <==> IsCrc32([op] + key + payload, crc)
  {
    hide Checksum, IsCrc32;
    ChecksumIsRemainder(op, key, payload);
    if IsCrc32([op] + key + payload, crc) {
      OneCrc32([op] + key + payload, crc, Checksum(op, key, payload));
    }
  }

  lemma OneCrc32(bytes: seq<Byte>, a: bv32, b: bv32)
    requires IsCrc32(bytes, a) && IsCrc32(bytes, b)
    ensures a == b
  {
    hide Dividend, Coefficients, IsRemainder;
    RemainderIsUnique(Dividend(bytes), Coefficients(!a), Coefficients(!b), GENERATOR, 32);
    CoefficientsInjective(!a, !b);
    NotInjective(a, b);
  }

  lemma NotInjective(a: bv32, b: bv32)
    ensures !a == !b ==> a == b
  {
  }

  lemma CoefficientsInjective(a: bv32, b: bv32)
    requires Coefficients(a) == Coefficients(b)
    ensures a == b
  {
    hide RegisterBits, Poly;
    forall i | 0 <= i < 32 ensures RegisterBits(a, 32)[i] == RegisterBits(b, 32)[i] {
      InPoly(RegisterBits(a, 32), 31 - i);
      InPoly(RegisterBits(b, 32), 31 - i);
    }
    assert RegisterBits(a, 32) == RegisterBits(b, 32);
    NothingLeft(a);
    NothingLeft(b);
    BitsInjective(a, b, 32);
  }

  lemma {:induction false} BitsInjective(a: bv32, b: bv32, k: nat)
    requires RegisterBits(a, k) == RegisterBits(b, k) && Halves(a, k) == Halves(b, k)
    ensures a == b
    decreases k
  {
    hide Half, Odd, Xor, Double;
    if k > 0 {
      assert RegisterBits(a, k)[1..] == RegisterBits(Half(a), k - 1) && RegisterBits(b, k)[1..] == RegisterBits(Half(b), k - 1);
      assert RegisterBits(a, k)[0] == Odd(a) && RegisterBits(b, k)[0] == Odd(b);
      BitsInjective(Half(a), Half(b), k - 1);
      HalfAndOdd(a);
      HalfAndOdd(b);
    }
  }
}
