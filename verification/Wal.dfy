/**
 The write-ahead log: the bytes that `append` and `append_batch` add to the file, and what `recover` reads back from
 any file, torn or damaged.

 A record is an eleven-byte header (checksum, operation, key length, payload length, little-endian) followed by the
 key and the payload.  A batch is one record whose payload packs a count and the operations, so that a crash leaves
 all of it or none of it.
 */
module Wal {
  import opened Crc

  const BATCH: Byte := 4
  const HEADER_SIZE := 11
  const KEY_LIMIT := 0x1_0000
  const PAYLOAD_LIMIT := 0x1_0000_0000

  /** One operation as handed to the log and handed back by recovery. */
  datatype Op = Op(op: Byte, key: seq<Byte>, value: seq<Byte>)

  /** One call of `append` or of `append_batch`. */
  datatype Entry = Single(op: Op) | Batch(ops: seq<Op>)

  // ---------------------------------------------------------------- integers as bytes

  function LittleEndian(n: nat, width: nat): (r: seq<Byte>)
    ensures |r| == width
    decreases width
  {
    if width == 0 then [] else [n % 256] + LittleEndian(n / 256, width - 1)
  }

  function Number(bytes: seq<Byte>): nat {
    if bytes == [] then 0 else bytes[0] + 256 * Number(bytes[1..])
  }

  function Power(width: nat): nat {
    if width == 0 then 1 else 256 * Power(width - 1)
  }

  lemma {:induction false} NumberRoundTrip(n: nat, width: nat)
    requires n < Power(width)
    ensures Number(LittleEndian(n, width)) == n
    decreases width
  {
    if width > 0 {
      NumberRoundTrip(n / 256, width - 1);
      assert LittleEndian(n, width)[1..] == LittleEndian(n / 256, width - 1);
    }
  }

  lemma {:induction false} NumberBound(bytes: seq<Byte>)
    ensures Number(bytes) < Power(|bytes|)
  {
    if bytes != [] {
      NumberBound(bytes[1..]);
    }
  }

  lemma FieldLimits()
    ensures Power(2) == KEY_LIMIT && Power(4) == PAYLOAD_LIMIT
  {
    assert Power(1) == 256;
    assert Power(3) == 0x100_0000;
  }

  // ---------------------------------------------------------------- writing

  function Header(crc: bv32, op: Byte, keyLength: nat, payloadLength: nat): (r: seq<Byte>)
    ensures |r| == HEADER_SIZE
  {
    Bytes(crc, 4) + [op] + LittleEndian(keyLength % KEY_LIMIT, 2) + LittleEndian(payloadLength % PAYLOAD_LIMIT, 4)
  }

  function Record(op: Byte, key: seq<Byte>, payload: seq<Byte>): seq<Byte> {
    Header(Checksum(op, key, payload), op, |key|, |payload|) + key + payload
  }

  /** An operation inside a batch: lengths that overflow their fields are cut, and so is what is copied. */
  function Item(o: Op): seq<Byte> {
    var keyLength := |o.key| % KEY_LIMIT;
    var valueLength := |o.value| % PAYLOAD_LIMIT;
    [o.op] + LittleEndian(keyLength, 2) + o.key[..keyLength] + LittleEndian(valueLength, 4) + o.value[..valueLength]
  }

  function Items(ops: seq<Op>): seq<Byte> {
    if ops == [] then [] else Item(ops[0]) + Items(ops[1..])
  }

  function ItemsSize(ops: seq<Op>): nat {
    if ops == [] then 0 else 7 + |ops[0].key| + |ops[0].value| + ItemsSize(ops[1..])
  }

  lemma ItemSize(o: Op)
    ensures |Item(o)| == 7 + |o.key| % KEY_LIMIT + |o.value| % PAYLOAD_LIMIT <= 7 + |o.key| + |o.value|
    ensures FitsFields(o) ==> |Item(o)| == 7 + |o.key| + |o.value|
  {
    hide LittleEndian;
  }

  lemma {:induction false} ItemsFitBuffer(ops: seq<Op>)
    ensures |Items(ops)| <= ItemsSize(ops)
    ensures Fit(ops) ==> |Items(ops)| == ItemsSize(ops)
  {
    hide Item, FitsFields;
    if ops != [] {
      ItemsFitBuffer(ops[1..]);
      ItemSize(ops[0]);
      assert Fit(ops) ==> FitsFields(ops[0]);
    }
  }

  /** The payload of a batch: the buffer is sized from the full lengths and what is not written stays zero. */
  function BatchPayload(ops: seq<Op>): (r: seq<Byte>)
    ensures |r| == 4 + ItemsSize(ops)
  {
    ItemsFitBuffer(ops);
    LittleEndian(|ops| % PAYLOAD_LIMIT, 4) + Items(ops) + Zeros(ItemsSize(ops) - |Items(ops)|)
  }

  function Zeros(n: nat): (r: seq<Byte>)
    ensures |r| == n
  {
    seq(n, _ => 0)
  }

  function Encode(e: Entry): seq<Byte> {
    match e
    case Single(o) => Record(o.op, o.key, o.value)
    case Batch(ops) => if ops == [] then [] else Record(BATCH, [], BatchPayload(ops))
  }

  /** The file after a series of calls on an empty log. */
  function Log(es: seq<Entry>): seq<Byte> {
    if es == [] then [] else Encode(es[0]) + Log(es[1..])
  }

  /** The eleven bytes of a header: checksum, low byte first, then operation and lengths. */
  function Layout(crc: bv32, op: Byte, n: nat, m: nat): seq<Byte>
    requires n < KEY_LIMIT && m < PAYLOAD_LIMIT
  {
    Bytes(crc, 4) + [op, n % 256, n / 256, m % 256, m / 256 % 256, m / 0x1_0000 % 256, m / 0x100_0000]
  }

  lemma HeaderLayout(crc: bv32, op: Byte, n: nat, m: nat)
    requires n < KEY_LIMIT && m < PAYLOAD_LIMIT
    ensures Header(crc, op, n, m) == Layout(crc, op, n, m)
  {
    hide Bytes, LittleEndian;
    TwoBytes(n);
    FourBytes(m);
  }

  /** A record is the header, with the CRC-32 of operation, key and payload, then the key and the payload. */
  lemma RecordLayout(op: Byte, key: seq<Byte>, payload: seq<Byte>, crc: bv32)
    requires |key| < KEY_LIMIT && |payload| < PAYLOAD_LIMIT && IsCrc32([op] + key + payload, crc)
    ensures Encode(Single(Op(op, key, payload))) == Layout(crc, op, |key|, |payload|) + key + payload
  {
    hide Checksum, IsCrc32, Layout, Header;
    ChecksumIsTheOnly(op, key, payload, crc);
    HeaderLayout(crc, op, |key|, |payload|);
  }

  lemma TwoBytes(n: nat)
    requires n < KEY_LIMIT
    ensures LittleEndian(n, 2) == [n % 256, n / 256]
  {
    assert LittleEndian(n / 256, 1) == [n / 256];
  }

  lemma FourBytes(n: nat)
    requires n < PAYLOAD_LIMIT
    ensures LittleEndian(n, 4) == [n % 256, n / 256 % 256, n / 0x1_0000 % 256, n / 0x100_0000]
  {
    assert n / 256 / 256 == n / 0x1_0000 && n / 256 / 256 / 256 == n / 0x100_0000;
    assert LittleEndian(n / 256 / 256 / 256, 1) == [n / 0x100_0000];
    assert LittleEndian(n / 256 / 256, 2) == [n / 0x1_0000 % 256, n / 0x100_0000];
    assert LittleEndian(n / 256, 3) == [n / 256 % 256, n / 0x1_0000 % 256, n / 0x100_0000];
  }

  /** A batch is one record of operation 4 without a key; its payload is a count and the operations. */
  lemma BatchLayout(ops: seq<Op>)
    requires ops != [] && Fit(ops) && |ops| < PAYLOAD_LIMIT
    ensures Encode(Batch(ops)) == Encode(Single(Op(4, [], LittleEndian(|ops|, 4) + Items(ops))))
  {
    hide LittleEndian, Record, Items, Fit, BatchPayload;
    WholePayload(ops);
  }

  lemma WholePayload(ops: seq<Op>)
    requires Fit(ops) && |ops| < PAYLOAD_LIMIT
    ensures BatchPayload(ops) == LittleEndian(|ops|, 4) + Items(ops)
  {
    hide LittleEndian, Items, Fit;
    ItemsFitBuffer(ops);
    assert LittleEndian(|ops|, 4) + Items(ops) + Zeros(0) == LittleEndian(|ops|, 4) + Items(ops);
  }

  /** An operation in a batch: its code, the length of its key, the key, the length of its value, the value. */
  lemma ItemLayout(o: Op)
    requires FitsFields(o)
    ensures Item(o) == [o.op] + LittleEndian(|o.key|, 2) + o.key + LittleEndian(|o.value|, 4) + o.value
  {
    hide LittleEndian;
    assert o.key[..|o.key|] == o.key && o.value[..|o.value|] == o.value;
  }

  // ---------------------------------------------------------------- reading

  datatype Scan = Stop | Found(ops: seq<Op>, size: nat)

  function DecodeItems(p: seq<Byte>, count: nat): seq<Op>
    decreases count
  {
    if count == 0 || |p| < 7 then []
    else
      var keyLength := Number(p[1..3]);
      if |p| < 7 + keyLength then []
      else
        var valueLength := Number(p[3 + keyLength..7 + keyLength]);
        var size := 7 + keyLength + valueLength;
        if |p| < size then []
        else [Op(p[0], p[3..3 + keyLength], p[7 + keyLength..size])] + DecodeItems(p[size..], count - 1)
  }

  function DecodeBatch(payload: seq<Byte>): seq<Op> {
    if |payload| >= 4 then DecodeItems(payload[4..], Number(payload[..4])) else []
  }

  /** What recovery makes of the bytes from the current offset to the end of the file. */
  function ReadRecord(rest: seq<Byte>): (r: Scan)
    ensures r.Found? ==> HEADER_SIZE <= r.size <= |rest|
  {
    if |rest| < HEADER_SIZE then Stop
    else
      var crc, op := Pack(rest[..4]), rest[4];
      var keyLength, payloadLength := Number(rest[5..7]), Number(rest[7..11]);
      var size := HEADER_SIZE + keyLength + payloadLength;
      if op == 0 && crc == 0 && keyLength == 0 && payloadLength == 0 then Stop
      else if size > |rest| then Stop
      else
        var key, payload := rest[HEADER_SIZE..HEADER_SIZE + keyLength], rest[HEADER_SIZE + keyLength..size];
        if Checksum(op, key, payload) != crc then Stop
        else Found(if op == BATCH then DecodeBatch(payload) else [Op(op, key, payload)], size)
  }

  datatype Recovered = Recovered(ops: seq<Op>, end: nat)

  function RecoverFrom(rest: seq<Byte>): (r: Recovered)
    ensures r.end <= |rest|
    decreases |rest|
  {
    match ReadRecord(rest)
    case Stop => Recovered([], 0)
    case Found(ops, size) =>
      var after := RecoverFrom(rest[size..]);
      Recovered(ops + after.ops, size + after.end)
  }

  // ---------------------------------------------------------------- the loops

  lemma DecodeOne(p: seq<Byte>, count: nat)
    requires count > 0
    ensures DecodeItems(p, count) ==
      if |p| < 7 then []
      else
        var keyLength := Number(p[1..3]);
        if |p| < 7 + keyLength then []
        else
          var size := 7 + keyLength + Number(p[3 + keyLength..7 + keyLength]);
          if |p| < size then []
          else [Op(p[0], p[3..3 + keyLength], p[7 + keyLength..size])] + DecodeItems(p[size..], count - 1)
  {
    hide Number;
  }

  /** The decoding from a position on, in terms of positions in the whole payload. */
  lemma DecodeAt(payload: seq<Byte>, p: nat, count: nat)
    requires p <= |payload| && count > 0
    ensures DecodeItems(payload[p..], count) ==
      if p + 7 > |payload| then []
      else
        var keyLength := Number(payload[p + 1..p + 3]);
        if p + 7 + keyLength > |payload| then []
        else
          var valueLength := Number(payload[p + 3 + keyLength..p + 7 + keyLength]);
          var next := p + 7 + keyLength + valueLength;
          if next > |payload| then []
          else [Op(payload[p], payload[p + 3..p + 3 + keyLength], payload[p + 7 + keyLength..next])]
               + DecodeItems(payload[next..], count - 1)
  {
    hide Number, DecodeItems;
    var rest := payload[p..];
    DecodeOne(rest, count);
    if |rest| >= 7 {
      assert rest[1..3] == payload[p + 1..p + 3];
      var keyLength := Number(rest[1..3]);
      if |rest| >= 7 + keyLength {
        assert rest[3 + keyLength..7 + keyLength] == payload[p + 3 + keyLength..p + 7 + keyLength];
        var size := 7 + keyLength + Number(rest[3 + keyLength..7 + keyLength]);
        if |rest| >= size {
          assert rest[3..3 + keyLength] == payload[p + 3..p + 3 + keyLength];
          assert rest[7 + keyLength..size] == payload[p + 7 + keyLength..p + size];
          assert rest[size..] == payload[p + size..];
        }
      }
    }
  }

  /** One round of the loop of `recover` over the operations of a batch, from position p; none when it breaks off. */
  method ReadItem(payload: seq<Byte>, p: nat, ghost count: nat) returns (o: Op, next: nat, ok: bool)
    requires p <= |payload| && count > 0
    ensures !ok ==> DecodeItems(payload[p..], count) == []
    ensures ok ==> p < next <= |payload|
    ensures ok ==> DecodeItems(payload[p..], count) == [o] + DecodeItems(payload[next..], count - 1)
  {
    hide Number, DecodeItems;
    DecodeAt(payload, p, count);
    o, next, ok := Op(0, [], []), p, false;
    if p + 7 > |payload| {
      return;
    }
    var op := payload[p];
    var keyLength := Number(payload[p + 1..p + 3]);
    var at := p + 3;
    if at + keyLength + 4 > |payload| {
      return;
    }
    var key := payload[at..at + keyLength];
    at := at + keyLength;
    var valueLength := Number(payload[at..at + 4]);
    at := at + 4;
    if at + valueLength > |payload| {
      return;
    }
    var value := payload[at..at + valueLength];
    at := at + valueLength;
    o, next, ok := Op(op, key, value), at, true;
  }

  /** The loop of `recover` over the operations of a batch. */
  method ReadBatch(payload: seq<Byte>) returns (ops: seq<Op>)
    ensures ops == DecodeBatch(payload)
  {
    hide Number, DecodeItems;
    ops := [];
    if |payload| < 4 {
      return;
    }
    var count, p := Number(payload[..4]), 4;
    var i := 0;
    while i < count
      invariant 0 <= i <= count && 4 <= p <= |payload|
      invariant DecodeBatch(payload) == ops + DecodeItems(payload[p..], count - i)
    {
      var o, next, ok := ReadItem(payload, p, count - i);
      if !ok {
        return;
      }
      Associate(ops, [o], DecodeItems(payload[next..], count - i - 1));
      ops := ops + [o];
      p := next;
      i := i + 1;
    }
    assert DecodeItems(payload[p..], 0) == [] by { NoItems(payload[p..]); }
  }

  lemma NoItems(p: seq<Byte>)
    ensures DecodeItems(p, 0) == []
  {
  }

  /** The loop of `append_batch` that sizes the buffer. */
  method MeasureItems(ops: seq<Op>) returns (size: nat)
    ensures size == 4 + ItemsSize(ops)
  {
    size := 4;
    for i := 0 to |ops|
      invariant size + ItemsSize(ops[i..]) == 4 + ItemsSize(ops)
    {
      size := size + 1 + 2 + |ops[i].key| + 4 + |ops[i].value|;
      assert ops[i..][1..] == ops[i + 1..];
    }
  }

  /** One round of the loop of `append_batch` that packs the operations. */
  method WriteItem(o: Op, written: seq<Byte>) returns (r: seq<Byte>)
    ensures r == written + Item(o)
  {
    hide LittleEndian;
    var keyLength, valueLength := |o.key| % KEY_LIMIT, |o.value| % PAYLOAD_LIMIT;
    r := written + [o.op] + LittleEndian(keyLength, 2) + o.key[..keyLength];
    r := r + LittleEndian(valueLength, 4) + o.value[..valueLength];
  }

  /** The loop of `append_batch` that packs the operations. */
  method WriteItems(ops: seq<Op>) returns (written: seq<Byte>)
    ensures written == LittleEndian(|ops| % PAYLOAD_LIMIT, 4) + Items(ops)
  {
    hide LittleEndian, Item;
    var count := LittleEndian(|ops| % PAYLOAD_LIMIT, 4);
    written := count;
    for i := 0 to |ops|
      invariant written + Items(ops[i..]) == count + Items(ops)
    {
      assert ops[i..][1..] == ops[i + 1..];
      ghost var before := written;
      written := WriteItem(ops[i], written);
      assert written + Items(ops[i + 1..]) == before + Items(ops[i..]);
    }
  }

  method WriteBatch(ops: seq<Op>) returns (payload: seq<Byte>)
    ensures payload == BatchPayload(ops)
  {
    hide Items, ItemsSize, LittleEndian;
    var size := MeasureItems(ops);
    var written := WriteItems(ops);
    ItemsFitBuffer(ops);
    payload := written + Zeros(size - |written|);
  }

  /** The log as an object over its file. */
  class WriteAheadLog {
    var file: seq<Byte>

    constructor (existing: seq<Byte>)
      ensures file == existing
    {
      file := existing;
    }

    method Append(op: Byte, key: seq<Byte>, payload: seq<Byte>)
      modifies this
      ensures file == old(file) + Encode(Single(Op(op, key, payload)))
    {
      hide IsCrc32;
      var crc := ComputeCrc(op, key, payload);
      file := file + (Header(crc, op, |key|, |payload|) + key + payload);
    }

    method AppendBatch(ops: seq<Op>)
      modifies this
      ensures file == old(file) + Encode(Batch(ops))
    {
      hide Checksum, BatchPayload, Header, IsCrc32;
      if ops == [] {
        assert file + [] == file;
        return;
      }
      var payload := WriteBatch(ops);
      var crc := ComputeCrc(BATCH, [], payload);
      file := file + (Header(crc, BATCH, 0, |payload|) + [] + payload);
    }

    /** One round of the loop of `recover`. */
    method ReadAt(offset: nat) returns (r: Scan)
      requires offset <= |file|
      ensures r == ReadRecord(file[offset..])
    {
      hide Checksum, Number, Pack, DecodeBatch, IsCrc32;
      ghost var rest := file[offset..];
      if offset + HEADER_SIZE > |file| {
        return Stop;
      }
      var crc, op := Pack(file[offset..offset + 4]), file[offset + 4];
      var keyLength, payloadLength := Number(file[offset + 5..offset + 7]), Number(file[offset + 7..offset + 11]);
      assert file[offset..offset + 4] == rest[..4];
      assert file[offset + 5..offset + 7] == rest[5..7] && file[offset + 7..offset + 11] == rest[7..11];
      if op == 0 && crc == 0 && keyLength == 0 && payloadLength == 0 {
        return Stop;
      }
      var body, end := offset + HEADER_SIZE, offset + HEADER_SIZE + keyLength + payloadLength;
      if end > |file| {
        return Stop;
      }
      var key, payload := file[body..body + keyLength], file[body + keyLength..end];
      assert key == rest[HEADER_SIZE..HEADER_SIZE + keyLength];
      assert payload == rest[HEADER_SIZE + keyLength..end - offset];
      var actual := ComputeCrc(op, key, payload);
      if actual != crc {
        return Stop;
      }
      if op == BATCH {
        var items := ReadBatch(payload);
        r := Found(items, end - offset);
      } else {
        r := Found([Op(op, key, payload)], end - offset);
      }
    }

    /** Hands back what the file holds and cuts the file where reading stopped. */
    method Recover() returns (ops: seq<Op>)
      modifies this
      ensures ops == RecoverFrom(old(file)).ops
      ensures file == old(file)[..RecoverFrom(old(file)).end]
    {
      hide ReadRecord;
      ops := [];
      var offset := 0;
      while offset < |file|
        invariant 0 <= offset <= |file| && file == old(file)
        invariant RecoverFrom(file).ops == ops + RecoverFrom(file[offset..]).ops
        invariant RecoverFrom(file).end == offset + RecoverFrom(file[offset..]).end
      {
        var next := ReadAt(offset);
        if next.Stop? {
          break;
        }
        assert file[offset..][next.size..] == file[offset + next.size..];
        offset := offset + next.size;
        ops := ops + next.ops;
      }
      if offset == |file| {
        EmptyFile();
        assert file[offset..] == [];
      }
      if offset < |file| {
        file := file[..offset];
      }
    }
  }

  // ---------------------------------------------------------------- what was written is read back

  /** The lengths that the header and item fields can hold. */
  predicate FitsFields(o: Op) {
    |o.key| < KEY_LIMIT && |o.value| < PAYLOAD_LIMIT
  }

  predicate Fit(ops: seq<Op>) {
    forall o <- ops :: FitsFields(o)
  }

  /** The entries that survive the format. */
  predicate Storable(e: Entry) {
    match e
    case Single(o) => FitsFields(o)
    case Batch(ops) => Fit(ops) && 4 + ItemsSize(ops) < PAYLOAD_LIMIT
  }

  /** The source passes named operations only, and `BATCH` only through `append_batch`. */
  predicate Proper(e: Entry) {
    e.Single? ==> e.op.op != 0 && e.op.op != BATCH
  }

  function Delivered(e: Entry): seq<Op> {
    match e
    case Single(o) => [o]
    case Batch(ops) => ops
  }

  function AllDelivered(es: seq<Entry>): seq<Op> {
    if es == [] then [] else Delivered(es[0]) + AllDelivered(es[1..])
  }

  lemma HeaderFields(crc: bv32, op: Byte, keyLength: nat, payloadLength: nat, after: seq<Byte>)
    ensures var f := Header(crc, op, keyLength, payloadLength) + after;
      Pack(f[..4]) == crc && f[4] == op
      && Number(f[5..7]) == keyLength % KEY_LIMIT && Number(f[7..11]) == payloadLength % PAYLOAD_LIMIT
  {
    hide Pack, Bytes, Number, LittleEndian, Power;
    var f := Header(crc, op, keyLength, payloadLength) + after;
    assert f[..4] == Bytes(crc, 4);
    assert f[5..7] == LittleEndian(keyLength % KEY_LIMIT, 2);
    assert f[7..11] == LittleEndian(payloadLength % PAYLOAD_LIMIT, 4);
    ChecksumBytes(crc);
    FieldLimits();
    NumberRoundTrip(keyLength % KEY_LIMIT, 2);
    NumberRoundTrip(payloadLength % PAYLOAD_LIMIT, 4);
  }

  /** Reading a whole record whose lengths fit, with any bytes behind it. */
  lemma ReadWritten(op: Byte, key: seq<Byte>, payload: seq<Byte>, after: seq<Byte>)
    requires op != 0 && |key| < KEY_LIMIT && |payload| < PAYLOAD_LIMIT
    ensures ReadRecord(Record(op, key, payload) + after)
         == Found(if op == BATCH then DecodeBatch(payload) else [Op(op, key, payload)], |Record(op, key, payload)|)
  {
    hide Pack, Number, Header, Checksum, DecodeBatch;
    var header := Header(Checksum(op, key, payload), op, |key|, |payload|);
    var f := Record(op, key, payload) + after;
    assert f == header + (key + payload + after);
    HeaderFields(Checksum(op, key, payload), op, |key|, |payload|, key + payload + after);
    assert f[HEADER_SIZE..HEADER_SIZE + |key|] == key;
    assert f[HEADER_SIZE + |key|..HEADER_SIZE + |key| + |payload|] == payload;
  }

  /** A record cut short anywhere is not read, and the checksum is not what notices it. */
  lemma ReadTorn(op: Byte, key: seq<Byte>, payload: seq<Byte>, n: nat)
    requires |key| < KEY_LIMIT && |payload| < PAYLOAD_LIMIT && n < |Record(op, key, payload)|
    ensures ReadRecord(Record(op, key, payload)[..n]) == Stop
  {
    hide Pack, Number, Header, Checksum, DecodeBatch;
    if n >= HEADER_SIZE {
      var header := Header(Checksum(op, key, payload), op, |key|, |payload|);
      var f := Record(op, key, payload)[..n];
      assert f == header + (key + payload)[..n - HEADER_SIZE];
      HeaderFields(Checksum(op, key, payload), op, |key|, |payload|, (key + payload)[..n - HEADER_SIZE]);
    }
  }

  lemma ItemFields(o: Op, after: seq<Byte>)
    requires FitsFields(o)
    ensures var p := Item(o) + after;
      && |p| >= 7 + |o.key| + |o.value|
      && p[0] == o.op && Number(p[1..3]) == |o.key| && p[3..3 + |o.key|] == o.key
      && Number(p[3 + |o.key|..7 + |o.key|]) == |o.value|
      && p[7 + |o.key|..7 + |o.key| + |o.value|] == o.value && p[7 + |o.key| + |o.value|..] == after
  {
    hide Number, LittleEndian, Power;
    var p := Item(o) + after;
    assert p[1..3] == LittleEndian(|o.key|, 2);
    assert p[3..3 + |o.key|] == o.key;
    assert p[7 + |o.key|..7 + |o.key| + |o.value|] == o.value;
    assert p[7 + |o.key| + |o.value|..] == after;
    assert p[3 + |o.key|..7 + |o.key|] == LittleEndian(|o.value|, 4);
    FieldLimits();
    NumberRoundTrip(|o.key|, 2);
    NumberRoundTrip(|o.value|, 4);
  }

  lemma {:induction false} ItemsRoundTrip(ops: seq<Op>, after: seq<Byte>)
    requires Fit(ops)
    ensures DecodeItems(Items(ops) + after, |ops|) == ops
  {
    hide Number, Item;
    if ops != [] {
      var p := Items(ops) + after;
      assert p == Item(ops[0]) + (Items(ops[1..]) + after);
      ItemFields(ops[0], Items(ops[1..]) + after);
      ItemsRoundTrip(ops[1..], after);
      assert DecodeItems(p, |ops|) == [ops[0]] + DecodeItems(Items(ops[1..]) + after, |ops| - 1);
    }
  }

  lemma {:induction false} EachItemTakesSeven(ops: seq<Op>)
    ensures 7 * |ops| <= ItemsSize(ops)
  {
    if ops != [] {
      EachItemTakesSeven(ops[1..]);
    }
  }

  lemma BatchRoundTrip(ops: seq<Op>)
    requires Storable(Batch(ops))
    ensures DecodeBatch(BatchPayload(ops)) == ops
  {
    hide Number, Items, DecodeItems, Power, LittleEndian;
    ItemsFitBuffer(ops);
    EachItemTakesSeven(ops);
    var payload := BatchPayload(ops);
    assert payload[..4] == LittleEndian(|ops|, 4);
    FieldLimits();
    NumberRoundTrip(|ops|, 4);
    assert payload[4..] == Items(ops) + Zeros(ItemsSize(ops) - |Items(ops)|);
    ItemsRoundTrip(ops, Zeros(ItemsSize(ops) - |Items(ops)|));
  }

  /** An entry at the front of the file is delivered whole and reading goes on behind it. */
  lemma RecoverEntry(e: Entry, after: seq<Byte>)
    requires Storable(e) && Proper(e)
    ensures RecoverFrom(Encode(e) + after)
         == Recovered(Delivered(e) + RecoverFrom(after).ops, |Encode(e)| + RecoverFrom(after).end)
  {
    hide Record, ReadRecord, DecodeBatch, BatchPayload;
    if e == Batch([]) {
      assert Encode(e) + after == after;
    } else {
      assert (Encode(e) + after)[|Encode(e)|..] == after;
      match e
      case Single(o) => ReadWritten(o.op, o.key, o.value, after);
      case Batch(ops) =>
        ReadWritten(BATCH, [], BatchPayload(ops), after);
        BatchRoundTrip(ops);
    }
  }

  /** An entry cut short at the front of the file delivers nothing. */
  lemma RecoverTorn(e: Entry, n: nat)
    requires Storable(e) && n < |Encode(e)|
    ensures RecoverFrom(Encode(e)[..n]) == Recovered([], 0)
  {
    hide Record, ReadRecord, BatchPayload;
    match e
    case Single(o) => ReadTorn(o.op, o.key, o.value, n);
    case Batch(ops) => ReadTorn(BATCH, [], BatchPayload(ops), n);
  }

  /** How many leading entries lie wholly within the first n bytes of the log. */
  function Complete(es: seq<Entry>, n: nat): (k: nat)
    ensures k <= |es|
  {
    if es == [] || |Encode(es[0])| > n then 0 else 1 + Complete(es[1..], n - |Encode(es[0])|)
  }

  /** `Complete` is the largest number of entries that n bytes hold. */
  lemma {:induction false} CompleteIsLargest(es: seq<Entry>, n: nat)
    ensures |Log(es[..Complete(es, n)])| <= n
    ensures Complete(es, n) < |es| ==> n < |Log(es[..Complete(es, n) + 1])|
  {
    hide Encode;
    var k := Complete(es, n);
    if es == [] || |Encode(es[0])| > n {
    } else {
      CompleteIsLargest(es[1..], n - |Encode(es[0])|);
      assert es[..k][1..] == es[1..][..k - 1];
      assert k < |es| ==> es[..k + 1][1..] == es[1..][..k];
    }
  }

  predicate AllGood(es: seq<Entry>) {
    forall e <- es :: Storable(e) && Proper(e)
  }

  /**
   Whatever prefix of the log a crash leaves, recovery delivers exactly the operations of the entries that are wholly
   in it, in order, and cuts the file exactly behind the last of them.  A batch is delivered whole or not at all.
   */
  lemma {:induction false} PrefixRecovery(es: seq<Entry>, n: nat)
    requires AllGood(es) && n <= |Log(es)|
    ensures var k := Complete(es, n);
      RecoverFrom(Log(es)[..n]) == Recovered(AllDelivered(es[..k]), |Log(es[..k])|)
  {
    hide Encode, Storable, Proper, ReadRecord;
    var k := Complete(es, n);
    if es == [] {
      assert Log(es)[..n] == [] && RecoverFrom([]) == Recovered([], 0) by { EmptyFile(); }
    } else {
      var first := |Encode(es[0])|;
      if first > n {
        assert Log(es)[..n] == Encode(es[0])[..n];
        RecoverTorn(es[0], n);
      } else {
        assert Log(es)[..n] == Encode(es[0]) + Log(es[1..])[..n - first];
        RecoverEntry(es[0], Log(es[1..])[..n - first]);
        PrefixRecovery(es[1..], n - first);
        assert es[..k][1..] == es[1..][..k - 1];
      }
    }
  }

  lemma EmptyFile()
    ensures RecoverFrom([]) == Recovered([], 0)
  {
  }

  lemma Associate<T>(a: seq<T>, b: seq<T>, c: seq<T>)
    ensures (a + b) + c == a + (b + c)
  {
  }

  lemma {:induction false} LogConcat(xs: seq<Entry>, ys: seq<Entry>)
    ensures Log(xs + ys) == Log(xs) + Log(ys)
  {
    hide Encode;
    if xs == [] {
      assert xs + ys == ys;
      assert Log(xs) + Log(ys) == Log(ys);
    } else {
      LogConcat(xs[1..], ys);
      assert (xs + ys)[1..] == xs[1..] + ys;
      Associate(Encode(xs[0]), Log(xs[1..]), Log(ys));
    }
  }

  /** Without a crash everything is delivered and nothing is cut. */
  lemma WholeLog(es: seq<Entry>)
    requires AllGood(es)
    ensures RecoverFrom(Log(es)) == Recovered(AllDelivered(es), |Log(es)|)
  {
    hide Log, AllDelivered, RecoverFrom, AllGood;
    RecoverBehind(es, []);
    EmptyFile();
    assert Log(es) + [] == Log(es);
  }

  /**
   Crash, recover, append more, crash again, recover again: the second recovery delivers what the first one kept
   followed by exactly the new entries that were wholly written.
   */
  lemma RecoverAppendRecover(es: seq<Entry>, n: nat, more: seq<Entry>, m: nat)
    requires AllGood(es) && n <= |Log(es)| && AllGood(more) && m <= |Log(more)|
    ensures var kept := Log(es)[..RecoverFrom(Log(es)[..n]).end];
      var file := kept + Log(more)[..m];
      && RecoverFrom(Log(es)[..n]).end <= |Log(es)|
      && RecoverFrom(file).ops
         == AllDelivered(es[..Complete(es, n)]) + AllDelivered(more[..Complete(more, m)])
      && RecoverFrom(file).end == |kept| + |Log(more[..Complete(more, m)])|
  {
    hide Log, AllDelivered, Complete, AllGood, RecoverFrom;
    PrefixRecovery(es, n);
    PrefixRecovery(more, m);
    var head := es[..Complete(es, n)];
    PrefixOfLog(es, |head|);
    GoodPrefix(es, |head|);
    RecoverBehind(head, Log(more)[..m]);
  }

  lemma GoodPrefix(es: seq<Entry>, k: nat)
    requires AllGood(es) && k <= |es|
    ensures AllGood(es[..k])
  {
    hide Storable, Proper;
  }

  lemma PrefixOfLog(es: seq<Entry>, k: nat)
    requires k <= |es|
    ensures |Log(es[..k])| <= |Log(es)| && Log(es)[..|Log(es[..k])|] == Log(es[..k])
  {
    hide Log;
    assert es == es[..k] + es[k..];
    LogConcat(es[..k], es[k..]);
  }

  /** Reading a file that starts with whole entries. */
  lemma {:induction false} RecoverBehind(es: seq<Entry>, after: seq<Byte>)
    requires AllGood(es)
    ensures RecoverFrom(Log(es) + after)
         == Recovered(AllDelivered(es) + RecoverFrom(after).ops, |Log(es)| + RecoverFrom(after).end)
  {
    hide Encode, Storable, Proper, RecoverFrom, Delivered;
    if es == [] {
      assert Log(es) + after == after;
    } else {
      RecoverBehind(es[1..], after);
      Associate(Encode(es[0]), Log(es[1..]), after);
      Associate(Delivered(es[0]), AllDelivered(es[1..]), RecoverFrom(after).ops);
      RecoverEntry(es[0], Log(es[1..]) + after);
    }
  }

  // ---------------------------------------------------------------- damage

  lemma ComplementInjective(a: bv32, b: bv32)
    ensures !a == !b ==> a == b
  {
  }

  /** The two streams differ, and only inside a window of four bytes. */
  predicate Burst(stream: seq<Byte>, damaged: seq<Byte>, at: nat) {
    && |stream| == |damaged| && at <= |stream| && stream != damaged
    && stream[..at] == damaged[..at]
    && (at + 4 <= |stream| ==> stream[at + 4..] == damaged[at + 4..])
  }

  lemma BurstChangesChecksum(op: Byte, key: seq<Byte>, payload: seq<Byte>,
                             op': Byte, key': seq<Byte>, payload': seq<Byte>, at: nat)
    requires Burst([op] + key + payload, [op'] + key' + payload', at)
    ensures Checksum(op, key, payload) != Checksum(op', key', payload')
  {
    hide Feed;
    var s, t := [op] + key + payload, [op'] + key' + payload';
    var end := if at + 4 <= |s| then at + 4 else |s|;
    assert s == s[..at] + s[at..end] + s[end..];
    assert t == s[..at] + t[at..end] + s[end..];
    FourByteBurstDetected(s[..at], s[at..end], t[at..end], s[end..]);
    ComplementInjective(Feed(0xFFFF_FFFF, s), Feed(0xFFFF_FFFF, t));
  }

  /**
   A record whose operation, key or payload bytes were changed inside a window of four consecutive bytes, its checksum
   and lengths intact, stops recovery: every entry before it is delivered, it and everything behind it are cut off.
   */
  lemma DamageStopsRecovery(es: seq<Entry>, op: Byte, key: seq<Byte>, payload: seq<Byte>,
                            op': Byte, key': seq<Byte>, payload': seq<Byte>, at: nat, after: seq<Byte>)
    requires AllGood(es) && |key| == |key'| < KEY_LIMIT && |payload| == |payload'| < PAYLOAD_LIMIT
    requires Burst([op] + key + payload, [op'] + key' + payload', at)
    ensures var damaged := Header(Checksum(op, key, payload), op', |key|, |payload|) + key' + payload';
      RecoverFrom(Log(es) + (damaged + after)) == Recovered(AllDelivered(es), |Log(es)|)
  {
    hide Encode, Storable, Proper, Header, Pack, Number, Checksum, DecodeBatch, Burst;
    var header := Header(Checksum(op, key, payload), op', |key|, |payload|);
    var f := header + key' + payload' + after;
    assert f == header + (key' + payload' + after);
    HeaderFields(Checksum(op, key, payload), op', |key|, |payload|, key' + payload' + after);
    assert f[HEADER_SIZE..HEADER_SIZE + |key|] == key';
    assert f[HEADER_SIZE + |key|..HEADER_SIZE + |key| + |payload|] == payload';
    BurstChangesChecksum(op, key, payload, op', key', payload', at);
    assert ReadRecord(f) == Stop;
    assert RecoverFrom(f) == Recovered([], 0);
    RecoverBehind(es, f);
  }

  // ---------------------------------------------------------------- exactly which entries survive

  lemma {:induction false} DecodedFits(p: seq<Byte>, count: nat)
    ensures Fit(DecodeItems(p, count)) && ItemsSize(DecodeItems(p, count)) <= |p|
    decreases count
  {
    hide Number, Power;
    if count > 0 && |p| >= 7 {
      FieldLimits();
      NumberBound(p[1..3]);
      var keyLength := Number(p[1..3]);
      if |p| >= 7 + keyLength {
        NumberBound(p[3 + keyLength..7 + keyLength]);
        var size := 7 + keyLength + Number(p[3 + keyLength..7 + keyLength]);
        if |p| >= size {
          DecodedFits(p[size..], count - 1);
          var first := Op(p[0], p[3..3 + keyLength], p[7 + keyLength..size]);
          assert DecodeItems(p, count) == [first] + DecodeItems(p[size..], count - 1);
          assert DecodeItems(p, count)[1..] == DecodeItems(p[size..], count - 1);
        }
      }
    }
  }

  /** Whatever a file holds, every single operation read from one record fits, and so does every batch. */
  lemma ReadFits(rest: seq<Byte>)
    ensures ReadRecord(rest).Found? && rest[4] != BATCH ==>
      exists o :: ReadRecord(rest).ops == [o] && FitsFields(o)
    ensures ReadRecord(rest).Found? && rest[4] == BATCH ==> Storable(Batch(ReadRecord(rest).ops)) || ReadRecord(rest).ops == []
  {
    hide Number, Power, Checksum, Pack, DecodeItems;
    if ReadRecord(rest).Found? {
      FieldLimits();
      NumberBound(rest[5..7]);
      NumberBound(rest[7..11]);
      var k, n := Number(rest[5..7]), Number(rest[7..11]);
      var payload := rest[HEADER_SIZE + k..HEADER_SIZE + k + n];
      if rest[4] == BATCH {
        if |payload| >= 4 {
          DecodedFits(payload[4..], Number(payload[..4]));
        }
      } else {
        assert FitsFields(Op(rest[4], rest[HEADER_SIZE..HEADER_SIZE + k], payload));
      }
    }
  }

  /**
   The source casts lengths to the width of their fields without looking.  An entry comes back from its own bytes if
   and only if its lengths fit.
   */
  lemma ComesBackExactlyWhenItFits(e: Entry)
    requires Proper(e)
    ensures ReadRecord(Encode(e)) == Found(Delivered(e), |Encode(e)|) <==> Storable(e) && e != Batch([])
  {
    hide Record, DecodeBatch, BatchPayload, ReadRecord;
    if e == Batch([]) {
      EmptyFile();
    } else {
      assert Encode(e) + [] == Encode(e);
      if Storable(e) {
        match e
        case Single(o) => ReadWritten(o.op, o.key, o.value, []);
        case Batch(ops) =>
          ReadWritten(BATCH, [], BatchPayload(ops), []);
          BatchRoundTrip(ops);
      }
      ReadFits(Encode(e));
      OpByte(e);
    }
  }

  lemma OpByte(e: Entry)
    requires e != Batch([])
    ensures |Encode(e)| >= HEADER_SIZE && Encode(e)[4] == if e.Single? then e.op.op else BATCH
  {
    hide Checksum, LittleEndian, Bytes, BatchPayload;
  }
}
