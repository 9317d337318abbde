/**
 What the engine does to its keys: the four primitive applications, the client commands with the operations they log,
 and the replay of logged operations.

 The hash (XXH3), the normalisation of values and the field patches (lite3 buffers and JSON) and the encoding of the
 metadata record are parameters; what is assumed of them is `Lawful`.
 */
module Store {
  import opened Crc
  import opened Hashing
  import opened Clock
  import Wal

  type Key = seq<Byte>
  type Blob = seq<Byte>
  type KeyMap = map<Key, Blob>

  datatype Option<T> = None | Some(value: T)

  /** The content of a field of a value. */
  datatype Field = Number(v: int) | Text(text: seq<Byte>)

  datatype Codec = Codec(
    hash: seq<Byte> -> Hash,
    normal: seq<Byte> -> Blob,
    setInt: (Blob, seq<Byte>, int) -> Option<Blob>,
    setStr: (Blob, seq<Byte>, seq<Byte>) -> Option<Blob>,
    read: (Blob, seq<Byte>) -> Option<Field>,
    meta: (Timestamp, bool) -> Blob,
    metaTime: Blob -> Timestamp,
    parseMeta: Blob -> (Timestamp, bool))

  const ZERO := Timestamp(0, 0, 0)
  const COLON: Byte := 58
  const META_SUFFIX: seq<Byte> := [58, 109, 101, 116, 97]
  const PUT: Byte := 1
  const PATCH_I64: Byte := 2
  const DELETE: Byte := 3
  const PATCH_STR: Byte := 5

  /** Wall times pass through a double on their way to another node. */
  predicate Representable(ts: Timestamp) {
    -0x20_0000_0000_0000 <= ts.wall <= 0x20_0000_0000_0000 && ts.logical <= UINT32_MAX && ts.node <= UINT32_MAX
  }

  ghost predicate Lawful(c: Codec) {
    && c.normal([]) == []
    && (forall b: Blob :: c.normal(c.normal(b)) == c.normal(b))
    && (forall ts: Timestamp, t: bool :: c.normal(c.meta(ts, t)) == c.meta(ts, t) && |c.meta(ts, t)| > 0)
    && (forall ts: Timestamp, t: bool :: Representable(ts) ==>
          c.metaTime(c.meta(ts, t)) == ts && c.parseMeta(c.meta(ts, t)) == (ts, t))
    && FieldsReadBack(c)
  }

  /** A field that has been set reads back, and the others stay. */
  ghost predicate FieldsReadBack(c: Codec) {
    && (forall b: Blob, field: seq<Byte>, v: int :: Int64(v) && c.setInt(b, field, v).Some? ==>
          SetTo(c, b, c.setInt(b, field, v).value, field, Number(v)))
    && (forall b: Blob, field: seq<Byte>, text: seq<Byte> :: c.setStr(b, field, text).Some? ==>
          SetTo(c, b, c.setStr(b, field, text).value, field, Text(text)))
  }

  /** The values before and after differ in one field only, and that has the given content. */
  ghost predicate SetTo(c: Codec, before: Blob, after: Blob, field: seq<Byte>, x: Field) {
    c.read(after, field) == Some(x) && forall g: seq<Byte> :: g != field ==> c.read(after, g) == c.read(before, g)
  }

  // ---------------------------------------------------------------- keys

  function UpToNul(key: Key): Key {
    if key == [] || key[0] == 0 then [] else [key[0]] + UpToNul(key[1..])
  }

  /** The key of the metadata record: printed with `%.*s:meta` into a buffer of 1024 bytes, empty when too long. */
  function MetaKey(key: Key): Key {
    var printed := UpToNul(key);
    if |printed| + 5 >= 1024 then [] else printed + META_SUFFIX
  }

  predicate EndsMeta(key: Key) {
    |key| >= 5 && key[|key| - 5..] == META_SUFFIX
  }

  /** The keys a client may use. */
  predicate UserKey(key: Key) {
    |key| < 1019 && 0 !in key && !EndsMeta(key)
  }

  lemma {:induction false} UpToNulWhole(key: Key)
    requires 0 !in key
    ensures UpToNul(key) == key
  {
    if key != [] {
      UpToNulWhole(key[1..]);
    }
  }

  /** Metadata records are apart from each other and from the user's keys. */
  lemma MetaKeysApart(k: Key, k': Key)
    requires UserKey(k) && UserKey(k')
    ensures MetaKey(k) == k + META_SUFFIX && EndsMeta(MetaKey(k)) && MetaKey(k) != k'
    ensures MetaKey(k) == MetaKey(k') ==> k == k'
  {
    UpToNulWhole(k);
    UpToNulWhole(k');
    assert MetaKey(k)[..|k|] == k && MetaKey(k)[|k|..] == META_SUFFIX;
    assert MetaKey(k')[..|k'|] == k';
  }

  // ---------------------------------------------------------------- numbers as text

  predicate AllDigits(s: seq<Byte>) {
    forall i :: 0 <= i < |s| ==> 48 <= s[i] <= 57
  }

  function Decimal(n: nat): (r: seq<Byte>)
    ensures |r| > 0 && AllDigits(r)
  {
    if n < 10 then [48 + n] else Decimal(n / 10) + [48 + n % 10]
  }

  function Printed(i: int): seq<Byte> {
    if i < 0 then [45] + Decimal(-i) else Decimal(i)
  }

  function LeadingDigits(s: seq<Byte>): seq<Byte> {
    if s == [] || !(48 <= s[0] <= 57) then [] else [s[0]] + LeadingDigits(s[1..])
  }

  function Value(digits: seq<Byte>): int {
    if digits == [] then 0 else 10 * Value(digits[..|digits| - 1]) + digits[|digits| - 1] - 48
  }

  function SkipSpace(s: seq<Byte>): seq<Byte> {
    if s != [] && (s[0] == 32 || 9 <= s[0] <= 13) then SkipSpace(s[1..]) else s
  }

  /** `stoll`: leading space, an optional sign, as many digits as there are; nothing when it throws. */
  function ParseLong(s: seq<Byte>): Option<int> {
    var t := SkipSpace(s);
    var negative := t != [] && t[0] == 45;
    var digits := LeadingDigits(if t != [] && (t[0] == 45 || t[0] == 43) then t[1..] else t);
    var v := if negative then -Value(digits) else Value(digits);
    if digits == [] || !Int64(v) then None else Some(v)
  }

  predicate Int64(v: int) {
    -0x8000_0000_0000_0000 <= v < 0x8000_0000_0000_0000
  }

  lemma {:induction false} AllLeading(s: seq<Byte>)
    requires AllDigits(s)
    ensures LeadingDigits(s) == s
  {
    if s != [] {
      AllLeading(s[1..]);
    }
  }

  lemma {:induction false} ValueOfDecimal(n: nat)
    ensures Value(Decimal(n)) == n
  {
    if n >= 10 {
      ValueOfDecimal(n / 10);
      assert Decimal(n)[..|Decimal(n)| - 1] == Decimal(n / 10);
    } else {
      assert Decimal(n)[..0] == [];
    }
  }

  /** Text that starts with a digit has no space or sign to skip. */
  lemma ParseDigits(s: seq<Byte>)
    requires |s| > 0 && AllDigits(s)
    ensures ParseLong(s) == if Int64(Value(s)) then Some(Value(s)) else None
    ensures ParseLong([45] + s) == if Int64(-Value(s)) then Some(-Value(s)) else None
  {
    hide Value, SkipSpace, LeadingDigits, Int64;
    var t := [45] + s;
    assert t[0] == 45 && t[1..] == s;
    NoSpace(s);
    NoSpace(t);
    AllLeading(s);
  }

  lemma NoSpace(s: seq<Byte>)
    requires s != [] && s[0] > 32
    ensures SkipSpace(s) == s
  {
  }

  predicate IsSpace(x: Byte) {
    x == 32 || 9 <= x <= 13
  }

  predicate IsDigit(x: Byte) {
    48 <= x <= 57
  }

  lemma {:induction false} SkipsSpace(spaces: seq<Byte>, rest: seq<Byte>)
    requires (forall x <- spaces :: IsSpace(x)) && (rest == [] || !IsSpace(rest[0]))
    ensures SkipSpace(spaces + rest) == rest
    decreases |spaces|
  {
    if spaces == [] {
      assert spaces + rest == rest;
    } else {
      assert spaces[0] in spaces && IsSpace(spaces[0]);
      assert (spaces + rest)[1..] == spaces[1..] + rest;
      SkipsSpace(spaces[1..], rest);
    }
  }

  lemma {:induction false} LeadingAre(digits: seq<Byte>, rest: seq<Byte>)
    requires AllDigits(digits) && (rest == [] || !IsDigit(rest[0]))
    ensures LeadingDigits(digits + rest) == digits
    decreases |digits|
  {
    if digits == [] {
      assert digits + rest == rest;
    } else {
      assert (digits + rest)[1..] == digits[1..] + rest;
      LeadingAre(digits[1..], rest);
    }
  }

  /**
   What `stoll` reads: space, a sign or none, digits, and whatever follows them.  It throws when there are no digits and
   when the number has more than 64 bits.
   */
  lemma ParseLongReads(spaces: seq<Byte>, sign: seq<Byte>, digits: seq<Byte>, rest: seq<Byte>)
    requires (forall x <- spaces :: IsSpace(x)) && (sign == [] || sign == [43] || sign == [45])
    requires AllDigits(digits) && (rest == [] || !IsDigit(rest[0]))
    requires digits == [] && sign == [] && rest != [] ==> !IsSpace(rest[0]) && rest[0] != 43 && rest[0] != 45
    ensures var v := if sign == [45] then -Value(digits) else Value(digits);
      ParseLong(spaces + sign + digits + rest) == if digits == [] || !Int64(v) then None else Some(v)
  {
    hide SkipSpace, LeadingDigits, Value, Int64;
    var t := sign + digits + rest;
    assert spaces + sign + digits + rest == spaces + t;
    SkipsSpace(spaces, t);
    LeadingAre(digits, rest);
    if sign == [] {
      assert t == digits + rest;
    } else {
      assert t[0] == sign[0] && t[1..] == digits + rest;
    }
  }

  lemma PrintedParses(i: int)
    requires Int64(i)
    ensures ParseLong(Printed(i)) == Some(i)
  {
    hide ParseLong, Value, Decimal;
    var n := if i < 0 then -i else i;
    ValueOfDecimal(n);
    ParseDigits(Decimal(n));
  }

  /** Cuts a patch record at its first colon. */
  function Split(p: seq<Byte>): Option<(seq<Byte>, seq<Byte>)> {
    if p == [] then None
    else if p[0] == COLON then Some(([], p[1..]))
    else
      match Split(p[1..])
      case None => None
      case Some(parts) => Some(([p[0]] + parts.0, parts.1))
  }

  lemma {:induction false} SplitJoined(field: seq<Byte>, rest: seq<Byte>)
    requires COLON !in field
    ensures Split(field + [COLON] + rest) == Some((field, rest))
  {
    var p := field + [COLON] + rest;
    if field == [] {
      assert p[1..] == rest;
    } else {
      assert field[0] in field && field == [field[0]] + field[1..];
      SplitJoined(field[1..], rest);
      assert p[0] == field[0] && p[1..] == field[1..] + [COLON] + rest;
    }
  }

  // ---------------------------------------------------------------- primitive applications

  function Current(st: KeyMap, key: Key): Blob {
    if key in st then st[key] else []
  }

  function ApplyPut(c: Codec, st: KeyMap, key: Key, body: seq<Byte>): KeyMap {
    st[key := c.normal(body)]
  }

  function ApplyDel(st: KeyMap, key: Key): KeyMap {
    st[key := []]
  }

  /** The patches throw when the stored value cannot take a field; nothing is stored then. */
  function ApplyPatchInt(c: Codec, st: KeyMap, key: Key, field: seq<Byte>, v: int): Option<KeyMap> {
    match c.setInt(Current(st, key), field, v)
    case None => None
    case Some(b) => Some(st[key := b])
  }

  function ApplyPatchStr(c: Codec, st: KeyMap, key: Key, field: seq<Byte>, v: seq<Byte>): Option<KeyMap> {
    match c.setStr(Current(st, key), field, v)
    case None => None
    case Some(b) => Some(st[key := b])
  }

  function OrElse(o: Option<KeyMap>, st: KeyMap): KeyMap {
    match o
    case None => st
    case Some(s) => s
  }

  // ---------------------------------------------------------------- replay

  /** The recovery callback; what throws is skipped. */
  function Replay(c: Codec, st: KeyMap, o: Wal.Op): KeyMap {
    if o.op == PUT then ApplyPut(c, st, o.key, o.value)
    else if o.op == PATCH_I64 then
      match Split(o.value)
      case None => st
      case Some(parts) =>
        match ParseLong(parts.1)
        case None => st
        case Some(v) => OrElse(ApplyPatchInt(c, st, o.key, parts.0, v), st)
    else if o.op == PATCH_STR then
      match Split(o.value)
      case None => st
      case Some(parts) => OrElse(ApplyPatchStr(c, st, o.key, parts.0, parts.1), st)
    else if o.op == DELETE then ApplyDel(st, o.key)
    else st
  }

  function ReplayAll(c: Codec, st: KeyMap, ops: seq<Wal.Op>): KeyMap
    decreases |ops|
  {
    if ops == [] then st else ReplayAll(c, Replay(c, st, ops[0]), ops[1..])
  }

  // ---------------------------------------------------------------- client commands

  datatype Mutation = Mutation(ts: Timestamp, key: Key, value: seq<Byte>, isDelete: bool)

  datatype Command =
    | Put(key: Key, body: seq<Byte>, now: Timestamp)
    | Del(key: Key, now: Timestamp)
    | PatchInt(key: Key, field: seq<Byte>, v: int, now: Timestamp)
    | PatchStr(key: Key, field: seq<Byte>, text: seq<Byte>, now: Timestamp)
    | Mutate(m: Mutation)

  /** The time of the metadata record of a key; zero when there is none. */
  function LocalTime(c: Codec, st: KeyMap, key: Key): Timestamp {
    var b := Current(st, MetaKey(key));
    if |b| > 0 then c.metaTime(b) else ZERO
  }

  predicate Accepts(c: Codec, st: KeyMap, m: Mutation) {
    !LessEq(m.ts, LocalTime(c, st, m.key))
  }

  function TimeText(ts: Timestamp): seq<Byte> {
    Printed(ts.wall) + [COLON] + Printed(ts.logical) + [COLON] + Printed(ts.node)
  }

  /** The batch that a command logs; a rejected mutation logs nothing. */
  function Logged(c: Codec, st: KeyMap, cmd: Command): seq<Wal.Op> {
    match cmd
    case Put(key, body, now) => [Wal.Op(PUT, key, body), Wal.Op(PUT, MetaKey(key), c.meta(now, false))]
    case Del(key, now) => [Wal.Op(DELETE, key, []), Wal.Op(PUT, MetaKey(key), c.meta(now, true))]
    case PatchInt(key, field, v, now) =>
      [Wal.Op(PATCH_I64, key, field + [COLON] + Printed(v)),
       Wal.Op(PATCH_STR, MetaKey(key), field + [COLON] + TimeText(now))]
    case PatchStr(key, field, text, now) =>
      [Wal.Op(PATCH_STR, key, field + [COLON] + text),
       Wal.Op(PATCH_STR, MetaKey(key), field + [COLON] + TimeText(now))]
    case Mutate(m) =>
      if !Accepts(c, st, m) then []
      else [if m.isDelete then Wal.Op(DELETE, m.key, []) else Wal.Op(PUT, m.key, m.value),
            Wal.Op(PUT, MetaKey(m.key), c.meta(m.ts, m.isDelete))]
  }

  /** The operations in the log, with their codes and texts as they stand in the file; `:meta` is the suffix. */
  lemma LogFormat(c: Codec, st: KeyMap, key: Key, now: Timestamp, body: seq<Byte>, field: seq<Byte>, v: int, text: seq<Byte>)
    requires UserKey(key)
    ensures var meta, time := key + [58, 109, 101, 116, 97], field + [58] + TimeText(now);
      && Logged(c, st, Put(key, body, now)) == [Wal.Op(1, key, body), Wal.Op(1, meta, c.meta(now, false))]
      && Logged(c, st, Del(key, now)) == [Wal.Op(3, key, []), Wal.Op(1, meta, c.meta(now, true))]
      && Logged(c, st, PatchInt(key, field, v, now)) == [Wal.Op(2, key, field + [58] + Printed(v)), Wal.Op(5, meta, time)]
      && Logged(c, st, PatchStr(key, field, text, now)) == [Wal.Op(5, key, field + [58] + text), Wal.Op(5, meta, time)]
  {
    hide MetaKey, TimeText, Printed;
    MetaKeysApart(key, key);
  }

  /** A key whose text leaves no room for the suffix in the buffer of 1024 bytes has its metadata under the empty key. */
  lemma MetaKeyOfLong(key: Key)
    ensures MetaKey(key) == [] <==> |UpToNul(key)| >= 1019
    ensures MetaKey(key) != [] ==> MetaKey(key) == UpToNul(key) + [58, 109, 101, 116, 97]
  {
  }

  /** The patch of the value, or nothing when it throws. */
  function ValuePatch(c: Codec, st: KeyMap, cmd: Command): Option<KeyMap>
    requires cmd.PatchInt? || cmd.PatchStr?
  {
    if cmd.PatchInt? then ApplyPatchInt(c, st, cmd.key, cmd.field, cmd.v)
    else ApplyPatchStr(c, st, cmd.key, cmd.field, cmd.text)
  }

  /** The patch of the metadata record that follows it. */
  function MetaPatch(c: Codec, st: KeyMap, cmd: Command): Option<KeyMap>
    requires cmd.PatchInt? || cmd.PatchStr?
  {
    ApplyPatchStr(c, st, MetaKey(cmd.key), cmd.field, TimeText(cmd.now))
  }

  /** The keys after a command; a patch that throws on the value never gets to the metadata. */
  function Live(c: Codec, st: KeyMap, cmd: Command): KeyMap {
    match cmd
    case Put(key, body, now) => ApplyPut(c, ApplyPut(c, st, key, body), MetaKey(key), c.meta(now, false))
    case Del(key, now) => ApplyPut(c, ApplyDel(st, key), MetaKey(key), c.meta(now, true))
    case PatchInt(_, _, _, _) | PatchStr(_, _, _, _) =>
      (match ValuePatch(c, st, cmd)
       case None => st
       case Some(s) => OrElse(MetaPatch(c, s, cmd), s))
    case Mutate(m) =>
      if !Accepts(c, st, m) then st
      else ApplyPut(c, if m.isDelete then ApplyDel(st, m.key) else ApplyPut(c, st, m.key, m.value),
                    MetaKey(m.key), c.meta(m.ts, m.isDelete))
  }

  /** What the log format asks of a patch: no colon in the field, a value of 64 bits. */
  predicate WellFormed(cmd: Command) {
    match cmd
    case PatchInt(_, field, v, _) => COLON !in field && Int64(v)
    case PatchStr(_, field, _, _) => COLON !in field
    case _ => true
  }

  /** Commands for which what is logged and what is done are the same. */
  predicate Faithful(c: Codec, st: KeyMap, cmd: Command) {
    cmd.PatchInt? || cmd.PatchStr? ==> ValuePatch(c, st, cmd).Some? || OrElse(MetaPatch(c, st, cmd), st) == st
  }

  lemma ReplayTwo(c: Codec, st: KeyMap, a: Wal.Op, b: Wal.Op)
    ensures ReplayAll(c, st, [a, b]) == Replay(c, Replay(c, st, a), b)
  {
    assert [a, b][1..] == [b] && [b][1..] == [];
    assert ReplayAll(c, Replay(c, st, a), [b]) == ReplayAll(c, Replay(c, Replay(c, st, a), b), []);
  }

  /**
   Replaying what one command logged gives what the command did if and only if the command is faithful.  The commands
   that are not are patches that throw on the value although the metadata record takes the field: the log keeps both
   halves, the live store gets neither, and replay applies the second.
   */
  lemma ReplayIsLiveExactlyWhenFaithful(c: Codec, st: KeyMap, cmd: Command)
    requires WellFormed(cmd)
    ensures ReplayAll(c, st, Logged(c, st, cmd)) == Live(c, st, cmd) <==> Faithful(c, st, cmd)
  {
    hide Split, ParseLong, Printed, MetaKey, ReplayAll;
    match cmd
    case Mutate(m) =>
      if Accepts(c, st, m) {
        ReplayTwo(c, st, Logged(c, st, cmd)[0], Logged(c, st, cmd)[1]);
      } else {
        ReplayNothing(c, st);
      }
    case Put(_, _, _) => ReplayTwo(c, st, Logged(c, st, cmd)[0], Logged(c, st, cmd)[1]);
    case Del(_, _) => ReplayTwo(c, st, Logged(c, st, cmd)[0], Logged(c, st, cmd)[1]);
    case PatchInt(key, field, v, now) =>
      SplitJoined(field, Printed(v));
      PrintedParses(v);
      SplitJoined(field, TimeText(now));
      ReplayTwo(c, st, Logged(c, st, cmd)[0], Logged(c, st, cmd)[1]);
    case PatchStr(key, field, text, now) =>
      SplitJoined(field, text);
      SplitJoined(field, TimeText(now));
      ReplayTwo(c, st, Logged(c, st, cmd)[0], Logged(c, st, cmd)[1]);
  }

  lemma ReplayNothing(c: Codec, st: KeyMap)
    ensures ReplayAll(c, st, []) == st
  {
  }

  // ---------------------------------------------------------------- what a patch does

  ghost predicate OnlyTouches(st: KeyMap, st': KeyMap, keys: set<Key>) {
    forall k :: k !in keys ==> (k in st' <==> k in st) && (k in st ==> st'[k] == st[k])
  }

  /** The value of the key has the field with the given content; its other fields are as they were. */
  ghost predicate Patched(c: Codec, st: KeyMap, st': KeyMap, key: Key, field: seq<Byte>, x: Field) {
    key in st' && SetTo(c, Current(st, key), st'[key], field, x)
  }

  lemma PatchIntSets(c: Codec, st: KeyMap, key: Key, field: seq<Byte>, v: int)
    requires Lawful(c) && Int64(v) && c.setInt(Current(st, key), field, v).Some?
    ensures var st' := OrElse(ApplyPatchInt(c, st, key, field, v), st);
      Patched(c, st, st', key, field, Number(v)) && OnlyTouches(st, st', {key})
  {
  }

  lemma PatchStrSets(c: Codec, st: KeyMap, key: Key, field: seq<Byte>, text: seq<Byte>)
    requires Lawful(c) && c.setStr(Current(st, key), field, text).Some?
    ensures var st' := OrElse(ApplyPatchStr(c, st, key, field, text), st);
      Patched(c, st, st', key, field, Text(text)) && OnlyTouches(st, st', {key})
  {
  }

  /** The key of the metadata record is another key, whatever the key. */
  lemma MetaKeyDiffers(key: Key)
    ensures MetaKey(key) != key
  {
    UpToNulShorter(key);
  }

  lemma {:induction false} UpToNulShorter(key: Key)
    ensures 0 !in UpToNul(key)
    ensures UpToNul(key) == key || 0 in key
  {
    if key != [] && key[0] != 0 {
      UpToNulShorter(key[1..]);
    }
  }

  /** What a patch sets its field to. */
  function Content(cmd: Command): Field
    requires cmd.PatchInt? || cmd.PatchStr?
  {
    if cmd.PatchInt? then Number(cmd.v) else Text(cmd.text)
  }

  /** The value takes the field that the patch sets. */
  predicate TakesField(c: Codec, st: KeyMap, cmd: Command)
    requires cmd.PatchInt? || cmd.PatchStr?
  {
    if cmd.PatchInt? then c.setInt(Current(st, cmd.key), cmd.field, cmd.v).Some?
    else c.setStr(Current(st, cmd.key), cmd.field, cmd.text).Some?
  }

  /**
   A patch whose value takes the field leaves the value with the field set and its other fields as they were; then the
   metadata record, if it takes the field, gets the time under the same name.  A patch whose value does not take the
   field changes nothing.  No other key is touched.
   */
  lemma PatchIsRead(c: Codec, st: KeyMap, cmd: Command)
    requires Lawful(c) && (cmd.PatchInt? || cmd.PatchStr?) && WellFormed(cmd)
    ensures var st', x := Live(c, st, cmd), Content(cmd);
      && OnlyTouches(st, st', {cmd.key, MetaKey(cmd.key)})
      && (TakesField(c, st, cmd) ==> Patched(c, st, st', cmd.key, cmd.field, x))
      && (!TakesField(c, st, cmd) ==> st' == st)
      && (TakesField(c, st, cmd) ==>
            if c.setStr(Current(st, MetaKey(cmd.key)), cmd.field, TimeText(cmd.now)).Some?
            then Patched(c, st, st', MetaKey(cmd.key), cmd.field, Text(TimeText(cmd.now)))
            else OnlyTouches(st, st', {cmd.key}))
  {
    hide MetaKey, TimeText;
    MetaKeyDiffers(cmd.key);
    var s := OrElse(ValuePatch(c, st, cmd), st);
    if TakesField(c, st, cmd) {
      if cmd.PatchInt? {
        PatchIntSets(c, st, cmd.key, cmd.field, cmd.v);
      } else {
        PatchStrSets(c, st, cmd.key, cmd.field, cmd.text);
      }
      assert Current(s, MetaKey(cmd.key)) == Current(st, MetaKey(cmd.key));
      if c.setStr(Current(st, MetaKey(cmd.key)), cmd.field, TimeText(cmd.now)).Some? {
        PatchStrSets(c, s, MetaKey(cmd.key), cmd.field, TimeText(cmd.now));
      }
    }
  }

  /** Lawful or not, a patch touches only its key and the metadata record. */
  lemma PatchTouches(c: Codec, st: KeyMap, cmd: Command)
    requires cmd.PatchInt? || cmd.PatchStr?
    ensures OnlyTouches(st, Live(c, st, cmd), {cmd.key, MetaKey(cmd.key)})
  {
    hide MetaKey, TimeText;
  }

  lemma ReadAfterPatch(c: Codec, st: KeyMap, cmd: Command)
    requires cmd.PatchInt? || cmd.PatchStr?
    ensures OnlyTouches(st, Live(c, st, cmd), {cmd.key, MetaKey(cmd.key)})
    ensures Lawful(c) && WellFormed(cmd) && TakesField(c, st, cmd) ==>
              Patched(c, st, Live(c, st, cmd), cmd.key, cmd.field, Content(cmd))
  {
    hide Lawful, Live, Patched, OnlyTouches, TakesField;
    PatchTouches(c, st, cmd);
    if Lawful(c) && WellFormed(cmd) {
      PatchIsRead(c, st, cmd);
    }
  }

  /** The time text of a patch: its three parts, cut at the colons, are wall time, logical counter and node. */
  lemma TimeTextReads(ts: Timestamp)
    requires Int64(ts.wall) && ts.logical <= UINT32_MAX && ts.node <= UINT32_MAX
    ensures var first := Split(TimeText(ts));
      && first.Some? && ParseLong(first.value.0) == Some(ts.wall)
      && var second := Split(first.value.1);
         second.Some? && ParseLong(second.value.0) == Some(ts.logical) && ParseLong(second.value.1) == Some(ts.node)
  {
    hide Split, ParseLong, Printed;
    PrintedHasNoColon(ts.wall);
    PrintedHasNoColon(ts.logical);
    var rest := Printed(ts.logical) + [COLON] + Printed(ts.node);
    assert TimeText(ts) == Printed(ts.wall) + [COLON] + rest;
    SplitJoined(Printed(ts.wall), rest);
    SplitJoined(Printed(ts.logical), Printed(ts.node));
    PrintedParses(ts.wall);
    PrintedParses(ts.logical);
    PrintedParses(ts.node);
  }

  lemma PrintedHasNoColon(i: int)
    ensures COLON !in Printed(i)
  {
    var digits := Decimal(if i < 0 then -i else i);
    assert forall k :: 0 <= k < |digits| ==> digits[k] != COLON;
  }

  // ---------------------------------------------------------------- runs

  function Run(c: Codec, st: KeyMap, cmds: seq<Command>): KeyMap
    decreases |cmds|
  {
    if cmds == [] then st else Run(c, Live(c, st, cmds[0]), cmds[1..])
  }

  /** The log entries of a run. */
  function Entries(c: Codec, st: KeyMap, cmds: seq<Command>): (r: seq<Wal.Entry>)
    ensures |r| == |cmds|
    decreases |cmds|
  {
    if cmds == [] then []
    else [Wal.Batch(Logged(c, st, cmds[0]))] + Entries(c, Live(c, st, cmds[0]), cmds[1..])
  }

  predicate GoodRun(c: Codec, st: KeyMap, cmds: seq<Command>)
    decreases |cmds|
  {
    cmds != [] ==>
      && WellFormed(cmds[0]) && Faithful(c, st, cmds[0]) && Wal.Storable(Wal.Batch(Logged(c, st, cmds[0])))
      && GoodRun(c, Live(c, st, cmds[0]), cmds[1..])
  }

  lemma {:induction false} ReplayConcat(c: Codec, st: KeyMap, xs: seq<Wal.Op>, ys: seq<Wal.Op>)
    ensures ReplayAll(c, st, xs + ys) == ReplayAll(c, ReplayAll(c, st, xs), ys)
    decreases |xs|
  {
    hide Replay;
    if xs == [] {
      assert xs + ys == ys;
    } else {
      ReplayConcat(c, Replay(c, st, xs[0]), xs[1..], ys);
      assert (xs + ys)[1..] == xs[1..] + ys;
    }
  }

  /** Replaying the first k entries of a run gives the store after its first k commands. */
  lemma {:induction false} ReplayOfPrefix(c: Codec, st: KeyMap, cmds: seq<Command>, k: nat)
    requires GoodRun(c, st, cmds) && k <= |cmds|
    ensures ReplayAll(c, st, Wal.AllDelivered(Entries(c, st, cmds)[..k])) == Run(c, st, cmds[..k])
    decreases |cmds|
  {
    hide Live, Logged, Replay, WellFormed, Faithful, Wal.Storable;
    var es := Entries(c, st, cmds);
    if k == 0 {
      assert es[..0] == [] && cmds[..0] == [];
    } else {
      var next := Live(c, st, cmds[0]);
      var rest := Entries(c, next, cmds[1..]);
      assert es[..k][1..] == rest[..k - 1] && cmds[..k][1..] == cmds[1..][..k - 1];
      ReplayOfPrefix(c, next, cmds[1..], k - 1);
      ReplayIsLiveExactlyWhenFaithful(c, st, cmds[0]);
      ReplayConcat(c, st, Logged(c, st, cmds[0]), Wal.AllDelivered(rest[..k - 1]));
    }
  }

  lemma {:induction false} EntriesAreGood(c: Codec, st: KeyMap, cmds: seq<Command>)
    requires GoodRun(c, st, cmds)
    ensures Wal.AllGood(Entries(c, st, cmds))
    decreases |cmds|
  {
    hide Live, Logged, WellFormed, Faithful, Wal.Storable;
    if cmds != [] {
      EntriesAreGood(c, Live(c, st, cmds[0]), cmds[1..]);
    }
  }

  /**
   Crash safety of the engine: whatever prefix of the log file survives, recovery rebuilds the store after some prefix
   of the commands, namely of those whose log entry is wholly in the file.
   */
  lemma CrashRecovery(c: Codec, cmds: seq<Command>, n: nat)
    requires GoodRun(c, map[], cmds) && n <= |Wal.Log(Entries(c, map[], cmds))|
    ensures var es := Entries(c, map[], cmds);
      ReplayAll(c, map[], Wal.RecoverFrom(Wal.Log(es)[..n]).ops) == Run(c, map[], cmds[..Wal.Complete(es, n)])
  {
    hide GoodRun, Entries, Run, ReplayAll, Wal.Log, Wal.RecoverFrom;
    var es := Entries(c, map[], cmds);
    EntriesAreGood(c, map[], cmds);
    Wal.PrefixRecovery(es, n);
    ReplayOfPrefix(c, map[], cmds, Wal.Complete(es, n));
  }

  /** Without a crash, replaying the whole log rebuilds exactly the live store. */
  lemma ReplayRebuilds(c: Codec, cmds: seq<Command>)
    requires GoodRun(c, map[], cmds)
    ensures ReplayAll(c, map[], Wal.RecoverFrom(Wal.Log(Entries(c, map[], cmds))).ops) == Run(c, map[], cmds)
  {
    hide GoodRun, Entries, Run, ReplayAll, Wal.Log, Wal.RecoverFrom;
    var es := Entries(c, map[], cmds);
    EntriesAreGood(c, map[], cmds);
    Wal.WholeLog(es);
    ReplayOfPrefix(c, map[], cmds, |cmds|);
    assert es[..|cmds|] == es && cmds[..|cmds|] == cmds;
  }

  // ---------------------------------------------------------------- when replay is not the live store

  /** Every prefix of the log entries of the run replays to what the live store was at that point. */
  ghost predicate AlwaysRebuilds(c: Codec, st: KeyMap, cmds: seq<Command>) {
    forall k :: 0 <= k <= |cmds| ==> Rebuilds(c, st, cmds, k)
  }

  predicate Rebuilds(c: Codec, st: KeyMap, cmds: seq<Command>, k: nat)
    requires k <= |cmds|
  {
    ReplayAll(c, st, Wal.AllDelivered(Entries(c, st, cmds)[..k])) == Run(c, st, cmds[..k])
  }

  /** Every command of the run is faithful where it is given. */
  predicate AllFaithful(c: Codec, st: KeyMap, cmds: seq<Command>)
    decreases |cmds|
  {
    cmds != [] ==> Faithful(c, st, cmds[0]) && AllFaithful(c, Live(c, st, cmds[0]), cmds[1..])
  }

  lemma RebuildsFirst(c: Codec, st: KeyMap, cmds: seq<Command>)
    requires cmds != []
    ensures Rebuilds(c, st, cmds, 1) <==> ReplayAll(c, st, Logged(c, st, cmds[0])) == Live(c, st, cmds[0])
  {
    hide Live, Logged, ReplayAll;
    var es := Entries(c, st, cmds);
    assert es[..1] == [Wal.Batch(Logged(c, st, cmds[0]))] && cmds[..1] == [cmds[0]];
    assert Wal.AllDelivered(es[..1]) == Logged(c, st, cmds[0]) by {
      assert es[..1][1..] == [];
      assert Logged(c, st, cmds[0]) + [] == Logged(c, st, cmds[0]);
    }
    assert Run(c, st, cmds[..1]) == Run(c, Live(c, st, cmds[0]), []) by { assert cmds[..1][1..] == []; }
  }

  lemma RebuildsRest(c: Codec, st: KeyMap, cmds: seq<Command>, k: nat)
    requires cmds != [] && 1 <= k <= |cmds| && ReplayAll(c, st, Logged(c, st, cmds[0])) == Live(c, st, cmds[0])
    ensures Rebuilds(c, st, cmds, k) <==> Rebuilds(c, Live(c, st, cmds[0]), cmds[1..], k - 1)
  {
    hide Live, Logged, Replay;
    var next := Live(c, st, cmds[0]);
    var es, rest := Entries(c, st, cmds), Entries(c, next, cmds[1..]);
    assert es[..k][1..] == rest[..k - 1] && cmds[..k][1..] == cmds[1..][..k - 1];
    ReplayConcat(c, st, Logged(c, st, cmds[0]), Wal.AllDelivered(rest[..k - 1]));
  }

  /** Every prefix of the log replays to the live store if and only if every command of the run is faithful. */
  lemma {:induction false} RebuildsExactlyWhenFaithful(c: Codec, st: KeyMap, cmds: seq<Command>)
    requires forall i :: 0 <= i < |cmds| ==> WellFormed(cmds[i])
    ensures AlwaysRebuilds(c, st, cmds) <==> AllFaithful(c, st, cmds)
    decreases |cmds|
  {
    hide Live, Logged, Faithful, Rebuilds, WellFormed;
    assert Rebuilds(c, st, cmds, 0) by { RebuildsNothing(c, st, cmds); }
    if cmds != [] {
      var next := Live(c, st, cmds[0]);
      ReplayIsLiveExactlyWhenFaithful(c, st, cmds[0]);
      RebuildsFirst(c, st, cmds);
      RebuildsExactlyWhenFaithful(c, next, cmds[1..]);
      if Faithful(c, st, cmds[0]) {
        forall k | 1 <= k <= |cmds|
          ensures Rebuilds(c, st, cmds, k) <==> Rebuilds(c, next, cmds[1..], k - 1)
        {
          RebuildsRest(c, st, cmds, k);
        }
        forall k | 0 <= k <= |cmds[1..]|
          ensures Rebuilds(c, next, cmds[1..], k) <==> Rebuilds(c, st, cmds, k + 1)
        {
          RebuildsRest(c, st, cmds, k + 1);
        }
      }
    }
  }

  lemma RebuildsNothing(c: Codec, st: KeyMap, cmds: seq<Command>)
    ensures Rebuilds(c, st, cmds, 0)
  {
    assert cmds[..0] == [] && Entries(c, st, cmds)[..0] == [];
  }

  /**
   A run where the two differ: a put of a value that takes no integer field, and an integer patch of it, while the
   metadata record of the put takes the text of the new time.  The live store is as the put left it; replay changes
   the metadata record.
   */
  lemma FailedPatchIsReplayed(c: Codec, key: Key, body: seq<Byte>, now: Timestamp, field: seq<Byte>, v: int, later: Timestamp)
    requires Lawful(c) && UserKey(key) && COLON !in field && Int64(v)
    requires c.setInt(c.normal(body), field, v) == None
    requires c.setStr(c.meta(now, false), field, TimeText(later)).Some?
    requires c.setStr(c.meta(now, false), field, TimeText(later)).value != c.meta(now, false)
    ensures var cmds := [Put(key, body, now), PatchInt(key, field, v, later)];
      && (forall i :: 0 <= i < |cmds| ==> WellFormed(cmds[i]))
      && Run(c, map[], cmds) == Run(c, map[], cmds[..1])
      && Rebuilds(c, map[], cmds, 1) && !Rebuilds(c, map[], cmds, 2)
  {
    hide MetaKey, Replay, TimeText, Lawful;
    var put, patch := Put(key, body, now), PatchInt(key, field, v, later);
    var cmds := [put, patch];
    var st := Live(c, map[], put);
    assert cmds[1..] == [patch] && cmds[..1] == [put] && [patch][1..] == [] && [put][1..] == [];
    PutThenPatch(c, key, body, now, field, v, later);
    assert Run(c, map[], cmds) == Run(c, st, [patch]) == Run(c, Live(c, st, patch), []);
    assert Run(c, map[], [put]) == Run(c, st, []);
    ReplayIsLiveExactlyWhenFaithful(c, map[], put);
    RebuildsFirst(c, map[], cmds);
    RebuildsRest(c, map[], cmds, 2);
    RebuildsFirst(c, st, [patch]);
    ReplayIsLiveExactlyWhenFaithful(c, st, patch);
  }

  lemma PutThenPatch(c: Codec, key: Key, body: seq<Byte>, now: Timestamp, field: seq<Byte>, v: int, later: Timestamp)
    requires Lawful(c) && UserKey(key)
    requires c.setInt(c.normal(body), field, v) == None
    requires c.setStr(c.meta(now, false), field, TimeText(later)).Some?
    requires c.setStr(c.meta(now, false), field, TimeText(later)).value != c.meta(now, false)
    ensures var st, patch := Live(c, map[], Put(key, body, now)), PatchInt(key, field, v, later);
      Live(c, st, patch) == st && !Faithful(c, st, patch)
  {
    hide MetaKey, TimeText;
    MetaKeysApart(key, key);
    var st := Live(c, map[], Put(key, body, now));
    assert st[key] == c.normal(body) && st[MetaKey(key)] == c.meta(now, false);
    var text := c.setStr(c.meta(now, false), field, TimeText(later)).value;
    assert st[MetaKey(key) := text][MetaKey(key)] != st[MetaKey(key)];
  }
}
