/** The protobuf wire-field splitter, against an encoder for tagged fields. */
module Wire {
  import opened Sums

  type Byte = b: int | 0 <= b < 256
  type Bytes = seq<Byte>

  const MAX_INT32 := 0x7FFF_FFFF
  const TWO_TO_64 := 0x1_0000_0000_0000_0000
  const RECURSION_LIMIT := 10000

  const VARINT := 0
  const FIXED64 := 1
  const BYTES := 2
  const START_GROUP := 3
  const END_GROUP := 4
  const FIXED32 := 5

  // ----- reading -----

  /** A value and how many bytes it took, or a malformed or truncated input. */
  datatype Read<T> = Bad | Good(value: T, n: nat)

  /** The bytes of a varint after `k` of them; the tenth may only hold the last bit of a 64-bit value. */
  function VarintFrom(data: Bytes, k: nat): (r: Read<nat>)
    ensures r.Good? ==> 1 <= r.n <= |data|
    decreases |data|
  {
    if data == [] then Bad
    else if k >= 9 then if data[0] < 2 then Good(data[0], 1) else Bad
    else if data[0] < 128 then Good(data[0], 1)
    else
      match VarintFrom(data[1..], k + 1)
      case Bad => Bad
      case Good(v, n) => Good(data[0] - 128 + 128 * v, n + 1)
  }

  function ConsumeVarint(data: Bytes): (r: Read<nat>)
    ensures r.Good? ==> 1 <= r.n <= |data|
  {
    VarintFrom(data, 0)
  }

  datatype Tag = Tag(number: nat, kind: nat)

  function ConsumeTag(data: Bytes): (r: Read<Tag>)
    ensures r.Good? ==> 1 <= r.n <= |data|
  {
    match ConsumeVarint(data)
    case Bad => Bad
    case Good(v, n) => if 1 <= v / 8 <= MAX_INT32 then Good(Tag(v / 8, v % 8), n) else Bad
  }

  function ConsumeBytes(data: Bytes): (r: Read<Bytes>)
    ensures r.Good? ==> 1 <= r.n <= |data|
  {
    match ConsumeVarint(data)
    case Bad => Bad
    case Good(m, n) => if m > |data| - n then Bad else Good(data[n..n + m], n + m)
  }

  /** ConsumeFieldValue: how many bytes a value of this kind takes. */
  function SkipValue(number: nat, kind: nat, data: Bytes, depth: int): (r: Read<()>)
    ensures r.Good? ==> r.n <= |data|
    decreases |data|, 1
  {
    if kind == VARINT then
      match ConsumeVarint(data) case Bad => Bad case Good(_, n) => Good((), n)
    else if kind == FIXED32 then if |data| < 4 then Bad else Good((), 4)
    else if kind == FIXED64 then if |data| < 8 then Bad else Good((), 8)
    else if kind == BYTES then
      match ConsumeBytes(data) case Bad => Bad case Good(_, n) => Good((), n)
    else if kind == START_GROUP then if depth < 0 then Bad else SkipGroup(number, data, depth)
    else Bad
  }

  /** The fields of a group up to its end tag, which must carry the group's own number. */
  function SkipGroup(number: nat, data: Bytes, depth: int): (r: Read<()>)
    ensures r.Good? ==> r.n <= |data|
    decreases |data|, 0
  {
    match ConsumeTag(data)
    case Bad => Bad
    case Good(tag, n) =>
      if tag.kind == END_GROUP then if tag.number == number then Good((), n) else Bad
      else
        match SkipValue(tag.number, tag.kind, data[n..], depth - 1)
        case Bad => Bad
        case Good(_, m) =>
          match SkipGroup(number, data[n + m..], depth)
          case Bad => Bad
          case Good(_, rest) => Good((), n + m + rest)
  }

  // ----- protoBytesFields and protoVarintFields -----

  type ByteFields = map<nat, seq<Bytes>>
  datatype Split<T> = Malformed | Fields(fields: T)

  function Appended(fields: ByteFields, number: nat, value: Bytes): ByteFields {
    fields[number := (if number in fields then fields[number] else []) + [value]]
  }

  function SplitBytes(data: Bytes, fields: ByteFields): Split<ByteFields>
    decreases |data|
  {
    if data == [] then Fields(fields)
    else
      match ConsumeTag(data)
      case Bad => Malformed
      case Good(tag, n) =>
        if tag.kind == BYTES then
          match ConsumeBytes(data[n..])
          case Bad => Malformed
          case Good(value, m) => SplitBytes(data[n + m..], Appended(fields, tag.number, value))
        else
          match SkipValue(tag.number, tag.kind, data[n..], RECURSION_LIMIT)
          case Bad => Malformed
          case Good(_, m) => SplitBytes(data[n + m..], fields)
  }

  function SplitVarints(data: Bytes, fields: map<nat, nat>): Split<map<nat, nat>>
    decreases |data|
  {
    if data == [] then Fields(fields)
    else
      match ConsumeTag(data)
      case Bad => Malformed
      case Good(tag, n) =>
        if tag.kind == VARINT then
          match ConsumeVarint(data[n..])
          case Bad => Malformed
          case Good(value, m) => SplitVarints(data[n + m..], fields[tag.number := value])
        else
          match SkipValue(tag.number, tag.kind, data[n..], RECURSION_LIMIT)
          case Bad => Malformed
          case Good(_, m) => SplitVarints(data[n + m..], fields)
  }

  method ProtoBytesFields(input: Bytes) returns (r: Split<ByteFields>)
    ensures r == SplitBytes(input, map[])
  {
    var fields: ByteFields := map[];
    var data := input;
    while |data| > 0
      invariant SplitBytes(input, map[]) == SplitBytes(data, fields)
    {
      var tag := ConsumeTag(data);
      if tag.Bad? {
        return Malformed;
      }
      ghost var whole := data;
      data := data[tag.n..];
      if tag.value.kind == BYTES {
        var value := ConsumeBytes(data);
        if value.Bad? {
          return Malformed;
        }
        fields := Appended(fields, tag.value.number, value.value);
        data := data[value.n..];
        assert data == whole[tag.n + value.n..];
        continue;
      }
      var skipped := SkipValue(tag.value.number, tag.value.kind, data, RECURSION_LIMIT);
      if skipped.Bad? {
        return Malformed;
      }
      data := data[skipped.n..];
      assert data == whole[tag.n + skipped.n..];
    }
    r := Fields(fields);
  }

  method ProtoVarintFields(input: Bytes) returns (r: Split<map<nat, nat>>)
    ensures r == SplitVarints(input, map[])
  {
    var fields: map<nat, nat> := map[];
    var data := input;
    while |data| > 0
      invariant SplitVarints(input, map[]) == SplitVarints(data, fields)
    {
      var tag := ConsumeTag(data);
      if tag.Bad? {
        return Malformed;
      }
      ghost var whole := data;
      data := data[tag.n..];
      if tag.value.kind == VARINT {
        var value := ConsumeVarint(data);
        if value.Bad? {
          return Malformed;
        }
        fields := fields[tag.value.number := value.value];
        data := data[value.n..];
        assert data == whole[tag.n + value.n..];
        continue;
      }
      var skipped := SkipValue(tag.value.number, tag.value.kind, data, RECURSION_LIMIT);
      if skipped.Bad? {
        return Malformed;
      }
      data := data[skipped.n..];
      assert data == whole[tag.n + skipped.n..];
    }
    r := Fields(fields);
  }

  // ----- writing: the wire format of tagged fields -----

  datatype Payload =
    | Varint(v: nat)
    | Fixed32(word: Bytes)
    | Fixed64(long: Bytes)
    | Chunk(bytes: Bytes)
    | Group(members: seq<Field>)
  datatype Field = Field(number: nat, payload: Payload)

  function EncodeVarint(v: nat): (b: Bytes)
    ensures |b| >= 1
  {
    if v < 128 then [v] else [v % 128 + 128] + EncodeVarint(v / 128)
  }

  function KindOf(p: Payload): (k: nat)
    ensures k < 8
  {
    match p
    case Varint(_) => VARINT
    case Fixed32(_) => FIXED32
    case Fixed64(_) => FIXED64
    case Chunk(_) => BYTES
    case Group(_) => START_GROUP
  }

  function EncodeTag(number: nat, kind: nat): Bytes {
    EncodeVarint(8 * number + kind)
  }

  function EncodePayload(number: nat, p: Payload): Bytes
    decreases p, 1
  {
    match p
    case Varint(v) => EncodeVarint(v)
    case Fixed32(word) => word
    case Fixed64(long) => long
    case Chunk(bytes) => EncodeVarint(|bytes|) + bytes
    case Group(members) => EncodeAll(members) + EncodeTag(number, END_GROUP)
  }

  function EncodeField(f: Field): Bytes
    decreases f, 0
  {
    EncodeTag(f.number, KindOf(f.payload)) + EncodePayload(f.number, f.payload)
  }

  function EncodeAll(fields: seq<Field>): Bytes
    decreases fields, 0
  {
    if fields == [] then [] else EncodeField(fields[0]) + EncodeAll(fields[1..])
  }

  /** Numbers, widths and lengths the format allows, and groups nested no deeper than the reader goes. */
  predicate WellFormed(f: Field, depth: int)
    decreases f
  {
    && 1 <= f.number <= MAX_INT32
    && match f.payload
       case Varint(v) => v < TWO_TO_64
       case Fixed32(word) => |word| == 4
       case Fixed64(long) => |long| == 8
       case Chunk(bytes) => |bytes| < TWO_TO_64
       case Group(members) => depth >= 0 && forall i :: 0 <= i < |members| ==> WellFormed(members[i], depth - 1)
  }

  // ----- reading what was written -----

  /** The values the varint bytes from position `k` on can hold. */
  function Limit(k: nat): nat
    decreases 9 - k
  {
    if k >= 9 then 2 else 128 * Limit(k + 1)
  }

  lemma FullLimit()
    ensures Limit(0) == TWO_TO_64
  {
    assert Limit(6) == 128 * 128 * 128 * 2;
    assert Limit(3) == 128 * 128 * 128 * Limit(6);
    assert Limit(0) == 128 * 128 * 128 * Limit(3);
  }

  lemma {:induction false} VarintRoundTrip(v: nat, rest: Bytes, k: nat)
    requires k <= 9 && v < Limit(k)
    ensures VarintFrom(EncodeVarint(v) + rest, k) == Good(v, |EncodeVarint(v)|)
    decreases v
  {
    if v >= 128 {
      VarintRoundTrip(v / 128, rest, k + 1);
      assert (EncodeVarint(v) + rest)[1..] == EncodeVarint(v / 128) + rest;
    }
  }

  lemma TagRoundTrip(number: nat, kind: nat, rest: Bytes)
    requires 1 <= number <= MAX_INT32 && kind < 8
    ensures ConsumeTag(EncodeTag(number, kind) + rest) == Good(Tag(number, kind), |EncodeTag(number, kind)|)
  {
    FullLimit();
    VarintRoundTrip(8 * number + kind, rest, 0);
  }

  lemma BytesRoundTrip(bytes: Bytes, rest: Bytes)
    requires |bytes| < TWO_TO_64
    ensures ConsumeBytes(EncodeVarint(|bytes|) + bytes + rest) == Good(bytes, |EncodeVarint(|bytes|)| + |bytes|)
  {
    FullLimit();
    var head := EncodeVarint(|bytes|);
    VarintRoundTrip(|bytes|, bytes + rest, 0);
    assert head + bytes + rest == head + (bytes + rest);
  }

  lemma {:induction false} PayloadSkips(number: nat, p: Payload, rest: Bytes, depth: int)
    requires WellFormed(Field(number, p), depth)
    ensures SkipValue(number, KindOf(p), EncodePayload(number, p) + rest, depth) == Good((), |EncodePayload(number, p)|)
    decreases p, 1
  {
    hide EncodeVarint, VarintFrom, EncodeAll, EncodeTag, SkipGroup, ConsumeBytes, Limit;
    match p
    case Varint(v) =>
      FullLimit();
      VarintRoundTrip(v, rest, 0);
    case Chunk(bytes) => BytesRoundTrip(bytes, rest);
    case Group(members) =>
      GroupSkips(number, members, rest, depth);
      assert EncodeAll(members) + EncodeTag(number, END_GROUP) + rest == EncodeAll(members) + (EncodeTag(number, END_GROUP) + rest);
    case _ =>
  }

  /** One field in front of more data: its tag, its payload, and where the rest begins. */
  lemma {:induction false} FieldHead(f: Field, more: Bytes, depth: int)
    requires WellFormed(f, depth)
    ensures var data, tag := EncodeField(f) + more, EncodeTag(f.number, KindOf(f.payload));
      && ConsumeTag(data) == Good(Tag(f.number, KindOf(f.payload)), |tag|)
      && data[|tag|..] == EncodePayload(f.number, f.payload) + more
      && data[|tag| + |EncodePayload(f.number, f.payload)|..] == more
      && |data| == |tag| + |EncodePayload(f.number, f.payload)| + |more| && |tag| >= 1
      && SkipValue(f.number, KindOf(f.payload), data[|tag|..], depth) == Good((), |EncodePayload(f.number, f.payload)|)
    decreases f, 0
  {
    hide EncodePayload, SkipValue, ConsumeTag, EncodeVarint;
    var tag, payload := EncodeTag(f.number, KindOf(f.payload)), EncodePayload(f.number, f.payload);
    assert EncodeField(f) + more == tag + (payload + more);
    TagRoundTrip(f.number, KindOf(f.payload), payload + more);
    PayloadSkips(f.number, f.payload, more, depth);
  }

  lemma GroupStep(number: nat, data: Bytes, depth: int, tag: Tag, n: nat, m: nat, k: nat)
    requires ConsumeTag(data) == Good(tag, n) && tag.kind != END_GROUP
    requires SkipValue(tag.number, tag.kind, data[n..], depth - 1) == Good((), m)
    requires SkipGroup(number, data[n + m..], depth) == Good((), k)
    ensures SkipGroup(number, data, depth) == Good((), n + m + k)
  {
    hide ConsumeTag, SkipValue;
  }

  lemma {:induction false} GroupSkips(number: nat, members: seq<Field>, rest: Bytes, depth: int)
    requires 1 <= number <= MAX_INT32
    requires forall i :: 0 <= i < |members| ==> WellFormed(members[i], depth - 1)
    ensures SkipGroup(number, EncodeAll(members) + (EncodeTag(number, END_GROUP) + rest), depth)
      == Good((), |EncodeAll(members)| + |EncodeTag(number, END_GROUP)|)
    decreases members, 0
  {
    hide EncodePayload, EncodeTag, SkipValue, ConsumeTag, WellFormed;
    var stop := EncodeTag(number, END_GROUP) + rest;
    if members == [] {
      TagRoundTrip(number, END_GROUP, rest);
      assert EncodeAll(members) + stop == stop;
    } else {
      var f, more := members[0], EncodeAll(members[1..]);
      FieldHead(f, more + stop, depth - 1);
      GroupSkips(number, members[1..], rest, depth);
      var tag, payload := EncodeTag(f.number, KindOf(f.payload)), EncodePayload(f.number, f.payload);
      assert EncodeAll(members) + stop == EncodeField(f) + (more + stop);
      GroupStep(number, EncodeField(f) + (more + stop), depth, Tag(f.number, KindOf(f.payload)), |tag|, |payload|,
                |more| + |EncodeTag(number, END_GROUP)|);
      assert |EncodeAll(members)| == |tag| + |payload| + |more|;
    }
  }

  // ----- what a message means, by field number -----

  function CollectBytes(fields: seq<Field>, found: ByteFields): ByteFields {
    if fields == [] then found
    else CollectBytes(fields[1..],
      if fields[0].payload.Chunk? then Appended(found, fields[0].number, fields[0].payload.bytes) else found)
  }

  function CollectVarints(fields: seq<Field>, found: map<nat, nat>): map<nat, nat> {
    if fields == [] then found
    else CollectVarints(fields[1..], if fields[0].payload.Varint? then found[fields[0].number := fields[0].payload.v] else found)
  }

  predicate Message(fields: seq<Field>) {
    forall i :: 0 <= i < |fields| ==> WellFormed(fields[i], RECURSION_LIMIT)
  }

  lemma {:induction false} BytesRead(fields: seq<Field>, found: ByteFields)
    requires Message(fields)
    ensures SplitBytes(EncodeAll(fields), found) == Fields(CollectBytes(fields, found))
  {
    if fields != [] {
      var f, more := fields[0], EncodeAll(fields[1..]);
      FieldHead(f, more, RECURSION_LIMIT);
      if f.payload.Chunk? {
        BytesRoundTrip(f.payload.bytes, more);
        BytesRead(fields[1..], Appended(found, f.number, f.payload.bytes));
      } else {
        BytesRead(fields[1..], found);
      }
      hide SkipValue, ConsumeTag, ConsumeBytes, EncodeField, EncodeTag, Appended, WellFormed;
    }
  }

  lemma {:induction false} VarintsRead(fields: seq<Field>, found: map<nat, nat>)
    requires Message(fields)
    ensures SplitVarints(EncodeAll(fields), found) == Fields(CollectVarints(fields, found))
  {
    if fields != [] {
      var f, more := fields[0], EncodeAll(fields[1..]);
      FieldHead(f, more, RECURSION_LIMIT);
      if f.payload.Varint? {
        FullLimit();
        VarintRoundTrip(f.payload.v, more, 0);
        VarintsRead(fields[1..], found[f.number := f.payload.v]);
      } else {
        VarintsRead(fields[1..], found);
      }
      hide SkipValue, ConsumeTag, EncodeField, EncodeTag, WellFormed;
    }
  }

  /** The length-delimited payloads under one number, in the order they were written. */
  function ChunksOf(fields: seq<Field>, number: nat): seq<Bytes> {
    if fields == [] then []
    else (if fields[0].number == number && fields[0].payload.Chunk? then [fields[0].payload.bytes] else []) + ChunksOf(fields[1..], number)
  }

  /** The varints under one number, in the order they were written. */
  function VarintsOf(fields: seq<Field>, number: nat): seq<nat> {
    if fields == [] then []
    else (if fields[0].number == number && fields[0].payload.Varint? then [fields[0].payload.v] else []) + VarintsOf(fields[1..], number)
  }

  function PayloadsAt(fields: ByteFields, number: nat): seq<Bytes> {
    if number in fields then fields[number] else []
  }

  lemma {:induction false} CollectedBytes(fields: seq<Field>, found: ByteFields, number: nat)
    ensures PayloadsAt(CollectBytes(fields, found), number) == PayloadsAt(found, number) + ChunksOf(fields, number)
  {
    if fields != [] {
      var f := fields[0];
      CollectedBytes(fields[1..], if f.payload.Chunk? then Appended(found, f.number, f.payload.bytes) else found, number);
    }
  }

  lemma {:induction false} CollectedVarints(fields: seq<Field>, found: map<nat, nat>, number: nat)
    ensures var r, vs := CollectVarints(fields, found), VarintsOf(fields, number);
      if vs != [] then number in r && r[number] == vs[|vs| - 1]
      else (number in r <==> number in found) && (number in found ==> r[number] == found[number])
  {
    if fields != [] {
      var f := fields[0];
      CollectedVarints(fields[1..], if f.payload.Varint? then found[f.number := f.payload.v] else found, number);
    }
  }

  /** Reading a written message gives, for each number, its length-delimited payloads in order. */
  lemma MessageBytes(fields: seq<Field>, number: nat)
    requires Message(fields)
    ensures SplitBytes(EncodeAll(fields), map[]).Fields?
    ensures PayloadsAt(SplitBytes(EncodeAll(fields), map[]).fields, number) == ChunksOf(fields, number)
  {
    BytesRead(fields, map[]);
    CollectedBytes(fields, map[], number);
  }

  /** And for each number the last varint written under it, if any. */
  lemma MessageVarints(fields: seq<Field>, number: nat)
    requires Message(fields)
    ensures SplitVarints(EncodeAll(fields), map[]).Fields?
    ensures var r, vs := SplitVarints(EncodeAll(fields), map[]).fields, VarintsOf(fields, number);
      (number in r <==> vs != []) && (vs != [] ==> r[number] == vs[|vs| - 1])
  {
    VarintsRead(fields, map[]);
    CollectedVarints(fields, map[], number);
  }

  // ----- what is refused -----

  /** A varint cut short is none. */
  lemma {:induction false} VarintCut(v: nat, n: nat, k: nat)
    requires k <= 9 && v < Limit(k) && n < |EncodeVarint(v)|
    ensures VarintFrom(EncodeVarint(v)[..n], k).Bad?
    decreases v
  {
    if n > 0 {
      assert v >= 128;
      VarintCut(v / 128, n - 1, k + 1);
      assert EncodeVarint(v)[..n][1..] == EncodeVarint(v / 128)[..n - 1];
    }
  }

  lemma TagCut(number: nat, kind: nat, n: nat)
    requires 1 <= number <= MAX_INT32 && kind < 8 && n < |EncodeTag(number, kind)|
    ensures ConsumeTag(EncodeTag(number, kind)[..n]).Bad?
  {
    FullLimit();
    VarintCut(8 * number + kind, n, 0);
  }

  lemma BytesCut(bytes: Bytes, n: nat)
    requires |bytes| < TWO_TO_64 && n < |EncodeVarint(|bytes|)| + |bytes|
    ensures ConsumeBytes((EncodeVarint(|bytes|) + bytes)[..n]).Bad?
  {
    FullLimit();
    var head := EncodeVarint(|bytes|);
    var data := (head + bytes)[..n];
    if n < |head| {
      VarintCut(|bytes|, n, 0);
      assert data == head[..n];
    } else {
      VarintRoundTrip(|bytes|, bytes[..n - |head|], 0);
      assert data == head + bytes[..n - |head|];
    }
  }

  lemma {:induction false} PayloadCut(number: nat, p: Payload, n: nat, depth: int)
    requires WellFormed(Field(number, p), depth) && n < |EncodePayload(number, p)|
    ensures SkipValue(number, KindOf(p), EncodePayload(number, p)[..n], depth).Bad?
    decreases p, 1
  {
    hide EncodeVarint, VarintFrom, EncodeAll, EncodeTag, SkipGroup, ConsumeBytes, Limit;
    match p
    case Varint(v) =>
      FullLimit();
      VarintCut(v, n, 0);
    case Chunk(bytes) => BytesCut(bytes, n);
    case Group(members) => GroupCut(number, members, n, depth);
    case _ =>
  }

  lemma {:induction false} SkipGroupBad(number: nat, data: Bytes, depth: int)
    requires match ConsumeTag(data)
             case Bad => true
             case Good(tag, n) => tag.kind != END_GROUP && match SkipValue(tag.number, tag.kind, data[n..], depth - 1)
             case Bad => true
             case Good(_, m) => SkipGroup(number, data[n + m..], depth).Bad?
    ensures SkipGroup(number, data, depth).Bad?
  {
    hide ConsumeTag, SkipValue;
  }

  /** A field cut inside: its tag cannot be read, or its payload cannot be skipped. */
  lemma {:induction false} FieldCut(f: Field, n: nat, depth: int)
    requires WellFormed(f, depth) && n < |EncodeField(f)|
    ensures n < |EncodeTag(f.number, KindOf(f.payload))| ==> ConsumeTag(EncodeField(f)[..n]).Bad?
    ensures n >= |EncodeTag(f.number, KindOf(f.payload))| ==>
      var data, tag := EncodeField(f)[..n], EncodeTag(f.number, KindOf(f.payload));
      && ConsumeTag(data) == Good(Tag(f.number, KindOf(f.payload)), |tag|)
      && data[|tag|..] == EncodePayload(f.number, f.payload)[..n - |tag|]
      && SkipValue(f.number, KindOf(f.payload), data[|tag|..], depth).Bad?
    decreases f, 0
  {
    hide EncodePayload, SkipValue, ConsumeTag, EncodeVarint, EncodeTag;
    var tag, payload := EncodeTag(f.number, KindOf(f.payload)), EncodePayload(f.number, f.payload);
    assert EncodeField(f) == tag + payload;
    if n < |tag| {
      TagCut(f.number, KindOf(f.payload), n);
      assert EncodeField(f)[..n] == tag[..n];
    } else {
      assert EncodeField(f)[..n] == tag + payload[..n - |tag|];
      TagRoundTrip(f.number, KindOf(f.payload), payload[..n - |tag|]);
      PayloadCut(f.number, f.payload, n - |tag|, depth);
    }
  }

  lemma {:induction false} GroupCut(number: nat, members: seq<Field>, n: nat, depth: int)
    requires 1 <= number <= MAX_INT32 && n < |EncodeAll(members)| + |EncodeTag(number, END_GROUP)|
    requires forall i :: 0 <= i < |members| ==> WellFormed(members[i], depth - 1)
    ensures SkipGroup(number, (EncodeAll(members) + EncodeTag(number, END_GROUP))[..n], depth).Bad?
    decreases members, 0
  {
    hide EncodePayload, EncodeTag, SkipValue, ConsumeTag, WellFormed, SkipGroup, EncodeField;
    var stop := EncodeTag(number, END_GROUP);
    var data := (EncodeAll(members) + stop)[..n];
    if members == [] {
      TagCut(number, END_GROUP, n);
      assert data == stop[..n];
    } else {
      var f, more := members[0], EncodeAll(members[1..]);
      assert EncodeAll(members) + stop == EncodeField(f) + (more + stop);
      if n < |EncodeField(f)| {
        FieldCut(f, n, depth - 1);
        assert data == EncodeField(f)[..n];
      } else {
        var rest := (more + stop)[..n - |EncodeField(f)|];
        assert data == EncodeField(f) + rest;
        FieldHead(f, rest, depth - 1);
        GroupCut(number, members[1..], n - |EncodeField(f)|, depth);
      }
    }
    SkipGroupBad(number, data, depth);
  }

  lemma FieldSize(f: Field)
    ensures |EncodeField(f)| == |EncodeTag(f.number, KindOf(f.payload))| + |EncodePayload(f.number, f.payload)| > 0
  {
  }

  lemma BadTail(f: Field, n: nat, found: ByteFields, values: map<nat, nat>)
    requires WellFormed(f, RECURSION_LIMIT) && 0 < n < |EncodeField(f)|
    ensures SplitBytes(EncodeField(f)[..n], found).Malformed? && SplitVarints(EncodeField(f)[..n], values).Malformed?
  {
    hide EncodePayload, ConsumeTag, EncodeTag, WellFormed, EncodeField, Appended, SkipGroup, ConsumeVarint, ConsumeBytes;
    FieldCut(f, n, RECURSION_LIMIT);
  }

  /** Reading goes on behind whole fields, whatever follows them. */
  lemma {:induction false} FieldsThen(fields: seq<Field>, rest: Bytes, found: ByteFields)
    requires Message(fields)
    ensures SplitBytes(EncodeAll(fields) + rest, found) == SplitBytes(rest, CollectBytes(fields, found))
  {
    hide SkipValue, ConsumeTag, ConsumeBytes, EncodeField, EncodeTag, Appended, WellFormed, EncodePayload;
    if fields == [] {
      assert EncodeAll(fields) + rest == rest;
    } else {
      var f, more := fields[0], EncodeAll(fields[1..]) + rest;
      assert EncodeAll(fields) + rest == EncodeField(f) + more;
      FieldSize(f);
      FieldHead(f, more, RECURSION_LIMIT);
      if f.payload.Chunk? {
        ChunkRead(f, more);
        FieldsThen(fields[1..], rest, Appended(found, f.number, f.payload.bytes));
      } else {
        FieldsThen(fields[1..], rest, found);
      }
    }
  }

  lemma ChunkRead(f: Field, more: Bytes)
    requires WellFormed(f, RECURSION_LIMIT) && f.payload.Chunk?
    ensures ConsumeBytes(EncodePayload(f.number, f.payload) + more) == Good(f.payload.bytes, |EncodePayload(f.number, f.payload)|)
  {
    BytesRoundTrip(f.payload.bytes, more);
  }

  lemma VarintRead(f: Field, more: Bytes)
    requires WellFormed(f, RECURSION_LIMIT) && f.payload.Varint?
    ensures ConsumeVarint(EncodePayload(f.number, f.payload) + more) == Good(f.payload.v, |EncodePayload(f.number, f.payload)|)
  {
    FullLimit();
    VarintRoundTrip(f.payload.v, more, 0);
  }

  lemma {:induction false} VarintFieldsThen(fields: seq<Field>, rest: Bytes, found: map<nat, nat>)
    requires Message(fields)
    ensures SplitVarints(EncodeAll(fields) + rest, found) == SplitVarints(rest, CollectVarints(fields, found))
  {
    hide SkipValue, ConsumeTag, ConsumeVarint, EncodeField, EncodeTag, WellFormed, EncodePayload;
    if fields == [] {
      assert EncodeAll(fields) + rest == rest;
    } else {
      var f, more := fields[0], EncodeAll(fields[1..]) + rest;
      assert EncodeAll(fields) + rest == EncodeField(f) + more;
      FieldSize(f);
      FieldHead(f, more, RECURSION_LIMIT);
      if f.payload.Varint? {
        VarintRead(f, more);
        VarintFieldsThen(fields[1..], rest, found[f.number := f.payload.v]);
      } else {
        VarintFieldsThen(fields[1..], rest, found);
      }
    }
  }

  /** A message that ends anywhere inside a field, group members and end tags included, is refused as a whole. */
  lemma CutMessageRefused(fields: seq<Field>, f: Field, n: nat)
    requires Message(fields) && WellFormed(f, RECURSION_LIMIT) && 0 < n < |EncodeField(f)|
    ensures SplitBytes(EncodeAll(fields) + EncodeField(f)[..n], map[]).Malformed?
    ensures SplitVarints(EncodeAll(fields) + EncodeField(f)[..n], map[]).Malformed?
  {
    hide SplitBytes, SplitVarints;
    FieldsThen(fields, EncodeField(f)[..n], map[]);
    VarintFieldsThen(fields, EncodeField(f)[..n], map[]);
    BadTail(f, n, CollectBytes(fields, map[]), CollectVarints(fields, map[]));
  }

  /** So is one with the field number 0, a reserved wire type, or the end of a group that was not begun. */
  lemma BadTagRefused(fields: seq<Field>, number: nat, kind: nat, rest: Bytes)
    requires Message(fields) && number <= MAX_INT32 && kind < 8
    requires number == 0 || kind == END_GROUP || kind == 6 || kind == 7
    ensures SplitBytes(EncodeAll(fields) + (EncodeTag(number, kind) + rest), map[]).Malformed?
    ensures SplitVarints(EncodeAll(fields) + (EncodeTag(number, kind) + rest), map[]).Malformed?
  {
    hide EncodeAll, CollectBytes, CollectVarints, SplitBytes, SplitVarints, Message;
    FieldsThen(fields, EncodeTag(number, kind) + rest, map[]);
    VarintFieldsThen(fields, EncodeTag(number, kind) + rest, map[]);
    BadHead(number, kind, rest, CollectBytes(fields, map[]), CollectVarints(fields, map[]));
  }

  lemma BadHead(number: nat, kind: nat, rest: Bytes, found: ByteFields, values: map<nat, nat>)
    requires number <= MAX_INT32 && kind < 8 && (number == 0 || kind == END_GROUP || kind == 6 || kind == 7)
    ensures SplitBytes(EncodeTag(number, kind) + rest, found).Malformed? && SplitVarints(EncodeTag(number, kind) + rest, values).Malformed?
  {
    BadTag(number, kind, rest);
    hide EncodeTag, ConsumeTag, ConsumeBytes, ConsumeVarint, SkipGroup, Appended;
  }

  lemma BadTag(number: nat, kind: nat, rest: Bytes)
    requires number <= MAX_INT32 && kind < 8
    ensures var data := EncodeTag(number, kind) + rest;
      && data != []
      && (number == 0 ==> ConsumeTag(data).Bad?)
      && (number > 0 ==> ConsumeTag(data) == Good(Tag(number, kind), |EncodeTag(number, kind)|))
  {
    FullLimit();
    VarintRoundTrip(8 * number + kind, rest, 0);
    hide VarintFrom, EncodeVarint, Limit;
  }

  // ----- string maps -----

  /** protoString: the first payload under a number, or the empty string. */
  function ProtoString(fields: ByteFields, number: nat): Bytes {
    if PayloadsAt(fields, number) == [] then [] else PayloadsAt(fields, number)[0]
  }

  /** Entries that do not parse are passed over; a repeated key keeps its last value. */
  function StringMap(entries: seq<Bytes>): map<Bytes, Bytes> {
    if entries == [] then map[]
    else
      var before, last := StringMap(entries[..|entries| - 1]), SplitBytes(entries[|entries| - 1], map[]);
      if last.Malformed? then before else before[ProtoString(last.fields, 1) := ProtoString(last.fields, 2)]
  }

  method ProtoStringMap(fields: ByteFields, number: nat) returns (out: map<Bytes, Bytes>)
    ensures out == StringMap(PayloadsAt(fields, number))
  {
    hide SplitBytes, ProtoString;
    out := map[];
    var entries := PayloadsAt(fields, number);
    for i := 0 to |entries|
      invariant out == StringMap(entries[..i])
    {
      assert entries[..i + 1][..i] == entries[..i];
      var pair := ProtoBytesFields(entries[i]);
      if pair.Malformed? {
        continue;
      }
      out := out[ProtoString(pair.fields, 1) := ProtoString(pair.fields, 2)];
    }
    assert entries[..|entries|] == entries;
  }

  type Pair = (Bytes, Bytes)

  function PairFields(p: Pair): seq<Field> {
    [Field(1, Chunk(p.0)), Field(2, Chunk(p.1))]
  }

  function EncodePairs(pairs: seq<Pair>): (entries: seq<Bytes>)
    ensures |entries| == |pairs|
    ensures forall i :: 0 <= i < |pairs| ==> entries[i] == EncodeAll(PairFields(pairs[i]))
  {
    seq(|pairs|, i requires 0 <= i < |pairs| => EncodeAll(PairFields(pairs[i])))
  }

  lemma PairRead(p: Pair)
    requires |p.0| < TWO_TO_64 && |p.1| < TWO_TO_64
    ensures var r := SplitBytes(EncodeAll(PairFields(p)), map[]);
      r.Fields? && ProtoString(r.fields, 1) == p.0 && ProtoString(r.fields, 2) == p.1
  {
    var fields := PairFields(p);
    MessageBytes(fields, 1);
    MessageBytes(fields, 2);
    assert fields[1..] == [Field(2, Chunk(p.1))] && fields[1..][1..] == [];
    assert ChunksOf(fields, 1) == [p.0] + ChunksOf(fields[1..], 1);
    assert ChunksOf(fields, 2) == ChunksOf(fields[1..], 2);
    assert ChunksOf(fields[1..], 2) == [p.1] + ChunksOf([], 2);
  }

  lemma {:induction false} PairsRead(pairs: seq<Pair>)
    requires forall i :: 0 <= i < |pairs| ==> |pairs[i].0| < TWO_TO_64 && |pairs[i].1| < TWO_TO_64
    ensures StringMap(EncodePairs(pairs)) == MapOf(pairs)
  {
    if pairs != [] {
      var n := |pairs| - 1;
      PairsRead(pairs[..n]);
      assert EncodePairs(pairs)[..n] == EncodePairs(pairs[..n]);
      PairRead(pairs[n]);
      hide SplitBytes, EncodeAll, ProtoString;
    }
  }

  /**
   * A string map written as entries of one field, among any other fields of the message, is
   * read back as that map.
   */
  lemma StringMapRoundTrip(fields: seq<Field>, number: nat, pairs: seq<Pair>)
    requires Message(fields) && ChunksOf(fields, number) == EncodePairs(pairs)
    requires forall i :: 0 <= i < |pairs| ==> |pairs[i].0| < TWO_TO_64 && |pairs[i].1| < TWO_TO_64
    ensures SplitBytes(EncodeAll(fields), map[]).Fields?
    ensures StringMap(PayloadsAt(SplitBytes(EncodeAll(fields), map[]).fields, number)) == MapOf(pairs)
  {
    MessageBytes(fields, number);
    PairsRead(pairs);
  }

  /** So a map is read back, in whatever order its entries were written. */
  lemma MapRoundTrip(fields: seq<Field>, number: nat, pairs: seq<Pair>, m: map<Bytes, Bytes>)
    requires Message(fields) && ChunksOf(fields, number) == EncodePairs(pairs) && Lists(pairs, m)
    requires forall k :: k in m ==> |k| < TWO_TO_64 && |m[k]| < TWO_TO_64
    ensures SplitBytes(EncodeAll(fields), map[]).Fields?
    ensures StringMap(PayloadsAt(SplitBytes(EncodeAll(fields), map[]).fields, number)) == m
  {
    hide Message, EncodePairs, SplitBytes, StringMap;
    StringMapRoundTrip(fields, number, pairs);
    MapOfEntries(pairs, m);
  }
}
