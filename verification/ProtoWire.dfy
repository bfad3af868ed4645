/**
  The protobuf wire codec (monitor-v2/api_bridge/proto_wire.py), as specified in
  Protocol Buffers Encoding, "Base 128 Varints" and "Message Structure". A read
  position is the bytes left to read; or-ing seven bits in at a shift is adding
  them with a power of 128. Field names are tokens.
  */
module ProtoWire {
  import opened Prelude

  type Byte = x: int | 0 <= x < 256

  datatype Error = TruncatedVarint | VarintTooLong | Overrun | TruncatedFixed | UnsupportedWireType
  datatype Read<+T> = Got(value: T, rest: seq<Byte>) | Fail(error: Error)

  const LAST_GROUP := 10   // an eleventh group may not announce a twelfth

  function Power128(n: nat): nat { if n == 0 then 1 else 128 * Power128(n - 1) }

  function EncodeVarint(v: nat): (bytes: seq<Byte>)
    ensures bytes != []
  {
    if v < 128 then [v] else [v % 128 + 128] + EncodeVarint(v / 128)
  }

  /** Reads the groups from number `group` on; the value is relative to that group. */
  function VarintFrom(buf: seq<Byte>, group: nat): (r: Read<nat>)
    requires group <= LAST_GROUP
    ensures r.Got? ==> |r.rest| < |buf|
    decreases LAST_GROUP - group
  {
    if buf == [] then Fail(TruncatedVarint)
    else if buf[0] < 128 then Got(buf[0], buf[1..])
    else if group == LAST_GROUP then Fail(VarintTooLong)
    else match VarintFrom(buf[1..], group + 1)
      case Got(v, rest) => Got(buf[0] - 128 + 128 * v, rest)
      case Fail(e) => Fail(e)
  }

  function Varint(buf: seq<Byte>): Read<nat> { VarintFrom(buf, 0) }

  function Signed64(v: nat): int {
    if v >= 0x8000_0000_0000_0000 then v - 0x1_0000_0000_0000_0000 else v
  }

  // ---------------------------------------------------------------- the loops

  /** `encode_varint`: emits seven bits at a time; a negative value is refused. */
  method WriteVarint(value: int) returns (r: Option<seq<Byte>>)
    ensures r.None? <==> value < 0
    ensures value >= 0 ==> r == Some(EncodeVarint(value))
  {
    if value < 0 { return None; }
    var out: seq<Byte> := [];
    var left: nat := value;
    while left >= 128
      invariant out + EncodeVarint(left) == EncodeVarint(value)
    {
      assert out + EncodeVarint(left) == (out + [left % 128 + 128]) + EncodeVarint(left / 128);
      out := out + [left % 128 + 128];
      left := left / 128;
    }
    return Some(out + [left]);
  }

  /** Put a group in at a shift, given as the power of 128 it stands for. */
  function Shifted(low: nat, scale: nat, digits: nat): nat { low + scale * digits }

  function Scaled(r: Read<nat>, low: nat, scale: nat): Read<nat> {
    match r case Got(v, rest) => Got(Shifted(low, scale, v), rest) case Fail(e) => Fail(e)
  }

  lemma NextGroup(buf: seq<Byte>, group: nat, low: nat, scale: nat)
    requires group < LAST_GROUP && buf != [] && buf[0] >= 128
    ensures Scaled(VarintFrom(buf, group), low, scale)
      == Scaled(VarintFrom(buf[1..], group + 1), Shifted(low, scale, buf[0] - 128), 128 * scale)
  {
    var r := VarintFrom(buf[1..], group + 1);
    if r.Got? { ShiftedTwice(low, scale, buf[0] - 128, r.value); }
  }

  lemma ShiftedTwice(low: nat, scale: nat, d: nat, v: nat)
    ensures Shifted(low, scale, d + 128 * v) == Shifted(Shifted(low, scale, d), 128 * scale, v)
  {
    assert scale * (d + 128 * v) == scale * d + scale * (128 * v);
    assert scale * (128 * v) == (128 * scale) * v;
  }

  lemma FirstGroup(r: Read<nat>)
    ensures Scaled(r, 0, 1) == r
  {
  }

  /** `_decode_varint`: reads at `pos`, accumulating the value shift by shift. */
  method ReadVarint(buf: seq<Byte>, pos: nat) returns (r: Read<nat>)
    requires pos <= |buf|
    ensures r == Varint(buf[pos..])
  {
    var left, result: nat, scale: nat, group := buf[pos..], 0, 1, 0;
    ghost var target := Varint(left);
    FirstGroup(target);
    while left != [] && left[0] >= 128 && group < LAST_GROUP
      invariant 0 <= group <= LAST_GROUP
      invariant Scaled(VarintFrom(left, group), result, scale) == target
      decreases |left|
    {
      NextGroup(left, group, result, scale);
      result := Shifted(result, scale, left[0] - 128);
      left, scale, group := left[1..], 128 * scale, group + 1;
    }
    if left == [] { return Fail(TruncatedVarint); }
    if left[0] >= 128 { return Fail(VarintTooLong); }
    return Got(Shifted(result, scale, left[0]), left[1..]);
  }

  // ---------------------------------------------------------------- varints round-trip exactly

  lemma {:induction false} EncodedReadsBack(v: nat, suffix: seq<Byte>, group: nat)
    requires group <= LAST_GROUP
    ensures v < Power128(LAST_GROUP + 1 - group) ==> VarintFrom(EncodeVarint(v) + suffix, group) == Got(v, suffix)
    ensures v >= Power128(LAST_GROUP + 1 - group) ==> VarintFrom(EncodeVarint(v) + suffix, group) == Fail(VarintTooLong)
    decreases LAST_GROUP - group
  {
    var code := EncodeVarint(v) + suffix;
    if v < 128 {
      assert code[1..] == suffix;
      PowerGrows(LAST_GROUP - group);
    } else {
      assert code[1..] == EncodeVarint(v / 128) + suffix;
      if group < LAST_GROUP {
        EncodedReadsBack(v / 128, suffix, group + 1);
      } else {
        assert Power128(1) == 128 * Power128(0) == 128;
      }
    }
  }

  lemma {:induction false} PowerGrows(n: nat)
    ensures 128 <= Power128(n + 1)
  {
    if n > 0 { PowerGrows(n - 1); }
  }

  /**
    Decoding an encoded varint returns the value and leaves exactly what followed, for precisely the
    values below 2^77; a larger one is refused as too long.
    */
  lemma VarintRoundTrip(v: nat, suffix: seq<Byte>)
    ensures v < 0x2000_0000_0000_0000_0000 ==> Varint(EncodeVarint(v) + suffix) == Got(v, suffix)
    ensures v >= 0x2000_0000_0000_0000_0000 ==> Varint(EncodeVarint(v) + suffix) == Fail(VarintTooLong)
  {
    EncodedReadsBack(v, suffix, 0);
    assert Power128(11) == 0x2000_0000_0000_0000_0000 by {
      assert Power128(4) == 0x1000_0000 by { assert Power128(2) == 128 * Power128(1) == 16384; }
      assert Power128(8) == 0x100_0000_0000_0000 by { assert Power128(6) == 128 * Power128(5) == 0x400_0000_0000; }
      assert Power128(10) == 128 * Power128(9);
    }
  }

  /** The number a run of groups stands for, least significant group first. */
  function Groups(bytes: seq<Byte>): nat {
    if bytes == [] then 0 else bytes[0] % 128 + 128 * Groups(bytes[1..])
  }

  /** The bytes before position `k` all announce another. */
  predicate Announcing(buf: seq<Byte>, k: nat)
    requires k <= |buf|
  {
    forall i :: 0 <= i < k ==> buf[i] >= 128
  }

  lemma {:induction false} GroupsAreRead(buf: seq<Byte>, group: nat, k: nat)
    requires group <= LAST_GROUP && k <= |buf| && Announcing(buf, k)
    ensures k + group > LAST_GROUP ==> VarintFrom(buf, group) == Fail(VarintTooLong)
    ensures k == |buf| && k + group <= LAST_GROUP ==> VarintFrom(buf, group) == Fail(TruncatedVarint)
    ensures k < |buf| && buf[k] < 128 && k + group <= LAST_GROUP ==>
      VarintFrom(buf, group) == Got(Groups(buf[..k + 1]), buf[k + 1..])
    decreases LAST_GROUP - group
  {
    if k == 0 {
      if buf != [] { assert Groups(buf[..1]) == buf[0] % 128 + 128 * Groups([]) by { assert buf[..1][1..] == []; } }
    } else if group < LAST_GROUP {
      assert Announcing(buf[1..], k - 1);
      GroupsAreRead(buf[1..], group + 1, k - 1);
      if k < |buf| {
        assert buf[1..][..k] == buf[..k + 1][1..] && buf[1..][k..] == buf[k + 1..];
      }
    }
  }

  /**
    What the decoder makes of any bytes, canonical or not: up to ten groups that announce another and
    one that does not are read as the number they stand for; an eleventh announcing group is too long,
    and bytes that end before either are a truncated varint.
    */
  lemma VarintIsItsGroups(buf: seq<Byte>, k: nat)
    requires k <= |buf| && Announcing(buf, k)
    ensures k >= 11 ==> Varint(buf) == Fail(VarintTooLong)
    ensures k <= 10 && k == |buf| ==> Varint(buf) == Fail(TruncatedVarint)
    ensures k <= 10 && k < |buf| && buf[k] < 128 ==> Varint(buf) == Got(Groups(buf[..k + 1]), buf[k + 1..])
  {
    GroupsAreRead(buf, 0, k);
  }

  // ---------------------------------------------------------------- fields and messages

  datatype Payload = Number(n: int) | Blob(bytes: seq<Byte>)
  datatype Field = Field(number: nat, payload: Payload)

  type Name = nat
  datatype Kind = IsVarint | IsBool | IsString | IsMessage | IsOther
  datatype Entry = Entry(name: Name, kind: Kind)
  type Spec = map<nat, Entry>

  /** Decoded text is kept as its bytes. */
  datatype Value = Int(n: int) | Flag(b: bool) | Text(bytes: seq<Byte>) | Sub(bytes: seq<Byte>)

  datatype Item = Item(name: Name, value: Value)

  /** A decoded message: the values its known fields carry, in wire order. */
  datatype Result = Ok(items: seq<Item>) | Bad(error: Error)

  function Take(buf: seq<Byte>, n: nat, error: Error): (r: Read<Payload>)
    ensures r.Got? ==> |r.rest| <= |buf|
  {
    if n > |buf| then Fail(error) else Got(Blob(buf[..n]), buf[n..])
  }

  function ReadPayload(buf: seq<Byte>, wire: nat): (r: Read<Payload>)
    ensures r.Got? ==> |r.rest| <= |buf|
  {
    match wire
    case 0 => (match Varint(buf) case Got(v, rest) => Got(Number(Signed64(v)), rest) case Fail(e) => Fail(e))
    case 1 => Take(buf, 8, TruncatedFixed)
    case 2 => (match Varint(buf) case Got(n, rest) => Take(rest, n, Overrun) case Fail(e) => Fail(e))
    case 5 => Take(buf, 4, TruncatedFixed)
    case _ => Fail(UnsupportedWireType)
  }

  function ReadField(buf: seq<Byte>): (r: Read<Field>)
    ensures r.Got? ==> |r.rest| < |buf|
  {
    match Varint(buf)
    case Fail(e) => Fail(e)
    case Got(tag, rest) =>
      match ReadPayload(rest, tag % 8)
      case Fail(e) => Fail(e)
      case Got(payload, rest') => Got(Field(tag / 8, payload), rest')
  }

  function Convert(kind: Kind, p: Payload): Option<Value> {
    match kind
    case IsVarint => if p.Number? then Some(Int(p.n)) else None
    case IsBool => Some(Flag(if p.Number? then p.n != 0 else p.bytes != []))
    case IsString => if p.Blob? then Some(Text(p.bytes)) else None
    case IsMessage => if p.Blob? then Some(Sub(p.bytes)) else None
    case IsOther => None
  }

  /** What one field contributes to the decoded message: at most one value under one name. */
  function Contribution(spec: Spec, f: Field): seq<Item> {
    if f.number !in spec then []
    else
      var v := Convert(spec[f.number].kind, f.payload);
      if v.None? then [] else [Item(spec[f.number].name, v.value)]
  }

  function Prepend(items: seq<Item>, r: Result): Result {
    match r case Ok(more) => Ok(items + more) case Bad(e) => Bad(e)
  }

  function Decode(spec: Spec, buf: seq<Byte>): Result
    decreases |buf|
  {
    if buf == [] then Ok([])
    else match ReadField(buf)
      case Fail(e) => Bad(e)
      case Got(f, rest) => Prepend(Contribution(spec, f), Decode(spec, rest))
  }

  /** All values of one field, in order: one value stands for itself, several for their list. */
  function ValuesOf(items: seq<Item>, name: Name): seq<Value> {
    if items == [] then []
    else
      var n := |items| - 1;
      ValuesOf(items[..n], name) + if items[n].name == name then [items[n].value] else []
  }

  ghost predicate Represents(values: map<Name, seq<Value>>, items: seq<Item>) {
    forall name :: ValuesOf(items, name) == if name in values then values[name] else []
  }

  /** `decode_message`: one pass over the buffer, collecting values in a dictionary as they come. */
  method DecodeMessage(buf: seq<Byte>, spec: Spec) returns (error: Option<Error>, values: map<Name, seq<Value>>)
    ensures error.None? ==> Decode(spec, buf).Ok? && Represents(values, Decode(spec, buf).items)
    ensures error.Some? ==> Decode(spec, buf) == Bad(error.value)
  {
    values := map[];
    ghost var items := [];
    var left := buf;
    assert Prepend([], Decode(spec, buf)) == Decode(spec, buf);
    while left != []
      invariant Prepend(items, Decode(spec, left)) == Decode(spec, buf)
      invariant Represents(values, items)
      decreases |left|
    {
      var field := ReadField(left);
      if field.Fail? { return Some(field.error), values; }
      var f := field.value;
      PrependTwice(items, Contribution(spec, f), Decode(spec, field.rest));
      left := field.rest;
      if f.number !in spec { continue; }
      var decoded := Convert(spec[f.number].kind, f.payload);
      if decoded.None? { continue; }
      var name := spec[f.number].name;
      Collected(values, items, Item(name, decoded.value));
      items := items + [Item(name, decoded.value)];
      values := values[name := (if name in values then values[name] else []) + [decoded.value]];
    }
    assert items + [] == items;
    return None, values;
  }

  lemma Collected(values: map<Name, seq<Value>>, items: seq<Item>, item: Item)
    requires Represents(values, items)
    ensures Represents(values[item.name := (if item.name in values then values[item.name] else []) + [item.value]],
      items + [item])
  {
    assert (items + [item])[..|items|] == items;
  }

  lemma PrependTwice(a: seq<Item>, b: seq<Item>, r: Result)
    ensures Prepend(a, Prepend(b, r)) == Prepend(a + b, r)
    ensures b == [] ==> a + b == a
  {
    if r.Ok? { assert a + (b + r.items) == (a + b) + r.items; }
  }

  // ---------------------------------------------------------------- concatenation

  lemma {:induction false} VarintIgnoresSuffix(a: seq<Byte>, b: seq<Byte>, group: nat)
    requires group <= LAST_GROUP && VarintFrom(a, group).Got?
    ensures VarintFrom(a + b, group) == Got(VarintFrom(a, group).value, VarintFrom(a, group).rest + b)
    decreases LAST_GROUP - group
  {
    TailOfConcat(a, b);
    if a[0] >= 128 { VarintIgnoresSuffix(a[1..], b, group + 1); }
  }

  lemma TailOfConcat(a: seq<Byte>, b: seq<Byte>)
    requires a != []
    ensures (a + b)[0] == a[0] && (a + b)[1..] == a[1..] + b
  {
  }

  lemma TakeIgnoresSuffix(a: seq<Byte>, b: seq<Byte>, n: nat, e: Error)
    requires Take(a, n, e).Got?
    ensures Take(a + b, n, e) == Got(Take(a, n, e).value, Take(a, n, e).rest + b)
  {
    assert (a + b)[..n] == a[..n] && (a + b)[n..] == a[n..] + b;
  }

  lemma BlobIgnoresSuffix(a: seq<Byte>, b: seq<Byte>)
    requires ReadPayload(a, 2).Got?
    ensures ReadPayload(a + b, 2) == Got(ReadPayload(a, 2).value, ReadPayload(a, 2).rest + b)
  {
    VarintIgnoresSuffix(a, b, 0);
    TakeIgnoresSuffix(Varint(a).rest, b, Varint(a).value, Overrun);
  }

  lemma PayloadIgnoresSuffix(a: seq<Byte>, b: seq<Byte>, wire: nat)
    requires ReadPayload(a, wire).Got?
    ensures ReadPayload(a + b, wire) == Got(ReadPayload(a, wire).value, ReadPayload(a, wire).rest + b)
  {
    match wire {
      case 0 => VarintIgnoresSuffix(a, b, 0);
      case 1 => TakeIgnoresSuffix(a, b, 8, TruncatedFixed);
      case 2 => BlobIgnoresSuffix(a, b);
      case _ => TakeIgnoresSuffix(a, b, 4, TruncatedFixed);
    }
  }

  lemma FieldIgnoresSuffix(a: seq<Byte>, b: seq<Byte>)
    requires ReadField(a).Got?
    ensures ReadField(a + b) == Got(ReadField(a).value, ReadField(a).rest + b)
  {
    VarintIgnoresSuffix(a, b, 0);
    PayloadIgnoresSuffix(Varint(a).rest, b, Varint(a).value % 8);
  }

  /**
    Whatever follows an accepted message: decoding the concatenation is decoding
    what follows and putting the message's values in front. An error in what
    follows is that error.
    */
  lemma {:induction false} DecodeConcat(spec: Spec, a: seq<Byte>, b: seq<Byte>)
    requires Decode(spec, a).Ok?
    ensures Decode(spec, a + b) == Prepend(Decode(spec, a).items, Decode(spec, b))
    decreases |a|
  {
    if a == [] {
      assert a + b == b;
      PrependTwice([], [], Decode(spec, b));
      if Decode(spec, b).Ok? { assert [] + Decode(spec, b).items == Decode(spec, b).items; }
    } else {
      var field := ReadField(a);
      FieldIgnoresSuffix(a, b);
      DecodeConcat(spec, field.rest, b);
      PrependTwice(Contribution(spec, field.value), Decode(spec, field.rest).items, Decode(spec, b));
    }
  }

  /** Field by field, the values of a concatenation are the concatenated values. */
  lemma {:induction false} ValuesConcat(a: seq<Item>, b: seq<Item>, name: Name)
    ensures ValuesOf(a + b, name) == ValuesOf(a, name) + ValuesOf(b, name)
  {
    if b == [] {
      assert a + b == a;
    } else {
      var n := |b| - 1;
      assert (a + b)[..|a + b| - 1] == a + b[..n];
      ValuesConcat(a, b[..n], name);
    }
  }

  function Named(items: seq<Item>, name: Name): nat {
    if items == [] then 0
    else Named(items[..|items| - 1], name) + if items[|items| - 1].name == name then 1 else 0
  }

  /**
    Repeated fields accumulate: a name has as many values as items, and each item's value stands
    behind those of the items of its name before it.
    */
  lemma {:induction false} RepeatedFieldsAccumulate(items: seq<Item>, i: nat)
    requires i < |items|
    ensures var name := items[i].name;
      && |ValuesOf(items, name)| == Named(items, name) > Named(items[..i], name)
      && ValuesOf(items, name)[Named(items[..i], name)] == items[i].value
  {
    var n, name := |items| - 1, items[i].name;
    EveryNamed(items[..n], name);
    if i < n {
      RepeatedFieldsAccumulate(items[..n], i);
      assert items[..n][..i] == items[..i];
    }
  }

  lemma {:induction false} EveryNamed(items: seq<Item>, name: Name)
    ensures |ValuesOf(items, name)| == Named(items, name)
  {
    if items != [] { EveryNamed(items[..|items| - 1], name); }
  }

  /** If both halves are accepted, every field of the whole holds the values of the first followed by the second's. */
  lemma MessagesConcatenate(spec: Spec, a: seq<Byte>, b: seq<Byte>, name: Name)
    requires Decode(spec, a).Ok? && Decode(spec, b).Ok?
    ensures Decode(spec, a + b).Ok?
    ensures ValuesOf(Decode(spec, a + b).items, name) ==
      ValuesOf(Decode(spec, a).items, name) + ValuesOf(Decode(spec, b).items, name)
  {
    DecodeConcat(spec, a, b);
    ValuesConcat(Decode(spec, a).items, Decode(spec, b).items, name);
  }

  /** Bytes that hold only complete fields the spec does not know. */
  predicate UnknownOnly(spec: Spec, u: seq<Byte>)
    decreases |u|
  {
    u == [] || (ReadField(u).Got? && ReadField(u).value.number !in spec && UnknownOnly(spec, ReadField(u).rest))
  }

  lemma {:induction false} UnknownDecodesToNothing(spec: Spec, u: seq<Byte>)
    requires UnknownOnly(spec, u)
    ensures Decode(spec, u) == Ok([])
    decreases |u|
  {
    if u != [] { UnknownDecodesToNothing(spec, ReadField(u).rest); }
  }

  /** Unknown fields inserted at a field boundary change nothing, whatever follows. */
  lemma UnknownFieldsChangeNothing(spec: Spec, a: seq<Byte>, u: seq<Byte>, b: seq<Byte>)
    requires Decode(spec, a).Ok? && UnknownOnly(spec, u)
    ensures Decode(spec, a + (u + b)) == Decode(spec, a + b)
  {
    UnknownDecodesToNothing(spec, u);
    DecodeConcat(spec, u, b);
    DecodeConcat(spec, a, u + b);
    DecodeConcat(spec, a, b);
    if Decode(spec, b).Ok? { assert [] + Decode(spec, b).items == Decode(spec, b).items; }
  }

  // ---------------------------------------------------------------- encoding messages

  const LIMIT := 0x2000_0000_0000_0000_0000   // 2^77

  function EncodeVarintField(number: nat, value: nat): seq<Byte> {
    EncodeVarint(number * 8) + EncodeVarint(value)
  }

  function EncodeLengthDelimited(number: nat, payload: seq<Byte>): seq<Byte> {
    EncodeVarint(number * 8 + 2) + EncodeVarint(|payload|) + payload
  }

  /** A field is read by its tag, then its payload. */
  lemma TaggedField(buf: seq<Byte>, tag: nat, rest: seq<Byte>, p: Payload, suffix: seq<Byte>)
    requires Varint(buf) == Got(tag, rest) && ReadPayload(rest, tag % 8) == Got(p, suffix)
    ensures ReadField(buf) == Got(Field(tag / 8, p), suffix)
  {
  }

  lemma TagParts(number: nat, wire: nat)
    requires wire < 8
    ensures (number * 8 + wire) / 8 == number && (number * 8 + wire) % 8 == wire
  {
  }

  lemma SizedBlob(buf: seq<Byte>, payload: seq<Byte>, suffix: seq<Byte>)
    requires Varint(buf) == Got(|payload|, payload + suffix)
    ensures ReadPayload(buf, 2) == Got(Blob(payload), suffix)
  {
    assert (payload + suffix)[..|payload|] == payload && (payload + suffix)[|payload|..] == suffix;
  }

  /** Any encoded varint below 2^77 reads back as its number and the signed view of its value. */
  lemma VarintFieldRoundTrip(number: nat, value: nat, suffix: seq<Byte>)
    requires number * 8 < LIMIT && value < LIMIT
    ensures var n := if value < 0x8000_0000_0000_0000 then value else value - 0x1_0000_0000_0000_0000;
      ReadField(EncodeVarintField(number, value) + suffix) == Got(Field(number, Number(n)), suffix)
  {
    VarintRoundTrip(number * 8, EncodeVarint(value) + suffix);
    VarintRoundTrip(value, suffix);
    TwoVarints(EncodeVarint(number * 8), EncodeVarint(value), suffix, number, value);
  }

  lemma TwoVarints(a: seq<Byte>, b: seq<Byte>, suffix: seq<Byte>, number: nat, value: nat)
    requires Varint(a + (b + suffix)) == Got(number * 8, b + suffix) && Varint(b + suffix) == Got(value, suffix)
    ensures ReadField((a + b) + suffix) == Got(Field(number, Number(Signed64(value))), suffix)
  {
    Assoc(a, b, suffix);
    TagParts(number, 0);
    TaggedField(a + (b + suffix), number * 8, b + suffix, Number(Signed64(value)), suffix);
  }

  /** An encoded length-delimited field reads back as its number and its bytes. */
  lemma LengthDelimitedRoundTrip(number: nat, payload: seq<Byte>, suffix: seq<Byte>)
    requires number * 8 + 2 < LIMIT && |payload| < LIMIT
    ensures ReadField(EncodeLengthDelimited(number, payload) + suffix) == Got(Field(number, Blob(payload)), suffix)
  {
    VarintRoundTrip(number * 8 + 2, EncodeVarint(|payload|) + (payload + suffix));
    VarintRoundTrip(|payload|, payload + suffix);
    TaggedBlob(EncodeVarint(number * 8 + 2), EncodeVarint(|payload|), payload, suffix, number);
  }

  lemma TaggedBlob(a: seq<Byte>, b: seq<Byte>, payload: seq<Byte>, suffix: seq<Byte>, number: nat)
    requires Varint(a + (b + (payload + suffix))) == Got(number * 8 + 2, b + (payload + suffix))
    requires Varint(b + (payload + suffix)) == Got(|payload|, payload + suffix)
    ensures ReadField(((a + b) + payload) + suffix) == Got(Field(number, Blob(payload)), suffix)
  {
    Reassociate(a, b, payload, suffix);
    SizedBlob(b + (payload + suffix), payload, suffix);
    TagParts(number, 2);
    TaggedField(a + (b + (payload + suffix)), number * 8 + 2, b + (payload + suffix), Blob(payload), suffix);
  }

  lemma Reassociate(a: seq<Byte>, b: seq<Byte>, c: seq<Byte>, d: seq<Byte>)
    ensures a + b + c + d == a + (b + (c + d))
  {
  }

  // ---------------------------------------------------------------- what a sender writes

  /** A field as its sender means it; text stands for strings, bytes and messages. */
  datatype Outgoing =
    | OutInt(number: nat, n: int)
    | OutBool(number: nat, b: bool)
    | OutText(number: nat, bytes: seq<Byte>)
    | OutFixed64(number: nat, bytes: seq<Byte>)
    | OutFixed32(number: nat, bytes: seq<Byte>)

  /** An int64 is sent as the 64 bits of its two's complement. */
  predicate Encodable(o: Outgoing) {
    && o.number * 8 + 5 < LIMIT
    && match o
       case OutInt(_, n) => -0x8000_0000_0000_0000 <= n < 0x8000_0000_0000_0000
       case OutBool(_, _) => true
       case OutText(_, bytes) => |bytes| < LIMIT
       case OutFixed64(_, bytes) => |bytes| == 8
       case OutFixed32(_, bytes) => |bytes| == 4
  }

  function EncodeFixed(number: nat, wire: nat, bytes: seq<Byte>): seq<Byte> {
    EncodeVarint(number * 8 + wire) + bytes
  }

  function EncodeOne(o: Outgoing): seq<Byte> {
    match o
    case OutInt(number, n) => EncodeVarintField(number, n % 0x1_0000_0000_0000_0000)
    case OutBool(number, b) => EncodeVarintField(number, if b then 1 else 0)
    case OutText(number, bytes) => EncodeLengthDelimited(number, bytes)
    case OutFixed64(number, bytes) => EncodeFixed(number, 1, bytes)
    case OutFixed32(number, bytes) => EncodeFixed(number, 5, bytes)
  }

  function EncodeAll(os: seq<Outgoing>): seq<Byte> {
    if os == [] then [] else EncodeOne(os[0]) + EncodeAll(os[1..])
  }

  /** What is said in a field, as its reader's kind takes it; nothing if the kind cannot take it. */
  function Said(o: Outgoing, kind: Kind): Option<Value> {
    match (o, kind)
    case (OutInt(_, n), IsVarint) => Some(Int(n))
    case (OutInt(_, n), IsBool) => Some(Flag(n < 0 || n > 0))
    case (OutBool(_, b), IsVarint) => Some(Int(if b then 1 else 0))
    case (OutBool(_, b), IsBool) => Some(Flag(b))
    case (OutText(_, bytes), IsBool) => Some(Flag(|bytes| > 0))
    case (OutText(_, bytes), IsString) => Some(Text(bytes))
    case (OutText(_, bytes), IsMessage) => Some(Sub(bytes))
    case (OutFixed64(_, bytes), IsBool) => Some(Flag(true))
    case (OutFixed64(_, bytes), IsString) => Some(Text(bytes))
    case (OutFixed64(_, bytes), IsMessage) => Some(Sub(bytes))
    case (OutFixed32(_, bytes), IsBool) => Some(Flag(true))
    case (OutFixed32(_, bytes), IsString) => Some(Text(bytes))
    case (OutFixed32(_, bytes), IsMessage) => Some(Sub(bytes))
    case _ => None
  }

  /** What the fields say to a reader with this spec, in order. */
  function Heard(spec: Spec, os: seq<Outgoing>): seq<Item> {
    if os == [] then []
    else
      var o := os[0];
      if o.number in spec && Said(o, spec[o.number].kind).Some?
      then [Item(spec[o.number].name, Said(o, spec[o.number].kind).value)] + Heard(spec, os[1..])
      else Heard(spec, os[1..])
  }

  /** An encoded fixed-width field reads back as its number and its bytes. */
  lemma FixedRoundTrip(number: nat, wire: nat, bytes: seq<Byte>, suffix: seq<Byte>)
    requires number * 8 + wire < LIMIT && ((wire == 1 && |bytes| == 8) || (wire == 5 && |bytes| == 4))
    ensures ReadField(EncodeFixed(number, wire, bytes) + suffix) == Got(Field(number, Blob(bytes)), suffix)
  {
    var tag := EncodeVarint(number * 8 + wire);
    VarintRoundTrip(number * 8 + wire, bytes + suffix);
    TagParts(number, wire);
    Assoc(tag, bytes, suffix);
    assert (bytes + suffix)[..|bytes|] == bytes && (bytes + suffix)[|bytes|..] == suffix;
    TaggedField(tag + (bytes + suffix), number * 8 + wire, bytes + suffix, Blob(bytes), suffix);
  }

  lemma OneRoundTrip(spec: Spec, o: Outgoing, suffix: seq<Byte>)
    requires Encodable(o)
    ensures var r := ReadField(EncodeOne(o) + suffix);
      r.Got? && r.rest == suffix && Contribution(spec, r.value) == Heard(spec, [o])
  {
    hide ReadField, EncodeVarintField, EncodeLengthDelimited, EncodeFixed;
    match o {
      case OutInt(number, n) => VarintFieldRoundTrip(number, n % 0x1_0000_0000_0000_0000, suffix);
      case OutBool(number, b) => VarintFieldRoundTrip(number, if b then 1 else 0, suffix);
      case OutText(number, bytes) => LengthDelimitedRoundTrip(number, bytes, suffix);
      case OutFixed64(number, bytes) => FixedRoundTrip(number, 1, bytes, suffix);
      case OutFixed32(number, bytes) => FixedRoundTrip(number, 5, bytes, suffix);
    }
    assert Heard(spec, [o][1..]) == [];
  }

  /**
    Decoding an encoded message yields, in order, exactly what its fields say to the reader: numbers
    with their sign, flags, and bytes; unknown fields and fields of the wrong kind say nothing.
    */
  lemma {:induction false} MessageRoundTrip(spec: Spec, os: seq<Outgoing>)
    requires forall i :: 0 <= i < |os| ==> Encodable(os[i])
    ensures Decode(spec, EncodeAll(os)) == Ok(Heard(spec, os))
  {
    hide ReadField, EncodeOne, Contribution, Said;
    if os != [] {
      var rest := EncodeAll(os[1..]);
      MessageRoundTrip(spec, os[1..]);
      OneRoundTrip(spec, os[0], rest);
      var r := ReadField(EncodeAll(os));
      assert EncodeAll(os) == EncodeOne(os[0]) + rest && EncodeAll(os) != [];
      assert Decode(spec, EncodeAll(os)) == Prepend(Contribution(spec, r.value), Decode(spec, rest));
      assert Heard(spec, os) == Heard(spec, [os[0]]) + Heard(spec, os[1..]);
    }
  }

  // ---------------------------------------------------------------- what is refused

  lemma {:induction false} EncodingAnnounces(v: nat)
    ensures Announcing(EncodeVarint(v), |EncodeVarint(v)| - 1)
  {
    if v >= 128 { EncodingAnnounces(v / 128); }
  }

  /** A varint that is cut anywhere is a truncated one. */
  lemma CutVarintFails(v: nat, k: nat)
    requires v < LIMIT && k < |EncodeVarint(v)|
    ensures Varint(EncodeVarint(v)[..k]) == Fail(TruncatedVarint)
  {
    hide Varint;
    var code := EncodeVarint(v);
    EncodingAnnounces(v);
    VarintRoundTrip(v, []);
    assert code + [] == code;
    VarintIsItsGroups(code, |code| - 1);
    assert Announcing(code[..k], k);
    VarintIsItsGroups(code[..k], k);
  }

  function WireOf(o: Outgoing): nat {
    match o case OutInt(_, _) => 0 case OutBool(_, _) => 0 case OutText(_, _) => 2
            case OutFixed64(_, _) => 1 case OutFixed32(_, _) => 5
  }

  /** What a field has after its tag. */
  function BodyOf(o: Outgoing): seq<Byte> {
    match o
    case OutInt(_, n) => EncodeVarint(n % 0x1_0000_0000_0000_0000)
    case OutBool(_, b) => EncodeVarint(if b then 1 else 0)
    case OutText(_, bytes) => EncodeVarint(|bytes|) + bytes
    case OutFixed64(_, bytes) => bytes
    case OutFixed32(_, bytes) => bytes
  }

  lemma TagAndBody(o: Outgoing)
    ensures EncodeOne(o) == EncodeVarint(o.number * 8 + WireOf(o)) + BodyOf(o)
  {
    if o.OutText? { Assoc(EncodeVarint(o.number * 8 + 2), EncodeVarint(|o.bytes|), o.bytes); }
  }

  /** The complaint about a field of which only the first `k` bytes are there. */
  function Complaint(o: Outgoing, k: nat): Error {
    var tag := |EncodeVarint(o.number * 8 + WireOf(o))|;
    if k < tag || o.OutInt? || o.OutBool? then TruncatedVarint
    else if !o.OutText? then TruncatedFixed
    else if k < tag + |EncodeVarint(|o.bytes|)| then TruncatedVarint
    else Overrun
  }

  lemma CutTagFails(tag: nat, k: nat)
    requires tag < LIMIT && k < |EncodeVarint(tag)|
    ensures ReadField(EncodeVarint(tag)[..k]) == Fail(TruncatedVarint)
  {
    CutVarintFails(tag, k);
  }

  lemma CutBodyFails(o: Outgoing, k: nat)
    requires Encodable(o) && k < |BodyOf(o)|
    ensures ReadPayload(BodyOf(o)[..k], WireOf(o)) ==
      Fail(Complaint(o, |EncodeVarint(o.number * 8 + WireOf(o))| + k))
  {
    hide Varint;
    match o {
      case OutInt(_, n) => CutVarintFails(n % 0x1_0000_0000_0000_0000, k);
      case OutBool(_, b) => CutVarintFails(if b then 1 else 0, k);
      case OutText(_, bytes) => CutTextFails(bytes, k);
      case _ =>
    }
  }

  lemma CutTextFails(bytes: seq<Byte>, k: nat)
    requires |bytes| < LIMIT && k < |EncodeVarint(|bytes|) + bytes|
    ensures ReadPayload((EncodeVarint(|bytes|) + bytes)[..k], 2) ==
      Fail(if k < |EncodeVarint(|bytes|)| then TruncatedVarint else Overrun)
  {
    hide Varint;
    var size := EncodeVarint(|bytes|);
    if k < |size| {
      CutVarintFails(|bytes|, k);
      assert (size + bytes)[..k] == size[..k];
    } else {
      VarintRoundTrip(|bytes|, bytes[..k - |size|]);
      assert (size + bytes)[..k] == size + bytes[..k - |size|];
    }
  }

  lemma CutFieldFails(o: Outgoing, k: nat)
    requires Encodable(o) && k < |EncodeOne(o)|
    ensures ReadField(EncodeOne(o)[..k]) == Fail(Complaint(o, k))
  {
    hide Varint, ReadPayload, EncodeOne, BodyOf;
    var number := o.number * 8 + WireOf(o);
    var tag := EncodeVarint(number);
    TagAndBody(o);
    if k < |tag| {
      CutTagFails(number, k);
      assert EncodeOne(o)[..k] == tag[..k];
    } else {
      var body := BodyOf(o)[..k - |tag|];
      assert EncodeOne(o)[..k] == tag + body;
      VarintRoundTrip(number, body);
      TagParts(o.number, WireOf(o));
      CutBodyFails(o, k - |tag|);
    }
  }

  /** A message that ends inside a field is refused, with the complaint of the place it was cut at. */
  lemma CutMessageFails(spec: Spec, os: seq<Outgoing>, o: Outgoing, k: nat)
    requires (forall i :: 0 <= i < |os| ==> Encodable(os[i])) && Encodable(o)
    requires 0 < k < |EncodeOne(o)|
    ensures Decode(spec, EncodeAll(os) + EncodeOne(o)[..k]) == Bad(Complaint(o, k))
  {
    hide ReadField, EncodeOne, Complaint;
    MessageRoundTrip(spec, os);
    CutFieldFails(o, k);
    DecodeConcat(spec, EncodeAll(os), EncodeOne(o)[..k]);
  }

  /** A field of a wire type other than these four ends the message in an error, known or not. */
  lemma OtherWireTypesFail(spec: Spec, os: seq<Outgoing>, number: nat, wire: nat, rest: seq<Byte>)
    requires forall i :: 0 <= i < |os| ==> Encodable(os[i])
    requires number * 8 + wire < LIMIT && wire in {3, 4, 6, 7}
    ensures Decode(spec, EncodeAll(os) + (EncodeVarint(number * 8 + wire) + rest)) == Bad(UnsupportedWireType)
  {
    hide ReadField, EncodeVarint;
    MessageRoundTrip(spec, os);
    UnsupportedTag(number, wire, rest);
    DecodeConcat(spec, EncodeAll(os), EncodeVarint(number * 8 + wire) + rest);
  }

  lemma UnsupportedTag(number: nat, wire: nat, rest: seq<Byte>)
    requires number * 8 + wire < LIMIT && wire in {3, 4, 6, 7}
    ensures ReadField(EncodeVarint(number * 8 + wire) + rest) == Fail(UnsupportedWireType)
  {
    hide Varint;
    VarintRoundTrip(number * 8 + wire, rest);
    TagParts(number, wire);
  }
}
