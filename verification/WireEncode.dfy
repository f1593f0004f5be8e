/** Writing protobuf messages, to show what the schema-less decoder makes of
    them (Protocol Buffers Encoding, "Message Structure"). */
module WireEncode {
  import opened Common
  import opened Varint
  import opened Bytes
  import opened Wire

  /** What a field holds before it is written. The wire has one type for byte
      strings and for nested messages. */
  datatype Item =
    | VarintItem(raw: nat)
    | Fixed64Item(bits: nat)
    | Fixed32Item(bits: nat)
    | BytesItem(content: seq<byte>)
    | MessageItem(fields: seq<Occurrence>)

  datatype Occurrence = Occurrence(number: nat, item: Item)

  function FixedBytes(bits: nat, n: nat): (bytes: seq<byte>)
    ensures |bytes| == n
  {
    if n == 0 then [] else [bits % 256] + FixedBytes(bits / 256, n - 1)
  }

  function WireType(item: Item): nat {
    match item
    case VarintItem(_) => 0
    case Fixed64Item(_) => 1
    case Fixed32Item(_) => 5
    case _ => 2
  }

  function Payload(item: Item): seq<byte>
    decreases item
  {
    match item
    case VarintItem(raw) => EncodeVarint(raw)
    case Fixed64Item(bits) => FixedBytes(bits, 8)
    case Fixed32Item(bits) => FixedBytes(bits, 4)
    case BytesItem(content) => EncodeVarint(|content|) + content
    case MessageItem(fields) => EncodeVarint(|Encode(fields)|) + Encode(fields)
  }

  function EncodeOne(f: Occurrence): (bytes: seq<byte>)
    ensures bytes != []
    decreases f
  {
    EncodeVarint(8 * f.number + WireType(f.item)) + Payload(f.item)
  }

  function Encode(fields: seq<Occurrence>): seq<byte>
    decreases fields
  {
    if fields == [] then [] else EncodeOne(fields[0]) + Encode(fields[1..])
  }

  /** Keys, lengths and values that fit their place on the wire. */
  predicate Writable(item: Item)
    decreases item
  {
    match item
    case VarintItem(raw) => raw < U64
    case Fixed64Item(bits) => bits < U64
    case Fixed32Item(bits) => bits < 0x1_0000_0000
    case BytesItem(content) => |content| < U64
    case MessageItem(fields) => |Encode(fields)| < U64 && AllWritable(fields)
  }

  predicate OneWritable(f: Occurrence)
    decreases f
  {
    0 < f.number && 8 * f.number + 8 <= U64 && Writable(f.item)
  }

  predicate AllWritable(fields: seq<Occurrence>)
    decreases fields
  {
    fields != [] ==> OneWritable(fields[0]) && AllWritable(fields[1..])
  }

  /** What is shown of an item. A nested message is shown as one unless it is
      empty or lies too deep; a byte string may happen to read as one. */
  function Shown(item: Item, depth: nat): (v: Value)
    ensures !v.Array?
    decreases item
  {
    match item
    case VarintItem(raw) =>
      if raw < 0x20_0000_0000_0000 then Number(raw) else Annotated(raw, if raw < U64 / 2 then raw else raw - U64)
    case Fixed64Item(bits) => Double(bits)
    case Fixed32Item(bits) => Float(bits)
    case BytesItem(content) =>
      var nested := FieldList(content, depth + 1);
      if content != [] && nested.Some? then Object(Collapse(nested.value)) else Text(content)
    case MessageItem(fields) =>
      if fields == [] || depth >= 32 then Text(Encode(fields)) else Object(Collapse(AllShown(fields, depth + 1)))
  }

  function OneShown(f: Occurrence, depth: nat): (field: Field)
    ensures !field.value.Array?
    decreases f
  {
    Field(f.number, Shown(f.item, depth))
  }

  function AllShown(fields: seq<Occurrence>, depth: nat): (shown: seq<Field>)
    decreases fields
  {
    if fields == [] then [] else [OneShown(fields[0], depth)] + AllShown(fields[1..], depth)
  }

  // ----- Reading back what was written

  lemma {:induction false} FixedReads(bits: nat, n: nat, limit: nat)
    requires bits < limit && limit == Power256(n)
    ensures LittleEndian(FixedBytes(bits, n)) == bits
  {
    if n > 0 {
      FixedReads(bits / 256, n - 1, Power256(n - 1));
    }
  }

  lemma FixedPayloadReads(bits: nat, n: nat, rest: seq<byte>)
    requires (n == 4 && bits < 0x1_0000_0000) || (n == 8 && bits < U64)
    ensures var bytes := FixedBytes(bits, n) + rest;
            |bytes| >= n && LittleEndian(bytes[..n]) == bits
  {
    Widths();
    FixedReads(bits, n, Power256(n));
    assert (FixedBytes(bits, n) + rest)[..n] == FixedBytes(bits, n);
  }

  lemma KeyReads(number: nat, wireType: nat, rest: seq<byte>)
    requires 0 < number && 8 * number + 8 <= U64 && wireType in {0, 1, 2, 5}
    ensures var key := EncodeVarint(8 * number + wireType);
            FieldKey(key + rest) == Some((number, wireType, |key|))
  {
    VarintRoundTrip(8 * number + wireType, rest);
  }

  lemma DelimitedReads(content: seq<byte>, rest: seq<byte>)
    requires |content| < U64
    ensures var run := EncodeVarint(|content|) + content;
            Delimited(run + rest) == Some((content, |run|))
  {
    var length := EncodeVarint(|content|);
    VarintRoundTrip(|content|, content + rest);
    RunShape(length, content, rest);
    DelimitedAt(length + content + rest, |content|, |length|);
  }

  lemma RunShape(length: seq<byte>, content: seq<byte>, rest: seq<byte>)
    ensures var bytes := length + content + rest;
            bytes == length + (content + rest) && bytes[|length|..|length| + |content|] == content
  {
  }

  lemma {:induction false} PayloadReads(item: Item, rest: seq<byte>, depth: nat)
    requires Writable(item) && depth <= MAX_DEPTH
    ensures ParseValue(WireType(item), Payload(item) + rest, depth) == Some((Shown(item, depth), |Payload(item)|))
    decreases item
  {
    match item
    case VarintItem(raw) => VarintRoundTrip(raw, rest);
    case Fixed64Item(bits) => FixedPayloadReads(bits, 8, rest);
    case Fixed32Item(bits) => FixedPayloadReads(bits, 4, rest);
    case BytesItem(content) => DelimitedReads(content, rest);
    case MessageItem(fields) =>
      DelimitedReads(Encode(fields), rest);
      NestedReads(fields, depth);
  }

  lemma {:induction false} NestedReads(fields: seq<Occurrence>, depth: nat)
    requires AllWritable(fields) && depth <= MAX_DEPTH
    ensures Guess(Encode(fields), depth) == Shown(MessageItem(fields), depth)
    decreases fields, 1
  {
    if fields != [] && depth < MAX_DEPTH {
      EncodedReads(fields, depth + 1);
    }
  }

  lemma FieldReads(bytes: seq<byte>, keyUsed: nat, number: nat, wireType: nat, value: Value, used: nat, depth: nat)
    requires keyUsed <= |bytes| && FieldKey(bytes) == Some((number, wireType, keyUsed))
    requires ParseValue(wireType, bytes[keyUsed..], depth) == Some((value, used))
    ensures ParseField(bytes, depth) == Some(Parsed(Field(number, value), keyUsed + used))
  {
  }

  lemma KeyAndPayloadRead(number: nat, wireType: nat, payload: seq<byte>, value: Value, rest: seq<byte>, depth: nat)
    requires 0 < number && 8 * number + 8 <= U64 && wireType in {0, 1, 2, 5}
    requires ParseValue(wireType, payload + rest, depth) == Some((value, |payload|))
    ensures var one := EncodeVarint(8 * number + wireType) + payload;
            ParseField(one + rest, depth) == Some(Parsed(Field(number, value), |one|))
  {
    var key := EncodeVarint(8 * number + wireType);
    var bytes := key + payload + rest;
    KeyReads(number, wireType, payload + rest);
    assert bytes == key + (payload + rest);
    assert bytes[|key|..] == payload + rest;
    FieldReads(bytes, |key|, number, wireType, value, |payload|, depth);
  }

  lemma {:induction false} OneReads(f: Occurrence, rest: seq<byte>, depth: nat)
    requires OneWritable(f) && depth <= MAX_DEPTH
    ensures ParseField(EncodeOne(f) + rest, depth) == Some(Parsed(OneShown(f, depth), |EncodeOne(f)|))
    decreases f
  {
    PayloadReads(f.item, rest, depth);
    KeyAndPayloadRead(f.number, WireType(f.item), Payload(f.item), Shown(f.item, depth), rest, depth);
  }

  /** Whatever message is written, with every kind of field and nested however
      deep, the decoder finds its fields in order: each with its number and its
      value, a nested message as the object it decodes to. */
  lemma {:induction false} EncodedReads(fields: seq<Occurrence>, depth: nat)
    requires AllWritable(fields) && depth <= MAX_DEPTH
    ensures FieldList(Encode(fields), depth) == Some(AllShown(fields, depth))
    decreases fields, 0
  {
    if fields != [] {
      var rest := Encode(fields[1..]);
      OneReads(fields[0], rest, depth);
      FieldListCons(Encode(fields), depth);
      assert (EncodeOne(fields[0]) + rest)[|EncodeOne(fields[0])|..] == rest;
      EncodedReads(fields[1..], depth);
    }
  }

  /** `decode_raw` of a written message. */
  lemma WrittenIsDecoded(fields: seq<Occurrence>)
    requires AllWritable(fields)
    ensures DecodedRaw(Encode(fields)) == Some(Object(Collapse(AllShown(fields, 0))))
  {
    EncodedReads(fields, 0);
  }

  // ----- What is refused

  lemma {:induction false} VarintCut(v: nat, k: nat)
    requires k < |EncodeVarint(v)|
    ensures DecodeVarint(EncodeVarint(v)[..k]) == None
  {
    LengthOfCut(v, k);
  }

  lemma {:induction false} LengthOfCut(v: nat, k: nat)
    requires k < |EncodeVarint(v)|
    ensures VarintLength(EncodeVarint(v)[..k]) == 0
  {
    if k > 0 {
      LengthOfCut(v / 128, k - 1);
      assert EncodeVarint(v)[..k][1..] == EncodeVarint(v / 128)[..k - 1];
    }
  }

  lemma RunCut(content: seq<byte>, k: nat)
    requires |content| < U64 && k < |EncodeVarint(|content|) + content|
    ensures Delimited((EncodeVarint(|content|) + content)[..k]) == None
  {
    var length := EncodeVarint(|content|);
    var cut := (length + content)[..k];
    if k < |length| {
      VarintCut(|content|, k);
      assert cut == length[..k];
    } else {
      VarintRoundTrip(|content|, content[..k - |length|]);
      assert cut == length + content[..k - |length|];
    }
  }

  lemma PayloadCut(item: Item, k: nat, depth: nat)
    requires Writable(item) && k < |Payload(item)|
    ensures ParseValue(WireType(item), Payload(item)[..k], depth) == None
  {
    match item
    case VarintItem(raw) => VarintCut(raw, k);
    case BytesItem(content) => RunCut(content, k);
    case MessageItem(fields) => RunCut(Encode(fields), k);
    case _ =>
  }

  lemma FieldCut(f: Occurrence, k: nat, depth: nat)
    requires OneWritable(f) && k < |EncodeOne(f)|
    ensures ParseField(EncodeOne(f)[..k], depth) == None
  {
    var key, payload := EncodeVarint(8 * f.number + WireType(f.item)), Payload(f.item);
    var cut := EncodeOne(f)[..k];
    if k < |key| {
      VarintCut(8 * f.number + WireType(f.item), k);
      assert cut == key[..k];
    } else {
      KeyReads(f.number, WireType(f.item), payload[..k - |key|]);
      PayloadCut(f.item, k - |key|, depth);
      assert cut == key + payload[..k - |key|];
      assert cut[|key|..] == payload[..k - |key|];
    }
  }

  lemma RefusedAfter(fields: seq<Occurrence>, bad: seq<byte>)
    requires AllWritable(fields) && bad != [] && ParseField(bad, 0) == None
    ensures DecodedRaw(Encode(fields) + bad) == None
  {
    EncodedReads(fields, 0);
    FieldListAppend(Encode(fields), bad, 0);
  }

  /** A message cut short anywhere inside a field is refused, however many whole
      fields come before. */
  lemma CutIsRefused(fields: seq<Occurrence>, f: Occurrence, k: nat)
    requires AllWritable(fields) && OneWritable(f) && 0 < k < |EncodeOne(f)|
    ensures DecodedRaw(Encode(fields) + EncodeOne(f)[..k]) == None
  {
    FieldCut(f, k, 0);
    RefusedAfter(fields, EncodeOne(f)[..k]);
  }

  /** So is one with a field numbered zero, or of a kind other than the four,
      whatever follows. */
  lemma BadKeyIsRefused(fields: seq<Occurrence>, key: nat, rest: seq<byte>)
    requires AllWritable(fields) && key < U64
    requires key < 8 || key % 8 == 3 || key % 8 == 4 || key % 8 == 6 || key % 8 == 7
    ensures DecodedRaw(Encode(fields) + (EncodeVarint(key) + rest)) == None
  {
    VarintRoundTrip(key, rest);
    RefusedAfter(fields, EncodeVarint(key) + rest);
  }

  // ----- How deep

  /** `levels` messages around a number, each the only field of the next. */
  function Wrapped(levels: nat): seq<Occurrence> {
    [Occurrence(1, if levels == 0 then VarintItem(1) else MessageItem(Wrapped(levels - 1)))]
  }

  lemma CollapseOne(f: Field)
    ensures Collapse([f]) == [f]
  {
    assert InsertAll([], [f]) == InsertAll(Insert([], f), [f][1..]);
  }

  lemma {:induction false} WrappedNests(levels: nat, depth: nat)
    requires levels + depth <= 32
    ensures Nesting(Object(Collapse(AllShown(Wrapped(levels), depth)))) == levels + 1
    decreases levels
  {
    var item := Wrapped(levels)[0].item;
    var shown := Field(1, Shown(item, depth));
    assert AllShown(Wrapped(levels), depth) == [shown] + AllShown([], depth) == [shown];
    CollapseOne(shown);
    if levels > 0 {
      WrappedNests(levels - 1, depth + 1);
      assert shown.value == Object(Collapse(AllShown(Wrapped(levels - 1), depth + 1)));
    }
    assert Nesting(shown.value) == levels;
    assert MaxNesting([shown]) == Max(FieldNesting(shown), MaxNesting([]));
  }

  lemma {:induction false} WrappedFits(levels: nat)
    requires levels <= 32
    ensures AllWritable(Wrapped(levels)) && |Encode(Wrapped(levels))| <= 2 + 11 * levels
  {
    var f := Wrapped(levels)[0];
    if levels > 0 {
      WrappedFits(levels - 1);
      VarintRoundTrip(|Encode(Wrapped(levels - 1))|, []);
    }
    assert EncodeVarint(8) == [8] && EncodeVarint(10) == [10] && EncodeVarint(1) == [1];
    assert EncodeOne(f) == EncodeVarint(8 + WireType(f.item)) + Payload(f.item);
    assert Encode(Wrapped(levels)) == EncodeOne(f) + Encode([]);
    assert OneWritable(f) && AllWritable([]);
  }

  /** The bound on nesting is met: 32 messages around one another are shown as 33
      objects. */
  lemma DepthIsReached()
    ensures DecodedRaw(Encode(Wrapped(32))).Some? && Nesting(DecodedRaw(Encode(Wrapped(32))).value) == 33
  {
    WrappedFits(32);
    WrittenIsDecoded(Wrapped(32));
    WrappedNests(32, 0);
  }
}
