/** Decoding a protobuf payload without its schema
    (backend/protobuf/src/wire.rs): field numbers, wire types, and a guess at
    what each length-delimited run holds. */
module Wire {
  import opened Common
  import opened Varint

  const MAX_DEPTH: nat := 32
  const JSON_SAFE_MAX: nat := 0x20_0000_0000_0000

  /** A decoded value. How a leaf is worded does not matter here, so leaves keep
      their raw contents; `Text` stands for text and for a hex preview alike. */
  datatype Value =
    | Number(raw: nat)
    | Annotated(raw: nat, signed: int)
    | Double(bits: nat)
    | Float(bits: nat)
    | Text(content: seq<byte>)
    | Object(fields: seq<Field>)
    | Array(items: seq<Value>)

  /** A field number with a value: one occurrence on the wire, or one entry of a
      decoded object, which keeps its keys in insertion order. */
  datatype Field = Field(number: nat, value: Value)

  /** One field at the front of a message, and how many bytes it took. */
  datatype Parsed = Parsed(field: Field, used: nat)

  /** A varint as a number where JSON can hold it exactly, and as text with its
      signed reading beyond. */
  function VarintValue(raw: nat): (v: Value)
    ensures v.Number? <==> raw < 0x20_0000_0000_0000
    ensures v.Number? ==> v.raw == raw
    ensures v.Number? || v.Annotated?
    ensures v.Annotated? ==> v.raw == raw && (v.signed - raw) % U64 == 0
    ensures v.Annotated? && raw < U64 ==> IsI64(v.signed)
  {
    if raw < JSON_SAFE_MAX then Number(raw)
    else Annotated(raw, if raw < 0x8000_0000_0000_0000 then raw else raw - U64)
  }

  function LittleEndian(bytes: seq<byte>): nat {
    if bytes == [] then 0 else bytes[0] + 256 * LittleEndian(bytes[1..])
  }

  /** The key of a field: its number and wire type, or nothing if the number is
      zero or the type is not one of the four in use. */
  function FieldKey(bytes: seq<byte>): (r: Option<(nat, nat, nat)>)
    ensures r.Some? ==> r.value.0 > 0 && r.value.1 in {0, 1, 2, 5} && 0 < r.value.2 <= |bytes|
  {
    match DecodeVarint(bytes)
    case None => None
    case Some((key, used)) =>
      if key % 8 in {0, 1, 2, 5} && key / 8 > 0 then Some((key / 8, key % 8, used)) else None
  }

  /** The contents of a length-delimited run, and how many bytes it took. */
  function Delimited(bytes: seq<byte>): (r: Option<(seq<byte>, nat)>)
    ensures r.Some? ==> |r.value.0| < r.value.1 <= |bytes|
  {
    match DecodeVarint(bytes)
    case None => None
    case Some((length, used)) =>
      if used + length > |bytes| then None else Some((bytes[used..used + length], used + length))
  }

  lemma DelimitedAt(bytes: seq<byte>, length: nat, used: nat)
    requires DecodeVarint(bytes) == Some((length, used)) && used + length <= |bytes|
    ensures Delimited(bytes) == Some((bytes[used..used + length], used + length))
  {
  }

  function ParseValue(wireType: nat, bytes: seq<byte>, depth: nat): (r: Option<(Value, nat)>)
    ensures r.Some? ==> r.value.1 <= |bytes| && !r.value.0.Array?
    decreases |bytes|, 0
  {
    if wireType == 0 then
      match DecodeVarint(bytes)
      case None => None
      case Some((raw, used)) => Some((VarintValue(raw), used))
    else if wireType == 1 then
      if 8 > |bytes| then None else Some((Double(LittleEndian(bytes[..8])), 8))
    else if wireType == 5 then
      if 4 > |bytes| then None else Some((Float(LittleEndian(bytes[..4])), 4))
    else
      match Delimited(bytes)
      case None => None
      case Some((content, used)) => Some((Guess(content, depth), used))
  }

  /** A run that parses as a message to its last byte is shown as one, and as the
      text it is otherwise. */
  function Guess(content: seq<byte>, depth: nat): (v: Value)
    ensures v.Object? <==> content != [] && FieldList(content, depth + 1).Some?
    ensures v.Object? || v == Text(content)
    decreases |content|, 2
  {
    if content == [] then Text(content)
    else
      match FieldList(content, depth + 1)
      case None => Text(content)
      case Some(fields) => Object(Collapse(fields))
  }

  function ParseField(bytes: seq<byte>, depth: nat): (r: Option<Parsed>)
    ensures r.Some? ==> 0 < r.value.used <= |bytes| && !r.value.field.value.Array?
    decreases |bytes|, 0
  {
    match FieldKey(bytes)
    case None => None
    case Some((number, wireType, keyUsed)) =>
      match ParseValue(wireType, bytes[keyUsed..], depth)
      case None => None
      case Some((value, used)) => Some(Parsed(Field(number, value), keyUsed + used))
  }

  /** Every field of a message in wire order, or nothing if the bytes are not
      well-formed to the end or lie too deep. */
  function FieldList(bytes: seq<byte>, depth: nat): (r: Option<seq<Field>>)
    ensures r.Some? ==> forall f :: f in r.value ==> !f.value.Array?
    decreases |bytes|, 1
  {
    if depth > MAX_DEPTH then None
    else if bytes == [] then Some([])
    else
      match ParseField(bytes, depth)
      case None => None
      case Some(first) =>
        match FieldList(bytes[first.used..], depth)
        case None => None
        case Some(rest) => Some([first.field] + rest)
  }

  // ----- Repeated fields

  /** Position of a key in an insertion-ordered map, or its length. */
  function Position(fields: seq<Field>, number: nat): (i: nat)
    ensures i <= |fields|
    ensures i < |fields| ==> fields[i].number == number
    ensures forall j :: 0 <= j < i ==> fields[j].number != number
  {
    if fields == [] then 0
    else if fields[0].number == number then 0
    else 1 + Position(fields[1..], number)
  }

  /** `fields.get_mut(&key)`: a second occurrence turns the entry into an array,
      further ones are pushed onto it. */
  function Insert(fields: seq<Field>, f: Field): seq<Field> {
    var i := Position(fields, f.number);
    if i == |fields| then fields + [f]
    else
      var value := match fields[i].value
                   case Array(items) => Array(items + [f.value])
                   case first => Array([first, f.value]);
      fields[i := Field(f.number, value)]
  }

  function InsertAll(fields: seq<Field>, more: seq<Field>): seq<Field>
    decreases |more|
  {
    if more == [] then fields else InsertAll(Insert(fields, more[0]), more[1..])
  }

  function Collapse(fields: seq<Field>): seq<Field> {
    InsertAll([], fields)
  }

  /** `decode_fields` and `decode_raw`. */
  function DecodedFields(bytes: seq<byte>, depth: nat): Option<seq<Field>> {
    match FieldList(bytes, depth)
    case None => None
    case Some(fields) => Some(Collapse(fields))
  }

  function DecodedRaw(bytes: seq<byte>): Option<Value> {
    match DecodedFields(bytes, 0)
    case None => None
    case Some(fields) => Some(Object(fields))
  }

  // ----- Each key holds precisely its occurrences

  function Lookup(fields: seq<Field>, number: nat): Option<Value> {
    var i := Position(fields, number);
    if i < |fields| then Some(fields[i].value) else None
  }

  /** The values a message gives one field, in wire order. */
  function ValuesOf(fields: seq<Field>, number: nat): seq<Value> {
    if fields == [] then []
    else
      var last := fields[|fields| - 1];
      ValuesOf(fields[..|fields| - 1], number) + if last.number == number then [last.value] else []
  }

  /** One occurrence is shown bare, several as an array. */
  function Shape(values: seq<Value>): Option<Value> {
    if values == [] then None
    else if |values| == 1 then Some(values[0])
    else Some(Array(values))
  }

  /** Field numbers in the order they first appear. */
  function FirstSeen(fields: seq<Field>): seq<nat> {
    if fields == [] then []
    else
      var before := FirstSeen(fields[..|fields| - 1]);
      var number := fields[|fields| - 1].number;
      if number in before then before else before + [number]
  }

  function Keys(fields: seq<Field>): seq<nat> {
    seq(|fields|, i requires 0 <= i < |fields| => fields[i].number)
  }

  ghost predicate NoArrays(fields: seq<Field>) {
    forall f :: f in fields ==> !f.value.Array?
  }

  ghost predicate Represents(m: seq<Field>, fields: seq<Field>) {
    && Keys(m) == FirstSeen(fields)
    && forall n :: Lookup(m, n) == Shape(ValuesOf(fields, n))
  }

  /** Positions depend on the keys alone. */
  lemma {:induction false} PositionByKeys(a: seq<Field>, b: seq<Field>, n: nat)
    requires Keys(a) == Keys(b)
    ensures Position(a, n) == Position(b, n)
  {
    if a != [] {
      assert Keys(a)[0] == Keys(b)[0];
      assert |Keys(a[1..])| == |Keys(b[1..])|;
      forall i | 0 <= i < |a[1..]|
        ensures Keys(a[1..])[i] == Keys(b[1..])[i]
      {
        assert Keys(a)[i + 1] == Keys(b)[i + 1];
      }
      PositionByKeys(a[1..], b[1..], n);
    }
  }

  lemma {:induction false} PositionAppend(m: seq<Field>, e: Field, n: nat)
    ensures Position(m + [e], n) ==
            if Position(m, n) < |m| then Position(m, n) else if e.number == n then |m| else |m| + 1
  {
    if m != [] {
      PositionAppend(m[1..], e, n);
      assert (m + [e])[1..] == m[1..] + [e];
    }
  }

  lemma ValuesOfAppend(fields: seq<Field>, f: Field, n: nat)
    ensures ValuesOf(fields + [f], n) == ValuesOf(fields, n) + if f.number == n then [f.value] else []
  {
    assert (fields + [f])[..|fields|] == fields;
  }

  lemma {:induction false} ValuesOfNoArrays(fields: seq<Field>, n: nat)
    requires NoArrays(fields)
    ensures forall v :: v in ValuesOf(fields, n) ==> !v.Array?
  {
    if fields != [] {
      ValuesOfNoArrays(fields[..|fields| - 1], n);
    }
  }

  lemma KeyListed(m: seq<Field>, n: nat)
    ensures n in Keys(m) <==> Position(m, n) < |m|
  {
    if Position(m, n) < |m| {
      assert Keys(m)[Position(m, n)] == n;
    }
  }

  /** What an entry becomes with one more occurrence. */
  function OneMore(entry: Option<Value>, v: Value): Value {
    match entry
    case None => v
    case Some(Array(items)) => Array(items + [v])
    case Some(first) => Array([first, v])
  }

  lemma InsertLookup(m: seq<Field>, f: Field, n: nat)
    ensures Lookup(Insert(m, f), n) == if n == f.number then Some(OneMore(Lookup(m, n), f.value)) else Lookup(m, n)
    ensures Keys(Insert(m, f)) == if f.number in Keys(m) then Keys(m) else Keys(m) + [f.number]
  {
    var m' := Insert(m, f);
    KeyListed(m, f.number);
    if Position(m, f.number) < |m| {
      assert Keys(m') == Keys(m);
      PositionByKeys(m, m', n);
    } else {
      assert Keys(m') == Keys(m) + [f.number];
      PositionAppend(m, f, n);
    }
  }

  /** An entry that is an array has two or more occurrences behind it, since no
      value on its own is an array: pushing onto it is never a mistake. */
  lemma ShapeAppend(values: seq<Value>, v: Value)
    requires forall u :: u in values ==> !u.Array?
    ensures Shape(values + [v]) == Some(OneMore(Shape(values), v))
  {
    if |values| == 1 {
      assert values[0] in values;
      assert values + [v] == [values[0], v];
    } else if values == [] {
      assert values + [v] == [v];
    }
  }

  lemma InsertRepresents(m: seq<Field>, fields: seq<Field>, f: Field)
    requires Represents(m, fields) && NoArrays(fields) && !f.value.Array?
    ensures Represents(Insert(m, f), fields + [f])
  {
    assert (fields + [f])[..|fields|] == fields;
    InsertLookup(m, f, f.number);
    forall n
      ensures Lookup(Insert(m, f), n) == Shape(ValuesOf(fields + [f], n))
    {
      InsertLookup(m, f, n);
      ValuesOfAppend(fields, f, n);
      ValuesOfNoArrays(fields, n);
      ShapeAppend(ValuesOf(fields, n), f.value);
      assert Lookup(m, n) == Shape(ValuesOf(fields, n));
      if n != f.number {
        assert ValuesOf(fields, n) + [] == ValuesOf(fields, n);
      }
    }
  }

  lemma {:induction false} InsertAllRepresents(m: seq<Field>, fields: seq<Field>, more: seq<Field>)
    requires Represents(m, fields) && NoArrays(fields) && NoArrays(more)
    ensures Represents(InsertAll(m, more), fields + more)
    decreases |more|
  {
    if more == [] {
      assert fields + more == fields;
    } else {
      InsertRepresents(m, fields, more[0]);
      InsertAllRepresents(Insert(m, more[0]), fields + [more[0]], more[1..]);
      assert fields + more == (fields + [more[0]]) + more[1..];
    }
  }

  /** Decoding loses no occurrence of any field and invents none. */
  lemma EachKeyHoldsItsOccurrences(bytes: seq<byte>, depth: nat)
    requires FieldList(bytes, depth).Some?
    ensures var fields := FieldList(bytes, depth).value;
            && DecodedFields(bytes, depth).Some?
            && Keys(DecodedFields(bytes, depth).value) == FirstSeen(fields)
            && forall n :: Lookup(DecodedFields(bytes, depth).value, n) == Shape(ValuesOf(fields, n))
  {
    var fields := FieldList(bytes, depth).value;
    assert Represents([], []);
    InsertAllRepresents([], [], fields);
    assert [] + fields == fields;
  }

  // ----- Concatenating messages merges them

  lemma ParseValueStable(wireType: nat, a: seq<byte>, b: seq<byte>, depth: nat)
    requires ParseValue(wireType, a, depth).Some?
    ensures ParseValue(wireType, a + b, depth) == ParseValue(wireType, a, depth)
  {
    if wireType == 1 {
      assert (a + b)[..8] == a[..8];
    } else if wireType == 5 {
      assert (a + b)[..4] == a[..4];
    } else {
      DecodeStable(a, b);
      if wireType != 0 {
        var (length, used) := DecodeVarint(a).value;
        assert (a + b)[used..used + length] == a[used..used + length];
      }
    }
  }

  lemma ParseFieldStable(a: seq<byte>, b: seq<byte>, depth: nat)
    requires ParseField(a, depth).Some?
    ensures ParseField(a + b, depth) == ParseField(a, depth)
  {
    DecodeStable(a, b);
    var (number, wireType, used) := FieldKey(a).value;
    assert (a + b)[used..] == a[used..] + b;
    ParseValueStable(wireType, a[used..], b, depth);
  }

  lemma FieldListStep(bytes: seq<byte>, depth: nat)
    requires bytes != [] && FieldList(bytes, depth).Some?
    ensures depth <= MAX_DEPTH && ParseField(bytes, depth).Some?
    ensures var first := ParseField(bytes, depth).value;
            && FieldList(bytes[first.used..], depth).Some?
            && FieldList(bytes, depth).value == [first.field] + FieldList(bytes[first.used..], depth).value
  {
  }

  lemma FieldListCons(bytes: seq<byte>, depth: nat)
    requires bytes != [] && depth <= MAX_DEPTH && ParseField(bytes, depth).Some?
    ensures var first := ParseField(bytes, depth).value;
            var rest := FieldList(bytes[first.used..], depth);
            FieldList(bytes, depth) == if rest.Some? then Some([first.field] + rest.value) else None
  {
  }

  /** If `a` parses, parsing `a + b` is parsing `a` and then `b`. */
  lemma {:induction false} FieldListAppend(a: seq<byte>, b: seq<byte>, depth: nat)
    requires FieldList(a, depth).Some?
    ensures FieldList(a + b, depth)
         == if FieldList(b, depth).Some? then Some(FieldList(a, depth).value + FieldList(b, depth).value) else None
    decreases |a|
  {
    if a == [] {
      assert a + b == b;
      if FieldList(b, depth).Some? {
        assert [] + FieldList(b, depth).value == FieldList(b, depth).value;
      }
    } else {
      FieldListStep(a, depth);
      ParseFieldStable(a, b, depth);
      FieldListCons(a + b, depth);
      var first := ParseField(a, depth).value;
      DropWithin(a, b, first.used);
      FieldListAppend(a[first.used..], b, depth);
      if FieldList(b, depth).Some? {
        ConcatFirst(first.field, FieldList(a[first.used..], depth).value, FieldList(b, depth).value);
      }
    }
  }

  lemma DropWithin(a: seq<byte>, b: seq<byte>, n: nat)
    requires n <= |a|
    ensures (a + b)[n..] == a[n..] + b
  {
  }

  lemma ConcatFirst(f: Field, rest: seq<Field>, more: seq<Field>)
    ensures [f] + (rest + more) == ([f] + rest) + more
  {
  }

  lemma {:induction false} InsertAllAppend(m: seq<Field>, a: seq<Field>, b: seq<Field>)
    ensures InsertAll(m, a + b) == InsertAll(InsertAll(m, a), b)
    decreases |a|
  {
    if a == [] {
      assert a + b == b;
    } else {
      InsertAllAppend(Insert(m, a[0]), a[1..], b);
      assert (a + b)[1..] == a[1..] + b;
    }
  }

  /** Decoding is a homomorphism from concatenation to merging: decode `a`,
      then fold in the fields of `b`. */
  lemma DecodeConcatenation(a: seq<byte>, b: seq<byte>, depth: nat)
    requires DecodedFields(a, depth).Some?
    ensures DecodedFields(a + b, depth).Some? <==> FieldList(b, depth).Some?
    ensures FieldList(b, depth).Some? ==>
              DecodedFields(a + b, depth).value == InsertAll(DecodedFields(a, depth).value, FieldList(b, depth).value)
  {
    FieldListAppend(a, b, depth);
    if FieldList(b, depth).Some? {
      InsertAllAppend([], FieldList(a, depth).value, FieldList(b, depth).value);
    }
  }

  // ----- Depth and cost

  function Nesting(v: Value): nat
    decreases v
  {
    match v
    case Object(fields) => 1 + MaxNesting(fields)
    case Array(items) => MaxNestingOf(items)
    case _ => 0
  }

  function FieldNesting(f: Field): nat
    decreases f
  {
    Nesting(f.value)
  }

  function MaxNesting(fields: seq<Field>): nat
    decreases fields
  {
    if fields == [] then 0 else Max(FieldNesting(fields[0]), MaxNesting(fields[1..]))
  }

  function MaxNestingOf(items: seq<Value>): nat
    decreases items
  {
    if items == [] then 0 else Max(Nesting(items[0]), MaxNestingOf(items[1..]))
  }

  lemma {:induction false} MaxNestingAtMost(fields: seq<Field>, d: nat)
    ensures MaxNesting(fields) <= d <==> forall i :: 0 <= i < |fields| ==> Nesting(fields[i].value) <= d
  {
    if fields != [] {
      MaxNestingAtMost(fields[1..], d);
      assert forall i :: 1 <= i < |fields| ==> fields[i] == fields[1..][i - 1];
    }
  }

  lemma {:induction false} MaxNestingOfAppend(items: seq<Value>, v: Value)
    ensures MaxNestingOf(items + [v]) == Max(MaxNestingOf(items), Nesting(v))
  {
    if items == [] {
      assert [v][1..] == [];
    } else {
      MaxNestingOfAppend(items[1..], v);
      assert (items + [v])[1..] == items[1..] + [v];
    }
  }

  lemma InsertNesting(m: seq<Field>, f: Field, d: nat)
    requires MaxNesting(m) <= d && Nesting(f.value) <= d
    ensures MaxNesting(Insert(m, f)) <= d
  {
    MaxNestingAtMost(m, d);
    MaxNestingAtMost(Insert(m, f), d);
    var i := Position(m, f.number);
    if i < |m| {
      match m[i].value
      case Array(items) => MaxNestingOfAppend(items, f.value);
      case first =>
        MaxNestingOfAppend([first], f.value);
        MaxNestingOfAppend([], first);
        assert [first, f.value] == [first] + [f.value] && [] + [first] == [first];
    }
  }

  lemma {:induction false} InsertAllNesting(m: seq<Field>, more: seq<Field>, d: nat)
    requires MaxNesting(m) <= d && forall f :: f in more ==> Nesting(f.value) <= d
    ensures MaxNesting(InsertAll(m, more)) <= d
    decreases |more|
  {
    if more != [] {
      InsertNesting(m, more[0], d);
      InsertAllNesting(Insert(m, more[0]), more[1..], d);
    }
  }

  /** A message read at depth `depth` nests at most `32 - depth` further. */
  lemma {:induction false} FieldsNesting(bytes: seq<byte>, depth: nat)
    requires FieldList(bytes, depth).Some?
    ensures depth <= MAX_DEPTH
    ensures forall f :: f in FieldList(bytes, depth).value ==> Nesting(f.value) <= MAX_DEPTH - depth
    decreases |bytes|, 1
  {
    if bytes != [] {
      FieldListStep(bytes, depth);
      var first := ParseField(bytes, depth).value;
      ParsedNesting(bytes, depth);
      FieldsNesting(bytes[first.used..], depth);
    }
  }

  lemma {:induction false} ParsedNesting(bytes: seq<byte>, depth: nat)
    requires depth <= MAX_DEPTH && ParseField(bytes, depth).Some?
    ensures Nesting(ParseField(bytes, depth).value.field.value) <= MAX_DEPTH - depth
    decreases |bytes|, 0
  {
    var (number, wireType, used) := FieldKey(bytes).value;
    if wireType == 2 {
      var (content, length) := Delimited(bytes[used..]).value;
      GuessNesting(content, depth);
    }
  }

  lemma {:induction false} GuessNesting(content: seq<byte>, depth: nat)
    requires depth <= MAX_DEPTH
    ensures Nesting(Guess(content, depth)) <= MAX_DEPTH - depth
    decreases |content|, 2
  {
    if content != [] && FieldList(content, depth + 1).Some? {
      FieldsNesting(content, depth + 1);
      InsertAllNesting([], FieldList(content, depth + 1).value, MAX_DEPTH - depth - 1);
    }
  }

  /** Whatever the broker sends, the decoded tree is at most 33 objects deep. */
  lemma DecodedDepth(bytes: seq<byte>)
    requires DecodedRaw(bytes).Some?
    ensures Nesting(DecodedRaw(bytes).value) <= 33
  {
    FieldsNesting(bytes, 0);
    InsertAllNesting([], FieldList(bytes, 0).value, MAX_DEPTH);
  }

  /** Bytes looked at by one attempt to read a varint, successful or not. */
  function VarintWork(bytes: seq<byte>): (n: nat)
    ensures n <= |bytes|
  {
    match DecodeVarint(bytes)
    case Some((value, used)) => used
    case None => Min(|bytes|, MAX_VARINT_BYTES)
  }

  /** Bytes looked at while decoding `bytes` at `depth`, over this level and all
      nested attempts, including those that fail. */
  function Work(bytes: seq<byte>, depth: nat): nat
    decreases |bytes|, 1
  {
    if depth > MAX_DEPTH || bytes == [] then 0
    else
      FieldWork(bytes, depth)
      + match ParseField(bytes, depth)
        case None => 0
        case Some(first) => Work(bytes[first.used..], depth)
  }

  function FieldWork(bytes: seq<byte>, depth: nat): nat
    decreases |bytes|, 0
  {
    VarintWork(bytes)
    + match FieldKey(bytes)
      case None => 0
      case Some((number, wireType, used)) => ValueWork(wireType, bytes[used..], depth)
  }

  function ValueWork(wireType: nat, bytes: seq<byte>, depth: nat): nat
    decreases |bytes|, 0
  {
    if wireType == 0 then VarintWork(bytes)
    else if wireType == 1 then (if 8 > |bytes| then 0 else 8)
    else if wireType == 5 then (if 4 > |bytes| then 0 else 4)
    else
      match Delimited(bytes)
      case None => VarintWork(bytes)
      case Some((content, used)) => used + if content == [] then 0 else Work(content, depth + 1)
  }

  lemma ParsedRun(bytes: seq<byte>, content: seq<byte>, used: nat, depth: nat)
    requires Delimited(bytes) == Some((content, used))
    ensures ParseValue(2, bytes, depth) == Some((Guess(content, depth), used))
    ensures ValueWork(2, bytes, depth) == used + if content == [] then 0 else Work(content, depth + 1)
  {
  }

  lemma ParsedField(bytes: seq<byte>, number: nat, wireType: nat, used: nat, value: Option<(Value, nat)>, depth: nat)
    requires used <= |bytes| && FieldKey(bytes) == Some((number, wireType, used))
    requires ParseValue(wireType, bytes[used..], depth) == value
    ensures ParseField(bytes, depth) == match value
                                        case None => None
                                        case Some((v, more)) => Some(Parsed(Field(number, v), used + more))
    ensures FieldWork(bytes, depth) == VarintWork(bytes) + ValueWork(wireType, bytes[used..], depth)
  {
  }

  lemma {:induction false} ValueWorkBound(wireType: nat, bytes: seq<byte>, depth: nat)
    requires depth <= MAX_DEPTH
    ensures ParseValue(wireType, bytes, depth).None? ==> ValueWork(wireType, bytes, depth) <= |bytes|
    ensures ParseValue(wireType, bytes, depth).Some? ==>
              ValueWork(wireType, bytes, depth) <= (MAX_DEPTH + 1 - depth) * ParseValue(wireType, bytes, depth).value.1
    decreases |bytes|, 0
  {
    if wireType !in {0, 1, 5} && Delimited(bytes).Some? {
      var (content, used) := Delimited(bytes).value;
      if content != [] {
        WorkBound(content, depth + 1);
      }
      Stretch(MAX_DEPTH - depth, ValueWork(wireType, bytes, depth) - used, |content|, used);
    }
  }

  /** `used` bytes read here and those inside them read `n` times at most. */
  lemma Stretch(n: nat, inner: nat, length: nat, used: nat)
    requires inner <= n * length && length <= used
    ensures used + inner <= (n + 1) * used
  {
    ScaleBy(n, length, used);
  }

  lemma ScaleBy(n: nat, a: nat, b: nat)
    requires a <= b
    ensures n * a <= n * b
    ensures b + n * b == (n + 1) * b
  {
  }

  /** No input makes the decoder do more than 33 passes' worth of work: each
      level reads its bytes once, and the nested attempts below it divide
      those same bytes between them. */
  lemma {:induction false} WorkBound(bytes: seq<byte>, depth: nat)
    requires depth <= 33
    ensures Work(bytes, depth) <= (33 - depth) * |bytes|
    decreases |bytes|, 1
  {
    if depth <= MAX_DEPTH && bytes != [] {
      var n := MAX_DEPTH + 1 - depth;
      match FieldKey(bytes)
      case None =>
        ScaleBy(n, 1, |bytes|);
        AtLeastOnce(n, |bytes|);
      case Some((number, wireType, used)) =>
        ValueWorkBound(wireType, bytes[used..], depth);
        match ParseValue(wireType, bytes[used..], depth)
        case None =>
          AtLeastOnce(n, |bytes|);
        case Some((value, valueUsed)) =>
          var first := ParseField(bytes, depth).value;
          WorkBound(bytes[first.used..], depth);
          AtLeastOnce(n, used);
          SplitWork(n, used, valueUsed, |bytes| - first.used);
    }
  }

  /** Nor does it skip anything: a message it decodes has been looked at, every
      byte of it. */
  lemma {:induction false} WorkCovers(bytes: seq<byte>, depth: nat)
    requires FieldList(bytes, depth).Some?
    ensures |bytes| <= Work(bytes, depth)
    decreases |bytes|
  {
    if bytes != [] {
      FieldListStep(bytes, depth);
      var first := ParseField(bytes, depth).value;
      FieldWorkCovers(bytes, depth);
      WorkCovers(bytes[first.used..], depth);
    }
  }

  lemma FieldWorkCovers(bytes: seq<byte>, depth: nat)
    requires ParseField(bytes, depth).Some?
    ensures ParseField(bytes, depth).value.used <= FieldWork(bytes, depth)
  {
    var (number, wireType, used) := FieldKey(bytes).value;
    var (value, more) := ParseValue(wireType, bytes[used..], depth).value;
    assert more <= ValueWork(wireType, bytes[used..], depth);
  }

  lemma AtLeastOnce(n: nat, x: nat)
    requires n > 0
    ensures x <= n * x
  {
  }

  lemma SplitWork(n: nat, a: nat, b: nat, c: nat)
    ensures n * a + n * b + n * c == n * (a + b + c)
  {
  }

  // ----- The decoder itself

  /** What the rest of a message adds to the fields already seen. */
  function Rest(seen: seq<Field>, bytes: seq<byte>, depth: nat): Option<seq<Field>> {
    match FieldList(bytes, depth)
    case None => None
    case Some(rest) => Some(seen + rest)
  }

  lemma RestStep(seen: seq<Field>, bytes: seq<byte>, depth: nat)
    requires bytes != [] && depth <= MAX_DEPTH
    ensures Rest(seen, bytes, depth)
         == match ParseField(bytes, depth)
            case None => None
            case Some(first) => Rest(seen + [first.field], bytes[first.used..], depth)
  {
    if ParseField(bytes, depth).Some? {
      var first := ParseField(bytes, depth).value;
      FieldListCons(bytes, depth);
      if FieldList(bytes[first.used..], depth).Some? {
        var rest := FieldList(bytes[first.used..], depth).value;
        assert seen + ([first.field] + rest) == (seen + [first.field]) + rest;
      }
    }
  }

  lemma RestOfAll(bytes: seq<byte>, depth: nat)
    ensures Rest([], bytes, depth) == FieldList(bytes, depth)
  {
    if FieldList(bytes, depth).Some? {
      assert [] + FieldList(bytes, depth).value == FieldList(bytes, depth).value;
    }
  }

  lemma RestOfNothing(seen: seq<Field>, depth: nat)
    requires depth <= MAX_DEPTH
    ensures Rest(seen, [], depth) == Some(seen)
  {
    assert seen + [] == seen;
  }

  lemma CollapseOneMore(seen: seq<Field>, f: Field)
    ensures Collapse(seen + [f]) == Insert(Collapse(seen), f)
  {
    InsertAllAppend([], seen, [f]);
  }

  lemma WorkStep(bytes: seq<byte>, depth: nat)
    requires bytes != [] && depth <= MAX_DEPTH
    ensures ParseField(bytes, depth).None? ==> Work(bytes, depth) == FieldWork(bytes, depth)
    ensures ParseField(bytes, depth).Some? ==>
              Work(bytes, depth) == FieldWork(bytes, depth) + Work(bytes[ParseField(bytes, depth).value.used..], depth)
  {
  }

  /** A length-delimited run: parsed as a message if it can be, kept as it is
      otherwise. */
  method DecodeDelimited(bytes: seq<byte>, index: nat, depth: nat)
    returns (r: Option<(Value, nat)>, ghost work: nat)
    requires index <= |bytes| && depth <= MAX_DEPTH
    ensures r == ParseValue(2, bytes[index..], depth)
    ensures work == ValueWork(2, bytes[index..], depth)
    decreases |bytes| - index, 2
  {
    ghost var tail := bytes[index..];
    var length := ReadVarint(bytes, index);
    work := VarintWork(tail);
    if length.None? || index + length.value.1 + length.value.0 > |bytes| {
      return None, work;
    }
    var begin := index + length.value.1;
    var content := bytes[begin..begin + length.value.0];
    assert content == tail[length.value.1..length.value.1 + length.value.0];
    DelimitedAt(tail, length.value.0, length.value.1);
    ParsedRun(tail, content, length.value.1 + length.value.0, depth);
    var value, more := GuessValue(content, depth);
    work := work + |content| + more;
    return Some((value, length.value.1 + |content|)), work;
  }

  method GuessValue(content: seq<byte>, depth: nat) returns (value: Value, ghost work: nat)
    requires depth <= MAX_DEPTH
    ensures value == Guess(content, depth)
    ensures work == if content == [] then 0 else Work(content, depth + 1)
    decreases |content|, 6
  {
    value, work := Text(content), 0;
    if content != [] {
      var nested;
      nested, work := DecodeFields(content, depth + 1);
      if nested.Some? {
        value := Object(nested.value);
      }
    }
  }

  /** What follows a field's key. */
  method DecodeValue(wireType: nat, bytes: seq<byte>, index: nat, depth: nat)
    returns (r: Option<(Value, nat)>, ghost work: nat)
    requires wireType in {0, 1, 2, 5} && index <= |bytes| && depth <= MAX_DEPTH
    ensures r == ParseValue(wireType, bytes[index..], depth)
    ensures work == ValueWork(wireType, bytes[index..], depth)
    decreases |bytes| - index, 3
  {
    ghost var tail := bytes[index..];
    if wireType == 0 {
      var raw := ReadVarint(bytes, index);
      work := VarintWork(tail);
      r := if raw.None? then None else Some((VarintValue(raw.value.0), raw.value.1));
    } else if wireType == 1 {
      if index + 8 > |bytes| {
        return None, 0;
      }
      assert bytes[index..index + 8] == tail[..8];
      return Some((Double(LittleEndian(bytes[index..index + 8])), 8)), 8;
    } else if wireType == 5 {
      if index + 4 > |bytes| {
        return None, 0;
      }
      assert bytes[index..index + 4] == tail[..4];
      return Some((Float(LittleEndian(bytes[index..index + 4])), 4)), 4;
    } else {
      r, work := DecodeDelimited(bytes, index, depth);
    }
  }

  /** One pass of the loop body, up to the entry it adds. */
  method DecodeField(bytes: seq<byte>, index: nat, depth: nat) returns (r: Option<Parsed>, ghost work: nat)
    requires index < |bytes| && depth <= MAX_DEPTH
    ensures r == ParseField(bytes[index..], depth)
    ensures work == FieldWork(bytes[index..], depth)
    decreases |bytes| - index, 4
  {
    ghost var tail := bytes[index..];
    var key := ReadVarint(bytes, index);
    work := VarintWork(tail);
    if key.None? {
      return None, work;
    }
    var wireType, number, used := key.value.0 % 8, key.value.0 / 8, key.value.1;
    if wireType !in {0, 1, 2, 5} || number == 0 {
      return None, work;
    }
    assert bytes[index + used..] == tail[used..];
    var value, more := DecodeValue(wireType, bytes, index + used, depth);
    work := work + more;
    ParsedField(tail, number, wireType, used, value, depth);
    r := if value.None? then None else Some(Parsed(Field(number, value.value.0), used + value.value.1));
  }

  /** `decode_fields`: a loop over the fields, recursing into every run that
      might be a message. `work` counts the bytes looked at. */
  method DecodeFields(bytes: seq<byte>, depth: nat) returns (r: Option<seq<Field>>, ghost work: nat)
    ensures r == DecodedFields(bytes, depth)
    ensures work == Work(bytes, depth)
    decreases |bytes|, 5
  {
    work := 0;
    if depth > MAX_DEPTH {
      return None, work;
    }
    var fields: seq<Field> := [];
    var index := 0;
    ghost var seen: seq<Field> := [];
    assert bytes[0..] == bytes;
    RestOfAll(bytes, depth);
    while index < |bytes|
      invariant 0 <= index <= |bytes|
      invariant fields == Collapse(seen)
      invariant Rest(seen, bytes[index..], depth) == FieldList(bytes, depth)
      invariant work + Work(bytes[index..], depth) == Work(bytes, depth)
    {
      ghost var tail := bytes[index..];
      RestStep(seen, tail, depth);
      WorkStep(tail, depth);
      var field, more := DecodeField(bytes, index, depth);
      work := work + more;
      if field.None? {
        return None, work;
      }
      CollapseOneMore(seen, field.value.field);
      fields := Insert(fields, field.value.field);
      seen := seen + [field.value.field];
      index := index + field.value.used;
      assert bytes[index..] == tail[field.value.used..];
    }
    assert bytes[index..] == [];
    RestOfNothing(seen, depth);
    return Some(fields), work;
  }

  method DecodeRaw(bytes: seq<byte>) returns (r: Option<Value>)
    ensures r == DecodedRaw(bytes)
    ensures r.Some? ==> Nesting(r.value) <= 33
  {
    var fields, work := DecodeFields(bytes, 0);
    if fields.None? {
      return None;
    }
    DecodedDepth(bytes);
    return Some(Object(fields.value));
  }
}
