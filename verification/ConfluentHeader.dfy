/** Confluent's framing of a protobuf payload (`detect_confluent_header` in
    backend/protobuf/src/lib.rs): a zero byte, a schema id, the path of the
    message inside the schema, then the message. */
module ConfluentHeader {
  import opened Common
  import opened Varint
  import opened Bytes
  import opened Repeat

  const MAX_PATH := 32

  datatype Header = Header(schemaId: nat, messageIndex: seq<int>, bodyOffset: nat)

  predicate IsU32(v: int) {
    0 <= v < 0x1_0000_0000
  }

  predicate IsI32(v: int) {
    -0x8000_0000 <= v < 0x8000_0000
  }

  /** One zigzag varint that fits in 32 bits, and how many bytes it took. */
  function ReadIndex(bytes: seq<byte>): (r: Read<int>)
    ensures r.Got? ==> IsI32(r.value) && r.used <= |bytes|
  {
    match DecodeVarint(bytes)
    case None => Failed
    case Some((raw, used)) => if IsI32(ZigzagDecode(raw)) then Got(ZigzagDecode(raw), used) else Failed
  }

  /** `count` zigzag varints that fit in 32 bits, and how many bytes they took. */
  function ReadPath(bytes: seq<byte>, count: nat): (r: Read<seq<int>>) {
    ReadMany(ReadIndex, bytes, count)
  }

  /** What follows the schema id. */
  function ReadFramedPath(bytes: seq<byte>): (r: Read<seq<int>>)
    ensures r.Got? ==> 0 < r.used <= |bytes| && 1 <= |r.value| <= MAX_PATH
  {
    match DecodeVarint(bytes)
    case None => Failed
    case Some((first, used)) =>
      var count := ZigzagDecode(first);
      ZigzagBits(first);
      if first == 0 then Got([0], used)
      else if count < 0 || count > MAX_PATH then Failed
      else
        match ReadPath(bytes[used..], count)
        case Failed => Failed
        case Got(path, more) => Got(path, used + more)
  }

  /** What the framing says, if the bytes carry it. */
  function Detected(bytes: seq<byte>): (r: Option<Header>)
    ensures r.Some? ==> 6 <= r.value.bodyOffset <= |bytes|
    ensures r.Some? ==> 1 <= |r.value.messageIndex| <= MAX_PATH
  {
    if |bytes| < 5 || bytes[0] != 0 then None
    else
      match ReadFramedPath(bytes[5..])
      case Failed => None
      case Got(path, used) => Some(Header(FromBigEndian(bytes[1..5]), path, 5 + used))
  }

  /** `detect_confluent_header`. */
  method DetectConfluentHeader(bytes: seq<byte>) returns (r: Option<Header>)
    ensures r == Detected(bytes)
    ensures r.Some? ==> Framed(bytes, r.value)
    ensures r.None? ==> forall h :: !Framed(bytes, h)
  {
    forall h
      ensures Detected(bytes) == Some(h) <==> Framed(bytes, h)
    {
      DetectedExactly(bytes, h);
    }
    if |bytes| < 5 || bytes[0] != 0 {
      return None;
    }
    var schemaId := FromBigEndian(bytes[1..5]);
    var path := ReadPathAt(bytes, 5);
    return if path.Failed? then None else Some(Header(schemaId, path.value, 5 + path.used));
  }

  /** The path: the single byte 0 stands for the first message; a count that is
      negative or past any real schema's depth means this is something else. */
  method ReadPathAt(bytes: seq<byte>, start: nat) returns (r: Read<seq<int>>)
    requires start <= |bytes|
    ensures r == ReadFramedPath(bytes[start..])
  {
    ghost var tail := bytes[start..];
    var first := ReadVarint(bytes, start);
    if first.None? {
      return Failed;
    }
    var used := first.value.1;
    if first.value.0 == 0 {
      return Got([0], used);
    }
    var count := ZigzagDecode(first.value.0);
    if count < 0 || count > MAX_PATH {
      return Failed;
    }
    assert tail[used..] == bytes[start + used..];
    var path := ReadInLoop(ReadIndex, bytes[start + used..], count);
    return if path.Failed? then Failed else Got(path.value, used + path.used);
  }

  // ----- The encoder, and the round trip

  function WriteIndex(v: int): seq<byte> {
    EncodeVarint(ZigzagEncode(v))
  }

  function EncodePath(path: seq<int>): seq<byte> {
    WriteMany(WriteIndex, path)
  }

  /** As Confluent's serializer writes it: the first message of a schema is the
      single byte 0, any other path its length followed by its indexes. */
  function EncodeFramedPath(path: seq<int>): seq<byte> {
    if path == [0] then [0] else EncodeVarint(ZigzagEncode(|path|)) + EncodePath(path)
  }

  function EncodeHeader(schemaId: nat, path: seq<int>): seq<byte>
    requires IsU32(schemaId)
  {
    [0] + BigEndian(schemaId, 4) + EncodeFramedPath(path)
  }

  lemma IndexRoundTrip(v: int)
    requires IsI32(v)
    ensures ReadsBack(ReadIndex, WriteIndex, v)
  {
    ZigzagRoundTrip(v);
    forall rest: seq<byte>
      ensures ReadIndex(WriteIndex(v) + rest) == Got(v, |WriteIndex(v)|)
    {
      VarintRoundTrip(ZigzagEncode(v), rest);
    }
  }

  lemma PathRoundTrip(path: seq<int>, body: seq<byte>)
    requires forall v :: v in path ==> IsI32(v)
    ensures ReadPath(EncodePath(path) + body, |path|) == Got(path, |EncodePath(path)|)
  {
    forall v | v in path
      ensures ReadsBack(ReadIndex, WriteIndex, v)
    {
      IndexRoundTrip(v);
    }
    ManyRoundTrip(ReadIndex, WriteIndex, path, body);
  }

  /** An index never leaves the 32-bit range, or the framing is rejected. */
  lemma {:induction false} PathInRange(bytes: seq<byte>, count: nat)
    requires ReadPath(bytes, count).Got?
    ensures forall v :: v in ReadPath(bytes, count).value ==> IsI32(v)
    decreases count
  {
    if count > 0 {
      var Got(v, used) := ReadIndex(bytes);
      PathInRange(bytes[used..], count - 1);
    }
  }

  lemma FramedPathRoundTrip(path: seq<int>, body: seq<byte>)
    requires 1 <= |path| <= MAX_PATH && forall v :: v in path ==> IsI32(v)
    ensures ReadFramedPath(EncodeFramedPath(path) + body) == Got(path, |EncodeFramedPath(path)|)
  {
    if path == [0] {
      VarintRoundTrip(0, body);
      assert EncodeVarint(0) == [0];
    } else {
      var head, rest := EncodeVarint(ZigzagEncode(|path|)), EncodePath(path);
      VarintRoundTrip(ZigzagEncode(|path|), rest + body);
      ZigzagRoundTrip(|path|);
      PathRoundTrip(path, body);
      assert (head + rest) + body == head + (rest + body);
      assert (head + (rest + body))[|head|..] == rest + body;
    }
  }

  lemma DetectedAt(bytes: seq<byte>, schemaId: nat, path: seq<int>, used: nat)
    requires |bytes| >= 5 && bytes[0] == 0 && ReadFramedPath(bytes[5..]) == Got(path, used)
    requires FromBigEndian(bytes[1..5]) == schemaId
    ensures Detected(bytes) == Some(Header(schemaId, path, 5 + used))
  {
  }

  lemma HeaderShape(bytes: seq<byte>, id: seq<byte>, framed: seq<byte>, body: seq<byte>)
    requires |id| == 4 && bytes == [0] + id + framed + body
    ensures |bytes| >= 5 && bytes[0] == 0 && bytes[1..5] == id && bytes[5..] == framed + body
    ensures bytes[5 + |framed|..] == body
  {
  }

  /** For every schema id, every path of 1 to 32 indexes and every body, reading
      the framing back gives the id, the path, and where the body starts. */
  lemma HeaderRoundTrip(schemaId: nat, path: seq<int>, body: seq<byte>)
    requires IsU32(schemaId) && 1 <= |path| <= MAX_PATH && forall v :: v in path ==> IsI32(v)
    ensures var header := EncodeHeader(schemaId, path);
            && Detected(header + body) == Some(Header(schemaId, path, |header|))
            && (header + body)[|header|..] == body
  {
    var id, framed := BigEndian(schemaId, 4), EncodeFramedPath(path);
    var bytes := [0] + id + framed + body;
    Widths();
    BigEndianRoundTrip(schemaId, 4);
    FramedPathRoundTrip(path, body);
    HeaderShape(bytes, id, framed, body);
    DetectedAt(bytes, schemaId, path, |framed|);
  }

  // ----- What is accepted, and nothing else

  /** These bytes are one varint, and this is its value. */
  ghost predicate Spells(bytes: seq<byte>, value: nat) {
    DecodeVarint(bytes) == Some((value, |bytes|))
  }

  /** These bytes are one varint for `value`, then a path. */
  ghost predicate SplitsAt(bytes: seq<byte>, k: nat, value: nat, path: seq<int>)
    decreases |path|, 1
  {
    k <= |bytes| && Spells(bytes[..k], value) && SpellsPath(bytes[k..], path)
  }

  /** These bytes are one zigzag varint for each index, all of them in 32 bits. */
  ghost predicate SpellsPath(bytes: seq<byte>, path: seq<int>)
    decreases |path|, 0
  {
    if path == [] then bytes == []
    else
      && -0x8000_0000 <= path[0] < 0x8000_0000
      && exists k: nat :: SplitsAt(bytes, k, ZigzagEncode(path[0]), path[1..])
  }

  /** A framed path: a zero for the first message of a schema, or else a length
      from 1 to 32, in zigzag, and that many indexes. */
  ghost predicate FramesPath(bytes: seq<byte>, path: seq<int>) {
    || (path == [0] && Spells(bytes, 0))
    || (1 <= |path| <= 32 && exists k: nat :: SplitsAt(bytes, k, 2 * |path|, path))
  }

  function FourBytes(a: nat, b: nat, c: nat, d: nat): nat {
    0x100_0000 * a + 0x1_0000 * b + 0x100 * c + d
  }

  /** The first five bytes are a zero and the schema's id, most significant byte
      first; the path follows, and then the body. */
  ghost predicate Framed(bytes: seq<byte>, h: Header) {
    && 5 <= h.bodyOffset <= |bytes| && bytes[0] == 0
    && h.schemaId == FourBytes(bytes[1], bytes[2], bytes[3], bytes[4])
    && FramesPath(bytes[5..h.bodyOffset], h.messageIndex)
  }

  /** A varint is read from its own bytes alone. */
  lemma OwnBytes(bytes: seq<byte>, value: nat, used: nat)
    requires DecodeVarint(bytes) == Some((value, used))
    ensures Spells(bytes[..used], value)
  {
    OwnLength(bytes);
    assert bytes[..used][..used] == bytes[..used];
  }

  lemma {:induction false} OwnLength(bytes: seq<byte>)
    ensures VarintLength(bytes[..VarintLength(bytes)]) == VarintLength(bytes)
  {
    if bytes != [] && bytes[0] >= 128 {
      OwnLength(bytes[1..]);
      var n := VarintLength(bytes[1..]);
      if n > 0 {
        assert bytes[..n + 1][1..] == bytes[1..][..n];
      }
    }
  }

  /** `used` bytes for the value, and `more` for the path. */
  lemma Joined(bytes: seq<byte>, value: nat, used: nat, path: seq<int>, more: nat)
    requires DecodeVarint(bytes) == Some((value, used)) && used + more <= |bytes|
    requires SpellsPath(bytes[used..][..more], path)
    ensures SplitsAt(bytes[..used + more], used, value, path)
  {
    OwnBytes(bytes, value, used);
    var head := bytes[..used + more];
    assert head[..used] == bytes[..used] && head[used..] == bytes[used..][..more];
  }

  lemma {:induction false} ReadIsSpelled(bytes: seq<byte>, count: nat)
    requires ReadPath(bytes, count).Got?
    ensures var r := ReadPath(bytes, count); SpellsPath(bytes[..r.used], r.value)
    decreases count
  {
    if count > 0 {
      var Got(v, used) := ReadIndex(bytes);
      var Got(rest, more) := ReadPath(bytes[used..], count - 1);
      ReadIsSpelled(bytes[used..], count - 1);
      OneMoreSpelled(bytes, v, used, rest, more);
    }
  }

  lemma OneMoreSpelled(bytes: seq<byte>, v: int, used: nat, rest: seq<int>, more: nat)
    requires ReadIndex(bytes) == Got(v, used) && used + more <= |bytes| && SpellsPath(bytes[used..][..more], rest)
    ensures SpellsPath(bytes[..used + more], [v] + rest)
  {
    var (raw, n) := DecodeVarint(bytes).value;
    ZigzagOnto(raw);
    Joined(bytes, raw, used, rest, more);
    assert ([v] + rest)[1..] == rest;
  }

  lemma SpelledValueIsRead(bytes: seq<byte>, k: nat, value: nat, path: seq<int>, body: seq<byte>)
    requires SplitsAt(bytes, k, value, path)
    ensures DecodeVarint(bytes + body) == Some((value, k)) && (bytes + body)[k..] == bytes[k..] + body
  {
    DecodeStable(bytes[..k], bytes[k..] + body);
    assert bytes + body == bytes[..k] + (bytes[k..] + body);
  }

  lemma OneMoreIndex(bytes: seq<byte>, v: int, used: nat, path: seq<int>, more: nat)
    requires DecodeVarint(bytes) == Some((ZigzagEncode(v), used)) && -0x8000_0000 <= v < 0x8000_0000
    requires ReadPath(bytes[used..], |path|) == Got(path, more)
    ensures ReadPath(bytes, |path| + 1) == Got([v] + path, used + more)
  {
    ZigzagRoundTrip(v);
  }

  lemma {:induction false} SpelledIsRead(bytes: seq<byte>, path: seq<int>, body: seq<byte>)
    requires SpellsPath(bytes, path)
    ensures ReadPath(bytes + body, |path|) == Got(path, |bytes|)
    decreases |path|
  {
    if path != [] {
      var k: nat :| SplitsAt(bytes, k, ZigzagEncode(path[0]), path[1..]);
      SpelledValueIsRead(bytes, k, ZigzagEncode(path[0]), path[1..], body);
      SpelledIsRead(bytes[k..], path[1..], body);
      OneMoreIndex(bytes + body, path[0], k, path[1..], |bytes| - k);
      assert path == [path[0]] + path[1..];
    }
  }

  lemma FramedPathIsSpelled(bytes: seq<byte>)
    requires ReadFramedPath(bytes).Got?
    ensures var r := ReadFramedPath(bytes); FramesPath(bytes[..r.used], r.value)
  {
    var (first, used) := DecodeVarint(bytes).value;
    if first == 0 {
      OwnBytes(bytes, first, used);
    } else {
      var Got(path, more) := ReadPath(bytes[used..], ZigzagDecode(first));
      ZigzagOnto(first);
      ReadIsSpelled(bytes[used..], |path|);
      Joined(bytes, first, used, path, more);
    }
  }

  lemma SpelledFramedPathIsRead(bytes: seq<byte>, path: seq<int>, body: seq<byte>)
    requires FramesPath(bytes, path)
    ensures ReadFramedPath(bytes + body) == Got(path, |bytes|)
  {
    if path == [0] && Spells(bytes, 0) {
      DecodeStable(bytes, body);
    } else {
      var k: nat :| SplitsAt(bytes, k, 2 * |path|, path);
      SpelledValueIsRead(bytes, k, 2 * |path|, path, body);
      ZigzagRoundTrip(|path|);
      SpelledIsRead(bytes[k..], path, body);
    }
  }

  lemma BigEndianOfFour(bytes: seq<byte>)
    requires |bytes| == 4
    ensures FromBigEndian(bytes) == FourBytes(bytes[0], bytes[1], bytes[2], bytes[3])
  {
    assert bytes[..3][..2] == bytes[..2] && bytes[..2][..1] == bytes[..1] && bytes[..1][..0] == [];
    assert FromBigEndian(bytes[..1]) == bytes[0];
    assert FromBigEndian(bytes[..2]) == 256 * FromBigEndian(bytes[..1]) + bytes[1];
    assert FromBigEndian(bytes[..3]) == 256 * FromBigEndian(bytes[..2]) + bytes[2];
  }

  /** Detection finds a header exactly where one is framed: everything else is
      taken for an unframed message. */
  lemma DetectedExactly(bytes: seq<byte>, h: Header)
    ensures Detected(bytes) == Some(h) <==> Framed(bytes, h)
  {
    if Framed(bytes, h) {
      FramedIsDetected(bytes, h);
    }
    if Detected(bytes) == Some(h) {
      DetectedIsFramed(bytes, h);
    }
  }

  lemma DetectedIsFramed(bytes: seq<byte>, h: Header)
    requires Detected(bytes) == Some(h)
    ensures Framed(bytes, h)
  {
    BigEndianOfFour(bytes[1..5]);
    FramedPathIsSpelled(bytes[5..]);
    assert bytes[5..][..h.bodyOffset - 5] == bytes[5..h.bodyOffset];
  }

  lemma FramedIsDetected(bytes: seq<byte>, h: Header)
    requires Framed(bytes, h)
    ensures Detected(bytes) == Some(h)
  {
    var head, body := bytes[5..h.bodyOffset], bytes[h.bodyOffset..];
    BigEndianOfFour(bytes[1..5]);
    SpelledFramedPathIsRead(head, h.messageIndex, body);
    assert bytes[5..] == head + body;
    DetectedAt(bytes, h.schemaId, h.messageIndex, |head|);
  }
}
