/** Which partitions a consumer group member owns (backend/kafka/src/assignment.rs):
    Kafka's ConsumerProtocolAssignment, read with a cursor. */
module Assignment {
  import opened Common
  import opened Varint
  import opened Bytes
  import opened Repeat

  type Name = seq<byte>

  datatype Topic = Topic(name: Name, partitions: seq<int>)

  /** What a 16-bit and a 32-bit integer can hold. */
  predicate IsI16(v: int) {
    Fits(v, 2)
  }

  predicate IsI32(v: int) {
    Fits(v, 4)
  }

  // ----- The format, as readers

  function ReadI16(bytes: seq<byte>): (r: Read<int>) {
    if |bytes| < 2 then Failed else Got(Signed(bytes[..2]), 2)
  }

  function ReadI32(bytes: seq<byte>): (r: Read<int>) {
    if |bytes| < 4 then Failed else Got(Signed(bytes[..4]), 4)
  }

  /** A length-prefixed string. A null string is an error here, and so is one
      that is not UTF-8; which bytes are UTF-8 is left to `isUtf8`. */
  function ReadName(isUtf8: Name -> bool, bytes: seq<byte>): (r: Read<Name>)
    ensures r.Got? ==> r.used <= |bytes|
  {
    match ReadI16(bytes)
    case Failed => Failed
    case Got(len, used) =>
      if len < 0 || used + len > |bytes| || !isUtf8(bytes[used..used + len]) then Failed
      else Got(bytes[used..used + len], used + len)
  }

  /** A topic and its partitions; a null partition array reads as an empty one. */
  function ReadTopic(isUtf8: Name -> bool, bytes: seq<byte>): (r: Read<Topic>)
    ensures r.Got? ==> r.used <= |bytes|
  {
    match ReadName(isUtf8, bytes)
    case Failed => Failed
    case Got(name, nameUsed) =>
      match ReadPartitions(bytes[nameUsed..])
      case Failed => Failed
      case Got(partitions, used) => Got(Topic(name, partitions), nameUsed + used)
  }

  function ReadPartitions(bytes: seq<byte>): (r: Read<seq<int>>)
    ensures r.Got? ==> r.used <= |bytes|
  {
    match ReadI32(bytes)
    case Failed => Failed
    case Got(count, used) =>
      if count < 0 then Got([], used)
      else
        match ReadMany(ReadI32, bytes[used..], count)
        case Failed => Failed
        case Got(partitions, more) => Got(partitions, used + more)
  }

  function TopicReader(isUtf8: Name -> bool): Reader<Topic> {
    bytes => ReadTopic(isUtf8, bytes)
  }

  function Pairs(t: Topic): seq<(Name, int)> {
    seq(|t.partitions|, i requires 0 <= i < |t.partitions| => (t.name, t.partitions[i]))
  }

  function AllPairs(topics: seq<Topic>): seq<(Name, int)> {
    if topics == [] then [] else AllPairs(topics[..|topics| - 1]) + Pairs(topics[|topics| - 1])
  }

  /** How many pairs these topics make. */
  function PairCount(topics: seq<Topic>): nat {
    if topics == [] then 0 else PairCount(topics[..|topics| - 1]) + |topics[|topics| - 1].partitions|
  }

  /** Topic after topic, and each topic's partitions in order, under its name. */
  lemma {:induction false} PairsInOrder(topics: seq<Topic>, k: nat, i: nat)
    requires k < |topics| && i < |topics[k].partitions|
    ensures |AllPairs(topics)| == PairCount(topics) && PairCount(topics[..k]) + i < PairCount(topics)
    ensures AllPairs(topics)[PairCount(topics[..k]) + i] == (topics[k].name, topics[k].partitions[i])
  {
    var init := topics[..|topics| - 1];
    PairsCounted(init);
    if k < |init| {
      PairsInOrder(init, k, i);
      assert topics[..k] == init[..k];
    }
  }

  lemma {:induction false} PairsCounted(topics: seq<Topic>)
    ensures |AllPairs(topics)| == PairCount(topics)
  {
    if topics != [] {
      PairsCounted(topics[..|topics| - 1]);
    }
  }

  /** The whole assignment, after its version: a null topic array reads as no
      topics, and whatever follows the topics is not looked at. */
  function ReadTopics(isUtf8: Name -> bool, bytes: seq<byte>): Option<seq<Topic>> {
    match ReadI32(bytes)
    case Failed => None
    case Got(count, used) =>
      if count < 0 then Some([])
      else
        match ReadMany(TopicReader(isUtf8), bytes[used..], count)
        case Failed => None
        case Got(topics, more) => Some(topics)
  }

  function Decoded(isUtf8: Name -> bool, bytes: seq<byte>): Option<seq<(Name, int)>> {
    match ReadI16(bytes)
    case Failed => None
    case Got(version, used) =>
      match ReadTopics(isUtf8, bytes[used..])
      case None => None
      case Some(topics) => Some(AllPairs(topics))
  }

  // ----- The encoder

  function WriteI16(v: int): seq<byte> {
    if IsI16(v) then WriteSigned(v, 2) else []
  }

  function WriteI32(v: int): seq<byte> {
    if IsI32(v) then WriteSigned(v, 4) else []
  }

  function WriteName(name: Name): seq<byte> {
    WriteI16(|name|) + name
  }

  function WritePartitions(partitions: seq<int>): seq<byte> {
    WriteI32(|partitions|) + WriteMany(WriteI32, partitions)
  }

  function WriteTopic(t: Topic): seq<byte> {
    WriteName(t.name) + WritePartitions(t.partitions)
  }

  function WriteTopics(topics: seq<Topic>): seq<byte> {
    WriteI32(|topics|) + WriteMany(WriteTopic, topics)
  }

  function Encode(version: int, topics: seq<Topic>): seq<byte> {
    WriteI16(version) + WriteTopics(topics)
  }

  /** What the format can carry. */
  ghost predicate Encodable(isUtf8: Name -> bool, t: Topic) {
    && IsI16(|t.name|) && isUtf8(t.name)
    && IsI32(|t.partitions|) && forall p :: p in t.partitions ==> IsI32(p)
  }

  // ----- Round trips and rejected pieces, from the inside out

  lemma Pieces<T>(a: seq<T>, b: seq<T>, k: nat)
    requires k <= |a| + |b|
    ensures (a + b)[..k] == if k < |a| then a[..k] else a + b[..k - |a|]
    ensures (a + b)[|a|..] == b
  {
  }

  lemma I16Laws(v: int)
    requires IsI16(v)
    ensures |WriteI16(v)| == 2
    ensures ReadsBack(ReadI16, WriteI16, v) && RejectsPieces(ReadI16, WriteI16, v)
  {
    SignedRoundTrip(v, 2);
    forall rest: seq<byte>
      ensures ReadI16(WriteI16(v) + rest) == Got(v, 2)
    {
      assert (WriteI16(v) + rest)[..2] == WriteI16(v);
    }
  }

  lemma I32Laws(v: int)
    requires IsI32(v)
    ensures |WriteI32(v)| == 4
    ensures ReadsBack(ReadI32, WriteI32, v) && RejectsPieces(ReadI32, WriteI32, v)
  {
    SignedRoundTrip(v, 4);
    forall rest: seq<byte>
      ensures ReadI32(WriteI32(v) + rest) == Got(v, 4)
    {
      assert (WriteI32(v) + rest)[..4] == WriteI32(v);
    }
  }

  lemma AllI32Laws(vs: seq<int>)
    requires forall v :: v in vs ==> IsI32(v)
    ensures forall v :: v in vs ==> ReadsBack(ReadI32, WriteI32, v) && RejectsPieces(ReadI32, WriteI32, v)
  {
    forall v | v in vs
      ensures ReadsBack(ReadI32, WriteI32, v) && RejectsPieces(ReadI32, WriteI32, v)
    {
      I32Laws(v);
    }
  }

  lemma NameReadsBack(isUtf8: Name -> bool, name: Name, rest: seq<byte>)
    requires IsI16(|name|) && isUtf8(name)
    ensures ReadName(isUtf8, WriteName(name) + rest) == Got(name, |WriteName(name)|)
  {
    I16Laws(|name|);
    var bytes := WriteName(name) + rest;
    assert bytes == WriteI16(|name|) + (name + rest);
    assert bytes[2..2 + |name|] == name;
  }

  lemma NameRejectsPieces(isUtf8: Name -> bool, name: Name, k: nat)
    requires IsI16(|name|) && k < |WriteName(name)|
    ensures ReadName(isUtf8, WriteName(name)[..k]) == Failed
  {
    I16Laws(|name|);
    Pieces(WriteI16(|name|), name, k);
  }

  lemma PartitionsReadBack(partitions: seq<int>, rest: seq<byte>)
    requires IsI32(|partitions|) && forall p :: p in partitions ==> IsI32(p)
    ensures ReadPartitions(WritePartitions(partitions) + rest) == Got(partitions, |WritePartitions(partitions)|)
  {
    var head, tail := WriteI32(|partitions|), WriteMany(WriteI32, partitions);
    I32Laws(|partitions|);
    AllI32Laws(partitions);
    ManyRoundTrip(ReadI32, WriteI32, partitions, rest);
    assert WritePartitions(partitions) + rest == head + (tail + rest);
    CountThenValues(head, |partitions|, tail + rest);
  }

  lemma CountThenValues(head: seq<byte>, count: nat, tail: seq<byte>)
    requires |head| == 4 && ReadI32(head + tail) == Got(count, 4)
    ensures var values := ReadMany(ReadI32, tail, count);
            ReadPartitions(head + tail) == if values.Got? then Got(values.value, 4 + values.used) else Failed
  {
    assert (head + tail)[4..] == tail;
  }

  lemma PartitionsRejectPieces(partitions: seq<int>, k: nat)
    requires IsI32(|partitions|) && forall p :: p in partitions ==> IsI32(p)
    requires k < |WritePartitions(partitions)|
    ensures ReadPartitions(WritePartitions(partitions)[..k]) == Failed
  {
    var head, tail := WriteI32(|partitions|), WriteMany(WriteI32, partitions);
    I32Laws(|partitions|);
    Pieces(head, tail, k);
    if k >= 4 {
      AllI32Laws(partitions);
      ManyRejectsPieces(ReadI32, WriteI32, partitions, k - 4);
      Pieces(head, tail[..k - 4], 0);
    }
  }

  lemma TopicLaws(isUtf8: Name -> bool, t: Topic)
    requires Encodable(isUtf8, t)
    ensures ReadsBack(TopicReader(isUtf8), WriteTopic, t)
    ensures RejectsPieces(TopicReader(isUtf8), WriteTopic, t)
  {
    var head, tail := WriteName(t.name), WritePartitions(t.partitions);
    forall rest: seq<byte>
      ensures ReadTopic(isUtf8, WriteTopic(t) + rest) == Got(t, |WriteTopic(t)|)
    {
      NameReadsBack(isUtf8, t.name, tail + rest);
      PartitionsReadBack(t.partitions, rest);
      assert WriteTopic(t) + rest == head + (tail + rest);
      Pieces(head, tail + rest, 0);
    }
    forall k | 0 <= k < |WriteTopic(t)|
      ensures ReadTopic(isUtf8, WriteTopic(t)[..k]) == Failed
    {
      Pieces(head, tail, k);
      if k < |head| {
        NameRejectsPieces(isUtf8, t.name, k);
      } else {
        NameReadsBack(isUtf8, t.name, tail[..k - |head|]);
        PartitionsRejectPieces(t.partitions, k - |head|);
        Pieces(head, tail[..k - |head|], 0);
      }
    }
  }

  ghost predicate AllEncodable(isUtf8: Name -> bool, topics: seq<Topic>) {
    IsI32(|topics|) && EachEncodable(isUtf8, topics)
  }

  ghost predicate EachEncodable(isUtf8: Name -> bool, topics: seq<Topic>) {
    forall t :: t in topics ==> Encodable(isUtf8, t)
  }

  lemma AllTopicLaws(isUtf8: Name -> bool, topics: seq<Topic>)
    requires AllEncodable(isUtf8, topics)
    ensures forall t :: t in topics ==>
              ReadsBack(TopicReader(isUtf8), WriteTopic, t) && RejectsPieces(TopicReader(isUtf8), WriteTopic, t)
  {
    forall t | t in topics
      ensures ReadsBack(TopicReader(isUtf8), WriteTopic, t) && RejectsPieces(TopicReader(isUtf8), WriteTopic, t)
    {
      TopicLaws(isUtf8, t);
    }
  }

  /** A count, and that many topics after it. */
  lemma CountThenTopics(isUtf8: Name -> bool, bytes: seq<byte>, count: nat, topics: seq<Topic>, used: nat)
    requires ReadI32(bytes) == Got(count, 4)
    requires ReadMany(TopicReader(isUtf8), bytes[4..], count) == Got(topics, used)
    ensures ReadTopics(isUtf8, bytes) == Some(topics)
  {
  }

  lemma ManyTopicsReadBack(isUtf8: Name -> bool, topics: seq<Topic>, rest: seq<byte>)
    requires AllEncodable(isUtf8, topics)
    ensures ReadMany(TopicReader(isUtf8), WriteMany(WriteTopic, topics) + rest, |topics|)
            == Got(topics, |WriteMany(WriteTopic, topics)|)
  {
    AllTopicLaws(isUtf8, topics);
    ManyRoundTrip(TopicReader(isUtf8), WriteTopic, topics, rest);
  }

  lemma CountReadsBack(count: int, rest: seq<byte>)
    requires IsI32(count)
    ensures ReadI32(WriteI32(count) + rest) == Got(count, 4) && (WriteI32(count) + rest)[4..] == rest
  {
    I32Laws(count);
  }

  lemma TopicsReadBack(isUtf8: Name -> bool, topics: seq<Topic>, rest: seq<byte>)
    requires AllEncodable(isUtf8, topics)
    ensures ReadTopics(isUtf8, WriteTopics(topics) + rest) == Some(topics)
  {
    var tail := WriteMany(WriteTopic, topics);
    CountReadsBack(|topics|, tail + rest);
    ManyTopicsReadBack(isUtf8, topics, rest);
    assert WriteTopics(topics) + rest == WriteI32(|topics|) + (tail + rest);
    CountThenTopics(isUtf8, WriteI32(|topics|) + (tail + rest), |topics|, topics, |tail|);
  }

  lemma TopicsRejectPieces(isUtf8: Name -> bool, topics: seq<Topic>, k: nat)
    requires AllEncodable(isUtf8, topics) && k < |WriteTopics(topics)|
    ensures ReadTopics(isUtf8, WriteTopics(topics)[..k]) == None
  {
    var head, tail := WriteI32(|topics|), WriteMany(WriteTopic, topics);
    I32Laws(|topics|);
    Pieces(head, tail, k);
    if k >= 4 {
      AllTopicLaws(isUtf8, topics);
      ManyRejectsPieces(TopicReader(isUtf8), WriteTopic, topics, k - 4);
      Pieces(head, tail[..k - 4], 0);
    }
  }

  /** Decoding inverts encoding, whatever user data follows. */
  lemma AssignmentRoundTrip(isUtf8: Name -> bool, version: int, topics: seq<Topic>, userData: seq<byte>)
    requires IsI16(version) && AllEncodable(isUtf8, topics)
    ensures Decoded(isUtf8, Encode(version, topics) + userData) == Some(AllPairs(topics))
  {
    I16Laws(version);
    TopicsReadBack(isUtf8, topics, userData);
    assert Encode(version, topics) + userData == WriteI16(version) + (WriteTopics(topics) + userData);
    Pieces(WriteI16(version), WriteTopics(topics) + userData, 0);
  }

  /** A truncated assignment is an error, never a shorter list. */
  lemma TruncationRejected(isUtf8: Name -> bool, version: int, topics: seq<Topic>, k: nat)
    requires IsI16(version) && AllEncodable(isUtf8, topics) && k < |Encode(version, topics)|
    ensures Decoded(isUtf8, Encode(version, topics)[..k]) == None
  {
    var head, tail := WriteI16(version), WriteTopics(topics);
    I16Laws(version);
    Pieces(head, tail, k);
    if k >= 2 {
      TopicsRejectPieces(isUtf8, topics, k - 2);
      Pieces(head, tail[..k - 2], 0);
    }
  }

  // ----- Nulls, and what is refused

  /** After the topics written out, what follows decides. */
  lemma TopicsThen(isUtf8: Name -> bool, topics: seq<Topic>, rest: seq<byte>, more: nat)
    requires EachEncodable(isUtf8, topics)
    ensures ReadMany(TopicReader(isUtf8), WriteMany(WriteTopic, topics) + rest, |topics| + more)
            == Continue(topics, |WriteMany(WriteTopic, topics)|, ReadMany(TopicReader(isUtf8), rest, more))
  {
    forall t | t in topics
      ensures ReadsBack(TopicReader(isUtf8), WriteTopic, t)
    {
      TopicLaws(isUtf8, t);
    }
    ManyThen(TopicReader(isUtf8), WriteTopic, topics, rest, more);
  }

  /** A version, a count, and then that many topics: if one of them cannot be
      read, nothing is. */
  lemma HeadReads(isUtf8: Name -> bool, version: int, count: nat, tail: seq<byte>, topics: Read<seq<Topic>>)
    requires IsI16(version) && IsI32(count) && ReadMany(TopicReader(isUtf8), tail, count) == topics
    ensures Decoded(isUtf8, WriteI16(version) + (WriteI32(count) + tail))
            == if topics.Got? then Some(AllPairs(topics.value)) else None
  {
    I16Laws(version);
    Pieces(WriteI16(version), WriteI32(count) + tail, 0);
    CountReadsBack(count, tail);
  }

  /** A null array of topics is an assignment of nothing. */
  lemma NullTopics(isUtf8: Name -> bool, version: int, count: int, rest: seq<byte>)
    requires IsI16(version) && IsI32(count) && count < 0
    ensures Decoded(isUtf8, WriteI16(version) + (WriteI32(count) + rest)) == Some([])
  {
    I16Laws(version);
    Pieces(WriteI16(version), WriteI32(count) + rest, 0);
    CountReadsBack(count, rest);
  }

  lemma NullTopicReads(isUtf8: Name -> bool, name: Name, count: int, rest: seq<byte>)
    requires IsI16(|name|) && isUtf8(name) && IsI32(count) && count < 0
    ensures var bytes := WriteName(name) + (WriteI32(count) + rest);
            && ReadTopic(isUtf8, bytes) == Got(Topic(name, []), |WriteName(name)| + 4)
            && bytes[|WriteName(name)| + 4..] == rest
  {
    NameReadsBack(isUtf8, name, WriteI32(count) + rest);
    Pieces(WriteName(name), WriteI32(count) + rest, 0);
    CountReadsBack(count, rest);
    I32Laws(count);
  }

  lemma OneTopicMore(isUtf8: Name -> bool, bytes: seq<byte>, t: Topic, used: nat, more: nat, rest: seq<byte>,
                     others: Read<seq<Topic>>)
    requires ReadTopic(isUtf8, bytes) == Got(t, used) && bytes[used..] == rest
    requires ReadMany(TopicReader(isUtf8), rest, more) == others
    ensures ReadMany(TopicReader(isUtf8), bytes, 1 + more) == Continue([t], used, others)
  {
  }

  lemma OthersReadBack(isUtf8: Name -> bool, topics: seq<Topic>, rest: seq<byte>)
    requires EachEncodable(isUtf8, topics)
    ensures ReadMany(TopicReader(isUtf8), WriteMany(WriteTopic, topics) + rest, |topics|)
            == Got(topics, |WriteMany(WriteTopic, topics)|)
  {
    forall t | t in topics
      ensures ReadsBack(TopicReader(isUtf8), WriteTopic, t)
    {
      TopicLaws(isUtf8, t);
    }
    ManyRoundTrip(TopicReader(isUtf8), WriteTopic, topics, rest);
  }

  /** A topic whose array of partitions is null, with those that follow it. */
  function NullTopicThen(name: Name, count: int, after: seq<Topic>, userData: seq<byte>): seq<byte> {
    WriteName(name) + (WriteI32(count) + (WriteMany(WriteTopic, after) + userData))
  }

  /** It owns nothing, and those after it are read as ever. */
  lemma NullPartitions(isUtf8: Name -> bool, name: Name, count: int, after: seq<Topic>, userData: seq<byte>)
    returns (used: nat)
    requires IsI16(|name|) && isUtf8(name) && IsI32(count) && count < 0 && EachEncodable(isUtf8, after)
    ensures ReadMany(TopicReader(isUtf8), NullTopicThen(name, count, after, userData), 1 + |after|)
            == Got([Topic(name, [])] + after, used)
  {
    var rest, n := WriteMany(WriteTopic, after) + userData, |WriteMany(WriteTopic, after)|;
    NullTopicReads(isUtf8, name, count, rest);
    OthersReadBack(isUtf8, after, userData);
    used := |WriteName(name)| + 4 + n;
    OneTopicMore(isUtf8, NullTopicThen(name, count, after, userData), Topic(name, []), used - n, |after|, rest,
                 Got(after, n));
  }

  /** A null name is refused, and so is one that is not text. */
  lemma BadNameFails(isUtf8: Name -> bool, name: Name, length: int, rest: seq<byte>)
    requires IsI16(length) && (length < 0 || (length == |name| && !isUtf8(name)))
    ensures ReadTopic(isUtf8, WriteI16(length) + (name + rest)) == Failed
  {
    var bad := WriteI16(length) + (name + rest);
    I16Laws(length);
    if length >= 0 {
      assert bad[2..2 + length] == name;
    }
    assert ReadName(isUtf8, bad) == Failed;
  }

  // ----- The cursor

  /** `Cursor`: each read moves `pos` past what it read, and leaves it alone when
      the bytes run out. */
  class Cursor {
    const bytes: seq<byte>
    var pos: nat

    ghost predicate Valid()
      reads this
    {
      pos <= |bytes|
    }

    /** What has not been read yet. */
    ghost function Tail(): seq<byte>
      requires Valid()
      reads this
    {
      bytes[pos..]
    }

    constructor (bytes: seq<byte>)
      ensures Valid() && pos == 0 && this.bytes == bytes && Tail() == bytes
    {
      this.bytes, pos := bytes, 0;
    }

    method ReadInt16() returns (r: Option<int>)
      requires Valid()
      modifies this
      ensures Valid() && old(pos) <= pos
      ensures ReadI16(old(Tail())) == if r.Some? then Got(r.value, pos - old(pos)) else Failed
      ensures r.None? ==> pos == old(pos)
    {
      if pos + 2 > |bytes| {
        return None;
      }
      var slice := bytes[pos..pos + 2];
      assert slice == Tail()[..2];
      pos := pos + 2;
      return Some(Signed(slice));
    }

    method ReadInt32() returns (r: Option<int>)
      requires Valid()
      modifies this
      ensures Valid() && old(pos) <= pos
      ensures ReadI32(old(Tail())) == if r.Some? then Got(r.value, pos - old(pos)) else Failed
      ensures r.None? ==> pos == old(pos)
    {
      if pos + 4 > |bytes| {
        return None;
      }
      var slice := bytes[pos..pos + 4];
      assert slice == Tail()[..4];
      pos := pos + 4;
      return Some(Signed(slice));
    }

    method ReadString(isUtf8: Name -> bool) returns (r: Option<Name>)
      requires Valid()
      modifies this
      ensures Valid() && old(pos) <= pos
      ensures ReadName(isUtf8, old(Tail())) == if r.Some? then Got(r.value, pos - old(pos)) else Failed
    {
      ghost var tail := Tail();
      var len := ReadInt16();
      if len.None? || len.value < 0 || pos + len.value > |bytes| {
        return None;
      }
      var slice := bytes[pos..pos + len.value];
      assert slice == tail[2..2 + len.value];
      pos := pos + len.value;
      return if isUtf8(slice) then Some(slice) else None;
    }

    /** The inner loop: a topic's partitions. */
    method ReadPartitionList() returns (r: Option<seq<int>>)
      requires Valid()
      modifies this
      ensures Valid() && old(pos) <= pos
      ensures ReadPartitions(old(Tail())) == if r.Some? then Got(r.value, pos - old(pos)) else Failed
    {
      ghost var tail, start := Tail(), pos;
      var count := ReadInt32();
      if count.None? {
        return None;
      }
      if count.value < 0 {
        return Some([]);
      }
      assert Tail() == tail[4..];
      ghost var whole := ReadMany(ReadI32, Tail(), count.value);
      var partitions: seq<int> := [];
      var left := count.value;
      ghost var used: nat := 0;
      UnderwayFromStart(ReadI32, Tail(), left);
      while left > 0
        invariant 0 <= left && Valid() && pos == start + 4 + used
        invariant Underway(ReadI32, whole, partitions, used, Tail(), left)
      {
        ghost var was := Tail();
        var p := ReadInt32();
        if p.None? {
          UnderwayStuck(ReadI32, whole, partitions, used, was, left);
          return None;
        }
        ghost var soFar, spent, todo := partitions, used, left;
        partitions := partitions + [p.value];
        used := used + 4;
        left := left - 1;
        UnderwayStep(ReadI32, whole, soFar, spent, was, todo, Got(p.value, 4), partitions, used, Tail(), left);
      }
      UnderwayDone(ReadI32, whole, partitions, used, Tail());
      return Some(partitions);
    }

    /** One turn of the outer loop: a topic with its partitions. */
    method ReadTopicEntry(isUtf8: Name -> bool) returns (r: Option<Topic>)
      requires Valid()
      modifies this
      ensures Valid() && old(pos) <= pos
      ensures ReadTopic(isUtf8, old(Tail())) == if r.Some? then Got(r.value, pos - old(pos)) else Failed
    {
      ghost var tail, start := Tail(), pos;
      var name := ReadString(isUtf8);
      if name.None? {
        return None;
      }
      assert Tail() == tail[pos - start..];
      var partitions := ReadPartitionList();
      return if partitions.None? then None else Some(Topic(name.value, partitions.value));
    }
  }

  lemma AllPairsAppend(topics: seq<Topic>, t: Topic)
    ensures AllPairs(topics + [t]) == AllPairs(topics) + Pairs(t)
  {
    assert (topics + [t])[..|topics|] == topics;
  }

  /** `decode_consumer_protocol_assignment`. */
  method DecodeConsumerProtocolAssignment(isUtf8: Name -> bool, bytes: seq<byte>)
    returns (result: Option<seq<(Name, int)>>)
    ensures result == Decoded(isUtf8, bytes)
  {
    var cursor := new Cursor(bytes);
    var version := cursor.ReadInt16();
    if version.None? {
      return None;
    }
    assert cursor.Tail() == bytes[2..];
    result := ReadAssigned(isUtf8, cursor);
  }

  method ReadAssigned(isUtf8: Name -> bool, cursor: Cursor) returns (result: Option<seq<(Name, int)>>)
    requires cursor.Valid()
    modifies cursor
    ensures var topics := ReadTopics(isUtf8, old(cursor.Tail()));
            result == if topics.Some? then Some(AllPairs(topics.value)) else None
  {
    ghost var start := cursor.Tail();
    var count := cursor.ReadInt32();
    if count.None? {
      return None;
    }
    if count.value < 0 {
      return Some([]);
    }
    assert cursor.Tail() == start[4..];
    result := ReadEntries(isUtf8, cursor, count.value);
  }

  /** The outer loop. */
  method ReadEntries(isUtf8: Name -> bool, cursor: Cursor, count: nat) returns (result: Option<seq<(Name, int)>>)
    requires cursor.Valid()
    modifies cursor
    ensures var topics := ReadMany(TopicReader(isUtf8), old(cursor.Tail()), count);
            result == if topics.Got? then Some(AllPairs(topics.value)) else None
  {
    ghost var read := TopicReader(isUtf8);
    ghost var whole := ReadMany(read, cursor.Tail(), count);
    ghost var topics: seq<Topic> := [];
    ghost var used: nat := 0;
    var left := count;
    var pairs: seq<(Name, int)> := [];
    UnderwayFromStart(read, cursor.Tail(), left);
    while left > 0
      invariant 0 <= left && cursor.Valid()
      invariant Underway(read, whole, topics, used, cursor.Tail(), left)
      invariant pairs == AllPairs(topics)
    {
      ghost var tail, from := cursor.Tail(), cursor.pos;
      var topic := cursor.ReadTopicEntry(isUtf8);
      assert read(tail) == if topic.Some? then Got(topic.value, cursor.pos - from) else Failed;
      if topic.None? {
        UnderwayStuck(read, whole, topics, used, tail, left);
        return None;
      }
      Advanced(cursor.bytes, from, cursor.pos - from);
      AllPairsAppend(topics, topic.value);
      pairs := pairs + Pairs(topic.value);
      ghost var soFar, spent, todo := topics, used, left;
      topics, used := topics + [topic.value], used + cursor.pos - from;
      left := left - 1;
      UnderwayStep(read, whole, soFar, spent, tail, todo, read(tail), topics, used, cursor.Tail(), left);
    }
    UnderwayDone(read, whole, topics, used, cursor.Tail());
    return Some(pairs);
  }

  lemma Advanced(bytes: seq<byte>, from: nat, n: nat)
    requires from + n <= |bytes|
    ensures bytes[from..][n..] == bytes[from + n..]
  {
  }
}
