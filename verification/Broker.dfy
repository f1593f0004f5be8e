/** What the fetch sees of a Kafka cluster: partitions with gaps in their
    offsets, read in order through consumers that may answer, fail or stay
    quiet at any poll. The broker is the environment of the poll loop in
    backend/kafka/src/client.rs: every choice it makes is an input. */
module Broker {
  import opened Common
  import Division

  /** A stored record. Only its offset and payload length steer the fetch. */
  datatype Record = Record(offset: int, payloadSize: nat)

  /** What reading a partition yields: its records, and a notice each time the
      reader catches up with the partition's end (`enable.partition.eof`). */
  datatype Event = Data(record: Record) | EndOfPartition

  datatype PollOutcome =
    | Message(partition: int, record: Record)
    | PartitionEof(partition: int)
    | PollError(reason: string)
    | Nothing

  ghost predicate Increasing(log: seq<Record>) {
    forall i, j :: 0 <= i < j < |log| ==> log[i].offset < log[j].offset
  }

  function Records(events: seq<Event>): seq<Record> {
    if events == [] then []
    else (if events[0].Data? then [events[0].record] else []) + Records(events[1..])
  }

  /** The records of `log` with `start <= offset < end`. */
  function Within(log: seq<Record>, start: int, end: int): seq<Record> {
    if log == [] then []
    else (if start <= log[0].offset < end then [log[0]] else []) + Within(log[1..], start, end)
  }

  function First(rs: seq<Record>, n: int): seq<Record>
    requires 0 <= n
  {
    if |rs| <= n then rs else rs[..n]
  }

  /** The records a fetch of `limit` messages from `[start, end)` asks for. */
  function Wanted(log: seq<Record>, start: int, end: int, limit: int): seq<Record>
    requires 0 <= limit
  {
    First(Within(log, start, end), limit)
  }

  /** A consumer assigned at `start` is handed every record from there on, in
      order. The partition may keep growing while it is read, so its end may
      be reported more than once, but never before a record below the `end`
      that was known when the fetch was planned. */
  ghost predicate Delivers(events: seq<Event>, log: seq<Record>, start: int, end: int) {
    && Increasing(log)
    && Records(events) == From(log, start)
    && forall i, j :: 0 <= i < j < |events| && events[i].EndOfPartition? && events[j].Data?
                      ==> end <= events[j].record.offset
  }

  function From(log: seq<Record>, start: int): seq<Record> {
    if log == [] then []
    else (if start <= log[0].offset then [log[0]] else []) + From(log[1..], start)
  }

  // ----- Facts about the vocabulary

  lemma {:induction false} RecordsAppend(a: seq<Event>, b: seq<Event>)
    ensures Records(a + b) == Records(a) + Records(b)
  {
    if a == [] {
      assert a + b == b;
    } else {
      RecordsAppend(a[1..], b);
      assert (a + b)[1..] == a[1..] + b;
      var head: seq<Record> := if a[0].Data? then [a[0].record] else [];
      assert head + (Records(a[1..]) + Records(b)) == (head + Records(a[1..])) + Records(b);
    }
  }

  lemma {:induction false} WithinAppend(a: seq<Record>, b: seq<Record>, start: int, end: int)
    ensures Within(a + b, start, end) == Within(a, start, end) + Within(b, start, end)
  {
    if a == [] {
      assert a + b == b;
    } else {
      WithinAppend(a[1..], b, start, end);
      assert (a + b)[1..] == a[1..] + b;
      var head: seq<Record> := if start <= a[0].offset < end then [a[0]] else [];
      assert head + (Within(a[1..], start, end) + Within(b, start, end))
          == (head + Within(a[1..], start, end)) + Within(b, start, end);
    }
  }

  lemma {:induction false} WithinFrom(log: seq<Record>, start: int, end: int)
    ensures Within(From(log, start), start, end) == Within(log, start, end)
  {
    if log != [] {
      WithinFrom(log[1..], start, end);
      var head := if start <= log[0].offset then [log[0]] else [];
      WithinAppend(head, From(log[1..], start), start, end);
    }
  }

  lemma {:induction false} WithinMeans(log: seq<Record>, start: int, end: int)
    requires Increasing(log)
    ensures Increasing(Within(log, start, end))
    ensures forall r :: r in Within(log, start, end) <==> r in log && start <= r.offset < end
  {
    if log != [] {
      WithinMeans(log[1..], start, end);
      assert forall r :: r in log[1..] ==> log[0].offset < r.offset;
      assert forall r :: r in log <==> r == log[0] || r in log[1..];
    }
  }

  /** What a fetch asks for: stored records in the window, in the order of their
      offsets, and all of them but for later ones beyond the limit. */
  lemma WantedMeans(log: seq<Record>, start: int, end: int, limit: nat)
    requires Increasing(log)
    ensures var wanted := Wanted(log, start, end, limit);
            && Increasing(wanted) && |wanted| <= limit
            && (forall r :: r in wanted ==> r in log && start <= r.offset < end)
            && forall r :: r in log && start <= r.offset < end && r !in wanted ==>
                 |wanted| == limit && forall q :: q in wanted ==> q.offset < r.offset
  {
    WithinMeans(log, start, end);
    var all, wanted := Within(log, start, end), Wanted(log, start, end, limit);
    forall r | r in all && r !in wanted
      ensures |wanted| == limit && forall q :: q in wanted ==> q.offset < r.offset
    {
      var i :| 0 <= i < |all| && all[i] == r;
      assert forall k :: 0 <= k < |wanted| ==> all[k] == wanted[k] && all[k] in wanted;
    }
  }

  lemma {:induction false} WithinEmpty(rs: seq<Record>, start: int, end: int)
    requires forall r :: r in rs ==> end <= r.offset
    ensures Within(rs, start, end) == []
  {
    if rs != [] {
      WithinEmpty(rs[1..], start, end);
    }
  }

  lemma {:induction false} FromSubset(log: seq<Record>, start: int)
    ensures forall r :: r in From(log, start) ==> r in log && start <= r.offset
  {
    if log != [] {
      FromSubset(log[1..], start);
    }
  }

  lemma {:induction false} FromIncreasing(log: seq<Record>, start: int)
    requires Increasing(log)
    ensures Increasing(From(log, start))
  {
    if log != [] {
      FromIncreasing(log[1..], start);
      FromSubset(log[1..], start);
      assert forall r :: r in log[1..] ==> log[0].offset < r.offset;
    }
  }

  lemma {:induction false} RecordsSubset(events: seq<Event>)
    ensures forall r :: r in Records(events) ==> Data(r) in events
  {
    if events != [] {
      RecordsSubset(events[1..]);
    }
  }

  /** After `k` events the records seen so far are a prefix of the partition's
      window, and one more event extends it as expected. */
  lemma WindowGrows(events: seq<Event>, k: nat, start: int, end: int)
    requires k < |events|
    ensures Records(events[..k + 1])
         == Records(events[..k]) + if events[k].Data? then [events[k].record] else []
    ensures Within(Records(events[..k + 1]), start, end)
         == Within(Records(events[..k]), start, end)
            + if events[k].Data? && start <= events[k].record.offset < end then [events[k].record] else []
  {
    assert events[..k + 1] == events[..k] + [events[k]];
    RecordsAppend(events[..k], [events[k]]);
    var last: seq<Record> := if events[k].Data? then [events[k].record] else [];
    assert Records([events[k]]) == last;
    WithinAppend(Records(events[..k]), last, start, end);
  }

  lemma WindowSoFar(events: seq<Event>, k: nat, start: int, end: int)
    requires k <= |events|
    ensures Within(Records(events[..k]), start, end) <= Within(Records(events), start, end)
  {
    assert events == events[..k] + events[k..];
    RecordsAppend(events[..k], events[k..]);
    WithinAppend(Records(events[..k]), Records(events[k..]), start, end);
  }

  /** Once no later record can lie below `end`, the window is complete. */
  lemma WindowComplete(events: seq<Event>, k: nat, start: int, end: int)
    requires k <= |events|
    requires forall j :: k <= j < |events| && events[j].Data? ==> end <= events[j].record.offset
    ensures Within(Records(events[..k]), start, end) == Within(Records(events), start, end)
  {
    assert events == events[..k] + events[k..];
    RecordsAppend(events[..k], events[k..]);
    RecordsSubset(events[k..]);
    forall r | r in Records(events[k..])
      ensures end <= r.offset
    {
      assert Data(r) in events[k..];
    }
    WithinAppend(Records(events[..k]), Records(events[k..]), start, end);
    WithinEmpty(Records(events[k..]), start, end);
  }

  /** Seeing a record at or past `end` means the window is complete. */
  lemma PastEnd(events: seq<Event>, log: seq<Record>, k: nat, start: int, end: int)
    requires Delivers(events, log, start, end)
    requires k < |events| && events[k].Data? && end <= events[k].record.offset
    ensures Within(Records(events[..k]), start, end) == Within(Records(events), start, end)
  {
    FromIncreasing(log, start);
    forall j | k < j < |events| && events[j].Data?
      ensures end <= events[j].record.offset
    {
      assert events == (events[..k] + [events[k]]) + (events[k + 1..j] + [events[j]] + events[j + 1..]);
      RecordsAppend(events[..k] + [events[k]], events[k + 1..j] + [events[j]] + events[j + 1..]);
      RecordsAppend(events[..k], [events[k]]);
      RecordsAppend(events[k + 1..j] + [events[j]], events[j + 1..]);
      RecordsAppend(events[k + 1..j], [events[j]]);
      var a, b := |Records(events[..k])|, |Records(events[..k])| + 1 + |Records(events[k + 1..j])|;
      assert Records(events)[a] == events[k].record && Records(events)[b] == events[j].record;
    }
    WindowComplete(events, k, start, end);
  }

  // ----- Polling

  ghost predicate ValidPositions(streams: map<int, seq<Event>>, pos: map<int, nat>) {
    && pos.Keys == streams.Keys
    && forall p :: p in streams ==> pos[p] <= |streams[p]|
  }

  /** One poll of a consumer that owns the partitions `owned`: nothing, an error, or the
      next event of one of its partitions. */
  ghost predicate Polled(streams: map<int, seq<Event>>, owned: seq<int>,
                         pos: map<int, nat>, outcome: PollOutcome, pos': map<int, nat>)
    requires ValidPositions(streams, pos)
  {
    match outcome
    case Nothing => pos' == pos
    case PollError(_) => pos' == pos
    case Message(p, r) =>
      && p in owned && p in streams && pos[p] < |streams[p]|
      && streams[p][pos[p]] == Data(r) && pos' == pos[p := pos[p] + 1]
    case PartitionEof(p) =>
      && p in owned && p in streams && pos[p] < |streams[p]|
      && streams[p][pos[p]] == EndOfPartition && pos' == pos[p := pos[p] + 1]
  }

  /** What the environment does when a consumer is polled: keep silent, report
      an error, or hand over the next event of one of its partitions. */
  datatype Choice = Silent | Fault(reason: string) | Serve(pick: nat)

  datatype Reply = Reply(outcome: PollOutcome, pos: map<int, nat>)

  /** The partitions of a consumer that have an event to hand over. */
  function Pending(streams: map<int, seq<Event>>, owned: seq<int>, pos: map<int, nat>): (ready: seq<int>)
    ensures forall p :: p in ready <==> p in owned && p in streams && p in pos && pos[p] < |streams[p]|
  {
    if owned == [] then []
    else
      var p := owned[0];
      (if p in streams && p in pos && pos[p] < |streams[p]| then [p] else []) + Pending(streams, owned[1..], pos)
  }

  /** `shard.poll(..)`, for a given choice of the environment. */
  function Answer(streams: map<int, seq<Event>>, owned: seq<int>, pos: map<int, nat>, choice: Choice): (r: Reply)
    requires ValidPositions(streams, pos)
    ensures Polled(streams, owned, pos, r.outcome, r.pos) && ValidPositions(streams, r.pos)
    ensures r.outcome.Nothing? <==> choice.Silent? || (choice.Serve? && Pending(streams, owned, pos) == [])
    ensures r.outcome.PollError? <==> choice.Fault?
  {
    match choice
    case Silent => Reply(Nothing, pos)
    case Fault(reason) => Reply(PollError(reason), pos)
    case Serve(pick) =>
      var ready := Pending(streams, owned, pos);
      if ready == [] then Reply(Nothing, pos)
      else
        var p := ready[pick % |ready|];
        Reply(match streams[p][pos[p]] case Data(r) => Message(p, r) case EndOfPartition => PartitionEof(p),
              pos[p := pos[p] + 1])
  }

  /** Nothing a poll may bring is out of the environment's reach. */
  lemma EveryOutcomeIsAnAnswer(streams: map<int, seq<Event>>, owned: seq<int>,
                               pos: map<int, nat>, outcome: PollOutcome, pos': map<int, nat>) returns (choice: Choice)
    requires ValidPositions(streams, pos) && Polled(streams, owned, pos, outcome, pos')
    ensures Answer(streams, owned, pos, choice) == Reply(outcome, pos')
  {
    match outcome
    case Nothing => choice := Silent;
    case PollError(reason) => choice := Fault(reason);
    case _ =>
      var ready := Pending(streams, owned, pos);
      var pick: nat :| pick < |ready| && ready[pick] == outcome.partition;
      Division.Unique(pick, |ready|, 0, pick);
      choice := Serve(pick);
  }

  /** Events not yet handed out. */
  ghost function Undelivered(streams: map<int, seq<Event>>, pos: map<int, nat>): int
    requires ValidPositions(streams, pos)
  {
    SumValues(map p | p in streams :: |streams[p]| - pos[p])
  }

  lemma UndeliveredDrops(streams: map<int, seq<Event>>, pos: map<int, nat>, p: int)
    requires ValidPositions(streams, pos) && p in streams && pos[p] < |streams[p]|
    ensures ValidPositions(streams, pos[p := pos[p] + 1])
    ensures Undelivered(streams, pos[p := pos[p] + 1]) == Undelivered(streams, pos) - 1
    ensures 0 <= Undelivered(streams, pos[p := pos[p] + 1])
  {
    var left := map q | q in streams :: |streams[q]| - pos[q];
    var pos' := pos[p := pos[p] + 1];
    var left' := map q | q in streams :: |streams[q]| - pos'[q];
    SumValuesUpdate(left, p, left[p] - 1);
    assert left' == left[p := left[p] - 1];
    forall q | q in left'
      ensures 0 <= left'[q]
    {
      assert q in streams && pos'[q] <= |streams[q]|;
    }
    SumValuesNonNegative(left');
  }

  lemma UndeliveredNonNegative(streams: map<int, seq<Event>>, pos: map<int, nat>)
    requires ValidPositions(streams, pos)
    ensures 0 <= Undelivered(streams, pos)
  {
    var left := map q | q in streams :: |streams[q]| - pos[q];
    forall q | q in left
      ensures 0 <= left[q]
    {
      assert q in streams && pos[q] <= |streams[q]|;
    }
    SumValuesNonNegative(left);
  }
}
