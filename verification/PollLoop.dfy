/** The poll loop of `fetch_messages` (backend/kafka/src/client.rs): one loop
    drains every shard, keeping a per-partition budget, the set of finished
    partitions, an idle clock and a byte budget in step. */
module PollLoop {
  import opened Common
  import Division
  import opened Broker

  datatype TopicMessage = TopicMessage(partition: int, record: Record)

  datatype Exit = ReadEverything | WentQuiet | HitByteBudget | WasCancelled

  datatype LoopResult = LoopResult(
    messages: seq<TopicMessage>,
    pollError: Option<string>,
    stoppedAtByteBudget: bool,
    payloadBytesRead: nat)

  const POLL_TIMEOUT_MS := 500
  const SHARDED_POLL_SLICE_MS := 5
  const IDLE_TIMEOUT_MS := 10_000

  /** `byte_budget_reached`. */
  predicate ByteBudgetReached(bytesRead: nat, budget: Option<nat>) {
    budget.Some? && bytesRead >= budget.value
  }

  /** `budgeted_payload_bytes`. */
  function BudgetedPayloadBytes(payloadSize: nat, includePayload: bool): nat {
    if includePayload then payloadSize else 0
  }

  /** What a list of kept messages costs against the byte budget. */
  function Charge(messages: seq<TopicMessage>, includePayload: bool): nat {
    if messages == [] then 0
    else Charge(messages[..|messages| - 1], includePayload)
         + BudgetedPayloadBytes(messages[|messages| - 1].record.payloadSize, includePayload)
  }

  /** How many bytes of payload these messages carry. */
  function PayloadBytes(messages: seq<TopicMessage>): nat {
    if messages == [] then 0
    else PayloadBytes(messages[..|messages| - 1]) + messages[|messages| - 1].record.payloadSize
  }

  /** How many of them a fetch keeps: all, or none if it leaves payloads out. */
  function BytesKept(messages: seq<TopicMessage>, includePayload: bool): nat {
    if includePayload then PayloadBytes(messages) else 0
  }

  lemma {:induction false} ChargeIsBytesKept(messages: seq<TopicMessage>, includePayload: bool)
    ensures Charge(messages, includePayload) == BytesKept(messages, includePayload)
  {
    if messages != [] {
      ChargeIsBytesKept(messages[..|messages| - 1], includePayload);
    }
  }

  /** The messages of one partition, in the order they were kept. */
  function Of(messages: seq<TopicMessage>, p: int): seq<Record> {
    if messages == [] then []
    else
      var last := messages[|messages| - 1];
      Of(messages[..|messages| - 1], p) + if last.partition == p then [last.record] else []
  }

  /** A planned fetch and the cluster it reads: per partition, how many
      messages to take, from which offset and up to which; the partitions each
      consumer was assigned; what the broker stores and what it will deliver. */
  datatype Fetch = Fetch(
    limits: map<int, int>,
    starts: map<int, int>,
    ends: map<int, int>,
    shards: seq<seq<int>>,
    logs: map<int, seq<Record>>,
    streams: map<int, seq<Event>>)
  {
    /** Only partitions with work are assigned: the loop's `remaining` holds
        the others too, and its unfinished counter would go wrong if one of
        those were ever polled. */
    ghost predicate Valid() {
      && |shards| > 0
      && limits.Keys <= ends.Keys && limits.Keys <= starts.Keys
      && limits.Keys <= logs.Keys && limits.Keys <= streams.Keys
      && (forall p {:trigger limits[p]} :: p in limits ==> 0 <= limits[p])
      && (forall p {:trigger streams[p]} :: p in limits ==> Delivers(streams[p], logs[p], starts[p], ends[p]))
      && forall i, p :: 0 <= i < |shards| && p in shards[i] && p in limits ==> limits[p] > 0
    }

    /** The partitions with something to read. */
    ghost function Working(): set<int> {
      set p | p in limits && limits[p] > 0
    }

    ghost function WantedFrom(p: int): seq<Record>
      requires Valid() && p in limits
    {
      Wanted(logs[p], starts[p], ends[p], limits[p])
    }
  }

  /** The loop's coupled variables. */
  datatype LoopState = LoopState(
    remaining: map<int, int>,
    finished: set<int>,
    unfinished: int,
    collected: seq<TopicMessage>)

  /** What a partition has contributed after `k` of its events. */
  ghost function Kept(stream: seq<Event>, k: nat, start: int, end: int, limit: nat): seq<Record>
    requires k <= |stream|
  {
    First(Within(Records(stream[..k]), start, end), limit)
  }

  /** The consumer has handed over the partition's end, or a record beyond what
      was planned. */
  ghost predicate EndSeen(stream: seq<Event>, k: nat, end: int)
    requires k <= |stream|
  {
    exists i :: 0 <= i < k && (stream[i].EndOfPartition? || end <= stream[i].record.offset)
  }

  /** One partition: its budget counts what is still missing from its window, it
      is marked finished exactly when that is nothing or its end has been seen,
      and then its window is complete. */
  ghost predicate PartitionCoupled(limit: nat, start: int, end: int, stream: seq<Event>, k: nat,
                                   left: int, done: bool, kept: seq<Record>)
    requires k <= |stream|
  {
    && kept == Kept(stream, k, start, end, limit)
    && left == limit - |kept|
    && (done <==> limit > 0 && (left == 0 || EndSeen(stream, k, end)))
    && (done ==> kept == Kept(stream, |stream|, start, end, limit))
  }

  ghost predicate CoupledIn(limit: nat, start: int, end: int, stream: seq<Event>, k: nat, s: LoopState, p: int)
    requires k <= |stream| && p in s.remaining
  {
    PartitionCoupled(limit, start, end, stream, k, s.remaining[p], p in s.finished, Of(s.collected, p))
  }

  /** Everything about partition `p` is known and in range. */
  ghost predicate Placed(f: Fetch, pos: map<int, nat>, p: int) {
    && p in f.limits && p in f.starts && p in f.ends && p in f.streams && p in pos
    && f.limits[p] >= 0 && pos[p] <= |f.streams[p]|
  }

  ghost predicate CoupledAt(f: Fetch, pos: map<int, nat>, s: LoopState, p: int) {
    && Placed(f, pos, p) && p in s.remaining
    && CoupledIn(f.limits[p], f.starts[p], f.ends[p], f.streams[p], pos[p], s, p)
  }

  ghost predicate EachCoupled(f: Fetch, pos: map<int, nat>, s: LoopState) {
    forall p {:trigger CoupledAt(f, pos, s, p)} :: p in f.limits ==> CoupledAt(f, pos, s, p)
  }

  /** The counters: what is left and what is collected add up to the plan, and
      `unfinished` counts the partitions not in `finished`. */
  ghost predicate Counted(all: set<int>, total: int, s: LoopState) {
    && s.finished <= all
    && s.unfinished == |all - s.finished|
    && SumValues(s.remaining) + |s.collected| == total
    && forall m :: m in s.collected ==> m.partition in all
  }

  /** The loop invariant. */
  ghost predicate Coupled(f: Fetch, pos: map<int, nat>, s: LoopState) {
    && ValidPositions(f.streams, pos)
    && s.remaining.Keys == f.limits.Keys
    && EachCoupled(f, pos, s)
    && Counted(f.Working(), SumValues(f.limits), s)
  }

  /** How the loop absorbs one event of an assigned partition. */
  ghost function Absorb(s: LoopState, p: int, next: Event, end: int): LoopState
    requires p in s.remaining
  {
    var finish := s.(finished := s.finished + {p},
                     unfinished := s.unfinished - if p in s.finished then 0 else 1);
    if next.EndOfPartition? then finish
    else if s.remaining[p] <= 0 then s
    else if next.record.offset >= end then finish
    else (if s.remaining[p] == 1 then finish else s).(
         remaining := s.remaining[p := s.remaining[p] - 1],
         collected := s.collected + [TopicMessage(p, next.record)])
  }

  // ----- One event, seen from its own partition

  lemma KeptGrows(stream: seq<Event>, j: nat, k: nat, start: int, end: int, limit: nat)
    requires j <= k <= |stream|
    ensures Kept(stream, j, start, end, limit) <= Kept(stream, k, start, end, limit)
  {
    assert stream[..k][..j] == stream[..j];
    WindowSoFar(stream[..k], j, start, end);
  }

  lemma NothingAfterEof(stream: seq<Event>, log: seq<Record>, k: nat, start: int, end: int)
    requires Delivers(stream, log, start, end) && k < |stream| && stream[k].EndOfPartition?
    ensures forall j :: k + 1 <= j < |stream| && stream[j].Data? ==> end <= stream[j].record.offset
  {
  }

  /** Catching up with the partition's end: everything wanted has been seen. */
  lemma EofStep(limit: nat, start: int, end: int, log: seq<Record>, stream: seq<Event>, k: nat,
                left: int, done: bool, kept: seq<Record>)
    requires Delivers(stream, log, start, end) && k < |stream| && stream[k].EndOfPartition? && limit > 0
    requires PartitionCoupled(limit, start, end, stream, k, left, done, kept)
    ensures PartitionCoupled(limit, start, end, stream, k + 1, left, true, kept)
  {
    WindowGrows(stream, k, start, end);
    NothingAfterEof(stream, log, k, start, end);
    WindowComplete(stream, k + 1, start, end);
    assert stream[..|stream|] == stream;
  }

  /** A record at or past the end: likewise. */
  lemma PastEndStep(limit: nat, start: int, end: int, log: seq<Record>, stream: seq<Event>, k: nat,
                    left: int, done: bool, kept: seq<Record>)
    requires Delivers(stream, log, start, end)
    requires k < |stream| && stream[k].Data? && end <= stream[k].record.offset && limit > 0
    requires PartitionCoupled(limit, start, end, stream, k, left, done, kept)
    ensures PartitionCoupled(limit, start, end, stream, k + 1, left, true, kept)
  {
    WindowGrows(stream, k, start, end);
    PastEnd(stream, log, k, start, end);
    assert stream[..|stream|] == stream;
  }

  /** A record for a partition whose budget is spent changes nothing. */
  lemma SpentStep(limit: nat, start: int, end: int, stream: seq<Event>, k: nat,
                  left: int, done: bool, kept: seq<Record>)
    requires k < |stream| && left <= 0
    requires PartitionCoupled(limit, start, end, stream, k, left, done, kept)
    ensures PartitionCoupled(limit, start, end, stream, k + 1, left, done, kept)
  {
    KeptGrows(stream, k, k + 1, start, end, limit);
  }

  /** A record inside the window of a partition with budget left is the next
      one wanted, so the partition cannot have been marked finished. */
  lemma KeepStep(limit: nat, start: int, end: int, log: seq<Record>, stream: seq<Event>, k: nat,
                 left: int, done: bool, kept: seq<Record>)
    requires Delivers(stream, log, start, end)
    requires k < |stream| && stream[k].Data? && stream[k].record.offset < end && left > 0
    requires PartitionCoupled(limit, start, end, stream, k, left, done, kept)
    ensures !done
    ensures PartitionCoupled(limit, start, end, stream, k + 1, left - 1, left == 1, kept + [stream[k].record])
  {
    var r := stream[k].record;
    WindowGrows(stream, k, start, end);
    RecordInStream(stream, log, k, start, end);
    KeptGrows(stream, k + 1, |stream|, start, end, limit);
    assert Kept(stream, k + 1, start, end, limit) == kept + [r];
    assert stream[..|stream|] == stream;
  }

  lemma RecordInStream(stream: seq<Event>, log: seq<Record>, k: nat, start: int, end: int)
    requires Delivers(stream, log, start, end) && k < |stream| && stream[k].Data?
    ensures start <= stream[k].record.offset
  {
    WindowGrows(stream, k, start, end);
    assert stream == stream[..k + 1] + stream[k + 1..];
    RecordsAppend(stream[..k + 1], stream[k + 1..]);
    FromSubset(log, start);
    assert stream[k].record in Records(stream);
  }

  // ----- The same steps, seen from the whole loop

  lemma OfAppend(messages: seq<TopicMessage>, m: TopicMessage, p: int)
    ensures Of(messages + [m], p) == Of(messages, p) + if m.partition == p then [m.record] else []
  {
    assert (messages + [m])[..|messages|] == messages;
  }

  lemma OneFewer(all: set<int>, finished: set<int>, p: int)
    requires p in all
    ensures |all - (finished + {p})| == |all - finished| - if p in finished then 0 else 1
  {
    if p in finished {
      assert finished + {p} == finished;
    } else {
      assert all - (finished + {p}) == (all - finished) - {p};
    }
  }

  lemma AbsorbAtPartition(limit: nat, start: int, end: int, log: seq<Record>, stream: seq<Event>, k: nat,
                          s: LoopState, p: int)
    requires Delivers(stream, log, start, end) && k < |stream| && p in s.remaining && limit > 0
    requires CoupledIn(limit, start, end, stream, k, s, p)
    ensures CoupledIn(limit, start, end, stream, k + 1, Absorb(s, p, stream[k], end), p)
  {
    var next := stream[k];
    var left, done, kept := s.remaining[p], p in s.finished, Of(s.collected, p);
    if next.EndOfPartition? {
      EofStep(limit, start, end, log, stream, k, left, done, kept);
    } else if left <= 0 {
      SpentStep(limit, start, end, stream, k, left, done, kept);
    } else if next.record.offset >= end {
      PastEndStep(limit, start, end, log, stream, k, left, done, kept);
    } else {
      KeepStep(limit, start, end, log, stream, k, left, done, kept);
      OfAppend(s.collected, TopicMessage(p, next.record), p);
    }
  }

  /** Other partitions see nothing of it. */
  lemma AbsorbFrame(s: LoopState, p: int, next: Event, end: int, q: int)
    requires p in s.remaining && q in s.remaining && q != p
    ensures var s' := Absorb(s, p, next, end);
            && s'.remaining.Keys == s.remaining.Keys
            && s'.remaining[q] == s.remaining[q]
            && (q in s'.finished <==> q in s.finished)
            && Of(s'.collected, q) == Of(s.collected, q)
  {
    if next.Data? {
      OfAppend(s.collected, TopicMessage(p, next.record), q);
    }
  }

  lemma AdvanceValid(streams: map<int, seq<Event>>, pos: map<int, nat>, p: int)
    requires ValidPositions(streams, pos) && p in streams && pos[p] < |streams[p]|
    ensures ValidPositions(streams, pos[p := pos[p] + 1])
  {
  }

  lemma AbsorbHere(f: Fetch, pos: map<int, nat>, s: LoopState, p: int)
    requires CoupledAt(f, pos, s, p) && pos[p] < |f.streams[p]| && p in f.logs && f.limits[p] > 0
    requires Delivers(f.streams[p], f.logs[p], f.starts[p], f.ends[p])
    ensures CoupledAt(f, pos[p := pos[p] + 1], Absorb(s, p, f.streams[p][pos[p]], f.ends[p]), p)
  {
    var k, s' := pos[p], Absorb(s, p, f.streams[p][pos[p]], f.ends[p]);
    AbsorbAtPartition(f.limits[p], f.starts[p], f.ends[p], f.logs[p], f.streams[p], k, s, p);
    assert CoupledIn(f.limits[p], f.starts[p], f.ends[p], f.streams[p], k + 1, s', p);
  }

  lemma AbsorbElsewhere(f: Fetch, pos: map<int, nat>, s: LoopState, p: int, k: nat, next: Event, end: int, q: int)
    requires CoupledAt(f, pos, s, q) && p in s.remaining && q != p
    ensures CoupledAt(f, pos[p := k], Absorb(s, p, next, end), q)
  {
    AbsorbFrame(s, p, next, end, q);
  }

  /** The counters: one event leaves the sum of budgets and messages alone,
      and `unfinished` keeps counting the partitions not in `finished`. */
  lemma AbsorbCounts(all: set<int>, total: int, s: LoopState, p: int, next: Event, end: int)
    requires p in all && p in s.remaining && Counted(all, total, s)
    ensures Counted(all, total, Absorb(s, p, next, end))
  {
    OneFewer(all, s.finished, p);
    SumValuesUpdate(s.remaining, p, s.remaining[p] - 1);
  }

  /** Every event an assigned partition can deliver keeps each partition
      coupled. */
  lemma AbsorbKeepsEach(f: Fetch, pos: map<int, nat>, s: LoopState, p: int)
    requires EachCoupled(f, pos, s) && p in f.Working() && p in f.logs && CoupledAt(f, pos, s, p)
    requires pos[p] < |f.streams[p]| && Delivers(f.streams[p], f.logs[p], f.starts[p], f.ends[p])
    ensures EachCoupled(f, pos[p := pos[p] + 1], Absorb(s, p, f.streams[p][pos[p]], f.ends[p]))
  {
    var pos', s' := pos[p := pos[p] + 1], Absorb(s, p, f.streams[p][pos[p]], f.ends[p]);
    forall q | q in f.limits
      ensures CoupledAt(f, pos', s', q)
    {
      assert CoupledAt(f, pos, s, q);
      if q == p {
        AbsorbHere(f, pos, s, p);
      } else {
        AbsorbElsewhere(f, pos, s, p, pos[p] + 1, f.streams[p][pos[p]], f.ends[p], q);
      }
    }
  }

  /** Every event an assigned partition can deliver keeps the invariant. */
  lemma AbsorbKeepsCoupling(f: Fetch, pos: map<int, nat>, s: LoopState, p: int)
    requires Coupled(f, pos, s) && p in f.Working() && p in f.logs && CoupledAt(f, pos, s, p)
    requires pos[p] < |f.streams[p]| && Delivers(f.streams[p], f.logs[p], f.starts[p], f.ends[p])
    ensures Coupled(f, pos[p := pos[p] + 1], Absorb(s, p, f.streams[p][pos[p]], f.ends[p]))
  {
    AdvanceValid(f.streams, pos, p);
    AbsorbKeepsEach(f, pos, s, p);
    AbsorbCounts(f.Working(), SumValues(f.limits), s, p, f.streams[p][pos[p]], f.ends[p]);
  }

  /** A partition the fetch never planned is skipped. */
  lemma UnplannedKeepsCoupling(f: Fetch, pos: map<int, nat>, s: LoopState, p: int)
    requires Coupled(f, pos, s) && p in f.streams && p !in f.limits && pos[p] < |f.streams[p]|
    ensures Coupled(f, pos[p := pos[p] + 1], s)
  {
    AdvanceValid(f.streams, pos, p);
    forall q | q in f.limits
      ensures CoupledAt(f, pos[p := pos[p] + 1], s, q)
    {
      assert CoupledAt(f, pos, s, q);
    }
  }

  // ----- What the invariant says when the loop stops

  lemma KeptWhole(f: Fetch, p: int)
    requires f.Valid() && p in f.limits
    ensures Kept(f.streams[p], |f.streams[p]|, f.starts[p], f.ends[p], f.limits[p]) == f.WantedFrom(p)
  {
    assert f.streams[p][..|f.streams[p]|] == f.streams[p];
    WithinFrom(f.logs[p], f.starts[p], f.ends[p]);
  }

  /** At any moment each partition has contributed a prefix of what is wanted
      from it, and never more budget is left than messages are missing. */
  lemma AlwaysAPrefix(f: Fetch, pos: map<int, nat>, s: LoopState, p: int)
    requires f.Valid() && Coupled(f, pos, s) && p in f.limits
    ensures Of(s.collected, p) <= f.WantedFrom(p)
    ensures s.remaining[p] == f.limits[p] - |Of(s.collected, p)| >= 0
  {
    assert CoupledAt(f, pos, s, p);
    KeptGrows(f.streams[p], pos[p], |f.streams[p]|, f.starts[p], f.ends[p], f.limits[p]);
    KeptWhole(f, p);
  }

  /** No partition left unfinished: everything wanted has been collected. */
  lemma CompleteWhenFinished(f: Fetch, pos: map<int, nat>, s: LoopState, p: int)
    requires f.Valid() && Coupled(f, pos, s) && p in f.limits && s.unfinished == 0
    ensures Of(s.collected, p) == f.WantedFrom(p)
  {
    assert CoupledAt(f, pos, s, p);
    KeptWhole(f, p);
    if p in f.Working() {
      assert p !in f.Working() - s.finished;
    }
  }

  lemma BudgetsNonNegative(f: Fetch, pos: map<int, nat>, s: LoopState)
    requires f.Valid() && Coupled(f, pos, s)
    ensures 0 <= SumValues(s.remaining)
    ensures SumValues(s.remaining) == 0 ==> forall p :: p in s.remaining ==> s.remaining[p] == 0
  {
    forall p | p in s.remaining
      ensures 0 <= s.remaining[p]
    {
      AlwaysAPrefix(f, pos, s, p);
    }
    SumValuesNonNegative(s.remaining);
  }

  /** Reaching the planned total implies that every partition is finished. */
  lemma TargetReached(f: Fetch, pos: map<int, nat>, s: LoopState)
    requires f.Valid() && Coupled(f, pos, s) && |s.collected| >= SumValues(f.limits)
    ensures s.unfinished == 0
  {
    BudgetsNonNegative(f, pos, s);
    forall p | p in f.Working()
      ensures p in s.finished
    {
      assert s.remaining[p] <= 0;
      AlwaysAPrefix(f, pos, s, p);
      assert CoupledAt(f, pos, s, p);
    }
    assert f.Working() - s.finished == {};
  }

  lemma NothingKept(stream: seq<Event>, start: int, end: int, limit: nat)
    ensures Kept(stream, 0, start, end, limit) == []
    ensures limit == 0 ==> Kept(stream, |stream|, start, end, limit) == []
  {
    assert stream[..0] == [];
  }

  lemma InitiallyCoupledAt(f: Fetch, pos: map<int, nat>, s: LoopState, p: int)
    requires Placed(f, pos, p) && pos[p] == 0
    requires s.remaining == f.limits && s.finished == {} && s.collected == []
    ensures CoupledAt(f, pos, s, p)
  {
    NothingKept(f.streams[p], f.starts[p], f.ends[p], f.limits[p]);
  }

  lemma InitiallyCoupled(f: Fetch, pos: map<int, nat>)
    requires f.Valid() && pos.Keys == f.streams.Keys && forall p :: p in pos ==> pos[p] == 0
    ensures Coupled(f, pos, LoopState(f.limits, {}, |f.Working()|, []))
  {
    var s := LoopState(f.limits, {}, |f.Working()|, []);
    forall p | p in f.limits
      ensures CoupledAt(f, pos, s, p)
    {
      assert 0 <= f.limits[p];
      InitiallyCoupledAt(f, pos, s, p);
    }
    assert f.Working() - {} == f.Working();
  }

  // ----- The environment, poll by poll

  /** What the broker does at the `n`th poll, whichever consumer is polled. */
  type Environment = nat -> Choice

  /** The `n`th poll asks the next consumer in turn. */
  function Asked(f: Fetch, env: Environment, pos: map<int, nat>, n: nat): Reply
    requires |f.shards| > 0 && ValidPositions(f.streams, pos)
  {
    Answer(f.streams, f.shards[n % |f.shards|], pos, env(n))
  }

  /** What a sweep found, and the number of the poll after it. */
  datatype Swept = Swept(outcome: PollOutcome, pos: map<int, nat>, next: nat)

  /** The first answer among the next `polls` polls, if there is one. */
  function SweepFrom(f: Fetch, env: Environment, pos: map<int, nat>, n: nat, polls: nat): (s: Swept)
    requires |f.shards| > 0 && ValidPositions(f.streams, pos)
    ensures ValidPositions(f.streams, s.pos)
    decreases polls
  {
    if polls == 0 then Swept(Nothing, pos, n)
    else
      var r := Asked(f, env, pos, n);
      if r.outcome.Nothing? then SweepFrom(f, env, pos, n + 1, polls - 1) else Swept(r.outcome, r.pos, n + 1)
  }

  /** Every consumer once without waiting, and one more with. */
  function Sweep(f: Fetch, env: Environment, pos: map<int, nat>, n: nat): Swept
    requires |f.shards| > 0 && ValidPositions(f.streams, pos)
  {
    SweepFrom(f, env, pos, n, |f.shards| + 1)
  }

  /** Each of these polls brings nothing. */
  ghost predicate AllSilent(f: Fetch, env: Environment, pos: map<int, nat>, from: nat, to: nat)
    requires |f.shards| > 0 && ValidPositions(f.streams, pos)
  {
    forall m :: from <= m < to ==> Asked(f, env, pos, m).outcome.Nothing?
  }

  /** One silent poll, and the sweep is that much shorter. */
  lemma SilentPoll(f: Fetch, env: Environment, pos: map<int, nat>, n: nat, polls: nat)
    requires |f.shards| > 0 && ValidPositions(f.streams, pos) && polls > 0
    ensures var r := Asked(f, env, pos, n);
            SweepFrom(f, env, pos, n, polls)
            == if r.outcome.Nothing? then SweepFrom(f, env, pos, n + 1, polls - 1) else Swept(r.outcome, r.pos, n + 1)
    ensures Asked(f, env, pos, n).outcome.Nothing? ==> Asked(f, env, pos, n).pos == pos
  {
  }

  /** What the outcome of some polls tells: silence, that each of them brought
      nothing; anything else, that it answers the first that brought something. */
  ghost predicate Tells(f: Fetch, env: Environment, pos: map<int, nat>, n: nat, polls: nat, s: Swept)
    requires |f.shards| > 0 && ValidPositions(f.streams, pos)
  {
    if s.outcome.Nothing? then s.pos == pos && s.next == n + polls && AllSilent(f, env, pos, n, n + polls)
    else
      && n < s.next <= n + polls && Reply(s.outcome, s.pos) == Asked(f, env, pos, s.next - 1)
      && AllSilent(f, env, pos, n, s.next - 1)
  }

  lemma TellsAfterSilence(f: Fetch, env: Environment, pos: map<int, nat>, n: nat, polls: nat, s: Swept)
    requires |f.shards| > 0 && ValidPositions(f.streams, pos) && polls > 0
    requires Asked(f, env, pos, n).outcome.Nothing? && Tells(f, env, pos, n + 1, polls - 1, s)
    ensures Tells(f, env, pos, n, polls, s)
  {
  }

  lemma TellsAnswer(f: Fetch, env: Environment, pos: map<int, nat>, n: nat, polls: nat)
    requires |f.shards| > 0 && ValidPositions(f.streams, pos) && polls > 0
    requires !Asked(f, env, pos, n).outcome.Nothing?
    ensures Tells(f, env, pos, n, polls, Swept(Asked(f, env, pos, n).outcome, Asked(f, env, pos, n).pos, n + 1))
  {
  }

  lemma {:induction false} SweepTells(f: Fetch, env: Environment, pos: map<int, nat>, n: nat, polls: nat)
    requires |f.shards| > 0 && ValidPositions(f.streams, pos)
    ensures Tells(f, env, pos, n, polls, SweepFrom(f, env, pos, n, polls))
    decreases polls
  {
    if polls > 0 {
      SilentPoll(f, env, pos, n, polls);
      if Asked(f, env, pos, n).outcome.Nothing? {
        SweepTells(f, env, pos, n + 1, polls - 1);
        TellsAfterSilence(f, env, pos, n, polls, SweepFrom(f, env, pos, n + 1, polls - 1));
      } else {
        TellsAnswer(f, env, pos, n, polls);
      }
    }
  }

  ghost predicate PolledSome(streams: map<int, seq<Event>>, shards: seq<seq<int>>,
                             pos: map<int, nat>, outcome: PollOutcome, pos': map<int, nat>)
    requires ValidPositions(streams, pos)
  {
    exists i :: 0 <= i < |shards| && Polled(streams, shards[i], pos, outcome, pos')
  }

  lemma AskedSome(f: Fetch, env: Environment, pos: map<int, nat>, m: nat, outcome: PollOutcome, pos': map<int, nat>)
    requires |f.shards| > 0 && ValidPositions(f.streams, pos) && Asked(f, env, pos, m) == Reply(outcome, pos')
    ensures PolledSome(f.streams, f.shards, pos, outcome, pos')
  {
    assert Polled(f.streams, f.shards[m % |f.shards|], pos, outcome, pos');
  }

  lemma SweepPollsSome(f: Fetch, env: Environment, pos: map<int, nat>, n: nat)
    requires |f.shards| > 0 && ValidPositions(f.streams, pos)
    ensures var s := Sweep(f, env, pos, n); PolledSome(f.streams, f.shards, pos, s.outcome, s.pos)
  {
    var s := Sweep(f, env, pos, n);
    SweepTells(f, env, pos, n, |f.shards| + 1);
    if s.outcome.Nothing? {
      SilentPoll(f, env, pos, n, |f.shards| + 1);
      AskedSome(f, env, pos, n, s.outcome, s.pos);
    } else {
      AskedSome(f, env, pos, s.next - 1, s.outcome, s.pos);
    }
  }

  /** Any `n` consecutive turns of the round robin ask every shard. */
  lemma EveryShardAsked(nextShard: nat, n: nat, shard: nat) returns (turn: nat)
    requires shard < n
    ensures nextShard <= turn < nextShard + n && turn % n == shard
  {
    var base := nextShard % n;
    turn := nextShard + if base <= shard then shard - base else n - base + shard;
    Division.Identity(nextShard, n);
    var q := nextShard / n + if base <= shard then 0 else 1;
    assert (nextShard / n + 1) * n == nextShard / n * n + n;
    Division.Unique(turn, n, q, shard);
  }

  /** The consumer `shard` was polled at this position, and had nothing to say. */
  ghost predicate FoundSilent(f: Fetch, env: Environment, pos: map<int, nat>, n: nat, shard: nat)
    requires |f.shards| > 0 && ValidPositions(f.streams, pos)
  {
    exists m: nat :: n <= m < n + |f.shards| && m % |f.shards| == shard && Asked(f, env, pos, m).outcome.Nothing?
  }

  /** A sweep reports silence only after finding every consumer silent. */
  lemma SilenceIsEverywhere(f: Fetch, env: Environment, pos: map<int, nat>, n: nat, shard: nat)
    requires |f.shards| > 0 && ValidPositions(f.streams, pos) && shard < |f.shards|
    requires Sweep(f, env, pos, n).outcome.Nothing?
    ensures FoundSilent(f, env, pos, n, shard)
  {
    SweepTells(f, env, pos, n, |f.shards| + 1);
    var m := EveryShardAsked(n, |f.shards|, shard);
    assert Asked(f, env, pos, m).outcome.Nothing?;
  }

  lemma AllFoundSilent(f: Fetch, env: Environment, pos: map<int, nat>, n: nat)
    requires |f.shards| > 0 && ValidPositions(f.streams, pos)
    ensures Sweep(f, env, pos, n).outcome.Nothing? ==>
              forall shard :: 0 <= shard < |f.shards| ==> FoundSilent(f, env, pos, n, shard)
  {
    if Sweep(f, env, pos, n).outcome.Nothing? {
      forall shard | 0 <= shard < |f.shards|
        ensures FoundSilent(f, env, pos, n, shard)
      {
        SilenceIsEverywhere(f, env, pos, n, shard);
      }
    }
  }

  /** One sweep: ask every shard in turn without waiting, then wait on the next
      one. Nothing is reported only after every shard has been asked. */
  method PollShards(f: Fetch, env: Environment, pos: map<int, nat>, nextShard: nat) returns (s: Swept)
    requires |f.shards| > 0 && ValidPositions(f.streams, pos)
    ensures s == Sweep(f, env, pos, nextShard)
    // each once, and once more the one whose turn it is
    ensures s.outcome.Nothing? ==> s.next == nextShard + |f.shards| + 1
    ensures s.outcome.Nothing? ==>
              forall shard :: 0 <= shard < |f.shards| ==> FoundSilent(f, env, pos, nextShard, shard)
  {
    s := Swept(Nothing, pos, nextShard);
    var asked := 0;
    while asked < |f.shards| && s.outcome.Nothing?
      invariant 0 <= asked <= |f.shards|
      invariant if s.outcome.Nothing?
                then s == Swept(Nothing, pos, nextShard + asked)
                     && Sweep(f, env, pos, nextShard) == SweepFrom(f, env, pos, s.next, |f.shards| + 1 - asked)
                else s == Sweep(f, env, pos, nextShard)
    {
      SilentPoll(f, env, pos, s.next, |f.shards| + 1 - asked);
      var r := Asked(f, env, pos, s.next);
      s := Swept(r.outcome, r.pos, s.next + 1);
      asked := asked + 1;
    }
    if s.outcome.Nothing? {
      SilentPoll(f, env, pos, s.next, 1);
      var r := Asked(f, env, pos, s.next);
      s := Swept(r.outcome, r.pos, s.next + 1);
    }
    AllFoundSilent(f, env, pos, nextShard);
    SweepTells(f, env, pos, nextShard, |f.shards| + 1);
  }

  // ----- What the answers come to

  /** What one poll does to the coupled variables. */
  ghost function Next(ends: map<int, int>, s: LoopState, outcome: PollOutcome): (s': LoopState)
    ensures s'.remaining.Keys == s.remaining.Keys
  {
    match outcome
    case Message(p, r) => if p in s.remaining && p in ends then Absorb(s, p, Data(r), ends[p]) else s
    case PartitionEof(p) => if p in s.remaining && p in ends then Absorb(s, p, EndOfPartition, ends[p]) else s
    case _ => s
  }

  /** How long one wait lasts. */
  function PollSlice(f: Fetch): nat {
    if |f.shards| == 1 then POLL_TIMEOUT_MS else SHARDED_POLL_SLICE_MS
  }

  /** The coupled variables after everything polled so far. */
  ghost function After(f: Fetch, polled: seq<PollOutcome>): (s: LoopState)
    ensures s.remaining.Keys == f.limits.Keys
  {
    if polled == [] then LoopState(f.limits, {}, |f.Working()|, [])
    else Next(f.ends, After(f, polled[..|polled| - 1]), polled[|polled| - 1])
  }

  /** Time waited in vain since the last message. An end of partition neither
      adds to it nor resets it. */
  ghost function IdleAfter(polled: seq<PollOutcome>, slice: nat): nat {
    if polled == [] then 0
    else
      var before := IdleAfter(polled[..|polled| - 1], slice);
      match polled[|polled| - 1]
      case Message(_, _) => 0
      case PartitionEof(_) => before
      case _ => before + slice
  }

  ghost function LastError(polled: seq<PollOutcome>): Option<string> {
    if polled == [] then None
    else if polled[|polled| - 1].PollError? then Some(polled[|polled| - 1].reason)
    else LastError(polled[..|polled| - 1])
  }

  lemma PolledOneMore(f: Fetch, polled: seq<PollOutcome>, outcome: PollOutcome)
    ensures After(f, polled + [outcome]) == Next(f.ends, After(f, polled), outcome)
    ensures IdleAfter(polled + [outcome], PollSlice(f)) ==
            match outcome
            case Message(_, _) => 0
            case PartitionEof(_) => IdleAfter(polled, PollSlice(f))
            case _ => IdleAfter(polled, PollSlice(f)) + PollSlice(f)
    ensures LastError(polled + [outcome]) == if outcome.PollError? then Some(outcome.reason) else LastError(polled)
  {
    assert (polled + [outcome])[..|polled|] == polled;
  }

  predicate Empty(outcome: PollOutcome) {
    outcome.Nothing? || outcome.PollError?
  }

  /** The polls that came back empty or with an error since the last message. */
  ghost function Vain(polled: seq<PollOutcome>): set<nat> {
    set k: nat | k < |polled| && Empty(polled[k]) && forall m :: k < m < |polled| ==> !polled[m].Message?
  }

  lemma VainAppend(polled: seq<PollOutcome>, outcome: PollOutcome)
    ensures Vain(polled + [outcome]) ==
            if outcome.Message? then {} else Vain(polled) + if Empty(outcome) then {|polled|} else {}
  {
    var after := polled + [outcome];
    assert after[|polled|] == outcome;
    assert forall k :: 0 <= k < |polled| ==> after[k] == polled[k];
  }

  lemma VainCount(polled: seq<PollOutcome>, outcome: PollOutcome)
    ensures |Vain(polled + [outcome])| ==
            if outcome.Message? then 0 else |Vain(polled)| + if Empty(outcome) then 1 else 0
  {
    VainAppend(polled, outcome);
  }

  lemma OneWaitMore(waits: nat, slice: nat)
    ensures (waits + 1) * slice == waits * slice + slice
  {
  }

  /** The idle clock counts them, one wait each. */
  lemma {:induction false} IdleCountsVain(polled: seq<PollOutcome>, slice: nat)
    ensures IdleAfter(polled, slice) == |Vain(polled)| * slice
  {
    if polled == [] {
      assert Vain(polled) == {};
    } else {
      var init, last := polled[..|polled| - 1], polled[|polled| - 1];
      assert polled == init + [last];
      IdleCountsVain(init, slice);
      VainCount(init, last);
      OneWaitMore(|Vain(init)|, slice);
    }
  }

  /** The reason of the last poll that failed, if one did. */
  ghost predicate LastReason(polled: seq<PollOutcome>, reason: Option<string>) {
    match reason
    case None => forall k :: 0 <= k < |polled| ==> !polled[k].PollError?
    case Some(e) => exists k :: 0 <= k < |polled| && polled[k] == PollError(e)
                                && forall m :: k < m < |polled| ==> !polled[m].PollError?
  }

  lemma LastReasonAppend(polled: seq<PollOutcome>, outcome: PollOutcome, reason: Option<string>)
    requires LastReason(polled, reason)
    ensures LastReason(polled + [outcome], if outcome.PollError? then Some(outcome.reason) else reason)
  {
    var after := polled + [outcome];
    assert after[|polled|] == outcome && forall k :: 0 <= k < |polled| ==> after[k] == polled[k];
  }

  lemma {:induction false} LastErrorIsLast(polled: seq<PollOutcome>)
    ensures LastReason(polled, LastError(polled))
  {
    if polled != [] {
      var init, last := polled[..|polled| - 1], polled[|polled| - 1];
      LastErrorIsLast(init);
      LastReasonAppend(init, last, LastError(init));
      assert polled == init + [last];
    }
  }

  predicate Progress(outcome: PollOutcome) {
    outcome.Message? || outcome.PartitionEof?
  }

  /** The event a poll handed over, if it did. */
  function EventOf(outcome: PollOutcome): Event
    requires Progress(outcome)
  {
    if outcome.Message? then Data(outcome.record) else EndOfPartition
  }

  lemma NextAbsorbs(ends: map<int, int>, s: LoopState, outcome: PollOutcome)
    requires s.remaining.Keys <= ends.Keys
    ensures Next(ends, s, outcome) ==
            if Progress(outcome) && outcome.partition in s.remaining
            then Absorb(s, outcome.partition, EventOf(outcome), ends[outcome.partition]) else s
  {
  }

  /** A poll hands over the next event of a partition that has one, and of a
      planned partition only if it has work; or else nothing moves. */
  lemma PollHandsOver(f: Fetch, pos: map<int, nat>, outcome: PollOutcome, pos': map<int, nat>)
    requires f.Valid() && ValidPositions(f.streams, pos) && PolledSome(f.streams, f.shards, pos, outcome, pos')
    ensures Progress(outcome) ==>
              var p := outcome.partition;
              && p in f.streams && pos[p] < |f.streams[p]| && f.streams[p][pos[p]] == EventOf(outcome)
              && pos' == pos[p := pos[p] + 1]
              && (p in f.limits ==> f.limits[p] > 0)
    ensures !Progress(outcome) ==> pos' == pos
  {
  }

  lemma AnswerKeepsCoupling(f: Fetch, pos: map<int, nat>, s: LoopState, p: int, next: Event,
                            pos': map<int, nat>, s': LoopState)
    requires f.Valid() && Coupled(f, pos, s) && p in f.streams && pos[p] < |f.streams[p]|
    requires f.streams[p][pos[p]] == next && (p in f.limits ==> f.limits[p] > 0)
    requires pos' == pos[p := pos[p] + 1] && s' == if p in f.limits then Absorb(s, p, next, f.ends[p]) else s
    ensures Coupled(f, pos', s')
    ensures p in f.limits && p !in s.finished ==> s.unfinished > 0
  {
    if p in f.limits {
      assert CoupledAt(f, pos, s, p);
      AbsorbKeepsCoupling(f, pos, s, p);
      OneFewer(f.Working(), s.finished, p);
    } else {
      UnplannedKeepsCoupling(f, pos, s, p);
    }
  }

  /** A message or an end of partition uses up one of the finitely many events
      left. */
  lemma PollUsesUp(f: Fetch, pos: map<int, nat>, outcome: PollOutcome, pos': map<int, nat>)
    requires f.Valid() && ValidPositions(f.streams, pos) && PolledSome(f.streams, f.shards, pos, outcome, pos')
    ensures Progress(outcome) ==> Undelivered(f.streams, pos') < Undelivered(f.streams, pos)
    ensures !Progress(outcome) ==> pos' == pos
  {
    PollHandsOver(f, pos, outcome, pos');
    if Progress(outcome) {
      UndeliveredDrops(f.streams, pos, outcome.partition);
    }
  }

  /** Whatever is polled, the invariant carries over. */
  lemma PollKeepsCoupling(f: Fetch, pos: map<int, nat>, s: LoopState, outcome: PollOutcome, pos': map<int, nat>)
    requires f.Valid() && Coupled(f, pos, s) && PolledSome(f.streams, f.shards, pos, outcome, pos')
    ensures Coupled(f, pos', Next(f.ends, s, outcome))
    // the unfinished counter never underflows
    ensures Progress(outcome) && outcome.partition in f.limits && outcome.partition !in s.finished ==> s.unfinished > 0
  {
    PollHandsOver(f, pos, outcome, pos');
    NextAbsorbs(f.ends, s, outcome);
    if Progress(outcome) {
      AnswerKeepsCoupling(f, pos, s, outcome.partition, EventOf(outcome), pos', Next(f.ends, s, outcome));
    }
  }

  // ----- A run, as a function of the environment

  /** What has been polled in some number of passes, and where that leads. */
  datatype Trace = Trace(polled: seq<PollOutcome>, pos: map<int, nat>, next: nat)

  ghost function TraceOf(f: Fetch, env: Environment, passes: nat): (t: Trace)
    requires |f.shards| > 0
    ensures |t.polled| == passes && ValidPositions(f.streams, t.pos)
  {
    if passes == 0 then Trace([], map p | p in f.streams :: 0, 0)
    else
      var before := TraceOf(f, env, passes - 1);
      var s := Sweep(f, env, before.pos, before.next);
      Trace(before.polled + [s.outcome], s.pos, s.next)
  }

  ghost function StateAt(f: Fetch, env: Environment, passes: nat): LoopState
    requires |f.shards| > 0
  {
    After(f, TraceOf(f, env, passes).polled)
  }

  ghost function IdleAt(f: Fetch, env: Environment, passes: nat): nat
    requires |f.shards| > 0
  {
    IdleAfter(TraceOf(f, env, passes).polled, PollSlice(f))
  }

  lemma TraceGrows(f: Fetch, env: Environment, passes: nat)
    requires |f.shards| > 0
    ensures var t := TraceOf(f, env, passes);
            var s := Sweep(f, env, t.pos, t.next);
            && TraceOf(f, env, passes + 1) == Trace(t.polled + [s.outcome], s.pos, s.next)
            && StateAt(f, env, passes + 1) == Next(f.ends, StateAt(f, env, passes), s.outcome)
            && IdleAt(f, env, passes + 1) == match s.outcome
                                             case Message(_, _) => 0
                                             case PartitionEof(_) => IdleAt(f, env, passes)
                                             case _ => IdleAt(f, env, passes) + PollSlice(f)
  {
    var t := TraceOf(f, env, passes);
    PolledOneMore(f, t.polled, Sweep(f, env, t.pos, t.next).outcome);
  }

  /** The invariant holds after any number of passes, whatever the broker does. */
  lemma {:induction false} AlwaysCoupled(f: Fetch, env: Environment, passes: nat)
    requires f.Valid()
    ensures Coupled(f, TraceOf(f, env, passes).pos, StateAt(f, env, passes))
  {
    if passes == 0 {
      InitiallyCoupled(f, TraceOf(f, env, 0).pos);
    } else {
      AlwaysCoupled(f, env, passes - 1);
      PassAdvances(f, env, passes - 1);
    }
  }

  /** One pass keeps the invariant, and uses up an event or idle time. */
  lemma PassAdvances(f: Fetch, env: Environment, passes: nat)
    requires f.Valid() && Coupled(f, TraceOf(f, env, passes).pos, StateAt(f, env, passes))
    ensures Coupled(f, TraceOf(f, env, passes + 1).pos, StateAt(f, env, passes + 1))
    ensures var pos, pos' := TraceOf(f, env, passes).pos, TraceOf(f, env, passes + 1).pos;
            || Undelivered(f.streams, pos') < Undelivered(f.streams, pos)
            || (pos' == pos && IdleAt(f, env, passes + 1) > IdleAt(f, env, passes))
  {
    var t := TraceOf(f, env, passes);
    var s := Sweep(f, env, t.pos, t.next);
    TraceGrows(f, env, passes);
    SweepPollsSome(f, env, t.pos, t.next);
    PollKeepsCoupling(f, t.pos, StateAt(f, env, passes), s.outcome, s.pos);
    PollUsesUp(f, t.pos, s.outcome, s.pos);
  }

  // ----- When the loop stops

  /** What the caller asked of the fetch besides its window. */
  datatype Request = Request(includePayload: bool, maxTotalPayloadBytes: Option<nat>, streaming: bool)

  /** The messages kept so far have used up the byte budget. */
  ghost predicate Spent(r: Request, messages: seq<TopicMessage>) {
    messages != [] && ByteBudgetReached(Charge(messages, r.includePayload), r.maxTotalPayloadBytes)
  }

  /** The loop's condition, but for the Stop flag. */
  ghost predicate GoesOn(f: Fetch, r: Request, env: Environment, passes: nat)
    requires |f.shards| > 0
  {
    var s := StateAt(f, env, passes);
    && s.unfinished > 0 && |s.collected| < SumValues(f.limits)
    && IdleAt(f, env, passes) < IDLE_TIMEOUT_MS && !Spent(r, s.collected)
  }

  /** The Stop flag, as read before each pass. */
  type StopFlag = nat -> bool

  /** The loop gets through this many passes. */
  ghost predicate Reaches(f: Fetch, r: Request, env: Environment, stop: StopFlag, passes: nat)
    requires |f.shards| > 0
  {
    forall k :: 0 <= k < passes ==> GoesOn(f, r, env, k) && !stop(k)
  }

  /** The loop makes exactly this many passes. */
  ghost predicate RunsFor(f: Fetch, r: Request, env: Environment, stop: StopFlag, passes: nat)
    requires |f.shards| > 0
  {
    Reaches(f, r, env, stop, passes) && !(GoesOn(f, r, env, passes) && !stop(passes))
  }

  lemma ReachesNext(f: Fetch, r: Request, env: Environment, stop: StopFlag, passes: nat)
    requires |f.shards| > 0 && Reaches(f, r, env, stop, passes) && GoesOn(f, r, env, passes) && !stop(passes)
    ensures Reaches(f, r, env, stop, passes + 1)
  {
  }

  lemma RunsOnce(f: Fetch, r: Request, env: Environment, stop: StopFlag, k: nat, l: nat)
    requires |f.shards| > 0 && RunsFor(f, r, env, stop, k) && RunsFor(f, r, env, stop, l)
    ensures k == l
  {
  }

  /** Why the loop stopped. */
  ghost function ExitAt(f: Fetch, r: Request, env: Environment, passes: nat): Exit
    requires |f.shards| > 0
  {
    var s := StateAt(f, env, passes);
    if s.unfinished == 0 then ReadEverything
    else if Spent(r, s.collected) then HitByteBudget
    else if IdleAt(f, env, passes) >= IDLE_TIMEOUT_MS then WentQuiet
    else WasCancelled
  }

  ghost function ResultAt(f: Fetch, r: Request, env: Environment, passes: nat): LoopResult
    requires |f.shards| > 0
  {
    var s := StateAt(f, env, passes);
    LoopResult(s.collected, LastError(TraceOf(f, env, passes).polled), Spent(r, s.collected),
               Charge(s.collected, r.includePayload))
  }

  /** What the messages of an invariant state amount to. */
  lemma LoopVerdict(f: Fetch, pos: map<int, nat>, s: LoopState)
    requires f.Valid() && Coupled(f, pos, s)
    ensures forall p :: p in f.limits ==> Of(s.collected, p) <= f.WantedFrom(p)
    ensures s.unfinished == 0 ==> forall p :: p in f.limits ==> Of(s.collected, p) == f.WantedFrom(p)
    ensures |s.collected| <= SumValues(f.limits)
    ensures |s.collected| == SumValues(f.limits) ==> s.unfinished == 0
  {
    forall p | p in f.limits
      ensures Of(s.collected, p) <= f.WantedFrom(p)
      ensures s.unfinished == 0 ==> Of(s.collected, p) == f.WantedFrom(p)
    {
      AlwaysAPrefix(f, pos, s, p);
      if s.unfinished == 0 {
        CompleteWhenFinished(f, pos, s, p);
      }
    }
    BudgetsNonNegative(f, pos, s);
    if |s.collected| == SumValues(f.limits) {
      TargetReached(f, pos, s);
    }
  }

  /** A loop that was told to stop says so only if it was. */
  lemma CancelledMeansStopped(f: Fetch, r: Request, env: Environment, stop: StopFlag, passes: nat)
    requires f.Valid() && RunsFor(f, r, env, stop, passes)
    ensures ExitAt(f, r, env, passes).WasCancelled? ==> stop(passes)
  {
    AlwaysCoupled(f, env, passes);
    LoopVerdict(f, TraceOf(f, env, passes).pos, StateAt(f, env, passes));
  }

  /** How many empty waits the loop sits through: ten seconds' worth. */
  function Patience(f: Fetch): nat {
    if |f.shards| == 1 then 20 else 2_000
  }

  lemma IdleWhile(f: Fetch, env: Environment, passes: nat)
    requires |f.shards| > 0
    ensures IdleAt(f, env, passes) < IDLE_TIMEOUT_MS <==> |Vain(TraceOf(f, env, passes).polled)| < Patience(f)
  {
    IdleCountsVain(TraceOf(f, env, passes).polled, PollSlice(f));
    WaitsInTime(|Vain(TraceOf(f, env, passes).polled)|, |f.shards| == 1);
  }

  lemma WaitsInTime(waits: nat, alone: bool)
    ensures alone ==> (waits * 500 < 10_000 <==> waits < 20)
    ensures !alone ==> (waits * 5 < 10_000 <==> waits < 2_000)
  {
  }

  lemma NeverOverpatient(f: Fetch, r: Request, env: Environment, stop: StopFlag, passes: nat)
    requires |f.shards| > 0 && Reaches(f, r, env, stop, passes)
    ensures |Vain(TraceOf(f, env, passes).polled)| <= Patience(f)
  {
    if passes > 0 {
      var before := passes - 1;
      assert GoesOn(f, r, env, before);
      IdleWhile(f, env, before);
      OneMoreVain(f, env, before);
    } else {
      assert Vain(TraceOf(f, env, 0).polled) == {};
    }
  }

  /** A loop with one consumer goes quiet after twenty waits in vain since its
      last message, one with more after two thousand. */
  lemma WentQuietAfter(f: Fetch, r: Request, env: Environment, stop: StopFlag, passes: nat)
    requires |f.shards| > 0 && RunsFor(f, r, env, stop, passes)
    ensures |Vain(TraceOf(f, env, passes).polled)| <= Patience(f)
    ensures ExitAt(f, r, env, passes).WentQuiet? ==> |Vain(TraceOf(f, env, passes).polled)| == Patience(f)
  {
    NeverOverpatient(f, r, env, stop, passes);
    IdleWhile(f, env, passes);
  }

  lemma OneMoreVain(f: Fetch, env: Environment, passes: nat)
    requires |f.shards| > 0
    ensures |Vain(TraceOf(f, env, passes + 1).polled)| <= |Vain(TraceOf(f, env, passes).polled)| + 1
  {
    var t := TraceOf(f, env, passes);
    var outcome := Sweep(f, env, t.pos, t.next).outcome;
    TraceGrows(f, env, passes);
    VainAppend(t.polled, outcome);
    if !outcome.Message? && Empty(outcome) {
      assert |Vain(t.polled) + {|t.polled|}| <= |Vain(t.polled)| + 1;
    }
  }

  /** Nothing cuts the run short: up to the pass that finishes the last partition,
      no Stop, no ten idle seconds, and no byte budget used up. */
  ghost predicate Undisturbed(f: Fetch, r: Request, env: Environment, stop: StopFlag)
    requires |f.shards| > 0
  {
    forall k: nat :: Reaches(f, r, env, stop, k) && StateAt(f, env, k).unfinished > 0 ==>
      !stop(k) && IdleAt(f, env, k) < IDLE_TIMEOUT_MS && !Spent(r, StateAt(f, env, k).collected)
  }

  lemma NoFurther(f: Fetch, r: Request, env: Environment, stop: StopFlag, passes: nat, k: nat)
    requires |f.shards| > 0 && RunsFor(f, r, env, stop, passes) && Reaches(f, r, env, stop, k)
    ensures k <= passes
  {
  }

  /** The four ways a run can end. */
  lemma EndsForAReason(f: Fetch, r: Request, env: Environment, stop: StopFlag, passes: nat)
    requires f.Valid() && RunsFor(f, r, env, stop, passes)
    ensures var s := StateAt(f, env, passes);
            s.unfinished == 0 || Spent(r, s.collected) || IdleAt(f, env, passes) >= IDLE_TIMEOUT_MS || stop(passes)
  {
    AlwaysCoupled(f, env, passes);
    LoopVerdict(f, TraceOf(f, env, passes).pos, StateAt(f, env, passes));
    NeverNegative(f, env, passes);
  }

  lemma NeverNegative(f: Fetch, env: Environment, passes: nat)
    requires f.Valid()
    ensures StateAt(f, env, passes).unfinished >= 0
  {
    AlwaysCoupled(f, env, passes);
  }

  lemma UndisturbedFinishes(f: Fetch, r: Request, env: Environment, stop: StopFlag, passes: nat)
    requires f.Valid() && RunsFor(f, r, env, stop, passes) && Undisturbed(f, r, env, stop)
    ensures StateAt(f, env, passes).unfinished == 0
  {
    EndsForAReason(f, r, env, stop, passes);
    NeverNegative(f, env, passes);
    assert Reaches(f, r, env, stop, passes);
  }

  lemma FinishedIsUndisturbed(f: Fetch, r: Request, env: Environment, stop: StopFlag, passes: nat)
    requires |f.shards| > 0 && RunsFor(f, r, env, stop, passes) && StateAt(f, env, passes).unfinished == 0
    ensures Undisturbed(f, r, env, stop)
  {
    forall k: nat | Reaches(f, r, env, stop, k) && StateAt(f, env, k).unfinished > 0
      ensures !stop(k) && GoesOn(f, r, env, k)
    {
      NoFurther(f, r, env, stop, passes, k);
    }
  }

  /** A run reads everything if and only if nothing disturbs it; and then it has
      read, from every partition, exactly what was wanted. */
  lemma UndisturbedReadsEverything(f: Fetch, r: Request, env: Environment, stop: StopFlag, passes: nat)
    requires f.Valid() && RunsFor(f, r, env, stop, passes)
    ensures Undisturbed(f, r, env, stop) <==> ExitAt(f, r, env, passes).ReadEverything?
    ensures Undisturbed(f, r, env, stop) ==>
              forall p :: p in f.limits ==> Of(StateAt(f, env, passes).collected, p) == f.WantedFrom(p)
  {
    if StateAt(f, env, passes).unfinished == 0 {
      FinishedIsUndisturbed(f, r, env, stop, passes);
      AlwaysCoupled(f, env, passes);
      LoopVerdict(f, TraceOf(f, env, passes).pos, StateAt(f, env, passes));
    } else if Undisturbed(f, r, env, stop) {
      UndisturbedFinishes(f, r, env, stop, passes);
    }
  }

  /** Events not yet handed over after some number of passes. */
  ghost function EventsLeft(f: Fetch, env: Environment, passes: nat): int
    requires |f.shards| > 0
  {
    Undelivered(f.streams, TraceOf(f, env, passes).pos)
  }

  lemma PassUsesUp(f: Fetch, env: Environment, passes: nat)
    requires f.Valid()
    ensures 0 <= EventsLeft(f, env, passes)
    ensures || EventsLeft(f, env, passes + 1) < EventsLeft(f, env, passes)
            || (EventsLeft(f, env, passes + 1) == EventsLeft(f, env, passes)
                && IdleAt(f, env, passes + 1) > IdleAt(f, env, passes))
  {
    AlwaysCoupled(f, env, passes);
    PassAdvances(f, env, passes);
    UndeliveredNonNegative(f.streams, TraceOf(f, env, passes).pos);
  }

  lemma {:induction false} RunEndsFrom(f: Fetch, r: Request, env: Environment, stop: StopFlag, k: nat)
    returns (passes: nat)
    requires f.Valid() && Reaches(f, r, env, stop, k)
    ensures RunsFor(f, r, env, stop, passes)
    decreases EventsLeft(f, env, k), IDLE_TIMEOUT_MS - IdleAt(f, env, k)
  {
    passes := k;
    if GoesOn(f, r, env, k) && !stop(k) {
      ReachesNext(f, r, env, stop, k);
      PassUsesUp(f, env, k);
      passes := RunEndsFrom(f, r, env, stop, k + 1);
    }
  }

  /** Every run ends, whatever the broker answers and whether or not Stop is
      pressed: it uses up events, of which there are finitely many, or the time
      it is willing to sit idle. */
  lemma EveryRunEnds(f: Fetch, r: Request, env: Environment, stop: StopFlag) returns (passes: nat)
    requires f.Valid()
    ensures RunsFor(f, r, env, stop, passes)
  {
    passes := RunEndsFrom(f, r, env, stop, 0);
  }

  // ----- The loop

  /** Every kept message but the last was still within the byte budget. */
  ghost predicate OvershotByAtMostTheLast(messages: seq<TopicMessage>, includePayload: bool, budget: Option<nat>) {
    forall i :: 0 < i < |messages| ==> !ByteBudgetReached(Charge(messages[..i], includePayload), budget)
  }

  /** The byte budget, in bytes: it has been reached when the loop says so, not
      before the last message, and not at all by messages without payloads. */
  ghost predicate HonoursBytes(messages: seq<TopicMessage>, r: Request, bytesRead: nat, stopped: bool) {
    && bytesRead == BytesKept(messages, r.includePayload)
    && match r.maxTotalPayloadBytes
       case None => !stopped
       case Some(budget) =>
         && (stopped <==> messages != [] && bytesRead >= budget)
         && (forall i :: 0 < i < |messages| ==> BytesKept(messages[..i], r.includePayload) < budget)
         && (!r.includePayload && budget > 0 ==> !stopped)
  }

  lemma AccountsHonourBytes(messages: seq<TopicMessage>, r: Request, bytesRead: nat, stopped: bool)
    requires Accounts(messages, r, bytesRead, stopped)
    ensures HonoursBytes(messages, r, bytesRead, stopped)
  {
    ChargeIsBytesKept(messages, r.includePayload);
    if r.maxTotalPayloadBytes.Some? {
      forall i | 0 < i < |messages|
        ensures BytesKept(messages[..i], r.includePayload) < r.maxTotalPayloadBytes.value
      {
        ChargeIsBytesKept(messages[..i], r.includePayload);
        assert !ByteBudgetReached(Charge(messages[..i], r.includePayload), r.maxTotalPayloadBytes);
      }
    }
  }

  /** The byte account of the messages kept so far: the running total, and
      whether it has just reached the budget. */
  ghost predicate Accounts(messages: seq<TopicMessage>, r: Request, bytesRead: nat, stopped: bool) {
    && bytesRead == Charge(messages, r.includePayload)
    && OvershotByAtMostTheLast(messages, r.includePayload, r.maxTotalPayloadBytes)
    && (stopped <==> Spent(r, messages))
  }

  /** Charging for one more message, after taking it. */
  method ChargeMessage(ghost before: seq<TopicMessage>, message: TopicMessage, r: Request, bytesRead: nat)
    returns (bytesRead': nat, stopped': bool)
    requires Accounts(before, r, bytesRead, false)
    ensures Accounts(before + [message], r, bytesRead', stopped')
    ensures HonoursBytes(before + [message], r, bytesRead', stopped')
  {
    bytesRead' := bytesRead + BudgetedPayloadBytes(message.record.payloadSize, r.includePayload);
    stopped' := ByteBudgetReached(bytesRead', r.maxTotalPayloadBytes);
    ghost var after := before + [message];
    assert after[..|before|] == before;
    forall i | 0 < i < |after|
      ensures !ByteBudgetReached(Charge(after[..i], r.includePayload), r.maxTotalPayloadBytes)
    {
      assert after[..i] == before[..i];
      assert before[..|before|] == before;
    }
    AccountsHonourBytes(after, r, bytesRead', stopped');
  }

  /** The `Some(Ok(borrowed))` arm: skip a spent or unplanned partition, finish
      one that has run past its end, keep everything else. */
  method OnMessage(ends: map<int, int>, partition: int, record: Record, s: LoopState)
    returns (s': LoopState, kept: bool)
    requires s.remaining.Keys <= ends.Keys
    requires partition in s.remaining && partition !in s.finished ==> s.unfinished > 0
    ensures s' == Next(ends, s, Message(partition, record))
    ensures s'.collected == if kept then s.collected + [TopicMessage(partition, record)] else s.collected
  {
    s', kept := s, false;
    if partition !in s.remaining || s.remaining[partition] <= 0 {
      return;
    }
    if record.offset >= ends[partition] {
      s' := Finish(partition, s');
      return;
    }
    kept := true;
    s' := s'.(collected := s'.collected + [TopicMessage(partition, record)]);
    s' := s'.(remaining := s'.remaining[partition := s'.remaining[partition] - 1]);
    if s'.remaining[partition] <= 0 {
      s' := Finish(partition, s');
    }
  }

  /** The `PartitionEOF` arm. */
  method OnEof(ends: map<int, int>, partition: int, s: LoopState) returns (s': LoopState)
    requires s.remaining.Keys <= ends.Keys
    requires partition in s.remaining && partition !in s.finished ==> s.unfinished > 0
    ensures s' == Next(ends, s, PartitionEof(partition)) && s'.collected == s.collected
  {
    s' := s;
    if partition in s.remaining {
      s' := Finish(partition, s');
    }
  }

  /** `if finished.insert(partition) { unfinished -= 1 }`. */
  method Finish(partition: int, s: LoopState) returns (s': LoopState)
    requires partition !in s.finished ==> s.unfinished > 0
    ensures s' == s.(finished := s.finished + {partition},
                     unfinished := s.unfinished - if partition in s.finished then 0 else 1)
  {
    s' := s;
    if partition !in s'.finished {
      s' := s'.(finished := s'.finished + {partition});
      s' := s'.(unfinished := s'.unfinished - 1);
    } else {
      assert s.finished + {partition} == s.finished;
    }
  }

  /** Everything one pass of the loop body changes. */
  datatype LoopVariables = LoopVariables(
    state: LoopState,
    pos: map<int, nat>,
    nextShard: nat,
    idleElapsed: nat,
    lastPollError: Option<string>,
    payloadBytesRead: nat,
    stoppedAtByteBudget: bool,
    sent: seq<TopicMessage>)

  /** The loop variables are what this many passes make them. */
  ghost predicate Tracks(f: Fetch, r: Request, env: Environment, passes: nat, v: LoopVariables)
    requires |f.shards| > 0
  {
    var t := TraceOf(f, env, passes);
    && v.state == StateAt(f, env, passes) && v.pos == t.pos && v.nextShard == t.next
    && v.idleElapsed == IdleAt(f, env, passes) && v.lastPollError == LastError(t.polled)
    && Accounts(v.state.collected, r, v.payloadBytesRead, v.stoppedAtByteBudget)
    && v.sent == (if r.streaming then v.state.collected else [])
  }

  /** The loop body. It consumes one of the finitely many events the broker
      holds, or else some of the time the loop is willing to sit idle. */
  method Turn(f: Fetch, r: Request, env: Environment, ghost passes: nat, v: LoopVariables) returns (v': LoopVariables)
    requires f.Valid() && Tracks(f, r, env, passes, v) && !v.stoppedAtByteBudget
    requires Coupled(f, v.pos, v.state)
    ensures Tracks(f, r, env, passes + 1, v') && Coupled(f, v'.pos, v'.state)
    ensures 0 <= Undelivered(f.streams, v'.pos)
    ensures || Undelivered(f.streams, v'.pos) < Undelivered(f.streams, v.pos)
            || (v'.pos == v.pos && v'.idleElapsed > v.idleElapsed)
  {
    var s := PollShards(f, env, v.pos, v.nextShard);
    SweepPollsSome(f, env, v.pos, v.nextShard);
    PollKeepsCoupling(f, v.pos, v.state, s.outcome, s.pos);
    PollUsesUp(f, v.pos, s.outcome, s.pos);
    UndeliveredNonNegative(f.streams, s.pos);
    TraceGrows(f, env, passes);
    PolledOneMore(f, TraceOf(f, env, passes).polled, s.outcome);
    v' := Heed(f, r, s, v);
  }

  /** What the loop body makes of a sweep. */
  method Heed(f: Fetch, r: Request, s: Swept, v: LoopVariables) returns (v': LoopVariables)
    requires v.state.remaining.Keys <= f.ends.Keys && !v.stoppedAtByteBudget
    requires Accounts(v.state.collected, r, v.payloadBytesRead, v.stoppedAtByteBudget)
    requires v.sent == if r.streaming then v.state.collected else []
    requires (Progress(s.outcome) && s.outcome.partition in v.state.remaining
              && s.outcome.partition !in v.state.finished) ==> v.state.unfinished > 0
    ensures v'.state == Next(f.ends, v.state, s.outcome) && v'.pos == s.pos && v'.nextShard == s.next
    ensures v'.idleElapsed == match s.outcome
                              case Message(_, _) => 0
                              case PartitionEof(_) => v.idleElapsed
                              case _ => v.idleElapsed + PollSlice(f)
    ensures v'.lastPollError == if s.outcome.PollError? then Some(s.outcome.reason) else v.lastPollError
    ensures Accounts(v'.state.collected, r, v'.payloadBytesRead, v'.stoppedAtByteBudget)
    ensures v'.sent == if r.streaming then v'.state.collected else []
  {
    v' := v.(pos := s.pos, nextShard := s.next);
    match s.outcome {
      case Message(partition, record) =>
        var state, kept := OnMessage(f.ends, partition, record, v.state);
        v' := v'.(idleElapsed := 0, state := state);
        if kept {
          var message := TopicMessage(partition, record);
          var bytes, stopped := ChargeMessage(v.state.collected, message, r, v.payloadBytesRead);
          v' := v'.(payloadBytesRead := bytes, stoppedAtByteBudget := stopped,
                    sent := if r.streaming then v.sent + [message] else v.sent);
        }
      case PartitionEof(partition) =>
        var state := OnEof(f.ends, partition, v.state);
        v' := v'.(state := state);
      case PollError(reason) =>
        v' := v'.(idleElapsed := v.idleElapsed + PollSlice(f), lastPollError := Some(reason));
      case Nothing =>
        v' := v'.(idleElapsed := v.idleElapsed + PollSlice(f));
    }
  }

  /** The loop variables before the first poll. */
  method Begin(f: Fetch, r: Request, env: Environment) returns (v: LoopVariables)
    requires f.Valid()
    ensures Tracks(f, r, env, 0, v)
  {
    var working := set p | p in f.limits && f.limits[p] > 0;
    v := LoopVariables(LoopState(f.limits, {}, |working|, []), map p | p in f.streams :: 0, 0, 0, None, 0, false, []);
  }

  /** What a fetch comes to: the result and the reason for stopping are those of
      the one run the broker and the Stop flag allow. */
  ghost predicate Ran(f: Fetch, r: Request, env: Environment, stop: StopFlag, passes: nat,
                      result: LoopResult, exit: Exit)
    requires |f.shards| > 0
  {
    RunsFor(f, r, env, stop, passes) && result == ResultAt(f, r, env, passes) && exit == ExitAt(f, r, env, passes)
  }

  /** What every run promises. */
  lemma RunVerdict(f: Fetch, r: Request, env: Environment, stop: StopFlag, passes: nat)
    requires f.Valid() && RunsFor(f, r, env, stop, passes)
    ensures var messages, exit := ResultAt(f, r, env, passes).messages, ExitAt(f, r, env, passes);
            && (forall p :: p in f.limits ==> Of(messages, p) <= f.WantedFrom(p))
            && (forall m :: m in messages ==> m.partition in f.Working())
            && |messages| <= SumValues(f.limits)
            && (exit.ReadEverything? ==> forall p :: p in f.limits ==> Of(messages, p) == f.WantedFrom(p))
            && (Undisturbed(f, r, env, stop) <==> exit.ReadEverything?)
            && (exit.WasCancelled? ==> stop(passes))
  {
    AlwaysCoupled(f, env, passes);
    LoopVerdict(f, TraceOf(f, env, passes).pos, StateAt(f, env, passes));
    CancelledMeansStopped(f, r, env, stop, passes);
    UndisturbedReadsEverything(f, r, env, stop, passes);
  }

  /** The loop's condition is `GoesOn`. */
  predicate Continues(v: LoopVariables, total: int) {
    && v.state.unfinished > 0 && |v.state.collected| < total
    && v.idleElapsed < IDLE_TIMEOUT_MS && !v.stoppedAtByteBudget
  }

  lemma ContinuesAsTracked(f: Fetch, r: Request, env: Environment, passes: nat, v: LoopVariables)
    requires |f.shards| > 0 && Tracks(f, r, env, passes, v)
    ensures Continues(v, SumValues(f.limits)) <==> GoesOn(f, r, env, passes)
  {
  }

  /** The `while` of `fetch_messages`, for everything the broker may answer and
      whenever the user may press Stop. */
  method Drain(f: Fetch, r: Request, env: Environment, stop: StopFlag) returns (v: LoopVariables, ghost passes: nat)
    requires f.Valid()
    ensures RunsFor(f, r, env, stop, passes) && Tracks(f, r, env, passes, v)
  {
    var totalTarget := AddUp(f.limits);
    v := Begin(f, r, env);
    passes := 0;
    var turn := 0;
    AlwaysCoupled(f, env, 0);
    UndeliveredNonNegative(f.streams, v.pos);
    while Continues(v, totalTarget) && !stop(turn)
      invariant turn == passes && Tracks(f, r, env, passes, v) && Coupled(f, v.pos, v.state)
      invariant 0 <= Undelivered(f.streams, v.pos)
      invariant Reaches(f, r, env, stop, passes)
      decreases Undelivered(f.streams, v.pos), IDLE_TIMEOUT_MS - v.idleElapsed
    {
      ContinuesAsTracked(f, r, env, passes, v);
      ReachesNext(f, r, env, stop, passes);
      v := Turn(f, r, env, passes, v);
      passes, turn := passes + 1, turn + 1;
    }
    ContinuesAsTracked(f, r, env, passes, v);
  }

  /** The poll loop and what comes of it. */
  method FetchLoop(f: Fetch, r: Request, env: Environment, stop: StopFlag)
    returns (result: LoopResult, sent: seq<TopicMessage>, exit: Exit, ghost passes: nat)
    requires f.Valid()
    ensures Ran(f, r, env, stop, passes, result, exit)
    ensures sent == if r.streaming then result.messages else []
    // Each partition has contributed a prefix of what was wanted, and nothing else has been collected;
    ensures forall p :: p in f.limits ==> Of(result.messages, p) <= f.WantedFrom(p)
    ensures forall m :: m in result.messages ==> m.partition in f.Working()
    ensures |result.messages| <= SumValues(f.limits)
    // a loop that ends by itself has collected all of it, and it does unless something disturbs it;
    ensures exit.ReadEverything? ==> forall p :: p in f.limits ==> Of(result.messages, p) == f.WantedFrom(p)
    ensures Undisturbed(f, r, env, stop) <==> exit.ReadEverything?
    // a byte budget is overshot by at most the last message, and ends the loop when it is reached;
    ensures HonoursBytes(result.messages, r, result.payloadBytesRead, result.stoppedAtByteBudget)
    ensures result.stoppedAtByteBudget ==> exit.HitByteBudget? || exit.ReadEverything?
    ensures exit.HitByteBudget? ==> result.stoppedAtByteBudget
    // only ten idle seconds make it go quiet, and only Stop cancels.
    ensures exit.WentQuiet? ==> |Vain(TraceOf(f, env, passes).polled)| == Patience(f)
    ensures exit.WasCancelled? ==> stop(passes)
    ensures LastReason(TraceOf(f, env, passes).polled, result.pollError)
  {
    var v;
    v, passes := Drain(f, r, env, stop);
    ContinuesAsTracked(f, r, env, passes, v);
    result := LoopResult(v.state.collected, v.lastPollError, v.stoppedAtByteBudget, v.payloadBytesRead);
    sent := v.sent;
    exit := if v.state.unfinished == 0 then ReadEverything
            else if v.stoppedAtByteBudget then HitByteBudget
            else if v.idleElapsed >= IDLE_TIMEOUT_MS then WentQuiet
            else WasCancelled;
    RunVerdict(f, r, env, stop, passes);
    AccountsHonourBytes(v.state.collected, r, v.payloadBytesRead, v.stoppedAtByteBudget);
    WentQuietAfter(f, r, env, stop, passes);
    LastErrorIsLast(TraceOf(f, env, passes).polled);
  }
}
