/** Fetches whose broker always answers: such a fetch is never idle, and reads
    everything it wants unless Stop or the byte budget cuts it short
    (backend/kafka/src/client.rs). */
module AnsweredFetch {
  import opened Common
  import opened Broker
  import opened PollLoop

  /** What is handed over of `p`, taken as a whole, tells the loop that it is
      done: there is an end to it, a record beyond what was planned, or as many
      records as were wanted. */
  ghost predicate Completes(f: Fetch, p: int) {
    && p in f.streams && p in f.ends && p in f.starts && p in f.limits
    && (|| EndSeen(f.streams[p], |f.streams[p]|, f.ends[p])
        || |Within(Records(f.streams[p]), f.starts[p], f.ends[p])| >= f.limits[p])
  }

  /** And some consumer was assigned `p`. */
  ghost predicate WillEnd(f: Fetch, p: int) {
    Completes(f, p) && exists shard :: 0 <= shard < |f.shards| && p in f.shards[shard]
  }

  /** A broker that always answers is not silent to a consumer that holds a
      partition with something to hand over. */
  lemma ServedNotFoundSilent(f: Fetch, env: Environment, pos: map<int, nat>, n: nat, p: int, shard: nat)
    requires |f.shards| > 0 && ValidPositions(f.streams, pos) && (forall m :: env(m).Serve?)
    requires p in f.streams && pos[p] < |f.streams[p]| && shard < |f.shards| && p in f.shards[shard]
    ensures !FoundSilent(f, env, pos, n, shard)
  {
    forall m: nat | m % |f.shards| == shard
      ensures !Asked(f, env, pos, m).outcome.Nothing?
    {
      assert p in Pending(f.streams, f.shards[shard], pos);
    }
  }

  lemma ServedNotError(f: Fetch, env: Environment, pos: map<int, nat>, n: nat)
    requires |f.shards| > 0 && ValidPositions(f.streams, pos) && (forall m :: env(m).Serve?)
    ensures !Sweep(f, env, pos, n).outcome.PollError?
  {
    SweepTells(f, env, pos, n, |f.shards| + 1);
  }

  lemma ServedNotSilent(f: Fetch, env: Environment, pos: map<int, nat>, n: nat, p: int)
    requires |f.shards| > 0 && ValidPositions(f.streams, pos) && (forall m :: env(m).Serve?)
    requires WillEnd(f, p) && pos[p] < |f.streams[p]|
    ensures Progress(Sweep(f, env, pos, n).outcome)
  {
    var shard: nat :| shard < |f.shards| && p in f.shards[shard];
    ServedNotFoundSilent(f, env, pos, n, p, shard);
    ServedNotError(f, env, pos, n);
    if Sweep(f, env, pos, n).outcome.Nothing? {
      SilenceIsEverywhere(f, env, pos, n, shard);
    }
  }

  /** With everything handed over, a partition is finished exactly if that
      completes it. */
  lemma ExhaustedIsFinished(f: Fetch, pos: map<int, nat>, s: LoopState, p: int)
    requires f.Valid() && Coupled(f, pos, s) && p in f.Working() && pos[p] == |f.streams[p]|
    ensures p in s.finished <==> Completes(f, p)
  {
    assert CoupledAt(f, pos, s, p);
    assert f.streams[p][..|f.streams[p]|] == f.streams[p];
  }

  /** An unfinished partition has something left to hand over. */
  lemma UnfinishedHasMore(f: Fetch, pos: map<int, nat>, s: LoopState) returns (p: int)
    requires f.Valid() && Coupled(f, pos, s) && s.unfinished > 0
    requires forall p :: p in f.Working() ==> WillEnd(f, p)
    ensures WillEnd(f, p) && p in pos && pos[p] < |f.streams[p]|
  {
    p := SomeMember(f.Working() - s.finished);
    assert CoupledAt(f, pos, s, p) && WillEnd(f, p);
    if pos[p] == |f.streams[p]| {
      ExhaustedIsFinished(f, pos, s, p);
    }
  }

  lemma StaysBusy(f: Fetch, env: Environment, passes: nat)
    requires f.Valid() && (forall p :: p in f.Working() ==> WillEnd(f, p)) && (forall m :: env(m).Serve?)
    requires StateAt(f, env, passes).unfinished > 0 && IdleAt(f, env, passes) == 0
    ensures IdleAt(f, env, passes + 1) == 0
  {
    var t := TraceOf(f, env, passes);
    AlwaysCoupled(f, env, passes);
    var p := UnfinishedHasMore(f, t.pos, StateAt(f, env, passes));
    ServedNotSilent(f, env, t.pos, t.next, p);
    TraceGrows(f, env, passes);
  }

  /** The broker always answers, what it hands over of every partition with work
      completes it, and Stop is never pressed. */
  ghost predicate Answered(f: Fetch, env: Environment, stop: StopFlag) {
    (forall p :: p in f.Working() ==> WillEnd(f, p)) && (forall m :: env(m).Serve?) && forall k: nat :: !stop(k)
  }

  lemma ReachedBefore(f: Fetch, r: Request, env: Environment, stop: StopFlag, passes: nat)
    requires |f.shards| > 0 && Reaches(f, r, env, stop, passes + 1)
    ensures Reaches(f, r, env, stop, passes) && StateAt(f, env, passes).unfinished > 0
  {
    assert GoesOn(f, r, env, passes);
  }

  lemma {:induction false} NeverIdle(f: Fetch, r: Request, env: Environment, stop: StopFlag, passes: nat)
    requires f.Valid() && Answered(f, env, stop) && Reaches(f, r, env, stop, passes)
    ensures IdleAt(f, env, passes) == 0
  {
    if passes > 0 {
      ReachedBefore(f, r, env, stop, passes - 1);
      NeverIdle(f, r, env, stop, passes - 1);
      StaysBusy(f, env, passes - 1);
    }
  }

  // ----- What the wanted messages cost

  function Cost(rs: seq<Record>, includePayload: bool): nat {
    if rs == [] then 0
    else Cost(rs[..|rs| - 1], includePayload) + BudgetedPayloadBytes(rs[|rs| - 1].payloadSize, includePayload)
  }

  lemma {:induction false} CostGrows(a: seq<Record>, b: seq<Record>, includePayload: bool)
    requires a <= b
    ensures Cost(a, includePayload) <= Cost(b, includePayload)
    decreases |b|
  {
    if a != b {
      CostGrows(a, b[..|b| - 1], includePayload);
    }
  }

  function CostOf(m: TopicMessage, includePayload: bool): nat {
    BudgetedPayloadBytes(m.record.payloadSize, includePayload)
  }

  /** What the messages of one partition cost. */
  function CostIn(messages: seq<TopicMessage>, p: int, includePayload: bool): nat {
    if messages == [] then 0
    else
      var last := messages[|messages| - 1];
      CostIn(messages[..|messages| - 1], p, includePayload)
      + if last.partition == p then CostOf(last, includePayload) else 0
  }

  lemma CostAppend(rs: seq<Record>, r: Record, includePayload: bool)
    ensures Cost(rs + [r], includePayload)
            == Cost(rs, includePayload) + BudgetedPayloadBytes(r.payloadSize, includePayload)
  {
    assert (rs + [r])[..|rs|] == rs;
  }

  lemma {:induction false} CostInIsCostOf(messages: seq<TopicMessage>, p: int, includePayload: bool)
    ensures CostIn(messages, p, includePayload) == Cost(Of(messages, p), includePayload)
  {
    if messages != [] {
      var init, last := messages[..|messages| - 1], messages[|messages| - 1];
      CostInIsCostOf(init, p, includePayload);
      if last.partition == p {
        CostAppend(Of(init, p), last.record, includePayload);
      } else {
        assert Of(init, p) + [] == Of(init, p);
      }
    }
  }

  /** `costs` is what each partition's messages cost. */
  ghost predicate CostsAre(costs: map<int, int>, messages: seq<TopicMessage>, ps: set<int>, includePayload: bool) {
    costs.Keys == ps && forall p :: p in ps ==> costs[p] == CostIn(messages, p, includePayload)
  }

  /** The byte account is the same, counted message by message or partition by
      partition. */
  lemma {:induction false} ChargeByPartition(messages: seq<TopicMessage>, ps: set<int>, includePayload: bool)
    returns (costs: map<int, int>)
    requires forall m :: m in messages ==> m.partition in ps
    ensures CostsAre(costs, messages, ps, includePayload)
    ensures Charge(messages, includePayload) == SumValues(costs)
  {
    if messages == [] {
      costs := map p | p in ps :: 0;
      SumOfNothing(costs);
    } else {
      var init, last := messages[..|messages| - 1], messages[|messages| - 1];
      var before := ChargeByPartition(init, ps, includePayload);
      var more := before[last.partition] + CostOf(last, includePayload);
      costs := before[last.partition := more];
      SumValuesUpdate(before, last.partition, more);
    }
  }

  lemma {:induction false} SumOfNothing(m: map<int, int>)
    requires forall p :: p in m ==> m[p] == 0
    ensures SumValues(m) == 0
    decreases |m|
  {
    if |m.Keys| > 0 {
      var p := SomeMember(m.Keys);
      SumValuesSplit(m, p);
      OneKeyLess(m, p);
      SumOfNothing(m - {p});
    } else {
      assert m == map[];
    }
  }

  lemma {:induction false} SumGrows(a: map<int, int>, b: map<int, int>)
    requires a.Keys == b.Keys && forall p :: p in a ==> a[p] <= b[p]
    ensures SumValues(a) <= SumValues(b)
    decreases |a|
  {
    if |a.Keys| > 0 {
      var p := SomeMember(a.Keys);
      SumValuesSplit(a, p);
      SumValuesSplit(b, p);
      OneKeyLess(a, p);
      SumGrows(a - {p}, b - {p});
    } else {
      assert a == map[] && b == map[];
    }
  }

  /** What everything wanted would cost. */
  ghost function WantedCost(f: Fetch, includePayload: bool): int
    requires f.Valid()
  {
    SumValues(map p | p in f.limits :: Cost(f.WantedFrom(p), includePayload))
  }

  /** Everything wanted fits the byte budget, if there is one. */
  ghost predicate Affords(f: Fetch, r: Request)
    requires f.Valid()
  {
    r.maxTotalPayloadBytes.Some? ==> WantedCost(f, r.includePayload) < r.maxTotalPayloadBytes.value
  }

  /** What has been collected never costs more than what was wanted. */
  lemma CollectedCost(f: Fetch, messages: seq<TopicMessage>, includePayload: bool)
    requires f.Valid() && forall p :: p in f.limits ==> Of(messages, p) <= f.WantedFrom(p)
    requires forall m :: m in messages ==> m.partition in f.Working()
    ensures Charge(messages, includePayload) <= WantedCost(f, includePayload)
  {
    var costs := ChargeByPartition(messages, f.limits.Keys, includePayload);
    forall p | p in f.limits
      ensures CostIn(messages, p, includePayload) <= Cost(f.WantedFrom(p), includePayload)
    {
      CostGrows(Of(messages, p), f.WantedFrom(p), includePayload);
      CostInIsCostOf(messages, p, includePayload);
    }
    SumGrows(costs, map p | p in f.limits :: Cost(f.WantedFrom(p), includePayload));
  }

  lemma AffordedIsNotSpent(f: Fetch, r: Request, env: Environment, passes: nat)
    requires f.Valid() && Affords(f, r)
    ensures !Spent(r, StateAt(f, env, passes).collected)
  {
    AlwaysCoupled(f, env, passes);
    LoopVerdict(f, TraceOf(f, env, passes).pos, StateAt(f, env, passes));
    CollectedCost(f, StateAt(f, env, passes).collected, r.includePayload);
  }

  // ----- What this comes to

  /** With a broker that always answers and no Stop, the loop ends by itself or
      at its byte budget; and by itself if the budget affords everything. */
  lemma AnsweredReadsEverything(f: Fetch, r: Request, env: Environment, stop: StopFlag, passes: nat)
    requires f.Valid() && Answered(f, env, stop) && RunsFor(f, r, env, stop, passes)
    ensures ExitAt(f, r, env, passes).ReadEverything? || ExitAt(f, r, env, passes).HitByteBudget?
    ensures ExitAt(f, r, env, passes).HitByteBudget? ==> Spent(r, StateAt(f, env, passes).collected)
    ensures Affords(f, r) ==> ExitAt(f, r, env, passes).ReadEverything?
  {
    NeverIdle(f, r, env, stop, passes);
    CancelledMeansStopped(f, r, env, stop, passes);
    if Affords(f, r) {
      AffordedIsNotSpent(f, r, env, passes);
    }
  }

  /** So there is no lack of undisturbed fetches. */
  lemma AnsweredIsUndisturbed(f: Fetch, r: Request, env: Environment, stop: StopFlag)
    requires f.Valid() && Answered(f, env, stop) && Affords(f, r)
    ensures Undisturbed(f, r, env, stop)
  {
    var passes := EveryRunEnds(f, r, env, stop);
    AnsweredReadsEverything(f, r, env, stop, passes);
    UndisturbedReadsEverything(f, r, env, stop, passes);
  }

  /** One of them: a partition with one record, read within a byte budget. */
  lemma OneRecordIsUndisturbed(payload: nat, budget: nat) returns (f: Fetch)
    requires payload < budget
    ensures f.Valid() && f.Working() == {0} && f.WantedFrom(0) == [Record(0, payload)]
    ensures Undisturbed(f, Request(true, Some(budget), false), _ => Serve(0), _ => false)
  {
    var record := Record(0, payload);
    var stream := [Data(record), EndOfPartition];
    f := Fetch(map[0 := 1], map[0 := 0], map[0 := 1], [[0]], map[0 := [record]], map[0 := stream]);
    OneRecordDelivered(record, stream);
    assert 0 in f.shards[0] && stream[1].EndOfPartition?;
    var costs := map p | p in f.limits :: Cost(f.WantedFrom(p), true);
    OneRecordCost(record);
    assert costs == map[0 := payload];
    SumValuesSplit(costs, 0);
    assert costs - {0} == map[];
    AnsweredIsUndisturbed(f, Request(true, Some(budget), false), _ => Serve(0), _ => false);
  }

  lemma OneRecordDelivered(record: Record, stream: seq<Event>)
    requires record.offset == 0 && stream == [Data(record), EndOfPartition]
    ensures Delivers(stream, [record], 0, 1) && Wanted([record], 0, 1, 1) == [record]
  {
    assert stream[1..] == [EndOfPartition] && stream[1..][1..] == [];
    assert Records(stream[1..]) == [];
    assert [record][1..] == [];
  }

  lemma OneRecordCost(record: Record)
    ensures Cost([record], true) == record.payloadSize
  {
    assert [record][..0] == [];
  }
}
