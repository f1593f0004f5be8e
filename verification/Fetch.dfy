/** `fetch_messages` as a whole (backend/kafka/src/client.rs): plan the window,
    deal the partitions to consumers, drain them. */
module Fetch {
  import opened Common
  import opened Broker
  import FetchPlan
  import PollLoop
  import AnsweredFetch

  /** Partitions in ascending order, as a `BTreeMap` yields them. */
  ghost predicate Ascending(ps: seq<int>) {
    forall i, j :: 0 <= i < j < |ps| ==> ps[i] < ps[j]
  }

  function InsertAscending(ps: seq<int>, p: int): seq<int> {
    if ps == [] || p < ps[0] then [p] + ps else [ps[0]] + InsertAscending(ps[1..], p)
  }

  lemma ConsAscends(p: int, ps: seq<int>)
    requires Ascending(ps) && forall q :: q in ps ==> p < q
    ensures Ascending([p] + ps)
  {
    assert forall k :: 0 <= k < |ps| ==> ps[k] in ps;
  }

  lemma {:induction false} InsertKeepsOrder(ps: seq<int>, p: int)
    requires Ascending(ps) && p !in ps
    ensures Ascending(InsertAscending(ps, p))
    ensures forall q :: q in InsertAscending(ps, p) <==> q in ps || q == p
  {
    if ps == [] || p < ps[0] {
      ConsAscends(p, ps);
    } else {
      InsertKeepsOrder(ps[1..], p);
      assert forall q :: q in ps <==> q == ps[0] || q in ps[1..];
      ConsAscends(ps[0], InsertAscending(ps[1..], p));
    }
  }

  /** The partitions with a positive limit, in ascending order. */
  ghost predicate ListsWorking(limits: map<int, int>, working: seq<int>) {
    Ascending(working) && forall p :: p in working <==> p in limits && limits[p] > 0
  }

  method ListWorking(limits: map<int, int>) returns (working: seq<int>)
    ensures ListsWorking(limits, working)
  {
    working := [];
    var rest := limits;
    while rest.Keys != {}
      invariant rest.Keys <= limits.Keys && Ascending(working)
      invariant forall p :: p in working <==> p in limits && p !in rest && limits[p] > 0
      decreases |rest|
    {
      var entry :| entry in rest.Items;
      var p := entry.0;
      OneKeyLess(rest, p);
      if limits[p] > 0 {
        InsertKeepsOrder(working, p);
        working := InsertAscending(working, p);
      }
      rest := rest - {p};
    }
  }

  /** The consumers' deliveries, whatever starts the plan asks for. */
  ghost predicate Faithful(deliver: (int, int, int) -> seq<Event>, logs: map<int, seq<Record>>) {
    forall p, start, end {:trigger deliver(p, start, end)} ::
      p in logs ==> Delivers(deliver(p, start, end), logs[p], start, end)
  }

  /** `p` is held by exactly one consumer, once. */
  ghost predicate HeldOnce(shards: seq<seq<int>>, p: int) {
    && (exists s: nat, k: nat :: FetchPlan.HeldAt(shards, s, k, p))
    && forall s: nat, k: nat, t: nat, l: nat ::
         FetchPlan.HeldAt(shards, s, k, p) && FetchPlan.HeldAt(shards, t, l, p) ==> s == t && k == l
  }

  /** The fetch that a plan leads to: its partitions with work dealt round-robin,
      in ascending order, to as many consumers as are called for. */
  ghost predicate Assigned(logs: map<int, seq<Record>>, deliver: (int, int, int) -> seq<Event>,
                           plan: FetchPlan.Plan, maxMessageSizeBytes: nat, fetch: PollLoop.Fetch)
  {
    && fetch.Valid() && fetch.logs == logs
    && fetch.limits == plan.limits && fetch.starts == plan.starts && fetch.ends == plan.ends
    && fetch.streams.Keys == plan.limits.Keys
    && (forall p {:trigger fetch.streams[p]} :: p in plan.limits ==>
          fetch.streams[p] == deliver(p, plan.starts[p], plan.ends[p]))
    && exists working ::
         && ListsWorking(plan.limits, working)
         && FetchPlan.Dealt(working, fetch.shards, FetchPlan.FetchShardCount(|working|, maxMessageSizeBytes))
  }

  /** The partitions with work, dealt to their consumers and positioned. */
  method Assign(logs: map<int, seq<Record>>, deliver: (int, int, int) -> seq<Event>,
                watermarks: map<int, FetchPlan.Watermarks>, filter: FetchPlan.Filter, plan: FetchPlan.Plan,
                maxMessageSizeBytes: nat)
    returns (fetch: PollLoop.Fetch)
    requires watermarks.Keys <= logs.Keys && Faithful(deliver, logs)
    requires FetchPlan.Sound(filter, watermarks, plan)
    ensures Assigned(logs, deliver, plan, maxMessageSizeBytes, fetch)
    ensures forall s, k :: 0 <= s < |fetch.shards| && 0 <= k < |fetch.shards[s]| ==>
              fetch.shards[s][k] in fetch.Working()
    ensures forall p :: p in fetch.Working() ==> HeldOnce(fetch.shards, p)
  {
    var working := ListWorking(plan.limits);
    var count := FetchPlan.FetchShardCount(|working|, maxMessageSizeBytes);
    var shards := FetchPlan.DealShards(working, count);
    FetchPlan.DealtExactlyOnce(working, shards, count);
    var streams := map p | p in plan.limits :: deliver(p, plan.starts[p], plan.ends[p]);
    fetch := PollLoop.Fetch(plan.limits, plan.starts, plan.ends, shards, logs, streams);
    AssignedOnly(filter, watermarks, plan, working, fetch);
    forall p | p in fetch.Working()
      ensures HeldOnce(shards, p)
    {
      EachHeldOnce(working, shards, count, p);
    }
  }

  lemma EachHeldOnce(working: seq<int>, shards: seq<seq<int>>, n: nat, p: int)
    requires n > 0 && Ascending(working) && FetchPlan.Dealt(working, shards, n) && p in working
    ensures HeldOnce(shards, p)
  {
    FetchPlan.DealtExactlyOnce(working, shards, n);
    var i :| 0 <= i < |working| && working[i] == p;
    assert FetchPlan.HeldAt(shards, FetchPlan.Shard(i, n), FetchPlan.Slot(i, n), p);
  }

  /** Everything before the loop. */
  method Prepare(logs: map<int, seq<Record>>, deliver: (int, int, int) -> seq<Event>,
                 watermarks: map<int, FetchPlan.Watermarks>, filter: FetchPlan.Filter, maxMessageSizeBytes: nat)
    returns (plan: FetchPlan.Plan, fetch: PollLoop.Fetch)
    requires watermarks.Keys <= logs.Keys && Faithful(deliver, logs)
    ensures FetchPlan.Sound(filter, watermarks, plan)
    ensures FetchPlan.HonoursFilter(filter, watermarks, plan)
    ensures plan.totalMatching == SumValues(FetchPlan.Matching(filter, watermarks))
    ensures Assigned(logs, deliver, plan, maxMessageSizeBytes, fetch)
    ensures filter.maxTotalMessages.Some? ==> SumValues(plan.limits) <= filter.maxTotalMessages.value
  {
    plan := FetchPlan.PlanFetch(watermarks, filter);
    fetch := Assign(logs, deliver, watermarks, filter, plan, maxMessageSizeBytes);
  }

  /** A fetch is the one run its plan, the broker and the Stop flag lead to. If
      it runs to its end -- and it does unless something disturbs it -- it
      returns, from every partition, exactly the first `limits[p]` records the
      partition stores in `[starts[p], ends[p])`, in order, with no gap,
      repetition or stranger, where the plan's limits honour both the
      per-partition cap and the total budget. A fetch cut short returns a
      prefix of that. */
  method FetchMessages(logs: map<int, seq<Record>>, deliver: (int, int, int) -> seq<Event>,
                       watermarks: map<int, FetchPlan.Watermarks>, filter: FetchPlan.Filter,
                       request: PollLoop.Request, maxMessageSizeBytes: nat,
                       env: PollLoop.Environment, stop: PollLoop.StopFlag)
    returns (plan: FetchPlan.Plan, fetch: PollLoop.Fetch, result: PollLoop.LoopResult,
             sent: seq<PollLoop.TopicMessage>, exit: PollLoop.Exit, ghost passes: nat)
    requires watermarks.Keys <= logs.Keys && Faithful(deliver, logs)
    ensures FetchPlan.Sound(filter, watermarks, plan) && FetchPlan.HonoursFilter(filter, watermarks, plan)
    ensures plan.totalMatching == SumValues(FetchPlan.Matching(filter, watermarks))
    ensures Assigned(logs, deliver, plan, maxMessageSizeBytes, fetch)
    ensures PollLoop.Ran(fetch, request, env, stop, passes, result, exit)
    ensures sent == if request.streaming then result.messages else []
    ensures Yields(logs, plan, result.messages, exit.ReadEverything?)
    ensures PollLoop.Undisturbed(fetch, request, env, stop) <==> exit.ReadEverything?
    ensures AnsweredFetch.Answered(fetch, env, stop) ==> exit.ReadEverything? || exit.HitByteBudget?
    ensures AnsweredFetch.Answered(fetch, env, stop) && AnsweredFetch.Affords(fetch, request) ==> exit.ReadEverything?
    ensures filter.maxTotalMessages.Some? ==> |result.messages| <= filter.maxTotalMessages.value
    ensures PollLoop.HonoursBytes(result.messages, request, result.payloadBytesRead, result.stoppedAtByteBudget)
    ensures exit.HitByteBudget? ==> result.stoppedAtByteBudget
  {
    plan, fetch := Prepare(logs, deliver, watermarks, filter, maxMessageSizeBytes);
    result, sent, exit, passes := PollLoop.FetchLoop(fetch, request, env, stop);
    RunYields(plan, fetch, result.messages, exit.ReadEverything?);
    if AnsweredFetch.Answered(fetch, env, stop) {
      AnsweredFetch.AnsweredReadsEverything(fetch, request, env, stop, passes);
    }
  }

  /** From every partition of the plan a prefix of what was asked, or all of it;
      and nothing from anywhere else. */
  ghost predicate Yields(logs: map<int, seq<Record>>, plan: FetchPlan.Plan,
                         messages: seq<PollLoop.TopicMessage>, everything: bool)
    requires plan.limits.Keys <= logs.Keys && plan.limits.Keys == plan.starts.Keys == plan.ends.Keys
  {
    && (forall p :: p in plan.limits ==> PollLoop.Of(messages, p) <= Asked(logs, plan, p))
    && (everything ==> forall p :: p in plan.limits ==> PollLoop.Of(messages, p) == Asked(logs, plan, p))
    && forall m :: m in messages ==> m.partition in plan.limits
  }

  lemma RunYields(plan: FetchPlan.Plan, fetch: PollLoop.Fetch, messages: seq<PollLoop.TopicMessage>, everything: bool)
    requires fetch.Valid() && plan.limits.Keys == plan.starts.Keys == plan.ends.Keys
    requires fetch.limits == plan.limits && fetch.starts == plan.starts && fetch.ends == plan.ends
    requires forall p :: p in fetch.limits ==> PollLoop.Of(messages, p) <= fetch.WantedFrom(p)
    requires everything ==> forall p :: p in fetch.limits ==> PollLoop.Of(messages, p) == fetch.WantedFrom(p)
    requires forall m :: m in messages ==> m.partition in fetch.Working()
    ensures Yields(fetch.logs, plan, messages, everything)
  {
    AskedIsWanted(plan, fetch);
  }

  lemma AskedIsWanted(plan: FetchPlan.Plan, fetch: PollLoop.Fetch)
    requires fetch.Valid() && plan.limits.Keys == plan.starts.Keys == plan.ends.Keys
    requires fetch.limits == plan.limits && fetch.starts == plan.starts && fetch.ends == plan.ends
    ensures forall p :: p in plan.limits ==> Asked(fetch.logs, plan, p) == fetch.WantedFrom(p)
  {
  }

  /** What the fetch asks partition `p` for. */
  ghost function Asked(logs: map<int, seq<Record>>, plan: FetchPlan.Plan, p: int): seq<Record>
    requires p in logs && p in plan.starts && p in plan.ends && p in plan.limits
  {
    Wanted(logs[p], plan.starts[p], plan.ends[p], Max(plan.limits[p], 0))
  }

  lemma AssignedOnly(filter: FetchPlan.Filter, watermarks: map<int, FetchPlan.Watermarks>, plan: FetchPlan.Plan,
                     working: seq<int>, fetch: PollLoop.Fetch)
    requires FetchPlan.Sound(filter, watermarks, plan) && watermarks.Keys <= fetch.logs.Keys
    requires fetch.limits == plan.limits && fetch.starts == plan.starts && fetch.ends == plan.ends
    requires fetch.streams.Keys == plan.limits.Keys && |fetch.shards| > 0
    requires forall p {:trigger fetch.streams[p]} :: p in plan.limits ==>
               Delivers(fetch.streams[p], fetch.logs[p], plan.starts[p], plan.ends[p])
    requires forall p :: p in working <==> p in plan.limits && plan.limits[p] > 0
    requires forall s, k :: 0 <= s < |fetch.shards| && 0 <= k < |fetch.shards[s]| ==> fetch.shards[s][k] in working
    ensures fetch.Valid()
  {
    forall p | p in plan.limits
      ensures 0 <= plan.limits[p]
    {
      assert FetchPlan.SoundAt(filter, watermarks[p], p, plan.starts[p], plan.ends[p], plan.limits[p]);
    }
  }

  /** Each partition with work is held by one consumer, once. */
  lemma AssignedHeldOnce(logs: map<int, seq<Record>>, deliver: (int, int, int) -> seq<Event>,
                         plan: FetchPlan.Plan, maxMessageSizeBytes: nat, fetch: PollLoop.Fetch, p: int)
    requires Assigned(logs, deliver, plan, maxMessageSizeBytes, fetch) && p in fetch.Working()
    ensures HeldOnce(fetch.shards, p)
  {
    var working :| && ListsWorking(plan.limits, working)
                   && FetchPlan.Dealt(working, fetch.shards,
                                      FetchPlan.FetchShardCount(|working|, maxMessageSizeBytes));
    EachHeldOnce(working, fetch.shards, FetchPlan.FetchShardCount(|working|, maxMessageSizeBytes), p);
  }

  /** A fetch is answered if the broker always answers, completes whatever it is
      asked for -- by reporting its end, say -- and Stop is never pressed. */
  lemma AnsweredWhenEndsAreReported(logs: map<int, seq<Record>>, deliver: (int, int, int) -> seq<Event>,
                                    plan: FetchPlan.Plan, maxMessageSizeBytes: nat, fetch: PollLoop.Fetch,
                                    env: PollLoop.Environment, stop: PollLoop.StopFlag)
    requires Assigned(logs, deliver, plan, maxMessageSizeBytes, fetch)
    requires forall p :: p in fetch.Working() ==>
               EndOfPartition in fetch.streams[p] || AnsweredFetch.Completes(fetch, p)
    requires (forall m :: env(m).Serve?) && forall k: nat :: !stop(k)
    ensures AnsweredFetch.Answered(fetch, env, stop)
  {
    forall p | p in fetch.Working()
      ensures AnsweredFetch.WillEnd(fetch, p)
    {
      AssignedHeldOnce(logs, deliver, plan, maxMessageSizeBytes, fetch, p);
      var s: nat, k: nat :| FetchPlan.HeldAt(fetch.shards, s, k, p);
      assert p in fetch.shards[s];
      assert AnsweredFetch.Completes(fetch, p);
    }
  }
}
