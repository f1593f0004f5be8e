/** From the poll loop to the screen: `forward_in_batches`
    (backend/core/src/message_stream.rs) streams what the loop sends, and the
    command (src-tauri/src/commands/connections.rs) returns the rest. */
module Delivery {
  import opened Common
  import opened Division
  import opened Broker
  import FetchPlan
  import PollLoop
  import Fetch
  import AnsweredFetch

  const STREAM_BATCH_SIZE := 100
  const PROGRESS_LOG_INTERVAL := 100

  function Concat<T>(batches: seq<seq<T>>): seq<T> {
    if batches == [] then [] else Concat(batches[..|batches| - 1]) + batches[|batches| - 1]
  }

  lemma ConcatAppend<T>(batches: seq<seq<T>>, batch: seq<T>)
    ensures Concat(batches + [batch]) == Concat(batches) + batch
  {
    assert (batches + [batch])[..|batches|] == batches;
  }

  /** No hop is wasted on an empty batch and none carries more than a batch. */
  ghost predicate WellSized<T>(batches: seq<seq<T>>, batchSize: nat) {
    forall i :: 0 <= i < |batches| ==> 0 < |batches[i]| <= Max(batchSize, 1)
  }

  /** The running totals reported: every multiple of `every`, in order. */
  ghost predicate EveryMultiple(reports: seq<nat>, every: nat) {
    forall i :: 0 <= i < |reports| ==> reports[i] == Times(i + 1, every)
  }

  /** Every multiple up to `seen` has been reported, `reportedAt` last. */
  ghost predicate Reported(reports: seq<nat>, every: nat, reportedAt: nat, seen: nat) {
    && EveryMultiple(reports, every) && reportedAt == Times(|reports|, every) <= seen
    && if every == 0 then reports == [] else seen - reportedAt < every
  }

  /** Progress, once for each message received. */
  method Report(reports: seq<nat>, every: nat, reportedAt: nat, seen: nat)
    returns (reports': seq<nat>, reportedAt': nat)
    requires seen > 0 && Reported(reports, every, reportedAt, seen - 1)
    ensures Reported(reports', every, reportedAt', seen)
  {
    reports', reportedAt' := reports, reportedAt;
    if every > 0 && seen - reportedAt >= every {
      reportedAt' := seen;
      reports' := reports + [seen];
    }
  }

  /** The forwarder part-way: what it emitted, and the batch it is filling. */
  ghost predicate Batching<T>(channel: seq<T>, emitted: nat, received: nat, batches: seq<seq<T>>, batch: seq<T>,
                              batchSize: nat, elapses: Timer)
  {
    && emitted + |batch| == received <= |channel|
    && Concat(batches) == channel[..emitted] && batch == channel[emitted..received]
    && WellSized(batches, batchSize) && CutRightly(batches, batchSize, elapses, |channel|)
  }

  lemma BatchGrows<T>(channel: seq<T>, emitted: nat, received: nat, batches: seq<seq<T>>, batch: seq<T>,
                      batchSize: nat, elapses: Timer)
    requires Batching(channel, emitted, received, batches, batch, batchSize, elapses) && received < |channel|
    ensures Batching(channel, emitted, received + 1, batches, batch + [channel[received]], batchSize, elapses)
  {
  }

  /** Whether the interval elapses while a part-filled batch waits for the
      message after the first `received`. */
  type Timer = nat -> bool

  /** Whether Stop has been pressed when the message after the first `received`
      arrives. */
  type StopSeen = nat -> bool

  /** A batch is cut short only by the interval, or by the end of everything. */
  ghost predicate CutRightly<T>(batches: seq<seq<T>>, batchSize: nat, elapses: Timer, total: nat) {
    batches != [] ==>
      && CutRightly(batches[..|batches| - 1], batchSize, elapses, total)
      && (|batches[|batches| - 1]| == Max(batchSize, 1) || elapses(|Concat(batches)|) || |Concat(batches)| == total)
  }

  /** Stop is seen at none of the first `n` messages. */
  ghost predicate NotStoppedBefore(stop: StopSeen, n: nat) {
    forall k :: 0 <= k < n ==> !stop(k)
  }

  /** `channel` is everything the fetch will ever send before it drops its
      sender. */
  method ForwardInBatches<T>(channel: seq<T>, batchSize: nat, progressEvery: nat, elapses: Timer, stop: StopSeen)
    returns (emitted: nat, batches: seq<seq<T>>, reports: seq<nat>, stopped: bool)
    ensures emitted <= |channel| && Concat(batches) == channel[..emitted]
    ensures WellSized(batches, batchSize) && CutRightly(batches, batchSize, elapses, |channel|)
    // Everything is emitted, unless Stop is seen at some message; then what came before that message
    // is emitted, but for a batch not yet full.
    ensures stopped <==> !NotStoppedBefore(stop, |channel|)
    ensures !stopped ==> emitted == |channel|
    ensures stopped ==> exists at: nat :: at < |channel| && stop(at) && NotStoppedBefore(stop, at)
                                          && emitted <= at < emitted + Max(batchSize, 1)
    // Progress is reported at every multiple that is reached.
    ensures EveryMultiple(reports, progressEvery)
    ensures progressEvery == 0 ==> reports == []
    ensures progressEvery > 0 && !stopped ==>
              Times(|reports|, progressEvery) <= |channel| < Times(|reports|, progressEvery) + progressEvery
  {
    var size := Max(batchSize, 1);
    var batch: seq<T> := [];
    var received, reportedAt := 0, 0;
    emitted, batches, reports, stopped := 0, [], [], false;
    while true
      invariant Batching(channel, emitted, received, batches, batch, batchSize, elapses) && |batch| < size
      invariant NotStoppedBefore(stop, received) && Reported(reports, progressEvery, reportedAt, received)
      decreases |channel| - received, |batch|
    {
      if batch != [] && elapses(received) {
        emitted, batches, batch := Emit(channel, emitted, received, batches, batch, batchSize, elapses);
        continue;
      }
      if received == |channel| {
        break;
      }
      var message := channel[received];
      if stop(received) {
        stopped := true;
        return;
      }
      BatchGrows(channel, emitted, received, batches, batch, batchSize, elapses);
      batch := batch + [message];
      received := received + 1;
      if |batch| >= size {
        emitted, batches, batch := Emit(channel, emitted, received, batches, batch, batchSize, elapses);
      }
      reports, reportedAt := Report(reports, progressEvery, reportedAt, emitted + |batch|);
    }
    if batch != [] {
      emitted, batches, batch := Emit(channel, emitted, received, batches, batch, batchSize, elapses);
    }
  }

  /** `emitted += batch.len(); emit(std::mem::take(&mut batch))`. */
  method Emit<T>(ghost channel: seq<T>, emitted: nat, ghost received: nat, batches: seq<seq<T>>, batch: seq<T>,
                 ghost batchSize: nat, ghost elapses: Timer)
    returns (emitted': nat, batches': seq<seq<T>>, batch': seq<T>)
    requires Batching(channel, emitted, received, batches, batch, batchSize, elapses)
    requires 0 < |batch| <= Max(batchSize, 1)
    requires |batch| == Max(batchSize, 1) || elapses(received) || received == |channel|
    ensures emitted' == received && batches' == batches + [batch] && batch' == []
    ensures Batching(channel, emitted', received, batches', batch', batchSize, elapses)
  {
    ConcatAppend(batches, batch);
    emitted', batches', batch' := emitted + |batch|, batches + [batch], [];
    assert channel[..received] == channel[..emitted] + channel[emitted..received];
    assert batches'[..|batches|] == batches;
  }

  /** The streaming half of `connection_fetch_messages`: wait for the forwarder,
      then drop from the result exactly as many messages as it emitted. */
  method StreamAndDrain<T>(fetched: seq<T>, sent: seq<T>, streaming: bool, elapses: Timer, stop: StopSeen)
    returns (batches: seq<seq<T>>, returned: seq<T>, reports: seq<nat>)
    requires sent == if streaming then fetched else []
    ensures Concat(batches) + returned == fetched
    ensures !streaming ==> batches == []
    ensures streaming && NotStoppedBefore(stop, |fetched|) ==> returned == []
    ensures WellSized(batches, 100) && CutRightly(batches, 100, elapses, |fetched|)
    // once Stop is seen, at most the batch being filled stays behind with what follows
    ensures streaming && !NotStoppedBefore(stop, |fetched|) ==>
              exists at: nat :: at < |fetched| && stop(at) && NotStoppedBefore(stop, at)
                                && |Concat(batches)| <= at < |Concat(batches)| + 100
    // and every hundred messages progress is reported
    ensures EveryMultiple(reports, 100)
    ensures streaming && NotStoppedBefore(stop, |fetched|) ==>
              Times(|reports|, 100) <= |fetched| < Times(|reports|, 100) + 100
  {
    batches, reports := [], [];
    var streamed := 0;
    if streaming {
      var stopped;
      streamed, batches, reports, stopped :=
        ForwardInBatches(sent, STREAM_BATCH_SIZE, PROGRESS_LOG_INTERVAL, elapses, stop);
    }
    var drained := if streamed <= |fetched| then streamed else |fetched|;
    returned := fetched[drained..];
  }

  /** A Data tab fetch, end to end: what is streamed followed by what is
      returned is what the fetch read. Unless something disturbs the fetch,
      that is every wanted message of every partition, exactly once and in
      order, however the broker interleaves the partitions, the batches are cut
      and the forwarder is stopped. */
  method ConnectionFetchMessages(logs: map<int, seq<Record>>, deliver: (int, int, int) -> seq<Event>,
                                 watermarks: map<int, FetchPlan.Watermarks>, filter: FetchPlan.Filter,
                                 request: PollLoop.Request, maxMessageSizeBytes: nat,
                                 env: PollLoop.Environment, stop: PollLoop.StopFlag,
                                 elapses: Timer, stopSeen: StopSeen)
    returns (plan: FetchPlan.Plan, fetch: PollLoop.Fetch,
             batches: seq<seq<PollLoop.TopicMessage>>, returned: seq<PollLoop.TopicMessage>,
             reports: seq<nat>, result: PollLoop.LoopResult, exit: PollLoop.Exit, ghost passes: nat)
    requires watermarks.Keys <= logs.Keys && Fetch.Faithful(deliver, logs)
    ensures FetchPlan.Sound(filter, watermarks, plan) && FetchPlan.HonoursFilter(filter, watermarks, plan)
    ensures plan.totalMatching == SumValues(FetchPlan.Matching(filter, watermarks))
    ensures Fetch.Assigned(logs, deliver, plan, maxMessageSizeBytes, fetch)
    ensures PollLoop.Ran(fetch, request, env, stop, passes, result, exit)
    ensures Concat(batches) + returned == result.messages
    ensures Fetch.Yields(logs, plan, Concat(batches) + returned, exit.ReadEverything?)
    ensures PollLoop.Undisturbed(fetch, request, env, stop) <==> exit.ReadEverything?
    ensures AnsweredFetch.Answered(fetch, env, stop) ==> exit.ReadEverything? || exit.HitByteBudget?
    ensures AnsweredFetch.Answered(fetch, env, stop) && AnsweredFetch.Affords(fetch, request) ==> exit.ReadEverything?
    ensures PollLoop.HonoursBytes(result.messages, request, result.payloadBytesRead, result.stoppedAtByteBudget)
    ensures exit.HitByteBudget? ==> result.stoppedAtByteBudget
    ensures WellSized(batches, 100) && CutRightly(batches, 100, elapses, |result.messages|)
    ensures request.streaming && NotStoppedBefore(stopSeen, |result.messages|) ==> returned == []
    ensures !request.streaming ==> batches == []
    ensures EveryMultiple(reports, 100)
  {
    var sent;
    plan, fetch, result, sent, exit, passes :=
      Fetch.FetchMessages(logs, deliver, watermarks, filter, request, maxMessageSizeBytes, env, stop);
    batches, returned, reports := StreamAndDrain(result.messages, sent, request.streaming, elapses, stopSeen);
  }
}
