# Salty: a verified model of its decision logic

Salty is a desktop client for Kafka. This project models, in Dafny, the parts of
it that decide something -- what to read, when to stop, what to show, whom to
refuse -- and proves what they promise over every input, every interleaving and
every crash.

| module | what it models |
|---|---|
| `Budget`, `FetchPlan` | splitting a message budget over partitions, planning each partition's window, dealing partitions to consumers |
| `Broker`, `PollLoop`, `AnsweredFetch`, `Fetch` | the poll loop against a broker that may interleave partitions, gaps, ends, errors and silence as it likes, with a Stop at any moment |
| `Delivery` | the forwarder that streams messages in batches, and the command that returns the rest |
| `Cancellation` | stopping a fetch: two maps behind two locks, and a shared flag per fetch |
| `AuthRegistry`, `Breaker`, `BreakerSafety`, `BreakerLimits`, `Commands` | the authentication circuit breaker, the commands that feed it, and every way these can interleave |
| `Varint`, `Wire`, `WireEncode`, `ConfluentHeader`, `Assignment`, `Bytes`, `Repeat` | the byte-level parsers, each with the encoder it inverts |
| `JsonTree`, `RowNodes`, `RowMeaning`, `RowKeys`, `Flatten` | the JSON tree as a list of rows, what each row tells of its node, what the rows determine, their identities, and the widest of them |
| `Migration` | adopting the data of the app's previous name, with a crash possible at every step |
| `Decimal`, `AvroText` | decimals and times of day as text |
| `Common` | lists, maps and integer division |

The environment is always free: the broker's answers, the timers, the Stop
button, the lock schedule and the crashes are inputs or steps of any kind, so
what is proved holds for each of them, and what a program does is tied to the
choices that were made. A loop of the program is a method
with a loop, proved equal to a specification function or kept to an invariant;
what the program promises is then proved about that function or invariant.

## How the parts fit

* **A fetch.** `FetchPlan.PlanFetch` yields a sound window per partition;
  `FetchPlan.DealShards` deals every working partition to exactly one consumer;
  `PollLoop.FetchLoop` drains them. What the broker does at each poll and when
  Stop is pressed are inputs, `PollLoop.TraceOf` is what has then been polled
  after any number of passes, and `PollLoop.Ran` says that the loop made exactly
  the passes its condition allows and returned what they come to. The invariant
  `Coupled` ties the budget left, the finished set, the unfinished counter and
  the messages collected to the events each partition has delivered, after any
  number of passes. A run reads everything the plan asked for if and only if,
  until it has finished the last partition, no Stop, no ten idle seconds and no
  spent byte budget comes between. A fetch whose broker always answers is never
  idle (`AnsweredFetch`), so it ends by itself or at its byte budget, and by
  itself whenever the wanted messages cost less than the budget. Every run ends
  (`PollLoop.EveryRunEnds`): by events not yet delivered, then idle time left; an
  end of partition or a message of a finished partition uses up an event, and
  nothing else resets the clock.
  `Delivery.ConnectionFetchMessages` carries this through to the screen.
* **The breaker.** A command is the list of locked steps it still has to take.
  `Breaker` bounds the rejections a connection can collect however commands
  interleave, and `BreakerLimits` shows the bound is met. `AuthRegistry` reads
  the registry's answers off the history of those steps alone. `BreakerSafety`
  shows when a blocked connection is shown as connected, and `Commands` runs each
  command on the registry itself and ties it to its list of steps.
* **The parsers.** Each is a function on bytes, a method with the program's loop
  proved equal to it, and an encoder proved to be undone by it.

A specification function that follows the code is not left to speak for itself:
what it comes to is stated a second time in the terms of its inputs -- offsets
that match, bytes of payload, polls in vain, nodes and their keys, bytes that
spell a header, what one connection has against it before and after -- and the
operations' contracts carry that reading too.

## Where the code and its documentation differ

* `connection_connect` is documented as spending an attempt without handing back
  a fresh allowance (src-tauri/src/commands/connections.rs:341-346); its code
  clears the allowance first (line 366). The model follows the code:
  `BreakerSafety.ConnectNeverTrips` shows that Connect alone never blocks a
  connection, however often it is rejected.
* With commands interleaved, a blocked connection can be shown as connected
  (`BreakerLimits.ConnectCanMarkBlocked`): `mark_connected` does not look at the
  breaker again. `BreakerSafety.ShowingExactly` gives the exact condition, and
  `BreakerSafety.BlockedIsNeverConnected` the case of one command at a time.
* `FetchCancellations` is documented as cleared by pairing `begin` with `finish`
  (backend/core/src/fetch_cancellation.rs:30-33, 89). A cancel that comes after
  `finish` makes an entry nothing removes (`Cancellation.ALateStopLeaks`), and
  that is the only way an entry outlives its fetch
  (`Cancellation.WhatFinishLeavesBehind`).
* React keys of rows are not unique: a key `k close` beside an open container `k`
  repeats that container's closing key. `RowKeys.UniqueKeysExactly` shows this is
  the only way; the rows' paths are always distinct.
* Adoption copies sidecars and removes none, so one already lying in the new
  directory stays when the old database has none of its kind
  (`Migration.SidecarsMatchExactly`, `Migration.StraySidecarStays`).

## Model

| member | source | states |
|---|---|---|
| Budget.DistributeTotalBudget | backend/kafka/src/messages.rs:88-135 | with no total every window is granted whole; with one, both passes together yield the split that `IsSplit` describes |
| Budget.SortByWindow | backend/kafka/src/messages.rs:102-104 | the partitions, each once, by window and then id |
| Budget.SplitExact | backend/kafka/src/messages.rs:96-134 | every share lies within its window, and the shares sum to the budget or, if less, to all windows together |
| Budget.SplitFair | backend/kafka/src/messages.rs:70-84 | if a partition gets less than its window, no other gets more than one message above it |
| Budget.LaterNeverLess | backend/kafka/src/messages.rs:102-116 | of two partitions the one with the wider window, or with the higher id and the same window, never gets less |
| Budget.SplitMonotone | backend/kafka/src/messages.rs:96-134 | a larger total never lowers any partition's share |
| Budget.SplitUnique | backend/kafka/src/messages.rs:102-116 | the split is determined by windows and total alone |
| Budget.RemainderPassIdle | backend/kafka/src/messages.rs:118-132 | the remainder pass changes nothing: the even pass has already spent the budget or filled every window |
| Budget.EvenPass | backend/kafka/src/messages.rs:106-116 | smallest window first, each gets the lesser of its window and an even share of what is left |
| FetchPlan.PlanFetch | backend/kafka/src/client.rs:1091-1228 | per partition, from the filter, the broker's answers and the watermarks alone: as many offsets match as are counted, and those read are the first of them if the filter says where to start, else the last; an unanswered from-time starts at the high watermark, an answered one at its offset or later, an unanswered to-time ends at the high watermark; the limits are the counts up to the cap (100 if none is set), or their split |
| FetchPlan.PlanIsSound | backend/kafka/src/client.rs:1205-1228 | wherever a limit is positive, start + limit <= end, start is not before the filter's start, and without a pinned start it is exactly end - limit |
| FetchPlan.StartIsEarliestAdmitted | backend/kafka/src/client.rs:1091-1160 | an offset meets the explicit offset and the from-time, or the low watermark when neither is set, exactly from the filter's start on; an offset the partition has is taken as it is, any other as the nearest one it has |
| FetchPlan.MatchingIsCounted | backend/kafka/src/client.rs:1091-1180 | the offsets that meet the whole filter are consecutive, from the filter's start, and as many as are counted; none if the from-time is past everything |
| FetchPlan.LimitsWithinWindows | backend/kafka/src/client.rs:1198-1203 | no limit exceeds its window, and the limits sum to the lesser of the total and the windows |
| FetchPlan.FetchShardCount | backend/kafka/src/messages.rs:257-265 | as many consumers as there are partitions, eight and 128 MiB of prefetch at two largest messages each allow -- no more, no fewer -- and at least one |
| FetchPlan.DealShards | backend/kafka/src/client.rs:1282-1289 | position i goes to shard i mod n as its (i div n)th partition, and nothing else is dealt |
| FetchPlan.EntryOrigin | backend/kafka/src/client.rs:1282-1289 | entry k of shard s is the (k n + s)th working partition |
| FetchPlan.DealtExactlyOnce | backend/kafka/src/client.rs:1278-1289 | every working partition is held by exactly one shard, at one place, and no shard holds anything else |
| FetchPlan.DealtEvenly | backend/kafka/src/client.rs:1278-1289 | shards differ by at most one partition, and none is empty while there are enough to go round |
| PollLoop.FetchLoop | backend/kafka/src/client.rs:1303-1475 | the result, the stream and the exit are those of the one run the broker and the Stop flag allow: each partition contributes a prefix of its window, and all of it if the loop ends by itself, which it does if and only if nothing disturbs it; it stops at the byte budget exactly when the payload bytes kept reach it, which they do with no message before the last, and not at all without payloads; it goes quiet after twenty waits in vain since the last message, or two thousand with several consumers; only Stop cancels; the error is the last one |
| PollLoop.Drain | backend/kafka/src/client.rs:1348-1467 | the loop makes exactly as many passes as its condition and the Stop flag allow, and its variables are what those passes make them |
| PollLoop.AlwaysCoupled | backend/kafka/src/client.rs:1303-1467 | after any number of passes, whatever the broker does, the coupled variables are in step |
| PollLoop.UndisturbedReadsEverything | backend/kafka/src/client.rs:1303-1475 | a run reads everything if and only if no Stop, no ten idle seconds and no spent byte budget comes before the last partition is finished; and then every partition has yielded exactly what was wanted |
| PollLoop.EveryRunEnds | backend/kafka/src/client.rs:1348-1467 | for every broker and every Stop flag the loop ends after some number of passes |
| PollLoop.RunsOnce | backend/kafka/src/client.rs:1348-1467 | and after one number of passes only |
| AnsweredFetch.AnsweredReadsEverything | backend/kafka/src/client.rs:1303-1475 | with a broker that always answers and whose streams complete every partition, and no Stop, the loop ends by itself or at its byte budget, then spent; and by itself whenever the wanted messages cost less than the budget |
| AnsweredFetch.ExhaustedIsFinished | backend/kafka/src/client.rs:1305-1316 | with everything handed over, a partition is finished exactly if it had an end, a record past its end, or as many records as were wanted |
| AnsweredFetch.CollectedCost | backend/kafka/src/messages.rs:182-206 | what has been collected never costs more than what was wanted |
| AnsweredFetch.AnsweredIsUndisturbed | backend/kafka/src/client.rs:1348-1353 | such a fetch, if it can afford what it wants, is undisturbed |
| AnsweredFetch.OneRecordIsUndisturbed | backend/kafka/src/client.rs:1348-1353 | a concrete one, for every payload below every budget |
| PollLoop.Turn | backend/kafka/src/client.rs:1354-1466 | one pass does what the next answers call for, keeps the invariant, and uses up an undelivered event or idle time |
| PollLoop.AbsorbKeepsCoupling | backend/kafka/src/client.rs:1381-1458 | whatever event of an assigned partition is absorbed, the six coupled variables stay in step; in particular a partition is finished exactly when its budget is spent, its end was reported, or a record past its end was seen |
| PollLoop.PollKeepsCoupling | backend/kafka/src/client.rs:1380-1466 | every answer keeps the invariant, and the unfinished counter never underflows |
| PollLoop.PollUsesUp | backend/kafka/src/client.rs:1380-1466 | a message or an end of partition leaves fewer events undelivered, and nothing else moves |
| PollLoop.AlwaysAPrefix | backend/kafka/src/client.rs:1390-1443 | at any moment a partition's messages are a prefix of the first min(limit, count) records of its window, and its budget is what is missing |
| PollLoop.CompleteWhenFinished | backend/kafka/src/client.rs:1306-1316 | with nothing unfinished, every partition's messages are exactly those records, in order |
| PollLoop.TargetReached | backend/kafka/src/client.rs:1348-1349 | reaching the planned total implies that nothing is unfinished |
| PollLoop.PollShards | backend/kafka/src/client.rs:1361-1379 | a sweep brings the first answer there is, asking each consumer once and one more again; it reports silence only after finding every consumer silent and waiting on one of them |
| PollLoop.SweepTells | backend/kafka/src/client.rs:1361-1379 | silence means that every poll of the sweep brought nothing, and anything else is the answer to the first that brought something |
| PollLoop.SilenceIsEverywhere | backend/kafka/src/client.rs:1354-1370 | in a silent sweep each consumer was polled and had nothing to say |
| PollLoop.EveryShardAsked | backend/kafka/src/client.rs:1363-1370 | any n consecutive turns of the round robin ask every one of n shards |
| PollLoop.OnMessage | backend/kafka/src/client.rs:1381-1447 | spent and unplanned partitions are skipped, one past its end is finished, anything else is kept and charged to its partition |
| PollLoop.ChargeMessage | backend/kafka/src/client.rs:1414-1446 | the byte total is the payload bytes of the messages kept, or nothing without payloads; every message but the last was taken below the budget, and the budget is reached exactly when the total is no less |
| PollLoop.WentQuietAfter | backend/kafka/src/client.rs:1326-1342 | no more than twenty polls in vain since the last message, two thousand with several consumers, and that many when the loop goes quiet |
| PollLoop.IdleCountsVain | backend/kafka/src/client.rs:1382-1465 | the idle clock is the number of polls that were empty or failed since the last message, one wait each; an end of partition counts for nothing |
| PollLoop.LastErrorIsLast | backend/kafka/src/client.rs:1459-1472 | the error reported is that of the last poll that failed, if one did |
| PollLoop.AccountsHonourBytes | backend/kafka/src/messages.rs:171-206 | the byte account and the verdict of the budget, in payload bytes |
| Fetch.FetchMessages | backend/kafka/src/client.rs:1068-1475 | the fetch is the one run its plan, the broker and the Stop flag lead to; it returns from every partition exactly what the plan asked for, within the caps, if it runs to its end, which it does if and only if nothing disturbs it, and whenever it is always answered and affords what it wants; cut short, a prefix |
| Fetch.AnsweredWhenEndsAreReported | backend/kafka/src/client.rs:1230-1475 | an assigned fetch is answered if the broker always answers and reports the ends, or completes the partitions otherwise, and Stop is never pressed |
| Fetch.AssignedHeldOnce | backend/kafka/src/client.rs:1278-1301 | every working partition of an assigned fetch is held by one consumer, once |
| Fetch.Assign | backend/kafka/src/client.rs:1230-1301 | the working partitions, in ascending order, are dealt round-robin; no consumer holds any other, and each is held by one consumer, once |
| Delivery.ForwardInBatches | backend/core/src/message_stream.rs:26-98 | everything sent is emitted in order, unless Stop is seen at some message; then everything before it but a batch not yet full; a batch is short only when the interval elapses or at the end; progress is reported at every multiple |
| Delivery.StreamAndDrain | src-tauri/src/commands/connections.rs:664-702 | the batches emitted followed by the messages returned are the fetched messages, once each and in order; batches hold at most 100 and are short only when the interval elapses or at the end; after a Stop less than a batch is held back from what came before it; progress is reported every 100 |
| Delivery.ConnectionFetchMessages | src-tauri/src/commands/connections.rs:575-702 | end to end, what is streamed followed by what is returned is what the run read, once each and in order; every wanted message of every partition if and only if nothing disturbs the fetch, and whenever it is always answered and affords what it wants |
| Broker.EveryOutcomeIsAnAnswer | backend/kafka/src/client.rs:1361-1379 | whatever a poll may bring, some choice of the broker brings it |
| Broker.WantedMeans | backend/kafka/src/client.rs:1390-1412 | what is wanted of a partition are its records within the window, by offset, and all of them but for later ones beyond the limit |
| Cancellation.FetchCancellations.Begin | backend/core/src/fetch_cancellation.rs:39-47 | hands out the flag of the entry there is, or of a new lowered one |
| Cancellation.FetchCancellations.BeginForConnection | backend/core/src/fetch_cancellation.rs:51-57 | also records the owner |
| Cancellation.FetchCancellations.Cancel | backend/core/src/fetch_cancellation.rs:90-97 | raises the entry's flag, making the entry if it is missing |
| Cancellation.FetchCancellations.CancelAllForConnection | backend/core/src/fetch_cancellation.rs:67-80 | returns exactly the requests the connection owns, raises the flag of each, and no other flag |
| Cancellation.FetchCancellations.Finish | backend/core/src/fetch_cancellation.rs:100-103 | forgets the request in both maps |
| Cancellation.InvariantOverRuns | backend/core/src/fetch_cancellation.rs:39-103 | every interleaving of lock steps keeps flags unshared, owners right, and cancellations in the flag or entry their fetch will read |
| Cancellation.FlagsNeverFall | backend/core/src/fetch_cancellation.rs:90-97 | over any continuation of a run no flag is lowered, no fetch changes its flag, no sweep changes what it found |
| Cancellation.CancelReachesTheFetch | backend/core/src/fetch_cancellation.rs:82-97 | a cancel before or after `begin`, as long as the fetch has not finished, is seen in the flag the fetch holds |
| Cancellation.SweepStopsItsFetches | backend/core/src/fetch_cancellation.rs:59-80 | a connection-wide cancel that has run to its end has stopped every fetch of that connection registered when it began and still running |
| Cancellation.NobodyElseIsStopped | backend/core/src/fetch_cancellation.rs:59-80 | a raised flag means its request was stopped by name, or a sweep of its own connection began while it was registered |
| Cancellation.SweepBegan | backend/core/src/fetch_cancellation.rs:67-80 | whatever a sweep found was registered under its connection, and not finished, when it began |
| Cancellation.WhatFinishLeavesBehind | backend/core/src/fetch_cancellation.rs:82-103 | a finished request has an entry if and only if it was cancelled after it finished |
| Cancellation.ALateStopLeaks | backend/core/src/fetch_cancellation.rs:90-103 | such an entry is removed by no later step |
| Cancellation.SweptWhileRunning | backend/core/src/fetch_cancellation.rs:39-97 | some run sweeps a running fetch and raises its flag |
| Cancellation.ThenStoppedLate | backend/core/src/fetch_cancellation.rs:90-103 | and goes on to finish it and to leave an entry behind by a Stop that comes late |
| AuthRegistry.ConnectionRegistry.RecordAuthFailure | backend/core/src/registry.rs:78-92 | one more attempt with this reason, up to the largest 32-bit count; at the second the connection is dropped and its write denials cleared, before that nothing else of it changes; no other connection is touched |
| AuthRegistry.ConnectionRegistry.ClearAuthFailures | backend/core/src/registry.rs:105-112 | forgets the rejections and the write denials of one connection, and touches nothing else |
| AuthRegistry.ConnectionRegistry.RecordAuthSuccess | backend/core/src/registry.rs:97-99 | the same; nothing is blocked or denied for that connection afterwards |
| AuthRegistry.ConnectionRegistry.MarkDisconnected | backend/core/src/registry.rs:57-67 | drops the connection and its write denials, and forgets no rejection |
| AuthRegistry.ConnectionRegistry.AuthBlockReason | backend/core/src/registry.rs:118-125 | the last reason once two attempts have failed, else nothing |
| AuthRegistry.ConnectionRegistry.WriteDeniedReason | backend/core/src/registry.rs:145-151 | the reason recorded for this connection and topic |
| AuthRegistry.BlockReasonFromHistory | backend/core/src/registry.rs:78-125 | after any history the block reason is m exactly when two rejections of this connection stand uncleared and the last of them gave m |
| AuthRegistry.DeniedReasonFromHistory | backend/core/src/registry.rs:136-159 | after any history the denial is m exactly when some refusal for m has been neither replaced nor cleared since |
| AuthRegistry.ConnectedFromHistory | backend/core/src/registry.rs:53-71 | a connection is connected exactly when it was marked and not dropped since |
| Breaker.RejectionsBounded | src-tauri/src/commands/connections.rs:70-103 | with at most k requests in flight at once, at most MAX_AUTH_ATTEMPTS - 1 + k rejections are counted between clearings, those still to be counted included |
| Breaker.BlockedCostsNothing | src-tauri/src/commands/connections.rs:52-82 | once a blocked connection has nothing in flight, no request of any kind reaches its broker until somebody clears it |
| Breaker.OnlyGatesLetThrough | src-tauri/src/commands/connections.rs:70-82 | only an open gate puts a request in flight |
| BreakerLimits.RejectionsReachTheBound | src-tauri/src/commands/connections.rs:70-103 | for every k some run with k in flight counts exactly that many |
| BreakerLimits.ConnectCanMarkBlocked | src-tauri/src/commands/connections.rs:366-380 | some run ends with a connection blocked and connected |
| BreakerSafety.ShowingExactly | src-tauri/src/commands/connections.rs:377-380 | with all commands finished, a connection is blocked and connected if and only if it was marked while blocked, and neither dropped nor cleared since |
| BreakerSafety.BlockedIsNeverConnected | backend/core/src/registry.rs:73-92 | with commands one at a time, a blocked connection is connected at no moment but between the rejection that blocks it and the drop that follows |
| BreakerSafety.ConnectNeverTrips | src-tauri/src/commands/connections.rs:348-382 | any number of rejected Connects, one at a time, leaves the connection unblocked |
| BreakerSafety.GroupCallsNeverTrip | src-tauri/src/commands/connections.rs:106-134 | however many consumer-group calls are refused, and however they interleave, none is counted and the connection is not blocked |
| Commands.CommandsKeepSafe | src-tauri/src/commands/connections.rs:70-134 | every command run alone keeps blocked connections out of the connected set |
| Commands.AloneIsARun | src-tauri/src/commands/connections.rs:348-382 | running alone is one of the interleavings |
| Commands.GivingUpIsFailing | src-tauri/src/commands/connections.rs:70-82 | a command that finds its connection missing where it would ask the broker leaves the world as a failed call does |
| Commands.ConnectionForRequest | src-tauri/src/commands/connections.rs:70-82 | lets a request through exactly when the connection exists and is not blocked |
| Commands.RecordOutcome | src-tauri/src/commands/connections.rs:87-134 | a success leaves no attempts and no denials, a counted rejection adds one attempt with its reason, anything else -- an uncounted rejection too -- leaves the registry as it was; no other connection is touched |
| Commands.ConnectionConnect | src-tauri/src/commands/connections.rs:348-382 | one attempt counts afterwards if the broker rejected it and none if not, with no denials; connected if the broker was reached, else as before; ends where its steps end when run alone, with no blocked connection connected |
| Commands.ConnectionUpdate | src-tauri/src/commands/connections.rs:170-195 | likewise; a saved edit leaves no attempts and no denials, and touches nothing else |
| Commands.ConnectionDelete | src-tauri/src/commands/connections.rs:198-218 | likewise; nothing is remembered of a deleted connection |
| Commands.ConnectionDisconnect | src-tauri/src/commands/connections.rs:385-417 | likewise; disconnecting forgets no rejection |
| Commands.BrokerRequest | src-tauri/src/commands/connections.rs:440-507 | the broker is asked exactly when the connection exists and is not blocked; if so its answer has the effect of `RecordOutcome`, and if not nothing changes; and it ends where its steps end when run alone |
| Commands.PublishMessages | src-tauri/src/commands/publish.rs:50-131 | sent exactly when every gate is open: unblocked, connected, allowed, not denied, well formed; with an outcome it has the effect of `RecordPublish`, else nothing changes; ends where its steps end when run alone |
| Commands.RecordPublish | src-tauri/src/commands/publish.rs:104-131 | anything delivered leaves no attempts and no denials; then a refusal is remembered for its topic alone, a rejection counts, and nothing else leaves a trace |
| Varint.ReadVarint | backend/protobuf/src/wire.rs:42-62 | the loop computes the base-128 value of the first group, at most ten bytes, and its shift test never fires |
| Varint.VarintRoundTrip | backend/protobuf/src/wire.rs:37-62 | every 64-bit value is read back from its encoding, whatever follows, in at most ten bytes |
| Varint.RefusedExactly | backend/protobuf/src/wire.rs:42-62 | nothing is read exactly when none of the first ten bytes ends the group |
| Varint.DecodeStable | backend/protobuf/src/wire.rs:42-62 | bytes after a complete varint do not change what is read |
| Varint.ZigzagBits | backend/protobuf/src/wire.rs:64-68 | the exclusive or of the halved value with no bits or all bits is half of an even value and the complement of half an odd one |
| Varint.ZigzagRoundTrip | backend/protobuf/src/wire.rs:64-68 | every 64-bit signed integer survives zigzag |
| Varint.ZigzagOnto | backend/protobuf/src/wire.rs:64-68 | and every 64-bit value is the zigzag of exactly the integer it decodes to |
| Wire.DecodeFields | backend/protobuf/src/wire.rs:101-207 | the loop computes `DecodedFields`, at the cost `Work` counts |
| Wire.DecodeRaw | backend/protobuf/src/wire.rs:227-230 | the whole decoding, nested at most 33 deep |
| Wire.FieldListAppend | backend/protobuf/src/wire.rs:113-187 | the fields of a ++ b are those of a followed by those of b, whenever a decodes |
| Wire.DecodeConcatenation | backend/protobuf/src/wire.rs:113-206 | decoding a ++ b is decoding a and then folding in the fields of b |
| Wire.EachKeyHoldsItsOccurrences | backend/protobuf/src/wire.rs:189-203 | keys stand in order of first occurrence, each with all its values in wire order: one bare, several as an array |
| WireEncode.WrittenIsDecoded | backend/protobuf/src/wire.rs:101-230 | any message written with all four wire types, nested however deep, decodes to its own fields: a varint to its number, or beyond 2^53 with its signed reading, a byte string to a message if it parses as one and else to itself, a nested message to an object unless it is empty or 32 deep |
| WireEncode.EncodedReads | backend/protobuf/src/wire.rs:113-187 | at any depth the fields are found in order, each with its number and value |
| WireEncode.CutIsRefused | backend/protobuf/src/wire.rs:113-168 | a message that ends inside a field is refused, however many whole fields come before |
| WireEncode.BadKeyIsRefused | backend/protobuf/src/wire.rs:22-33 | so is one with a field numbered zero or of any other wire type, whatever follows |
| WireEncode.DepthIsReached | backend/protobuf/src/wire.rs:101-108 | and 32 messages around one another nest 33 objects |
| Wire.VarintValue | backend/protobuf/src/wire.rs:142-147 | a varint is itself as a JSON number exactly when below 2^53; beyond, its signed reading is the 64-bit integer congruent to it |
| Wire.Guess | backend/protobuf/src/wire.rs:92-97 | a run is an object exactly when it is not empty and parses to its last byte one level down, and otherwise the text it is |
| Wire.DecodedDepth | backend/protobuf/src/wire.rs:102-108 | what is decoded nests at most 33 objects |
| Wire.WorkBound | backend/protobuf/src/wire.rs:92-108 | at depth d at most (33 - d) bytes are parsed per byte of input, over all nested attempts, failed ones included |
| Wire.WorkCovers | backend/protobuf/src/wire.rs:101-187 | and every byte of what is decoded is parsed |
| ConfluentHeader.DetectConfluentHeader | backend/protobuf/src/lib.rs:50-85 | a header is found exactly where one is framed: a zero byte, the id in four bytes, and a path spelled in varints; anything else is taken for unframed |
| ConfluentHeader.DetectedExactly | backend/protobuf/src/lib.rs:50-85 | the same of `Detected`: a header is found if and only if its bytes are a zero, its id most significant byte first, and either a zero varint or a length from 1 to 32 and that many 32-bit indexes, up to the body |
| ConfluentHeader.HeaderRoundTrip | backend/protobuf/src/lib.rs:50-85 | for every 32-bit id, every path of 1 to 32 indexes and every body, detection returns the id, the path and the body's offset |
| ConfluentHeader.FramedPathRoundTrip | backend/protobuf/src/lib.rs:57-80 | the path alone, the single-zero shorthand included |
| ConfluentHeader.PathInRange | backend/protobuf/src/lib.rs:70-80 | no index outside 32 bits is ever returned |
| Assignment.DecodeConsumerProtocolAssignment | backend/kafka/src/assignment.rs:18-38 | the nested loops over the cursor compute `Decoded` |
| Assignment.AssignmentRoundTrip | backend/kafka/src/assignment.rs:9-38 | any topics with partitions are read back as their pairs in order, whatever user data follows |
| Assignment.PairsInOrder | backend/kafka/src/assignment.rs:25-37 | topic after topic, each topic's partitions in order, under its name |
| Assignment.TruncationRejected | backend/kafka/src/assignment.rs:45-83 | every proper prefix of an encoding is refused |
| Assignment.HeadReads | backend/kafka/src/assignment.rs:18-38 | after version and count the topics decide: all of them are read, or nothing is |
| Assignment.TopicsThen | backend/kafka/src/assignment.rs:25-37 | after the topics written out, what follows decides |
| Assignment.NullTopics | backend/kafka/src/assignment.rs:21-23 | a null array of topics is an assignment of nothing |
| Assignment.NullPartitions | backend/kafka/src/assignment.rs:28-31 | a topic with a null array of partitions owns nothing, and those after it are read |
| Assignment.BadNameFails | backend/kafka/src/assignment.rs:66-83 | a null topic name is refused, and so is one that is not text |
| Bytes.SignedRoundTrip | backend/kafka/src/assignment.rs:46-64 | any two's-complement integer of any width survives being written most significant byte first |
| Bytes.SignedFits | backend/kafka/src/assignment.rs:46-64 | and whatever is read lies within its width |
| Assignment.Cursor.ReadInt16 | backend/kafka/src/assignment.rs:46-54 | reads two bytes in big-endian two's complement and moves past them, or fails at the end |
| Assignment.Cursor.ReadInt32 | backend/kafka/src/assignment.rs:56-64 | the same for four bytes |
| Assignment.Cursor.ReadString | backend/kafka/src/assignment.rs:66-83 | a length, and that many bytes if they are there and are text |
| Flatten.FlattenJsonTree | frontend/src/components/jsonTreeLines.ts:131-192 | each row is that of a node on screen, as deep as its path has slashes, and each such node has one; paths are distinct; no other document has the same rows if and only if every container that holds anything is shown; and the widest rows |
| Flatten.WidestLines | frontend/src/components/jsonTreeLines.ts:203-216 | three rows, or all there are, widest first at 14 pixels a level and 8 a character, and no row left out is estimated wider than one taken |
| RowNodes.RowsAreNodes | frontend/src/components/jsonTreeLines.ts:131-192 | every row tells of the node its path leads to -- value or kind, key, number of entries, whether it is open -- at as many levels as its path has slashes, with the number of characters drawn as its weight (two or three more for a closed container); and every node with nothing closed above it has its row |
| RowNodes.DepthIsSlashes | frontend/src/components/jsonTreeLines.ts:169-175 | a path has as many slashes as levels |
| RowMeaning.RowsDetermineExactly | frontend/src/components/jsonTreeLines.ts:131-192 | to any reader: the rows determine the document if and only if every container that holds anything is shown; with nothing closed, that is if and only if at most 200 of these stand inside one another |
| RowMeaning.AnotherLooksTheSame | frontend/src/components/jsonTreeLines.ts:148-168 | where something is hidden, another document has the same rows |
| JsonTree.FlatteningIsInvertible | frontend/src/components/jsonTreeLines.ts:131-192 | a reader that goes row by row rebuilds the document if and only if that is so |
| JsonTree.ShownExactly | frontend/src/components/jsonTreeLines.ts:148-150 | with nothing closed, all is shown exactly when no container that holds anything lies 200 or more levels deep |
| JsonTree.PathsDistinct | frontend/src/components/jsonTreeLines.ts:134-187 | no two nodes shown share a path, whatever is open or closed |
| JsonTree.CollapseIsLocal | frontend/src/components/jsonTreeLines.ts:148-187 | closing a visible container marks its open row, removes the rows down to its own close row, and changes nothing else |
| JsonTree.EscapeRoundTrip | frontend/src/components/jsonTreeLines.ts:199-201 | escaping a key can be undone (section 3 of RFC 6901) |
| JsonTree.EscapeInjective | frontend/src/components/jsonTreeLines.ts:194-201 | so no two keys escape alike |
| JsonTree.EscapeNoSlash | frontend/src/components/jsonTreeLines.ts:194-201 | and no escaped key holds the path separator |
| RowKeys.UniqueKeysExactly | frontend/src/components/jsonTreeLines.ts:136-186 | the rows' React keys are unique if and only if no shown object holds an open container k beside a key `k close` |
| RowKeys.KeysCanCollide | frontend/src/components/jsonTreeLines.ts:178-186 | such a document exists |
| Migration.AdoptLegacyAppData | backend/core/src/data_migration.rs:53-96 | nothing happens exactly when there is a database here, or no directory of the old name beside, or no old database in it; it stops short exactly when the machine stops at a point it passes; then the disk is settled or still to be adopted, an interrupted copy leaving whatever it leaves, else settled; the files reported are those copied, by name and in order |
| Migration.LaunchUntilAdopted | backend/core/src/data_migration.rs:53-96 | over any number of interrupted launches the same holds of the disk as it was at first, and one launch that is not interrupted is enough |
| Migration.AdoptionIsAllOrNothing | backend/core/src/data_migration.rs:44-96 | a new database that was not there before equals the old one, with every old sidecar whole beside it; the old directory is unchanged |
| Migration.UnfinishedSettles | backend/core/src/data_migration.rs:73-92 | after any interruption a later run reaches the state an uninterrupted one would have |
| Migration.SurvivesAgain | backend/core/src/data_migration.rs:53-96 | launches compose |
| Migration.SettledMeans | backend/core/src/data_migration.rs:69-95 | the settled disk, file by file: database, sidecars, no temporary file, nothing else touched |
| Migration.SettledIsAdopted | backend/core/src/data_migration.rs:69-95 | the old database and sidecars under their new names, by name, no temporary file, and the list of them in the order they were copied |
| Migration.SidecarsMatchExactly | backend/core/src/data_migration.rs:77-84 | the new sidecars are exactly the old ones if and only if no stray one lay in the new directory |
| Migration.StraySidecarStays | backend/core/src/data_migration.rs:77-84 | a disk where a stray sidecar ends up beside the adopted database |
| Migration.LegacyDirFor | backend/core/src/data_migration.rs:105-110 | a sibling directory under the old identifier, except for the old identifier itself |
| AvroText.DecimalTextRoundTrip | backend/avro/src/lib.rs:332-349 | reading a rendered decimal gives back the stored integer over exactly the scale's fraction digits, for every integer and scale |
| AvroText.DecimalTextInjective | backend/avro/src/lib.rs:332-349 | no two decimals are written alike |
| AvroText.DecimalTextCanonical | backend/avro/src/lib.rs:332-349 | no digit too many in front, exactly the scale's digits after the point, and a minus sign exactly for the negative |
| AvroText.TimeRoundTrip | backend/avro/src/lib.rs:364-420 | a count within the day becomes a clock time of 12 or 15 characters that reads back as that count; any other stays a number |
| Decimal.DecimalRoundTrip | backend/avro/src/lib.rs:333-333 | decimal digits read back as the number they were written from |
| Decimal.NoLeadingZero | backend/avro/src/lib.rs:333-333 | no zero in front, except for zero itself |

## Left out

* librdkafka, tokio, Tauri, SQLite, TLS, SASL, the Schema Registry client and
  metadata calls: foreign code, present only as the environment's free choices.
* Error wording, logging, base64, hex previews and the rendering of floats: no
  property depends on them. Whether bytes are text is a parameter (`isUtf8`) in
  `Assignment`; in `Wire` one kind of value stands for text and hex preview.
* The limits of 64-bit counters: offsets, the byte count, `next_shard`
  (`wrapping_add`) and idle time are unbounded integers here. Field lengths are
  compared without the width of `usize`.
* The early returns of `fetch_messages` when Stop is pressed before the poll loop
  (backend/kafka/src/client.rs:1079, 1261, 1290) and the refusal of unknown
  partitions (1083-1089): they return an empty result or an error.
* The broker may stay silent for ever or answer with errors; a poll loop that
  goes quiet returns a prefix. Assumed of it: a partition's records come in the
  order of their offsets, none is skipped, and once an end of partition has been
  reported no record below the end that was planned follows. Ends may be
  reported more than once.
* A forwarder that panics (src-tauri/src/commands/connections.rs:678-681).
* `decide_decode_strategy`, `message_at`, `sole_message`,
  `resolve_message` and the schema cache: short case analyses or library calls.
* Publishing beyond its gates and its verdicts, connection import and export, tab
  order, client pools, configuration builders, and the user interface.
* Cancellation.FetchCancellations.Begin: request ids are never reused in the
  interleaved model, as the frontend generates a fresh one for each fetch.
* Flatten.FlattenJsonTree: numbers and booleans are their printed text, and an
  object's entries come in the order `Object.entries` gives them.
* Migration.AdoptLegacyAppData: a rename is atomic and a finished copy is on
  disk; nobody else writes to either directory between launches. Directory
  creation and permissions are not modelled, nor are paths that are not text.
* Commands.BrokerRequest: settings read from the database are a yes or no.
* AvroText.TimeRoundTrip: dates and timestamps go through a calendar library
  that is not part of this model.
