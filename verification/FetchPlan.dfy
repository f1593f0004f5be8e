/** Planning a fetch (backend/kafka/src/client.rs and messages.rs): which
    offsets to read from each partition, how many messages, and which consumer
    reads which partition. */
module FetchPlan {
  import opened Common
  import Division
  import Budget

  const DEFAULT_MESSAGE_CAP := 100
  const MAX_FETCH_SHARDS := 8
  const MIB := 1024 * 1024
  const SHARD_PREFETCH_CEILING_BYTES := 128 * MIB

  /** What the user filtered by. `fromOffsets` and `toOffsets` are the broker's
      raw answers for the two timestamps, when these are set: a partition may
      be missing from them, or carry a negative placeholder. */
  datatype Filter = Filter(
    offset: Option<int>,
    fromOffsets: Option<map<int, int>>,
    toOffsets: Option<map<int, int>>,
    maxMessagesPerPartition: Option<nat>,
    maxTotalMessages: Option<nat>)
  {
    predicate PinsStart() {
      offset.Some? || fromOffsets.Some?
    }
  }

  datatype Watermarks = Watermarks(low: int, high: int)

  datatype Plan = Plan(
    starts: map<int, int>,
    ends: map<int, int>,
    limits: map<int, int>,
    totalMatching: int)

  /** `clamp_offset`. */
  function ClampOffset(offset: int, low: int, high: int): int {
    if offset < low then low else if offset > high then high else offset
  }

  /** `resolve_offsets_by_timestamp` for one partition: the broker's answer, or
      the end of the partition when the time is past everything in it. */
  function ResolvedOffset(raw: map<int, int>, p: int, high: int): int {
    if p in raw && raw[p] >= 0 then raw[p] else high
  }

  /** `combined_start_offset`: both constraints apply, so the later one wins. */
  function CombinedStartOffset(explicit: Option<int>, fromTimestamp: Option<int>): Option<int> {
    match (explicit, fromTimestamp)
    case (Some(a), Some(b)) => Some(Max(a, b))
    case (Some(a), None) => Some(a)
    case (None, Some(b)) => Some(b)
    case (None, None) => None
  }

  /** Where the filter puts a partition's start, before any cap. */
  function FilterStart(filter: Filter, w: Watermarks, p: int): int {
    var explicit := if filter.offset.Some? then Some(ClampOffset(filter.offset.value, w.low, w.high)) else None;
    var fromTimestamp :=
      if filter.fromOffsets.Some? then Some(ResolvedOffset(filter.fromOffsets.value, p, w.high)) else None;
    CombinedStartOffset(explicit, fromTimestamp).GetOr(w.low)
  }

  function EndOffset(filter: Filter, w: Watermarks, p: int): int {
    if filter.toOffsets.Some? then ResolvedOffset(filter.toOffsets.value, p, w.high) else w.high
  }

  /** `partition_limits`: what lies in range, up to an optional cap. */
  function PartitionLimits(starts: map<int, int>, ends: map<int, int>, cap: Option<nat>): (limits: map<int, int>)
    requires starts.Keys <= ends.Keys
  {
    map p | p in starts :: var available := Max(ends[p] - starts[p], 0);
                           if cap.Some? then Min(available, cap.value) else available
  }

  /** `newest_first_start_offset`. */
  function NewestFirstStartOffset(low: int, end: int, take: int): int {
    Max(end - take, low)
  }

  /** Reading `limit` offsets from `start` stays inside the filter's range, and
      without a pinned start it is exactly the newest end of that range. */
  ghost predicate SoundAt(filter: Filter, w: Watermarks, p: int, start: int, end: int, limit: int) {
    && end == EndOffset(filter, w, p)
    && 0 <= limit <= filter.maxMessagesPerPartition.GetOr(DEFAULT_MESSAGE_CAP)
    && (limit > 0 ==>
          && FilterStart(filter, w, p) <= start
          && start + limit <= end
          && start == (if filter.PinsStart() then FilterStart(filter, w, p) else end - limit))
  }

  ghost predicate Sound(filter: Filter, watermarks: map<int, Watermarks>, plan: Plan) {
    && plan.limits.Keys == plan.starts.Keys == plan.ends.Keys == watermarks.Keys
    && forall p {:trigger plan.limits[p]} :: p in watermarks ==>
         SoundAt(filter, watermarks[p], p, plan.starts[p], plan.ends[p], plan.limits[p])
  }

  /** Offset `o` is not before anything the filter says about where to start: an
      explicit offset, brought into the partition's range, and a from-time, which
      is past everything there unless the broker names an offset for it. */
  ghost predicate NotBefore(filter: Filter, w: Watermarks, p: int, o: int) {
    && (filter.offset.Some? ==> w.low <= o && (filter.offset.value <= o || w.high <= o))
    && (filter.fromOffsets.Some? ==>
          var raw := filter.fromOffsets.value;
          if p in raw && raw[p] >= 0 then raw[p] <= o else w.high <= o)
    && (filter.offset.None? && filter.fromOffsets.None? ==> w.low <= o)
  }

  /** Offset `o` meets the whole filter: it also lies before the to-time, if there
      is one and the broker names an offset for it. */
  ghost predicate Matches(filter: Filter, w: Watermarks, p: int, o: int) {
    && NotBefore(filter, w, p, o)
    && if filter.toOffsets.Some? && p in filter.toOffsets.value && filter.toOffsets.value[p] >= 0
       then o < filter.toOffsets.value[p] else o < w.high
  }

  /** The offsets that match are the `count` from `first` on. */
  ghost predicate MatchRun(filter: Filter, w: Watermarks, p: int, first: int, count: int) {
    0 <= count && forall o :: Matches(filter, w, p, o) <==> first <= o < first + count
  }

  /** What `clamp` asks for: it panics on an empty range. */
  predicate Clampable(filter: Filter, w: Watermarks) {
    filter.offset.Some? ==> w.low <= w.high
  }

  /** Both start constraints hold at the start, and nowhere before it; an
      explicit offset is taken as it is where the partition has it, and as the
      nearest one it has elsewhere. */
  lemma StartIsEarliestAdmitted(filter: Filter, w: Watermarks, p: int, o: int)
    ensures Clampable(filter, w) ==> (NotBefore(filter, w, p, o) <==> FilterStart(filter, w, p) <= o)
    ensures filter.offset.Some? && w.low <= filter.offset.value <= w.high ==>
              ClampOffset(filter.offset.value, w.low, w.high) == filter.offset.value
    ensures filter.offset.Some? && filter.offset.value < w.low ==>
              ClampOffset(filter.offset.value, w.low, w.high) == w.low
    ensures w.low <= w.high && filter.offset.Some? && w.high < filter.offset.value ==>
              ClampOffset(filter.offset.value, w.low, w.high) == w.high
  {
  }

  /** The matching offsets are those from the filter's start up to its end, and
      `MatchingAt` counts them. */
  lemma MatchingIsCounted(filter: Filter, w: Watermarks, p: int)
    requires Clampable(filter, w)
    ensures var count := MatchingAt(filter, w, p);
            MatchRun(filter, w, p, FilterStart(filter, w, p), count)
    ensures MatchingAt(filter, w, p) > 0 ==>
              FilterStart(filter, w, p) + MatchingAt(filter, w, p) == EndOffset(filter, w, p)
  {
    forall o
      ensures Matches(filter, w, p, o) <==> FilterStart(filter, w, p) <= o < EndOffset(filter, w, p)
    {
      StartIsEarliestAdmitted(filter, w, p, o);
    }
  }

  /** Of the matching offsets of a partition, `limit` are read: the first ones if
      the filter says where to start, and the last ones if it does not. */
  ghost predicate ReadsMatches(filter: Filter, w: Watermarks, p: int, matching: int, start: int, limit: int) {
    && 0 <= limit <= matching
    && exists first :: MatchRun(filter, w, p, first, matching)
                       && (limit > 0 ==> start == if filter.PinsStart() then first else first + matching - limit)
  }

  /** What the two times do to a partition's range. A from-time past everything in
      it leaves nothing to read, unless the to-time lies later still. */
  ghost predicate TimesHonoured(filter: Filter, w: Watermarks, p: int, matching: int, start: int, end: int, limit: int)
  {
    && (filter.fromOffsets.Some? ==>
          var raw := filter.fromOffsets.value;
          if p in raw && raw[p] >= 0
          then raw[p] <= start && (filter.offset.None? ==> start == raw[p])
          else w.high <= start && (end <= w.high ==> limit == 0 == matching))
    && end == (if filter.toOffsets.Some? && p in filter.toOffsets.value && filter.toOffsets.value[p] >= 0
               then filter.toOffsets.value[p] else w.high)
    && (!filter.PinsStart() ==> w.low <= start)
  }

  /** How many offsets of a partition the filter matches. */
  function MatchingAt(filter: Filter, w: Watermarks, p: int): int {
    Max(EndOffset(filter, w, p) - FilterStart(filter, w, p), 0)
  }

  /** The same, up to the per-partition cap. */
  function CappedAt(filter: Filter, w: Watermarks, p: int): int {
    Min(MatchingAt(filter, w, p), filter.maxMessagesPerPartition.GetOr(DEFAULT_MESSAGE_CAP))
  }

  ghost function Matching(filter: Filter, watermarks: map<int, Watermarks>): map<int, int> {
    map p | p in watermarks :: MatchingAt(filter, watermarks[p], p)
  }

  ghost function Capped(filter: Filter, watermarks: map<int, Watermarks>): map<int, int> {
    map p | p in watermarks :: CappedAt(filter, watermarks[p], p)
  }

  /** Where a partition's reading starts, once its share is known. */
  function StartOffset(filter: Filter, w: Watermarks, p: int, take: int): int {
    if filter.PinsStart() then FilterStart(filter, w, p)
    else NewestFirstStartOffset(w.low, EndOffset(filter, w, p), take)
  }

  lemma StartIsSound(filter: Filter, w: Watermarks, p: int, limit: int)
    requires 0 <= limit
    requires limit <= CappedAt(filter, w, p)
    ensures SoundAt(filter, w, p, StartOffset(filter, w, p, limit), EndOffset(filter, w, p), limit)
  {
  }

  /** The shares of a split never leave their windows. */
  lemma LimitsWithinWindows(windows: map<int, int>, maxTotal: Option<nat>, limits: map<int, int>)
    requires forall p :: p in windows ==> 0 <= windows[p]
    requires maxTotal.None? ==> limits == windows
    requires maxTotal.Some? ==> Budget.IsSplit(windows, maxTotal.value, limits)
    ensures limits.Keys == windows.Keys
    ensures forall p :: p in windows ==> 0 <= limits[p] <= windows[p]
    ensures maxTotal.Some? ==> SumValues(limits) == Min(maxTotal.value, SumValues(windows))
  {
    if maxTotal.Some? {
      Budget.SplitExact(windows, maxTotal.value, limits);
      Budget.ClampedSame(windows);
    }
  }

  lemma PlanIsSound(filter: Filter, watermarks: map<int, Watermarks>, plan: Plan)
    requires plan.limits.Keys == plan.starts.Keys == plan.ends.Keys == watermarks.Keys
    requires forall p :: p in watermarks ==> 0 <= plan.limits[p] <= CappedAt(filter, watermarks[p], p)
    requires forall p :: p in watermarks ==> plan.ends[p] == EndOffset(filter, watermarks[p], p)
    requires forall p :: p in watermarks ==> plan.starts[p] == StartOffset(filter, watermarks[p], p, plan.limits[p])
    ensures Sound(filter, watermarks, plan)
  {
    forall p | p in watermarks
      ensures SoundAt(filter, watermarks[p], p, plan.starts[p], plan.ends[p], plan.limits[p])
    {
      StartIsSound(filter, watermarks[p], p, plan.limits[p]);
    }
  }

  /** The planning half of `fetch_messages`, over the partitions whose
      watermarks have been read. */
  method PlanFetch(watermarks: map<int, Watermarks>, filter: Filter) returns (plan: Plan)
    ensures Sound(filter, watermarks, plan)
    ensures plan.totalMatching == SumValues(Matching(filter, watermarks))
    ensures filter.maxTotalMessages.None? ==> plan.limits == Capped(filter, watermarks)
    ensures filter.maxTotalMessages.Some? ==>
              && Budget.IsSplit(Capped(filter, watermarks), filter.maxTotalMessages.value, plan.limits)
              && SumValues(plan.limits) == Min(filter.maxTotalMessages.value, SumValues(Capped(filter, watermarks)))
    ensures HonoursFilter(filter, watermarks, plan)
  {
    var windows, totalMatching := MeasureWindows(watermarks, filter);
    var limits := Budget.DistributeTotalBudget(windows, filter.maxTotalMessages);
    CappedNonNegative(filter, watermarks);
    LimitsWithinWindows(windows, filter.maxTotalMessages, limits);
    var ends := map p | p in watermarks :: EndOffset(filter, watermarks[p], p);
    var starts := map p | p in watermarks :: StartOffset(filter, watermarks[p], p, limits[p]);
    plan := Plan(starts, ends, limits, totalMatching);
    PlanIsSound(filter, watermarks, plan);
    PlanHonoursFilter(filter, watermarks, plan);
  }

  /** The plan, in terms of the filter, the broker's answers and the watermarks:
      per partition, how many offsets match and which of them are read. */
  ghost predicate HonoursFilter(filter: Filter, watermarks: map<int, Watermarks>, plan: Plan) {
    && plan.limits.Keys == plan.starts.Keys == plan.ends.Keys == watermarks.Keys
    && forall p {:trigger plan.limits[p]} :: p in watermarks ==>
         PartitionHonours(filter, watermarks[p], p, Matching(filter, watermarks)[p],
                          plan.starts[p], plan.ends[p], plan.limits[p])
  }

  ghost predicate PartitionHonours(filter: Filter, w: Watermarks, p: int, matching: int,
                                   start: int, end: int, limit: int)
  {
    && TimesHonoured(filter, w, p, matching, start, end, limit)
    && (Clampable(filter, w) ==> ReadsMatches(filter, w, p, matching, start, limit))
    && limit <= Min(matching, filter.maxMessagesPerPartition.GetOr(100))
    && (filter.maxTotalMessages.None? ==> limit == Min(matching, filter.maxMessagesPerPartition.GetOr(100)))
  }

  lemma PlanHonoursFilter(filter: Filter, watermarks: map<int, Watermarks>, plan: Plan)
    requires plan.limits.Keys == plan.starts.Keys == plan.ends.Keys == watermarks.Keys
    requires forall p :: p in watermarks ==> 0 <= plan.limits[p] <= CappedAt(filter, watermarks[p], p)
    requires filter.maxTotalMessages.None? ==> plan.limits == Capped(filter, watermarks)
    requires forall p :: p in watermarks ==> plan.ends[p] == EndOffset(filter, watermarks[p], p)
    requires forall p :: p in watermarks ==> plan.starts[p] == StartOffset(filter, watermarks[p], p, plan.limits[p])
    ensures HonoursFilter(filter, watermarks, plan)
  {
    forall p | p in watermarks
      ensures PartitionHonours(filter, watermarks[p], p, MatchingAt(filter, watermarks[p], p),
                               plan.starts[p], plan.ends[p], plan.limits[p])
    {
      StartHonours(filter, watermarks[p], p, plan.limits[p]);
    }
  }

  lemma StartHonours(filter: Filter, w: Watermarks, p: int, limit: int)
    requires 0 <= limit
    requires limit <= CappedAt(filter, w, p) && (filter.maxTotalMessages.None? ==> limit == CappedAt(filter, w, p))
    ensures PartitionHonours(filter, w, p, MatchingAt(filter, w, p), StartOffset(filter, w, p, limit),
                             EndOffset(filter, w, p), limit)
  {
    if Clampable(filter, w) {
      MatchingIsCounted(filter, w, p);
    }
  }

  lemma CappedNonNegative(filter: Filter, watermarks: map<int, Watermarks>)
    ensures forall p :: p in watermarks ==> 0 <= Capped(filter, watermarks)[p] == CappedAt(filter, watermarks[p], p)
  {
  }

  /** How much of each partition is in range, capped and uncapped. */
  method MeasureWindows(watermarks: map<int, Watermarks>, filter: Filter)
    returns (windows: map<int, int>, totalMatching: int)
    ensures windows == Capped(filter, watermarks)
    ensures totalMatching == SumValues(Matching(filter, watermarks))
  {
    var filterStarts := map p | p in watermarks :: FilterStart(filter, watermarks[p], p);
    var ends := map p | p in watermarks :: EndOffset(filter, watermarks[p], p);
    var matching := PartitionLimits(filterStarts, ends, None);
    assert matching == Matching(filter, watermarks);
    totalMatching := AddUp(matching);
    var cap := filter.maxMessagesPerPartition.GetOr(DEFAULT_MESSAGE_CAP);
    windows := PartitionLimits(filterStarts, ends, Some(cap));
  }

  // ----- Consumers

  function PerShardPrefetch(maxMessageSizeBytes: nat): nat {
    Max(maxMessageSizeBytes * 2, 8 * MIB)
  }

  /** `fetch_shard_count`: never idle shards, never more prefetch memory than
      the ceiling unless one consumer alone needs it. */
  function FetchShardCount(partitionsWithWork: nat, maxMessageSizeBytes: nat): (count: nat)
    ensures 1 <= count <= MAX_FETCH_SHARDS
    ensures partitionsWithWork > 0 ==> count <= partitionsWithWork
    ensures count * PerShardPrefetch(maxMessageSizeBytes) <= SHARD_PREFETCH_CEILING_BYTES || count == 1
    // and as many as that allows
    ensures count < MAX_FETCH_SHARDS && count < partitionsWithWork ==>
              (count + 1) * PerShardPrefetch(maxMessageSizeBytes) > SHARD_PREFETCH_CEILING_BYTES
    // -- which is eight, or what two of the largest messages each leave of 128 MiB
    ensures count <= 8 && (count > 1 ==> count * (2 * maxMessageSizeBytes) <= 134_217_728)
    ensures count < 8 && count < partitionsWithWork ==> (count + 1) * (2 * maxMessageSizeBytes) > 134_217_728
  {
    if partitionsWithWork == 0 then 1
    else
      var perShard := PerShardPrefetch(maxMessageSizeBytes);
      var affordable := Max(SHARD_PREFETCH_CEILING_BYTES / perShard, 1);
      Affordable(perShard, Min(Min(partitionsWithWork, MAX_FETCH_SHARDS), affordable));
      OneMoreTooMany(perShard, affordable);
      FloorIsIdle(maxMessageSizeBytes, Min(Min(partitionsWithWork, MAX_FETCH_SHARDS), affordable));
      Min(Min(partitionsWithWork, MAX_FETCH_SHARDS), affordable)
  }

  lemma Affordable(perShard: nat, count: nat)
    requires perShard > 0 && 1 <= count <= Max(SHARD_PREFETCH_CEILING_BYTES / perShard, 1)
    ensures count * perShard <= SHARD_PREFETCH_CEILING_BYTES || count == 1
  {
    Division.Bounds(SHARD_PREFETCH_CEILING_BYTES, perShard);
    if count > 1 {
      Division.ScaleUp(count, SHARD_PREFETCH_CEILING_BYTES / perShard, perShard);
    }
  }

  /** The floor under the prefetch never binds: eight times it is half the ceiling. */
  lemma FloorIsIdle(maxMessageSizeBytes: nat, count: nat)
    requires 1 <= count <= 8
    ensures count * PerShardPrefetch(maxMessageSizeBytes) <= SHARD_PREFETCH_CEILING_BYTES <==>
            count * (2 * maxMessageSizeBytes) <= 134_217_728
    ensures count < 8 ==> ((count + 1) * PerShardPrefetch(maxMessageSizeBytes) <= SHARD_PREFETCH_CEILING_BYTES <==>
                           (count + 1) * (2 * maxMessageSizeBytes) <= 134_217_728)
  {
    if PerShardPrefetch(maxMessageSizeBytes) == 8 * MIB {
      Division.ScaleUp(count, 8, 8 * MIB);
      Division.ScaleUp(2 * maxMessageSizeBytes, 8 * MIB, count);
      Division.ScaleUp(2 * maxMessageSizeBytes, 8 * MIB, count + 1);
    }
  }

  lemma OneMoreTooMany(perShard: nat, count: nat)
    requires perShard > 0 && count >= SHARD_PREFETCH_CEILING_BYTES / perShard
    ensures (count + 1) * perShard > SHARD_PREFETCH_CEILING_BYTES
  {
    var q := SHARD_PREFETCH_CEILING_BYTES / perShard;
    Division.Bounds(SHARD_PREFETCH_CEILING_BYTES, perShard);
    Division.ScaleUp(q + 1, count + 1, perShard);
    assert (q + 1) * perShard == q * perShard + perShard;
  }

  /** Which shard the partition at position `i` is dealt to, and as its
      how-manieth partition. */
  function Shard(i: nat, n: nat): (s: nat)
    requires n > 0
    ensures s < n
  {
    i % n
  }

  function Slot(i: nat, n: nat): nat
    requires n > 0
  {
    i / n
  }

  /** Round-robin dealing: each position goes to its shard and slot, and there
      is nothing else. */
  ghost predicate Dealt(working: seq<int>, shards: seq<seq<int>>, n: nat)
    requires n > 0
  {
    DealtUpTo(working, |working|, shards, n)
  }

  ghost predicate DealtUpTo(working: seq<int>, count: nat, shards: seq<seq<int>>, n: nat)
    requires n > 0 && count <= |working|
  {
    && |shards| == n
    && (forall s {:trigger shards[s]} :: 0 <= s < n ==> |shards[s]| == HandSize(count, s, n))
    && forall i {:trigger working[i]} :: 0 <= i < count ==> HeldAt(shards, Shard(i, n), Slot(i, n), working[i])
  }

  ghost predicate HeldAt(shards: seq<seq<int>>, s: nat, k: nat, p: int) {
    s < |shards| && k < |shards[s]| && shards[s][k] == p
  }

  function HandSize(count: nat, s: nat, n: nat): nat
    requires n > 0
  {
    Slot(count, n) + if s < Shard(count, n) then 1 else 0
  }

  method DealShards(working: seq<int>, n: nat) returns (shards: seq<seq<int>>)
    requires n > 0
    ensures Dealt(working, shards, n)
  {
    shards := seq(n, _ => []);
    NoHands(n);
    var position := 0;
    while position < |working|
      invariant 0 <= position <= |working|
      invariant DealtUpTo(working, position, shards, n)
    {
      DealOne(working, position, shards, n);
      var s := Shard(position, n);
      shards := shards[s := shards[s] + [working[position]]];
      position := position + 1;
    }
  }

  lemma NoHands(n: nat)
    requires n > 0
    ensures forall s :: 0 <= s < n ==> HandSize(0, s, n) == 0
  {
    Division.Unique(0, n, 0, 0);
  }

  lemma DealOne(working: seq<int>, position: nat, shards: seq<seq<int>>, n: nat)
    requires n > 0 && position < |working| && DealtUpTo(working, position, shards, n)
    ensures var s := Shard(position, n);
            DealtUpTo(working, position + 1, shards[s := shards[s] + [working[position]]], n)
  {
    var s := Shard(position, n);
    var shards' := shards[s := shards[s] + [working[position]]];
    NextHand(position, n);
    assert |shards[s]| == HandSize(position, s, n);
    forall i | 0 <= i < position + 1
      ensures HeldAt(shards', Shard(i, n), Slot(i, n), working[i])
    {
      if i < position {
        StillHeld(shards, s, working[position], Shard(i, n), Slot(i, n), working[i]);
      }
    }
  }

  lemma StillHeld(shards: seq<seq<int>>, s: nat, more: int, t: nat, k: nat, p: int)
    requires s < |shards| && HeldAt(shards, t, k, p)
    ensures HeldAt(shards[s := shards[s] + [more]], t, k, p)
  {
  }

  lemma NextHand(i: nat, n: nat)
    requires n > 0
    ensures HandSize(i, Shard(i, n), n) == Slot(i, n)
    ensures forall s :: 0 <= s < n ==> HandSize(i + 1, s, n) == HandSize(i, s, n) + if s == Shard(i, n) then 1 else 0
  {
    Division.Identity(i, n);
    if i % n + 1 < n {
      Division.Unique(i + 1, n, i / n, i % n + 1);
    } else {
      assert (i / n + 1) * n == i / n * n + n;
      Division.Unique(i + 1, n, i / n + 1, 0);
    }
  }

  /** Balanced: two shards differ by at most one partition, and no shard is
      left without one as long as there are enough to go round. */
  lemma DealtEvenly(working: seq<int>, shards: seq<seq<int>>, n: nat, s: nat, t: nat)
    requires n > 0 && Dealt(working, shards, n) && s < n && t < n
    ensures |shards[s]| <= |shards[t]| + 1
    ensures n <= |working| ==> |shards[s]| > 0
  {
    if n <= |working| {
      Division.QuotientAtLeast(|working|, n, 1);
    }
  }

  /** Where entry `k` of shard `s` came from. */
  lemma SlotOrigin(count: nat, n: nat, s: nat, k: nat)
    requires n > 0 && s < n && k < HandSize(count, s, n)
    ensures k * n + s < count && Shard(k * n + s, n) == s && Slot(k * n + s, n) == k
  {
    Division.Identity(count, n);
    Division.Unique(k * n + s, n, k, s);
    assert (k + 1) * n == k * n + n;
    if k < count / n {
      Division.ScaleUp(k + 1, count / n, n);
    }
  }

  /** Entry `k` of shard `s` is the partition dealt at its origin. */
  lemma EntryOrigin(working: seq<int>, shards: seq<seq<int>>, n: nat, s: nat, k: nat) returns (i: nat)
    requires n > 0 && Dealt(working, shards, n) && s < n && k < |shards[s]|
    ensures i < |working| && shards[s][k] == working[i] && Shard(i, n) == s && Slot(i, n) == k
    ensures i == k * n + s
  {
    i := k * n + s;
    SlotOrigin(|working|, n, s, k);
    assert HeldAt(shards, s, k, working[i]);
  }

  /** No two entries are the same partition. */
  lemma EntriesDiffer(working: seq<int>, shards: seq<seq<int>>, n: nat, s: nat, k: nat, t: nat, l: nat)
    requires n > 0 && Dealt(working, shards, n) && s < n && k < |shards[s]| && t < n && l < |shards[t]|
    requires forall a, b :: 0 <= a < b < |working| ==> working[a] != working[b]
    requires shards[s][k] == shards[t][l]
    ensures s == t && k == l
  {
    var i := EntryOrigin(working, shards, n, s, k);
    var j := EntryOrigin(working, shards, n, t, l);
    assert i == j;
  }

  /** Each working partition is read by exactly one consumer, once, and no
      consumer reads anything else. */
  lemma DealtExactlyOnce(working: seq<int>, shards: seq<seq<int>>, n: nat)
    requires n > 0 && Dealt(working, shards, n)
    requires forall a, b :: 0 <= a < b < |working| ==> working[a] != working[b]
    ensures forall i :: 0 <= i < |working| ==> HeldAt(shards, Shard(i, n), Slot(i, n), working[i])
    ensures forall s, k :: 0 <= s < n && 0 <= k < |shards[s]| ==> shards[s][k] in working
    ensures forall s, k, t, l ::
              (0 <= s < n && 0 <= k < |shards[s]| && 0 <= t < n && 0 <= l < |shards[t]| && shards[s][k] == shards[t][l])
              ==> s == t && k == l
  {
    forall s, k | 0 <= s < n && 0 <= k < |shards[s]|
      ensures shards[s][k] in working
    {
      var i := EntryOrigin(working, shards, n, s, k);
    }
    forall s, k, t, l | 0 <= s < n && 0 <= k < |shards[s]| && 0 <= t < n && 0 <= l < |shards[t]|
                        && shards[s][k] == shards[t][l]
      ensures s == t && k == l
    {
      EntriesDiffer(working, shards, n, s, k, t, l);
    }
  }
}
