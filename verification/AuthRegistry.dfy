/** What the app remembers about each connection's credentials
    (backend/core/src/registry.rs): who is connected, how often each was
    rejected in a row, and which topics it may not write to. Three fields
    behind three locks. */
module AuthRegistry {
  import opened Common

  const MAX_AUTH_ATTEMPTS: nat := 2
  const MAX_U32: nat := 0xFFFF_FFFF

  datatype Failures = Failures(attempts: nat, reason: string)

  datatype Registry = Registry(
    connected: set<string>,
    failures: map<string, Failures>,
    denials: map<(string, string), string>)

  const FRESH := Registry({}, map[], map[])

  /** `auth_block_reason`. */
  function BlockReason(s: Registry, id: string): Option<string> {
    if id in s.failures && s.failures[id].attempts >= MAX_AUTH_ATTEMPTS
    then Some(s.failures[id].reason) else None
  }

  predicate Blocked(s: Registry, id: string) {
    BlockReason(s, id).Some?
  }

  function DeniedReason(s: Registry, id: string, topic: string): Option<string> {
    if (id, topic) in s.denials then Some(s.denials[(id, topic)]) else None
  }

  // ----- What changes for one connection

  ghost predicate NoDenials(s: Registry, id: string) {
    forall topic :: (id, topic) !in s.denials
  }

  ghost predicate SameDenials(s: Registry, t: Registry, id: string) {
    forall topic :: DeniedReason(s, id, topic) == DeniedReason(t, id, topic)
  }

  predicate SameConnected(s: Registry, t: Registry, id: string) {
    id in s.connected <==> id in t.connected
  }

  predicate SameFailures(s: Registry, t: Registry, id: string) {
    (id in s.failures <==> id in t.failures) && (id in s.failures ==> s.failures[id] == t.failures[id])
  }

  /** Nothing about any other connection has changed. */
  ghost predicate OnlyAbout(s: Registry, t: Registry, id: string) {
    forall other :: other != id ==>
      SameConnected(s, t, other) && SameFailures(s, t, other) && SameDenials(s, t, other)
  }

  lemma OnlyAboutThrough(s: Registry, t: Registry, u: Registry, id: string)
    requires OnlyAbout(s, t, id) && OnlyAbout(t, u, id)
    ensures OnlyAbout(s, u, id)
  {
    forall other | other != id
      ensures SameConnected(s, u, other) && SameFailures(s, u, other) && SameDenials(s, u, other)
    {
      assert SameConnected(s, t, other) && SameFailures(s, t, other) && SameDenials(s, t, other);
      assert SameConnected(t, u, other) && SameFailures(t, u, other) && SameDenials(t, u, other);
    }
  }

  /** The slate of `id` is clean; it stays connected, or not, as it was. */
  ghost predicate Cleared(s: Registry, t: Registry, id: string) {
    id !in t.failures && NoDenials(t, id) && SameConnected(s, t, id) && OnlyAbout(s, t, id)
  }

  /** One more rejection of `id` has been counted, for this reason; the second
      one drops the connection, and with it what it may not write to. */
  ghost predicate Counted(s: Registry, t: Registry, id: string, reason: string) {
    var attempts := Min((if id in s.failures then s.failures[id].attempts else 0) + 1, 4_294_967_295);
    && id in t.failures && t.failures[id] == Failures(attempts, reason)
    && (if attempts >= 2 then id !in t.connected && NoDenials(t, id)
        else SameConnected(s, t, id) && SameDenials(s, t, id))
    && OnlyAbout(s, t, id)
  }

  // ----- One lock at a time

  datatype Act =
    | Mark                                // the connection joins the connected set
    | Drop                                // ... and leaves it
    | Reject(reason: string)              // one more rejection is counted
    | Clear                               // its rejections are forgotten
    | Deny(topic: string, reason: string) // a write is refused
    | ClearDenials                        // ... and every refusal forgotten

  datatype Entry = Entry(id: string, act: Act)

  function Others(denials: map<(string, string), string>, id: string): map<(string, string), string> {
    map d | d in denials && d.0 != id :: denials[d]
  }

  function Do(s: Registry, e: Entry): Registry {
    match e.act
    case Mark => s.(connected := s.connected + {e.id})
    case Drop => s.(connected := s.connected - {e.id})
    case Reject(m) =>
      var attempts := if e.id in s.failures then s.failures[e.id].attempts else 0;
      s.(failures := s.failures[e.id := Failures(Min(attempts + 1, MAX_U32), m)])
    case Clear => s.(failures := s.failures - {e.id})
    case Deny(topic, m) => s.(denials := s.denials[(e.id, topic) := m])
    case ClearDenials => s.(denials := Others(s.denials, e.id))
  }

  /** The registry after everything that happened to it, oldest first. */
  function Replay(log: seq<Entry>): Registry {
    if log == [] then FRESH else Do(Replay(log[..|log| - 1]), log[|log| - 1])
  }

  lemma ReplayAppends(log: seq<Entry>, e: Entry)
    ensures Replay(log + [e]) == Do(Replay(log), e)
  {
    assert (log + [e])[..|log|] == log;
  }

  // ----- The registry's own methods

  class ConnectionRegistry {
    var connected: set<string>
    var failures: map<string, Failures>
    var denials: map<(string, string), string>

    function Model(): Registry
      reads this
    {
      Registry(connected, failures, denials)
    }

    constructor ()
      ensures Model() == FRESH
    {
      connected, failures, denials := {}, map[], map[];
    }

    method MarkConnected(id: string)
      modifies this
      ensures Model() == Do(old(Model()), Entry(id, Mark))
      ensures id in connected && OnlyAbout(old(Model()), Model(), id)
    {
      connected := connected + {id};
    }

    method ClearWriteDenials(id: string)
      modifies this
      ensures Model() == Do(old(Model()), Entry(id, ClearDenials))
    {
      denials := map d | d in denials && d.0 != id :: denials[d];
    }

    method MarkDisconnected(id: string)
      modifies this
      ensures Model() == Do(Do(old(Model()), Entry(id, Drop)), Entry(id, ClearDenials))
      ensures id !in connected && NoDenials(Model(), id) && failures == old(failures)
      ensures OnlyAbout(old(Model()), Model(), id)
    {
      connected := connected - {id};
      ClearWriteDenials(id);
    }

    method RecordAuthFailure(id: string, reason: string)
      modifies this
      ensures var s := Do(old(Model()), Entry(id, Reject(reason)));
              Model() == if Blocked(s, id) then Do(Do(s, Entry(id, Drop)), Entry(id, ClearDenials)) else s
      ensures Blocked(Model(), id) ==> BlockReason(Model(), id) == Some(reason) && id !in connected
      ensures Counted(old(Model()), Model(), id, reason)
    {
      var attempts := if id in failures then failures[id].attempts else 0;
      attempts := if attempts < MAX_U32 then attempts + 1 else MAX_U32;
      failures := failures[id := Failures(attempts, reason)];
      if attempts >= MAX_AUTH_ATTEMPTS {
        MarkDisconnected(id);
      }
    }

    method ClearAuthFailures(id: string)
      modifies this
      ensures Model() == Do(Do(old(Model()), Entry(id, Clear)), Entry(id, ClearDenials))
      ensures Cleared(old(Model()), Model(), id)
    {
      failures := failures - {id};
      ClearWriteDenials(id);
    }

    method RecordAuthSuccess(id: string)
      modifies this
      ensures Model() == Do(Do(old(Model()), Entry(id, Clear)), Entry(id, ClearDenials))
      ensures Cleared(old(Model()), Model(), id)
      ensures !Blocked(Model(), id)
      ensures forall topic :: DeniedReason(Model(), id, topic).None?
    {
      ClearAuthFailures(id);
    }

    method RecordWriteDenied(id: string, topic: string, reason: string)
      modifies this
      ensures Model() == Do(old(Model()), Entry(id, Deny(topic, reason)))
    {
      denials := denials[(id, topic) := reason];
    }

    method IsConnected(id: string) returns (yes: bool)
      ensures yes == (id in connected)
    {
      yes := id in connected;
    }

    method AuthBlockReason(id: string) returns (reason: Option<string>)
      ensures reason == BlockReason(Model(), id)
    {
      reason := None;
      if id in failures {
        if failures[id].attempts >= MAX_AUTH_ATTEMPTS {
          reason := Some(failures[id].reason);
        }
      }
    }

    method WriteDeniedReason(id: string, topic: string) returns (reason: Option<string>)
      ensures reason == DeniedReason(Model(), id, topic)
    {
      reason := None;
      if (id, topic) in denials {
        reason := Some(denials[(id, topic)]);
      }
    }
  }

  // ----- The answers, read off the history alone

  /** The `j`th event rejected `id`, and nothing has cleared `id` since. */
  ghost predicate StrikeAt(log: seq<Entry>, id: string, j: nat) {
    && j < |log| && log[j].id == id && log[j].act.Reject?
    && forall n :: j < n < |log| ==> log[n] != Entry(id, Clear)
  }

  /** ... and it was the last to do so. */
  ghost predicate LastStrikeAt(log: seq<Entry>, id: string, j: nat) {
    StrikeAt(log, id, j) && forall n: nat :: n > j ==> !StrikeAt(log, id, n)
  }

  ghost predicate EarlierStrike(log: seq<Entry>, id: string, j: nat) {
    exists i: nat :: i < j && StrikeAt(log, id, i)
  }

  /** Two rejections uncleared, the last of them for the reason `m`. */
  ghost predicate Tripped(log: seq<Entry>, id: string, m: string) {
    exists j: nat :: LastStrikeAt(log, id, j) && EarlierStrike(log, id, j) && log[j].act.reason == m
  }

  lemma StrikeAppends(log: seq<Entry>, e: Entry, id: string, j: nat)
    ensures StrikeAt(log + [e], id, j) <==>
            || (StrikeAt(log, id, j) && e != Entry(id, Clear))
            || (j == |log| && e.id == id && e.act.Reject?)
  {
    var after := log + [e];
    assert after[|log|] == e;
    assert forall n :: 0 <= n < |log| ==> after[n] == log[n];
  }

  /** What `failures` holds for `id`, in terms of the history. */
  ghost predicate FailuresSay(log: seq<Entry>, id: string) {
    var f := Replay(log).failures;
    if id in f then
      && f[id].attempts >= 1
      && exists j: nat :: LastStrikeAt(log, id, j) && log[j].act.reason == f[id].reason
                          && (f[id].attempts >= MAX_AUTH_ATTEMPTS <==> EarlierStrike(log, id, j))
    else forall j: nat :: !StrikeAt(log, id, j)
  }

  lemma StrikesAppend(log: seq<Entry>, e: Entry, id: string)
    ensures forall j: nat :: StrikeAt(log + [e], id, j) <==>
              || (StrikeAt(log, id, j) && e != Entry(id, Clear))
              || (j == |log| && e.id == id && e.act.Reject?)
  {
    forall j: nat
      ensures StrikeAt(log + [e], id, j) <==>
              || (StrikeAt(log, id, j) && e != Entry(id, Clear))
              || (j == |log| && e.id == id && e.act.Reject?)
    {
      StrikeAppends(log, e, id, j);
    }
  }

  lemma RejectSays(log: seq<Entry>, id: string, m: string)
    requires FailuresSay(log, id)
    ensures FailuresSay(log + [Entry(id, Reject(m))], id)
  {
    var e := Entry(id, Reject(m));
    ReplayAppends(log, e);
    StrikesAppend(log, e, id);
    var j: nat := |log|;
    assert LastStrikeAt(log + [e], id, j);
    if id in Replay(log).failures {
      var i: nat :| LastStrikeAt(log, id, i);
      assert StrikeAt(log + [e], id, i);
      assert EarlierStrike(log + [e], id, j);
    }
  }

  lemma OtherSays(log: seq<Entry>, e: Entry, id: string)
    requires FailuresSay(log, id) && e != Entry(id, Clear) && !(e.id == id && e.act.Reject?)
    ensures FailuresSay(log + [e], id)
  {
    ReplayAppends(log, e);
    StrikesAppend(log, e, id);
    var f := Replay(log).failures;
    if id in f {
      var j: nat :| LastStrikeAt(log, id, j) && log[j].act.reason == f[id].reason
                    && (f[id].attempts >= MAX_AUTH_ATTEMPTS <==> EarlierStrike(log, id, j));
      assert LastStrikeAt(log + [e], id, j);
      assert EarlierStrike(log + [e], id, j) <==> EarlierStrike(log, id, j);
    }
  }

  lemma ClearSays(log: seq<Entry>, id: string)
    ensures FailuresSay(log + [Entry(id, Clear)], id)
  {
    ReplayAppends(log, Entry(id, Clear));
    StrikesAppend(log, Entry(id, Clear), id);
  }

  lemma FailuresSayMore(log: seq<Entry>, e: Entry, id: string)
    requires FailuresSay(log, id)
    ensures FailuresSay(log + [e], id)
  {
    if e == Entry(id, Clear) {
      ClearSays(log, id);
    } else if e.id == id && e.act.Reject? {
      RejectSays(log, id, e.act.reason);
    } else {
      OtherSays(log, e, id);
    }
  }

  lemma {:induction false} FailuresAlwaysSay(log: seq<Entry>, id: string)
    ensures FailuresSay(log, id)
  {
    if log != [] {
      FailuresAlwaysSay(log[..|log| - 1], id);
      FailuresSayMore(log[..|log| - 1], log[|log| - 1], id);
      assert log == log[..|log| - 1] + [log[|log| - 1]];
    }
  }

  lemma OneLastStrike(log: seq<Entry>, id: string, j: nat, k: nat)
    requires LastStrikeAt(log, id, j) && LastStrikeAt(log, id, k)
    ensures j == k
  {
  }

  /** `auth_block_reason`, from what happened to this connection alone. */
  lemma BlockReasonFromHistory(log: seq<Entry>, id: string, m: string)
    ensures BlockReason(Replay(log), id) == Some(m) <==> Tripped(log, id, m)
  {
    FailuresAlwaysSay(log, id);
    var f := Replay(log).failures;
    if id in f {
      var j: nat :| LastStrikeAt(log, id, j) && log[j].act.reason == f[id].reason
                    && (f[id].attempts >= MAX_AUTH_ATTEMPTS <==> EarlierStrike(log, id, j));
      forall k: nat | LastStrikeAt(log, id, k)
        ensures k == j
      {
        OneLastStrike(log, id, j, k);
      }
    }
  }

  /** The `j`th event denied `id` the topic, and neither a later denial nor a
      clearing has replaced it. */
  ghost predicate DenialStandsAt(log: seq<Entry>, id: string, topic: string, j: nat) {
    && j < |log| && log[j].id == id && log[j].act.Deny? && log[j].act.topic == topic
    && forall n :: j < n < |log| ==> !Replaces(log[n], id, topic)
  }

  predicate Replaces(e: Entry, id: string, topic: string) {
    e.id == id && (e.act.ClearDenials? || (e.act.Deny? && e.act.topic == topic))
  }

  /** `write_denied_reason`, from what happened to this connection and topic. */
  lemma {:induction false} DeniedReasonFromHistory(log: seq<Entry>, id: string, topic: string, m: string)
    ensures DeniedReason(Replay(log), id, topic) == Some(m) <==>
            exists j: nat :: DenialStandsAt(log, id, topic, j) && log[j].act.reason == m
  {
    if log != [] {
      var before, e := log[..|log| - 1], log[|log| - 1];
      DeniedReasonFromHistory(before, id, topic, m);
      forall j: nat | j < |before|
        ensures DenialStandsAt(log, id, topic, j) <==> DenialStandsAt(before, id, topic, j) && !Replaces(e, id, topic)
      {
        assert forall n :: 0 <= n < |before| ==> before[n] == log[n];
      }
      if e == Entry(id, Deny(topic, m)) {
        var last: nat := |log| - 1;
        assert DenialStandsAt(log, id, topic, last);
      }
    }
  }

  /** `is_connected`: marked, and not dropped since. */
  lemma {:induction false} ConnectedFromHistory(log: seq<Entry>, id: string)
    ensures id in Replay(log).connected <==>
            exists j: nat :: MarkStandsAt(log, id, j)
  {
    if log != [] {
      var before, e := log[..|log| - 1], log[|log| - 1];
      ConnectedFromHistory(before, id);
      forall j: nat | j < |before|
        ensures MarkStandsAt(log, id, j) <==> MarkStandsAt(before, id, j) && e != Entry(id, Drop)
      {
        assert forall n :: 0 <= n < |before| ==> before[n] == log[n];
      }
      if e == Entry(id, Mark) {
        var last: nat := |log| - 1;
        assert MarkStandsAt(log, id, last);
      }
    }
  }

  ghost predicate MarkStandsAt(log: seq<Entry>, id: string, j: nat) {
    j < |log| && log[j] == Entry(id, Mark) && forall n :: j < n < |log| ==> log[n] != Entry(id, Drop)
  }
}
