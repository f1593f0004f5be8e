/** Stopping a fetch that is already running
    (backend/core/src/fetch_cancellation.rs): two maps behind two locks, and a
    flag shared with each fetch's poll loop. */
module Cancellation {
  import opened Common

  /** `flags` and `owners`. A flag is an `Arc<AtomicBool>`, shared by whoever
      holds its handle: `raised` lists every flag made so far, and a handle is
      a position in it. */
  datatype Registry = Registry(flags: map<string, nat>, owners: map<string, string>, raised: seq<bool>)

  // ----- What happens under one lock

  /** `entry(..).or_insert_with(..)`. */
  function WithEntry(s: Registry, r: string): Registry {
    if r in s.flags then s else s.(flags := s.flags[r := |s.raised|], raised := s.raised + [false])
  }

  /** `cancel`: the entry is made if it is missing, and its flag raised. */
  function Cancelled(s: Registry, r: string): Registry {
    var t := WithEntry(s, r);
    if t.flags[r] < |t.raised| then t.(raised := t.raised[t.flags[r] := true]) else t
  }

  function OwnedBy(s: Registry, c: string): set<string> {
    set r | r in s.owners && s.owners[r] == c
  }

  /** The registry as its callers see it, one call at a time. */
  class FetchCancellations {
    var flags: map<string, nat>
    var owners: map<string, string>
    var raised: seq<bool>

    ghost function Model(): Registry
      reads this
    {
      Registry(flags, owners, raised)
    }

    ghost predicate Valid()
      reads this
    {
      forall r :: r in flags ==> flags[r] < |raised|
    }

    constructor ()
      ensures Valid() && Model() == Registry(map[], map[], [])
    {
      flags, owners, raised := map[], map[], [];
    }

    method Begin(r: string) returns (flag: nat)
      requires Valid()
      modifies this
      ensures Valid() && Model() == WithEntry(old(Model()), r)
      ensures r in flags && flag == flags[r]
    {
      if r !in flags {
        flags := flags[r := |raised|];
        raised := raised + [false];
      }
      flag := flags[r];
    }

    method BeginForConnection(r: string, c: string) returns (flag: nat)
      requires Valid()
      modifies this
      ensures Valid()
      ensures Model() == WithEntry(old(Model()).(owners := old(owners)[r := c]), r)
      ensures r in flags && flag == flags[r]
    {
      owners := owners[r := c];
      flag := Begin(r);
    }

    method Cancel(r: string)
      requires Valid()
      modifies this
      ensures Valid() && Model() == Cancelled(old(Model()), r)
    {
      if r !in flags {
        flags := flags[r := |raised|];
        raised := raised + [false];
      }
      raised := raised[flags[r] := true];
    }

    method CancelAllForConnection(c: string) returns (ids: set<string>)
      requires Valid()
      modifies this
      ensures Valid() && owners == old(owners)
      ensures ids == OwnedBy(old(Model()), c)
      ensures forall r :: r in ids ==> r in flags && raised[flags[r]]
      ensures forall r :: r in old(flags) ==> r in flags && flags[r] == old(flags)[r]
      ensures |old(raised)| <= |raised|
      ensures forall i :: 0 <= i < |old(raised)| && (forall r :: r in ids && r in old(flags) ==> old(flags)[r] != i)
                          ==> raised[i] == old(raised)[i]
    {
      ids := set r | r in owners && owners[r] == c;
      var left := ids;
      while left != {}
        invariant left <= ids && Valid() && owners == old(owners)
        invariant forall r :: r in old(flags) ==> r in flags && flags[r] == old(flags)[r]
        invariant forall r :: r in flags && r !in old(flags) ==> flags[r] >= |old(raised)|
        invariant |old(raised)| <= |raised|
        invariant forall r :: r in ids - left ==> r in flags && raised[flags[r]]
        invariant forall i :: 0 <= i < |old(raised)| && (forall r :: r in ids && r in old(flags) ==> old(flags)[r] != i)
                              ==> raised[i] == old(raised)[i]
        decreases left
      {
        var r :| r in left;
        Cancel(r);
        left := left - {r};
      }
    }

    method Finish(r: string)
      requires Valid()
      modifies this
      ensures Valid()
      ensures Model() == old(Model()).(flags := old(flags) - {r}, owners := old(owners) - {r})
    {
      flags := flags - {r};
      owners := owners - {r};
    }
  }

  // ----- The same, interleaved lock by lock

  /** A fetch's own view: which connection it reads from, and the flag it was
      given. `Owned` lies between the two locks of `begin_for_connection`,
      `Finishing` between the two of `finish`. */
  datatype Phase =
    | Owned(connection: string)
    | Running(connection: string, flag: nat)
    | Finishing(connection: string, flag: nat)
    | Finished(connection: string, flag: nat)

  /** A `cancel_all_for_connection` under way: the ids it found, and those it
      has still to cancel. */
  datatype Sweep = Sweep(connection: string, found: set<string>, left: set<string>)

  datatype World = World(registry: Registry, fetches: map<string, Phase>, sweeps: seq<Sweep>)

  datatype Action =
    | InsertOwner(r: string, c: string)
    | TakeFlag(r: string)
    | Stop(r: string)
    | StartSweep(c: string)
    | SweepNext(k: nat, r: string)
    | DropFlag(r: string)
    | DropOwner(r: string)

  const INITIALLY := World(Registry(map[], map[], []), map[], [])

  /** Request ids are never reused; a Stop may name any id at any time. */
  predicate Enabled(w: World, a: Action) {
    match a
    case InsertOwner(r, c) => r !in w.fetches
    case TakeFlag(r) => r in w.fetches && w.fetches[r].Owned?
    case Stop(r) => true
    case StartSweep(c) => true
    case SweepNext(k, r) => k < |w.sweeps| && r in w.sweeps[k].left
    case DropFlag(r) => r in w.fetches && w.fetches[r].Running?
    case DropOwner(r) => r in w.fetches && w.fetches[r].Finishing?
  }

  function Apply(w: World, a: Action): World
    requires Enabled(w, a)
  {
    var s := w.registry;
    match a
    case InsertOwner(r, c) =>
      w.(registry := s.(owners := s.owners[r := c]), fetches := w.fetches[r := Owned(c)])
    case TakeFlag(r) =>
      var t := WithEntry(s, r);
      w.(registry := t, fetches := w.fetches[r := Running(w.fetches[r].connection, t.flags[r])])
    case Stop(r) => w.(registry := Cancelled(s, r))
    case StartSweep(c) => w.(sweeps := w.sweeps + [Sweep(c, OwnedBy(s, c), OwnedBy(s, c))])
    case SweepNext(k, r) =>
      w.(registry := Cancelled(s, r), sweeps := w.sweeps[k := w.sweeps[k].(left := w.sweeps[k].left - {r})])
    case DropFlag(r) =>
      w.(registry := s.(flags := s.flags - {r}),
         fetches := w.fetches[r := Finishing(w.fetches[r].connection, w.fetches[r].flag)])
    case DropOwner(r) =>
      w.(registry := s.(owners := s.owners - {r}),
         fetches := w.fetches[r := Finished(w.fetches[r].connection, w.fetches[r].flag)])
  }

  /** The world after a run, if every step of it was possible. */
  ghost function Exec(run: seq<Action>): Option<World> {
    if run == [] then Some(INITIALLY)
    else
      match Exec(run[..|run| - 1])
      case None => None
      case Some(w) => if Enabled(w, run[|run| - 1]) then Some(Apply(w, run[|run| - 1])) else None
  }

  // ----- What a run did, read off the run itself

  predicate Cancels(a: Action, r: string) {
    (a.Stop? || a.SweepNext?) && a.r == r
  }

  /** `r`'s flag entry has been removed. */
  ghost predicate Dropped(run: seq<Action>, r: string) {
    DropFlag(r) in run
  }

  /** `r` was cancelled, by a Stop or by a sweep, before it finished -- perhaps
      even before it began. */
  ghost predicate Told(run: seq<Action>, r: string) {
    run != [] &&
      (|| Told(run[..|run| - 1], r)
       || (Cancels(run[|run| - 1], r) && !Dropped(run[..|run| - 1], r)))
  }

  /** `r` was cancelled after it had finished. */
  ghost predicate ToldLate(run: seq<Action>, r: string) {
    run != [] &&
      (|| ToldLate(run[..|run| - 1], r)
       || (Cancels(run[|run| - 1], r) && Dropped(run[..|run| - 1], r)))
  }

  // ----- Invariants of every run

  predicate HasFlag(w: World, r: string) {
    r in w.fetches && !w.fetches[r].Owned?
  }

  function FlagOf(w: World, r: string): nat
    requires HasFlag(w, r)
  {
    w.fetches[r].flag
  }

  /** Handles are in range, a running fetch holds the flag its entry names, and
      no flag is shared by two requests. */
  ghost predicate FlagsApart(w: World) {
    var s := w.registry;
    && (forall r :: r in s.flags ==> s.flags[r] < |s.raised|)
    && (forall r :: HasFlag(w, r) ==> FlagOf(w, r) < |s.raised|)
    && (forall r :: r in w.fetches && w.fetches[r].Running? ==> r in s.flags && s.flags[r] == FlagOf(w, r))
    && (forall q, r :: q in s.flags && r in s.flags && q != r ==> s.flags[q] != s.flags[r])
    && (forall q, r :: HasFlag(w, q) && HasFlag(w, r) && q != r ==> FlagOf(w, q) != FlagOf(w, r))
    && (forall q, r :: q in s.flags && HasFlag(w, r) && (q != r || !w.fetches[r].Running?)
                       ==> s.flags[q] != FlagOf(w, r))
  }

  ghost predicate OwnersRight(w: World) {
    forall r :: (r in w.registry.owners <==> r in w.fetches && !w.fetches[r].Finished?)
             && (r in w.registry.owners ==> w.registry.owners[r] == w.fetches[r].connection)
  }

  ghost predicate DroppedRight(run: seq<Action>, w: World) {
    forall r :: Dropped(run, r) <==> r in w.fetches && (w.fetches[r].Finishing? || w.fetches[r].Finished?)
  }

  /** Where a cancellation of `r` shows: in the flag its fetch holds, or, before
      it holds one, in the entry it will be given. */
  predicate Reached(w: World, r: string) {
    var s := w.registry;
    if HasFlag(w, r) then FlagOf(w, r) < |s.raised| && s.raised[FlagOf(w, r)]
    else r in s.flags && s.flags[r] < |s.raised| && s.raised[s.flags[r]]
  }

  ghost predicate ToldReaches(run: seq<Action>, w: World) {
    forall r :: Told(run, r) ==> Reached(w, r)
  }

  ghost predicate SweepRight(run: seq<Action>, w: World, sweep: Sweep) {
    && sweep.left <= sweep.found
    && StartSweep(sweep.connection) in run
    && (forall r :: r in sweep.found ==> r in w.fetches && w.fetches[r].connection == sweep.connection)
    && forall r :: r in sweep.found && r !in sweep.left ==> Told(run, r) || Dropped(run, r)
  }

  ghost predicate SweepsRight(run: seq<Action>, w: World) {
    forall k :: 0 <= k < |w.sweeps| ==> SweepRight(run, w, w.sweeps[k])
  }

  /** Somebody stopped `r` itself, or swept the connection it reads from. */
  ghost predicate HasCause(run: seq<Action>, w: World, r: string) {
    Stop(r) in run || exists k :: 0 <= k < |w.sweeps| && r in w.sweeps[k].found
  }

  ghost predicate OnlyWithCause(run: seq<Action>, w: World) {
    var s := w.registry;
    && (forall r :: HasFlag(w, r) && FlagOf(w, r) < |s.raised| && s.raised[FlagOf(w, r)] ==> HasCause(run, w, r))
    && (forall r :: r in s.flags && s.flags[r] < |s.raised| && s.raised[s.flags[r]] ==> HasCause(run, w, r))
  }

  /** Which entries the map holds: a fetch's own while it runs, a cancellation
      waiting for its fetch, and a cancellation that came too late. */
  ghost predicate EntriesExact(run: seq<Action>, w: World) {
    forall r :: EntryExact(run, w, r)
  }

  lemma EntryKeepsApart(w: World, r: string)
    requires FlagsApart(w)
    ensures FlagsApart(w.(registry := WithEntry(w.registry, r)))
  {
    var w' := w.(registry := WithEntry(w.registry, r));
    assert forall q :: HasFlag(w', q) ==> HasFlag(w, q);
  }

  lemma CancelKeepsApart(w: World, r: string)
    requires FlagsApart(w)
    ensures FlagsApart(w.(registry := Cancelled(w.registry, r)))
  {
    EntryKeepsApart(w, r);
    var t := w.(registry := WithEntry(w.registry, r));
    var w' := w.(registry := Cancelled(w.registry, r));
    assert w'.registry.flags == t.registry.flags && |w'.registry.raised| == |t.registry.raised|;
    assert forall q :: HasFlag(w', q) <==> HasFlag(t, q);
  }

  lemma TakeKeepsApart(w: World, r: string)
    requires FlagsApart(w) && r in w.fetches && w.fetches[r].Owned? && r in w.registry.flags
    ensures FlagsApart(w.(fetches := w.fetches[r := Running(w.fetches[r].connection, w.registry.flags[r])]))
  {
    var w' := w.(fetches := w.fetches[r := Running(w.fetches[r].connection, w.registry.flags[r])]);
    assert forall q :: HasFlag(w', q) ==> q == r || HasFlag(w, q);
  }

  lemma PhaseKeepsApart(w: World, r: string, s: Registry, p: Phase)
    requires FlagsApart(w) && s.raised == w.registry.raised
    requires HasFlag(w, r) && !p.Owned? && !p.Running? && p.flag == FlagOf(w, r)
    requires s.flags == if w.fetches[r].Running? then w.registry.flags - {r} else w.registry.flags
    ensures FlagsApart(w.(registry := s, fetches := w.fetches[r := p]))
  {
    var w' := w.(registry := s, fetches := w.fetches[r := p]);
    assert forall q :: HasFlag(w', q) <==> HasFlag(w, q);
    assert forall q :: HasFlag(w', q) ==> FlagOf(w', q) == FlagOf(w, q);
  }

  lemma OwnedKeepsApart(w: World, r: string, s: Registry, p: Phase)
    requires FlagsApart(w) && r !in w.fetches && p.Owned?
    requires s.flags == w.registry.flags && s.raised == w.registry.raised
    ensures FlagsApart(w.(registry := s, fetches := w.fetches[r := p]))
  {
    var w' := w.(registry := s, fetches := w.fetches[r := p]);
    assert forall q :: HasFlag(w', q) <==> HasFlag(w, q);
    assert forall q :: HasFlag(w', q) ==> FlagOf(w', q) == FlagOf(w, q);
  }

  lemma SweepingKeepsApart(w: World, sweeps: seq<Sweep>)
    requires FlagsApart(w)
    ensures FlagsApart(w.(sweeps := sweeps))
  {
    assert forall q :: HasFlag(w.(sweeps := sweeps), q) <==> HasFlag(w, q);
  }

  lemma FlagsStayApart(w: World, a: Action)
    requires FlagsApart(w) && Enabled(w, a)
    ensures FlagsApart(Apply(w, a))
  {
    match a
    case InsertOwner(r, c) => OwnedKeepsApart(w, r, Apply(w, a).registry, Owned(c));
    case TakeFlag(r) =>
      EntryKeepsApart(w, r);
      TakeKeepsApart(w.(registry := WithEntry(w.registry, r)), r);
    case Stop(r) => CancelKeepsApart(w, r);
    case StartSweep(c) => SweepingKeepsApart(w, Apply(w, a).sweeps);
    case SweepNext(k, r) =>
      CancelKeepsApart(w, r);
      SweepingKeepsApart(w.(registry := Cancelled(w.registry, r)), Apply(w, a).sweeps);
    case DropFlag(r) =>
      PhaseKeepsApart(w, r, Apply(w, a).registry, Apply(w, a).fetches[r]);
    case DropOwner(r) =>
      PhaseKeepsApart(w, r, Apply(w, a).registry, Apply(w, a).fetches[r]);
  }

  lemma OwnersStayRight(w: World, a: Action)
    requires OwnersRight(w) && Enabled(w, a)
    ensures OwnersRight(Apply(w, a))
  {
  }

  lemma DroppedStaysRight(run: seq<Action>, w: World, a: Action)
    requires DroppedRight(run, w) && Enabled(w, a)
    ensures DroppedRight(run + [a], Apply(w, a))
  {
  }

  lemma OneStillReached(w: World, a: Action, r: string)
    requires FlagsApart(w) && Enabled(w, a)
    requires Cancels(a, r) || (Reached(w, r) && a != DropFlag(r))
    requires r in w.fetches && !w.fetches[r].Owned? ==> Cancels(a, r) ==> w.fetches[r].Running?
    ensures Reached(Apply(w, a), r)
  {
  }

  lemma DroppedStillReached(w: World, r: string)
    requires FlagsApart(w) && Enabled(w, DropFlag(r)) && Reached(w, r)
    ensures Reached(Apply(w, DropFlag(r)), r)
  {
  }

  lemma ToldStillReaches(run: seq<Action>, w: World, a: Action)
    requires FlagsApart(w) && DroppedRight(run, w) && ToldReaches(run, w) && Enabled(w, a)
    ensures ToldReaches(run + [a], Apply(w, a))
  {
    assert (run + [a])[..|run|] == run;
    forall r | Told(run + [a], r)
      ensures Reached(Apply(w, a), r)
    {
      if a == DropFlag(r) {
        DroppedStillReached(w, r);
      } else if Told(run, r) {
        assert Reached(w, r);
        if !(Cancels(a, r) && Dropped(run, r)) {
          OneStillReached(w, a, r);
        }
      } else {
        OneStillReached(w, a, r);
      }
    }
  }

  lemma SweepsStayRight(run: seq<Action>, w: World, a: Action)
    requires OwnersRight(w) && SweepsRight(run, w) && Enabled(w, a)
    ensures SweepsRight(run + [a], Apply(w, a))
  {
    assert (run + [a])[..|run|] == run;
  }

  lemma CausePersists(run: seq<Action>, w: World, a: Action, r: string)
    requires Enabled(w, a) && HasCause(run, w, r)
    ensures HasCause(run + [a], Apply(w, a), r)
  {
    if Stop(r) !in run {
      var k :| 0 <= k < |w.sweeps| && r in w.sweeps[k].found;
      assert r in Apply(w, a).sweeps[k].found;
    }
  }

  lemma CauseAppears(run: seq<Action>, w: World, a: Action, r: string)
    requires Enabled(w, a) && SweepsRight(run, w) && Cancels(a, r)
    ensures HasCause(run + [a], Apply(w, a), r)
  {
    if a.Stop? {
      assert (run + [a])[|run|] == Stop(r);
    } else {
      assert SweepRight(run, w, w.sweeps[a.k]);
      assert r in Apply(w, a).sweeps[a.k].found;
    }
  }

  lemma CauseRemains(run: seq<Action>, w: World, a: Action)
    requires FlagsApart(w) && SweepsRight(run, w) && OnlyWithCause(run, w) && Enabled(w, a)
    ensures OnlyWithCause(run + [a], Apply(w, a))
  {
    var w' := Apply(w, a);
    var s' := w'.registry;
    forall r | HasFlag(w', r) && FlagOf(w', r) < |s'.raised| && s'.raised[FlagOf(w', r)]
      ensures HasCause(run + [a], w', r)
    {
      if Cancels(a, r) {
        CauseAppears(run, w, a, r);
      } else {
        HeldFlagUnchanged(w, a, r);
        CausePersists(run, w, a, r);
      }
    }
    forall r | r in s'.flags && s'.flags[r] < |s'.raised| && s'.raised[s'.flags[r]]
      ensures HasCause(run + [a], w', r)
    {
      if Cancels(a, r) {
        CauseAppears(run, w, a, r);
      } else {
        EntryUnchanged(w, a, r);
        CausePersists(run, w, a, r);
      }
    }
  }

  /** A flag is raised only by cancelling the request it belongs to. */
  lemma HeldFlagUnchanged(w: World, a: Action, r: string)
    requires FlagsApart(w) && Enabled(w, a) && !Cancels(a, r)
    requires var w' := Apply(w, a);
             HasFlag(w', r) && FlagOf(w', r) < |w'.registry.raised| && w'.registry.raised[FlagOf(w', r)]
    ensures var s := w.registry;
            || (HasFlag(w, r) && FlagOf(w, r) < |s.raised| && s.raised[FlagOf(w, r)])
            || (r in s.flags && s.flags[r] < |s.raised| && s.raised[s.flags[r]])
  {
  }

  lemma EntryUnchanged(w: World, a: Action, r: string)
    requires FlagsApart(w) && Enabled(w, a) && !Cancels(a, r)
    requires var s' := Apply(w, a).registry;
             r in s'.flags && s'.flags[r] < |s'.raised| && s'.raised[s'.flags[r]]
    ensures var s := w.registry;
            r in s.flags && s.flags[r] < |s.raised| && s.raised[s.flags[r]]
  {
  }

  ghost predicate EntryExact(run: seq<Action>, w: World, r: string) {
    r in w.registry.flags <==>
      if Dropped(run, r) then ToldLate(run, r)
      else if HasFlag(w, r) then true
      else Told(run, r)
  }

  lemma HistoryStep(run: seq<Action>, a: Action, r: string)
    ensures Dropped(run + [a], r) <==> Dropped(run, r) || a == DropFlag(r)
    ensures Told(run + [a], r) <==> Told(run, r) || (Cancels(a, r) && !Dropped(run, r))
    ensures ToldLate(run + [a], r) <==> ToldLate(run, r) || (Cancels(a, r) && Dropped(run, r))
  {
    assert (run + [a])[..|run|] == run;
  }

  /** Nothing is late before its time. */
  lemma {:induction false} LateMeansDropped(run: seq<Action>, r: string)
    requires ToldLate(run, r)
    ensures Dropped(run, r)
  {
    if ToldLate(run[..|run| - 1], r) {
      LateMeansDropped(run[..|run| - 1], r);
    }
    assert run == run[..|run| - 1] + [run[|run| - 1]];
  }

  lemma EntryStaysExact(run: seq<Action>, w: World, a: Action, r: string)
    requires FlagsApart(w) && DroppedRight(run, w) && EntryExact(run, w, r) && Enabled(w, a)
    requires ToldLate(run, r) ==> Dropped(run, r)
    ensures EntryExact(run + [a], Apply(w, a), r)
  {
    HistoryStep(run, a, r);
  }

  lemma EntriesStayExact(run: seq<Action>, w: World, a: Action)
    requires FlagsApart(w) && DroppedRight(run, w) && EntriesExact(run, w) && Enabled(w, a)
    ensures EntriesExact(run + [a], Apply(w, a))
  {
    forall r
      ensures EntryExact(run + [a], Apply(w, a), r)
    {
      assert EntryExact(run, w, r);
      if ToldLate(run, r) {
        LateMeansDropped(run, r);
      }
      EntryStaysExact(run, w, a, r);
    }
  }

  ghost predicate Inv(run: seq<Action>, w: World) {
    && FlagsApart(w) && OwnersRight(w) && DroppedRight(run, w) && ToldReaches(run, w)
    && SweepsRight(run, w) && OnlyWithCause(run, w) && EntriesExact(run, w)
  }

  /** The steps of a run, first to last. */
  lemma ExecSnoc(run: seq<Action>, a: Action)
    requires Exec(run + [a]).Some?
    ensures Exec(run).Some? && Enabled(Exec(run).value, a)
    ensures Exec(run + [a]) == Some(Apply(Exec(run).value, a))
  {
    assert (run + [a])[..|run|] == run;
  }

  lemma {:induction false} InvariantOverRuns(run: seq<Action>)
    requires Exec(run).Some?
    ensures Inv(run, Exec(run).value)
  {
    if run == [] {
      assert !HasFlag(INITIALLY, "");
    } else {
      var before, a := run[..|run| - 1], run[|run| - 1];
      assert run == before + [a];
      InvariantOverRuns(before);
      var w := Exec(before).value;
      FlagsStayApart(w, a);
      OwnersStayRight(w, a);
      DroppedStaysRight(before, w, a);
      ToldStillReaches(before, w, a);
      SweepsStayRight(before, w, a);
      CauseRemains(before, w, a);
      EntriesStayExact(before, w, a);
    }
  }

  // ----- What this gives the callers

  /** Time only adds: flags are never lowered, a fetch keeps its connection and
      its handle, and a sweep keeps what it found. */
  ghost predicate Later(v: World, w: World) {
    && |v.registry.raised| <= |w.registry.raised|
    && (forall i :: 0 <= i < |v.registry.raised| && v.registry.raised[i] ==> w.registry.raised[i])
    && (forall r :: r in v.fetches ==> r in w.fetches && w.fetches[r].connection == v.fetches[r].connection)
    && (forall r :: HasFlag(v, r) ==> HasFlag(w, r) && FlagOf(w, r) == FlagOf(v, r))
    && |v.sweeps| <= |w.sweeps|
    && (forall k :: 0 <= k < |v.sweeps| ==>
          w.sweeps[k].connection == v.sweeps[k].connection && w.sweeps[k].found == v.sweeps[k].found)
  }

  lemma StepIsLater(w: World, a: Action)
    requires FlagsApart(w) && Enabled(w, a)
    ensures Later(w, Apply(w, a))
  {
  }

  lemma {:induction false} FlagsNeverFall(run: seq<Action>, more: seq<Action>)
    requires Exec(run + more).Some?
    ensures Exec(run).Some? && Later(Exec(run).value, Exec(run + more).value)
  {
    if more == [] {
      assert run + more == run;
    } else {
      var init, a := more[..|more| - 1], more[|more| - 1];
      assert run + more == run + init + [a];
      ExecSnoc(run + init, a);
      FlagsNeverFall(run, init);
      InvariantOverRuns(run + init);
      StepIsLater(Exec(run + init).value, a);
    }
  }

  /** `r` is cancelled by the `i`th step of the run, and its flag entry was
      removed before that step or it was not. */
  predicate CancelledAt(run: seq<Action>, i: nat, r: string, late: bool) {
    i < |run| && Cancels(run[i], r) && (DropFlag(r) in run[..i] <==> late)
  }

  lemma {:induction false} ToldWhen(run: seq<Action>, r: string)
    ensures Told(run, r) <==> exists i: nat :: CancelledAt(run, i, r, false)
    ensures ToldLate(run, r) <==> exists i: nat :: CancelledAt(run, i, r, true)
  {
    if run != [] {
      var before := run[..|run| - 1];
      ToldWhen(before, r);
      forall i: nat, late: bool | i < |before|
        ensures CancelledAt(run, i, r, late) <==> CancelledAt(before, i, r, late)
      {
        assert run[..i] == before[..i];
      }
      var last: nat := |run| - 1;
      assert CancelledAt(run, last, r, false) <==> Cancels(run[last], r) && !Dropped(before, r);
      assert CancelledAt(run, last, r, true) <==> Cancels(run[last], r) && Dropped(before, r);
    }
  }

  /** A cancel reaches the flag the fetch holds, whether it came before the
      fetch began or after, so long as the fetch had not finished. */
  lemma CancelReachesTheFetch(run: seq<Action>, i: nat, r: string)
    requires Exec(run).Some? && CancelledAt(run, i, r, false)
    requires HasFlag(Exec(run).value, r)
    ensures var w := Exec(run).value;
            FlagOf(w, r) < |w.registry.raised| && w.registry.raised[FlagOf(w, r)]
  {
    ToldWhen(run, r);
    InvariantOverRuns(run);
    assert Reached(Exec(run).value, r);
  }

  /** A cancel for the whole connection, once it has run to its end, has
      stopped every fetch of that connection that was registered when it began
      and is still running. */
  lemma SweepStopsItsFetches(before: seq<Action>, c: string, after: seq<Action>, r: string)
    requires Exec(before + [StartSweep(c)] + after).Some?
    requires Exec(before).Some?
    requires var v := Exec(before).value;
             r in v.fetches && v.fetches[r].connection == c && !v.fetches[r].Finished?
    ensures var k := |Exec(before).value.sweeps|;
            var w := Exec(before + [StartSweep(c)] + after).value;
            && k < |w.sweeps| && w.sweeps[k].connection == c
            && (w.sweeps[k].left == {} && r in w.fetches && w.fetches[r].Running?
                ==> w.fetches[r].flag < |w.registry.raised| && w.registry.raised[w.fetches[r].flag])
  {
    var started := before + [StartSweep(c)];
    FlagsNeverFall(started, after);
    ExecSnoc(before, StartSweep(c));
    InvariantOverRuns(before);
    var k := |Exec(before).value.sweeps|;
    assert r in Exec(started).value.sweeps[k].found;
    var w := Exec(started + after).value;
    InvariantOverRuns(started + after);
    assert SweepRight(started + after, w, w.sweeps[k]);
    if w.sweeps[k].left == {} && r in w.fetches && w.fetches[r].Running? {
      assert Reached(w, r);
    }
  }

  /** The `i`th step began a sweep of the connection `r` was then registered
      under, and `r` had not finished. */
  ghost predicate SweptAt(run: seq<Action>, i: nat, r: string) {
    && i < |run| && Exec(run[..i]).Some?
    && var v := Exec(run[..i]).value;
       r in v.fetches && !v.fetches[r].Finished? && run[i] == StartSweep(v.fetches[r].connection)
  }

  /** Whatever a sweep found was registered when it began. */
  lemma {:induction false} SweepBegan(run: seq<Action>, k: nat, r: string) returns (i: nat)
    requires Exec(run).Some? && k < |Exec(run).value.sweeps| && r in Exec(run).value.sweeps[k].found
    ensures SweptAt(run, i, r) && run[i] == StartSweep(Exec(run).value.sweeps[k].connection)
  {
    var before, a := run[..|run| - 1], run[|run| - 1];
    var v := Exec(before).value;
    if k == |v.sweeps| {
      InvariantOverRuns(before);
      i := |before|;
    } else {
      i := SweepBegan(before, k, r);
      assert run[..i] == before[..i];
    }
  }

  /** A fetch is stopped only by name, or by a sweep of its own connection that
      began while it was registered: stopping another request or another
      connection, or its own before or after its time, leaves it alone. */
  lemma NobodyElseIsStopped(run: seq<Action>, r: string)
    requires Exec(run).Some? && HasFlag(Exec(run).value, r)
    requires var w := Exec(run).value;
             FlagOf(w, r) < |w.registry.raised| && w.registry.raised[FlagOf(w, r)]
    ensures || Stop(r) in run
            || exists i: nat :: SweptAt(run, i, r) && run[i] == StartSweep(Exec(run).value.fetches[r].connection)
  {
    InvariantOverRuns(run);
    var w := Exec(run).value;
    assert HasCause(run, w, r);
    if Stop(r) !in run {
      var k :| 0 <= k < |w.sweeps| && r in w.sweeps[k].found;
      assert SweepRight(run, w, w.sweeps[k]);
      var i := SweepBegan(run, k, r);
    }
  }

  /** An entry outlives its fetch exactly when a cancel came after the fetch
      had dropped it. */
  lemma WhatFinishLeavesBehind(run: seq<Action>, r: string)
    requires Exec(run).Some?
    requires var w := Exec(run).value; r in w.fetches && w.fetches[r].Finished?
    ensures var s := Exec(run).value.registry;
            && r !in s.owners
            && (r in s.flags <==> exists i: nat :: CancelledAt(run, i, r, true))
  {
    InvariantOverRuns(run);
    ToldWhen(run, r);
    assert EntryExact(run, Exec(run).value, r);
  }

  /** So a Stop that comes after its fetch leaves an entry no later step
      removes. */
  lemma ALateStopLeaks(run: seq<Action>, r: string, more: seq<Action>)
    requires Exec(run + [Stop(r)] + more).Some?
    requires Exec(run).Some?
    requires var w := Exec(run).value; r in w.fetches && w.fetches[r].Finished?
    ensures r in Exec(run + [Stop(r)] + more).value.registry.flags
  {
    var after := run + [Stop(r)] + more;
    var i: nat := |run|;
    InvariantOverRuns(run);
    InvariantOverRuns(after);
    assert after[..i] == run && after[i] == Stop(r);
    assert CancelledAt(after, i, r, true);
    ToldWhen(after, r);
    assert DropFlag(r) in after;
    assert EntryExact(after, Exec(after).value, r);
  }

  lemma OneStep(run: seq<Action>, w: World, a: Action, w': World)
    requires Exec(run) == Some(w) && Enabled(w, a) && Apply(w, a) == w'
    ensures Exec(run + [a]) == Some(w')
  {
    assert (run + [a])[..|run|] == run;
  }

  /** All this does happen: a fetch that is swept while it runs stops ... */
  lemma SweptWhileRunning(r: string, c: string) returns (run: seq<Action>, w: World)
    ensures Exec(run) == Some(w)
    ensures w == World(Registry(map[r := 0], map[r := c], [true]), map[r := Running(c, 0)], [Sweep(c, {r}, {})])
  {
    var owned := World(Registry(map[], map[r := c], []), map[r := Owned(c)], []);
    var running := World(Registry(map[r := 0], map[r := c], [false]), map[r := Running(c, 0)], []);
    var swept := running.(sweeps := [Sweep(c, {r}, {r})]);
    w := World(Registry(map[r := 0], map[r := c], [true]), map[r := Running(c, 0)], [Sweep(c, {r}, {})]);
    OneStep([], INITIALLY, InsertOwner(r, c), owned);
    run := [] + [InsertOwner(r, c)];
    assert map[r := Owned(c)][r := Running(c, 0)] == map[r := Running(c, 0)];
    OneStep(run, owned, TakeFlag(r), running);
    run := run + [TakeFlag(r)];
    assert OwnedBy(running.registry, c) == {r};
    OneStep(run, running, StartSweep(c), swept);
    run := run + [StartSweep(c)];
    assert {r} - {r} == {} && swept.sweeps[0 := Sweep(c, {r}, {})] == w.sweeps;
    assert Cancelled(swept.registry, r) == w.registry;
    OneStep(run, swept, SweepNext(0, r), w);
    run := run + [SweepNext(0, r)];
  }

  /** ... finishes, and leaves an entry behind if it is then stopped by name. */
  lemma ThenStoppedLate(r: string, c: string) returns (run: seq<Action>)
    ensures Exec(run) == Some(World(Registry(map[r := 1], map[], [true, true]), map[r := Finished(c, 0)],
                                    [Sweep(c, {r}, {})]))
  {
    var w;
    run, w := SweptWhileRunning(r, c);
    var dropped := w.(registry := w.registry.(flags := map[]), fetches := map[r := Finishing(c, 0)]);
    var finished := w.(registry := w.registry.(flags := map[], owners := map[]), fetches := map[r := Finished(c, 0)]);
    assert w.registry.flags - {r} == map[] && w.fetches[r := Finishing(c, 0)] == dropped.fetches;
    OneStep(run, w, DropFlag(r), dropped);
    run := run + [DropFlag(r)];
    assert w.registry.owners - {r} == map[] && dropped.fetches[r := Finished(c, 0)] == finished.fetches;
    OneStep(run, dropped, DropOwner(r), finished);
    run := run + [DropOwner(r)];
    OneStep(run, finished, Stop(r), finished.(registry := Registry(map[r := 1], map[], [true, true])));
    run := run + [Stop(r)];
  }
}
