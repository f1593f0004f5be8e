/** When a blocked connection can be shown as connected: never, while commands
    run one at a time; and, when they interleave, exactly when a connection was
    marked connected after it had been blocked. */
module BreakerSafety {
  import opened Common
  import opened AuthRegistry
  import opened Breaker

  /** `id` was marked connected while blocked, and has been neither dropped nor
      cleared since. */
  predicate MarkedWhileBlocked(log: seq<Entry>, id: string) {
    log != [] &&
      var before, e := log[..|log| - 1], log[|log| - 1];
      if e == Entry(id, Drop) || e == Entry(id, Clear) then false
      else MarkedWhileBlocked(before, id) || (e == Entry(id, Mark) && Blocked(Replay(before), id))
  }

  /** Some command is about to drop `id`. */
  ghost predicate Dropping(w: World, id: string) {
    exists q :: q in w.tasks && w.tasks[q].id == id && Now(Drop) in w.tasks[q].ops
  }

  ghost predicate Showing(w: World, id: string) {
    Blocked(w.registry, id) && id in w.registry.connected
  }

  ghost predicate Explained(w: World, id: string) {
    Showing(w, id) ==> Dropping(w, id) || MarkedWhileBlocked(w.log, id)
  }

  lemma MarkedAppends(log: seq<Entry>, e: Entry, id: string)
    ensures MarkedWhileBlocked(log + [e], id) <==>
            && e != Entry(id, Drop) && e != Entry(id, Clear)
            && (MarkedWhileBlocked(log, id) || (e == Entry(id, Mark) && Blocked(Replay(log), id)))
  {
    assert (log + [e])[..|log|] == log;
  }

  /** A pending Drop waits for its own turn. */
  lemma DropsWait(w: World, a: Step, id: string)
    requires Shaped(w) && Enabled(w, a) && Dropping(w, id)
    ensures Dropping(Apply(w, a), id) || (a.Advance? && w.tasks[a.q].id == id && w.tasks[a.q].ops[0] == Now(Drop))
  {
    var p :| p in w.tasks && w.tasks[p].id == id && Now(Drop) in w.tasks[p].ops;
    var w' := Apply(w, a);
    if a.Start? || a.q != p {
      assert p in w'.tasks && w'.tasks[p] == w.tasks[p];
    } else {
      var ops := w.tasks[p].ops;
      assert ops[0].Now?;
      if ops[0] != Now(Drop) {
        assert Now(Drop) in ops[1..];
        assert Now(Drop) in w'.tasks[p].ops;
      }
    }
  }

  lemma TrippingDrops(w: World, a: Step)
    requires Shaped(w) && Enabled(w, a) && a.Advance?
    requires w.tasks[a.q].ops[0].Now? && w.tasks[a.q].ops[0].act.Reject?
    requires Blocked(Apply(w, a).registry, w.tasks[a.q].id)
    ensures Dropping(Apply(w, a), w.tasks[a.q].id)
  {
    var ops := Apply(w, a).tasks[a.q].ops;
    assert ops[0] == Now(Drop);
  }

  /** A step that does something to the registry. */
  lemma ActStaysExplained(w: World, a: Step, id: string, e: Entry)
    requires Shaped(w) && Enabled(w, a) && Explained(w, id) && a.Advance? && w.tasks[a.q].ops[0].Now?
    requires e == Entry(w.tasks[a.q].id, w.tasks[a.q].ops[0].act)
    ensures Explained(Apply(w, a), id)
  {
    if Showing(Apply(w, a), id) {
      MarkedAppends(w.log, e, id);
      if e.id == id && e.act.Reject? {
        TrippingDrops(w, a);
      } else if Dropping(w, id) {
        DropsWait(w, a, id);
      }
    }
  }

  lemma StaysExplained(w: World, a: Step, id: string)
    requires Shaped(w) && Enabled(w, a) && Explained(w, id)
    ensures Explained(Apply(w, a), id)
  {
    if a.Advance? && w.tasks[a.q].ops[0].Now? {
      ActStaysExplained(w, a, id, Entry(w.tasks[a.q].id, w.tasks[a.q].ops[0].act));
    } else {
      assert Apply(w, a).registry == w.registry && Apply(w, a).log == w.log;
      if Dropping(w, id) {
        DropsWait(w, a, id);
      }
    }
  }

  lemma {:induction false} AlwaysExplained(run: seq<Step>, id: string)
    requires Exec(run).Some?
    ensures Explained(Exec(run).value, id)
  {
    if run != [] {
      AlwaysExplained(run[..|run| - 1], id);
      AlwaysShaped(run[..|run| - 1]);
      StaysExplained(Exec(run[..|run| - 1]).value, run[|run| - 1], id);
    }
  }

  lemma {:induction false} MarkedShows(log: seq<Entry>, id: string)
    requires MarkedWhileBlocked(log, id)
    ensures Blocked(Replay(log), id) && id in Replay(log).connected
  {
    if MarkedWhileBlocked(log[..|log| - 1], id) {
      MarkedShows(log[..|log| - 1], id);
    }
  }

  ghost predicate Quiescent(w: World) {
    forall q :: q in w.tasks ==> w.tasks[q].ops == []
  }

  /** With every command finished, a connection is both blocked and connected
      exactly when it was marked connected while already blocked. */
  lemma ShowingExactly(run: seq<Step>, id: string)
    requires Exec(run).Some? && Quiescent(Exec(run).value)
    ensures var s := Exec(run).value.registry;
            (Blocked(s, id) && id in s.connected) <==> MarkedWhileBlocked(Exec(run).value.log, id)
  {
    AlwaysExplained(run, id);
    AlwaysShaped(run);
    if MarkedWhileBlocked(Exec(run).value.log, id) {
      MarkedShows(Exec(run).value.log, id);
    }
  }

  // ----- One command at a time

  /** No command starts before the previous one has finished. */
  ghost predicate OneAtATime(run: seq<Step>) {
    run != [] ==>
      && OneAtATime(run[..|run| - 1])
      && (run[|run| - 1].Start? && Exec(run[..|run| - 1]).Some? ==> Quiescent(Exec(run[..|run| - 1]).value))
  }

  /** A command that will mark its connection has cleared it, or will first. */
  predicate MarksFairly(s: Registry, t: Task) {
    Now(Mark) in t.ops ==>
      || t.ops == FORGET + [Now(Mark)]
      || (t.ops in [[Now(ClearDenials), Now(Mark)], [Now(Mark)]] && !Blocked(s, t.id))
  }

  ghost predicate OneBusy(w: World) {
    forall p, q :: p in w.tasks && q in w.tasks && w.tasks[p].ops != [] && w.tasks[q].ops != [] ==> p == q
  }

  ghost predicate AllFair(w: World) {
    forall q :: q in w.tasks ==> MarksFairly(w.registry, w.tasks[q])
  }

  ghost predicate NoneMarkedBlocked(w: World) {
    forall id :: !MarkedWhileBlocked(w.log, id)
  }

  ghost predicate Orderly(w: World) {
    OneBusy(w) && AllFair(w) && NoneMarkedBlocked(w)
  }

  lemma FairStep(s: Registry, t: Task, answer: Answer)
    requires t.ops != [] && Proper(t.ops) && MarksFairly(s, t)
    requires t.ops[0].Ask? ==> Suits(t.ops[0].call, answer)
    ensures var s' := if t.ops[0].Now? then Do(s, Entry(t.id, t.ops[0].act)) else s;
            MarksFairly(s', t.(ops := Rest(s, t, answer)))
    ensures t.ops[0] == Now(Mark) ==> !Blocked(s, t.id)
  {
    assert (FORGET + [Now(Mark)])[1..] == [Now(ClearDenials), Now(Mark)];
    assert [Now(ClearDenials), Now(Mark)][1..] == [Now(Mark)];
    if Now(Mark) in t.ops {
      assert t.ops == FORGET + [Now(Mark)] || t.ops == [Now(ClearDenials), Now(Mark)] || t.ops == [Now(Mark)];
    } else {
      UnmarkedRest(s, t, answer);
    }
  }

  lemma UnmarkedRest(s: Registry, t: Task, answer: Answer)
    requires t.ops != [] && Proper(t.ops) && Now(Mark) !in t.ops
    ensures var rest := Rest(s, t, answer); Now(Mark) in rest ==> rest == FORGET + [Now(Mark)]
  {
    if t.ops[0].Now? && t.ops[0].act.Reject? {
      assert |t.ops| == 1;
    }
  }

  lemma StaysFair(w: World, a: Step)
    requires Shaped(w) && Enabled(w, a) && OneBusy(w) && AllFair(w)
    ensures AllFair(Apply(w, a))
  {
    if a.Start? {
      assert Now(Mark) !in Program(a.c);
    } else if a.Advance? {
      FairStep(w.registry, w.tasks[a.q], a.answer);
    }
  }

  lemma NoneMarkedStays(w: World, a: Step)
    requires Shaped(w) && Enabled(w, a) && AllFair(w) && NoneMarkedBlocked(w)
    ensures NoneMarkedBlocked(Apply(w, a))
  {
    forall id
      ensures !MarkedWhileBlocked(Apply(w, a).log, id)
    {
      if a.Advance? && w.tasks[a.q].ops[0].Now? {
        FairStep(w.registry, w.tasks[a.q], a.answer);
        MarkedAppends(w.log, Entry(w.tasks[a.q].id, w.tasks[a.q].ops[0].act), id);
      }
    }
  }

  lemma StaysOrderly(w: World, a: Step)
    requires Shaped(w) && Enabled(w, a) && Orderly(w) && (a.Start? ==> Quiescent(w))
    ensures Orderly(Apply(w, a))
  {
    StaysFair(w, a);
    NoneMarkedStays(w, a);
  }

  lemma {:induction false} AlwaysOrderly(run: seq<Step>)
    requires Exec(run).Some? && OneAtATime(run)
    ensures Orderly(Exec(run).value)
  {
    if run != [] {
      AlwaysOrderly(run[..|run| - 1]);
      AlwaysShaped(run[..|run| - 1]);
      StaysOrderly(Exec(run[..|run| - 1]).value, run[|run| - 1]);
    }
  }

  /** With commands one at a time, a blocked connection is connected at no
      moment but between the rejection that blocks it and the Drop that
      rejection queued; and never between commands. */
  lemma BlockedIsNeverConnected(run: seq<Step>, id: string)
    requires Exec(run).Some? && OneAtATime(run)
    requires var s := Exec(run).value.registry; Blocked(s, id) && id in s.connected
    ensures Dropping(Exec(run).value, id) && !Quiescent(Exec(run).value)
  {
    AlwaysOrderly(run);
    AlwaysExplained(run, id);
  }

  // ----- Reconnect hands back the whole allowance

  ghost predicate OnlyConnects(run: seq<Step>) {
    forall i :: 0 <= i < |run| && run[i].Start? ==> run[i].c == Connect
  }

  /** A rejection may follow that no Clear comes before. */
  predicate Exposed(ops: seq<Op>) {
    ops != [] && Hit(ops[|ops| - 1]) && Now(Clear) !in ops
  }

  /** At most one rejection stands, and none while another may follow. */
  ghost predicate Forgiving(w: World) {
    && (forall id :: Rejections(w.log, id) <= 1)
    && (forall q :: q in w.tasks && Exposed(w.tasks[q].ops) ==> Rejections(w.log, w.tasks[q].id) == 0)
  }

  lemma RestExposed(s: Registry, t: Task, answer: Answer)
    requires t.ops != [] && Proper(t.ops)
    ensures t.ops[0].Now? && t.ops[0].act.Reject? ==> Exposed(t.ops) && !Exposed(Rest(s, t, answer))
    ensures Exposed(Rest(s, t, answer)) ==> Exposed(t.ops) || t.ops[0] == Now(Clear)
  {
    var rest := Rest(s, t, answer);
    if t.ops[0].Now? && t.ops[0].act.Reject? {
      assert |t.ops| == 1;
      assert rest == t.ops[1..] || rest == LEAVE + t.ops[1..];
    } else if !t.ops[0].Ask? && rest != [] {
      assert rest == t.ops[1..] && rest[|rest| - 1] == t.ops[|t.ops| - 1];
      assert forall op :: op in t.ops ==> op == t.ops[0] || op in rest;
    }
  }

  /** What one step does to the count of any connection. */
  lemma CountStep(w: World, a: Step, id: string)
    requires Enabled(w, a) && a.Advance?
    ensures var t := w.tasks[a.q];
            Rejections(Apply(w, a).log, id) ==
            if t.ops[0] == Now(Clear) && t.id == id then 0
            else Rejections(w.log, id) + if t.id == id && t.ops[0].Now? && t.ops[0].act.Reject? then 1 else 0
  {
    var t := w.tasks[a.q];
    if t.ops[0].Now? {
      RejectionsAppend(w.log, Entry(t.id, t.ops[0].act), id);
    }
  }

  lemma CountStaysLow(w: World, a: Step, id: string)
    requires Shaped(w) && Enabled(w, a) && a.Advance? && Forgiving(w)
    ensures Rejections(Apply(w, a).log, id) <= 1
  {
    CountStep(w, a, id);
    RestExposed(w.registry, w.tasks[a.q], a.answer);
  }

  lemma ExposedStaysClean(w: World, a: Step, q: nat)
    requires Shaped(w) && Enabled(w, a) && a.Advance? && OneBusy(w) && Forgiving(w)
    requires q in Apply(w, a).tasks && Exposed(Apply(w, a).tasks[q].ops)
    ensures Rejections(Apply(w, a).log, Apply(w, a).tasks[q].id) == 0
  {
    assert q == a.q;
    CountStep(w, a, w.tasks[q].id);
    RestExposed(w.registry, w.tasks[q], a.answer);
  }

  lemma StaysForgiving(w: World, a: Step)
    requires Shaped(w) && Enabled(w, a) && OneBusy(w) && Forgiving(w)
    requires a.Start? ==> a.c == Connect
    ensures Forgiving(Apply(w, a))
  {
    if a.Start? {
      assert Program(Connect)[0] == Now(Clear);
    } else if a.Advance? {
      forall id
        ensures Rejections(Apply(w, a).log, id) <= 1
      {
        CountStaysLow(w, a, id);
      }
      forall q | q in Apply(w, a).tasks && Exposed(Apply(w, a).tasks[q].ops)
        ensures Rejections(Apply(w, a).log, Apply(w, a).tasks[q].id) == 0
      {
        ExposedStaysClean(w, a, q);
      }
    }
  }

  lemma {:induction false} AlwaysForgiving(run: seq<Step>)
    requires Exec(run).Some? && OneAtATime(run) && OnlyConnects(run)
    ensures Forgiving(Exec(run).value)
  {
    if run != [] {
      var before := run[..|run| - 1];
      AlwaysForgiving(before);
      AlwaysShaped(before);
      AlwaysOrderly(before);
      StaysForgiving(Exec(before).value, run[|run| - 1]);
    }
  }

  /** However often Connect is clicked, and however often the broker rejects
      it, Connect alone never blocks a connection. */
  lemma ConnectNeverTrips(run: seq<Step>, id: string)
    requires Exec(run).Some? && OneAtATime(run) && OnlyConnects(run)
    ensures !Blocked(Exec(run).value.registry, id)
  {
    AlwaysForgiving(run);
    AlwaysShaped(run);
    AttemptsAreRejections(Exec(run).value.log, id);
  }

  // ----- Consumer groups cost nothing

  /** What else may be going on when only consumer-group calls ask the broker. */
  predicate Mild(c: Command) {
    c == Request(false) || c.Update? || c.Delete? || c.Disconnect?
  }

  ghost predicate OnlyMild(run: seq<Step>, id: string) {
    forall i :: 0 <= i < |run| && run[i].Start? && run[i].id == id ==> Mild(run[i].c)
  }

  /** No step that counts a rejection, now or when the broker has answered. */
  predicate Harmless(ops: seq<Op>) {
    forall i :: 0 <= i < |ops| ==>
      !(ops[i].Now? && ops[i].act.Reject?) && (ops[i].Ask? ==> ops[i].call == Asking(false))
  }

  ghost predicate Unharmed(w: World, id: string) {
    Rejections(w.log, id) == 0 && forall q :: q in w.tasks && w.tasks[q].id == id ==> Harmless(w.tasks[q].ops)
  }

  lemma StaysUnharmed(w: World, a: Step, id: string)
    requires Enabled(w, a) && Unharmed(w, id)
    requires a.Start? && a.id == id ==> Mild(a.c)
    ensures Unharmed(Apply(w, a), id)
  {
    if a.Advance? {
      var t := w.tasks[a.q];
      CountStep(w, a, id);
      if t.id == id {
        assert Harmless(t.ops);
        assert Harmless(Rest(w.registry, t, a.answer));
      }
    }
  }

  /** However many consumer-group calls the broker refuses, however they
      interleave, none of them is counted, and the connection stays usable. */
  lemma {:induction false} GroupCallsNeverTrip(run: seq<Step>, id: string)
    requires Exec(run).Some? && OnlyMild(run, id)
    ensures Unharmed(Exec(run).value, id) && !Blocked(Exec(run).value.registry, id)
  {
    if run != [] {
      var before := run[..|run| - 1];
      GroupCallsNeverTrip(before, id);
      StaysUnharmed(Exec(before).value, run[|run| - 1], id);
    }
    AlwaysShaped(run);
    AttemptsAreRejections(Exec(run).value.log, id);
  }
}
