/** The commands themselves, each run from beginning to end on the registry with
    nothing in between (src-tauri/src/commands/connections.rs, publish.rs):
    every one ends where its list of steps ends when run alone, and keeps
    blocked connections out of the connected set. */
module Commands {
  import opened Common
  import opened AuthRegistry
  import opened Breaker
  import opened BreakerSafety

  // ----- A list of steps, run alone

  /** An upper bound on the steps still to be taken. */
  function Weight(ops: seq<Op>): nat {
    if ops == [] then 0
    else (match ops[0] case Ask(_) => 7 case Now(act) => if act.Reject? then 4 else 1 case _ => 1) + Weight(ops[1..])
  }

  lemma {:induction false} WeightAppend(a: seq<Op>, b: seq<Op>)
    ensures Weight(a + b) == Weight(a) + Weight(b)
  {
    if a == [] {
      assert a + b == b;
    } else {
      assert (a + b)[1..] == a[1..] + b;
      WeightAppend(a[1..], b);
    }
  }

  lemma AnswersAreLight(call: Call, answer: Answer)
    ensures Weight(AfterAnswer(call, answer)) < 7
  {
    assert Weight(FORGET) == 2;
    match answer
    case Accepted(_) => WeightAppend(FORGET, [Now(Mark)]);
    case Published(delivered, failure) =>
      var tail := match failure
        case NoFailure => []
        case NotAuthorized(m) => if call.Publishing? then [Now(Deny(call.topic, m))] else []
        case NotAuthenticated(m) => [Now(Reject(m))]
        case OtherFailure => [];
      assert Weight(tail) <= 4;
      WeightAppend(if delivered then FORGET else [], tail);
    case _ =>
  }

  lemma RestIsLighter(s: Registry, t: Task, answer: Answer)
    requires t.ops != []
    ensures Weight(Rest(s, t, answer)) < Weight(t.ops)
  {
    if t.ops[0].Ask? {
      AnswersAreLight(t.ops[0].call, answer);
    } else {
      assert Weight(LEAVE) == 2;
      WeightAppend(LEAVE, t.ops[1..]);
    }
  }

  function RunAlone(s: Registry, t: Task, answer: Answer): Registry
    decreases Weight(t.ops)
  {
    if t.ops == [] then s
    else
      RestIsLighter(s, t, answer);
      RunAlone(if t.ops[0].Now? then Do(s, Entry(t.id, t.ops[0].act)) else s,
               t.(ops := Rest(s, t, answer)), answer)
  }

  /** No blocked connection is connected. */
  ghost predicate Safe(s: Registry) {
    forall id :: id in s.connected ==> !Blocked(s, id)
  }

  ghost predicate SafeBut(s: Registry, t: Task) {
    && Proper(t.ops) && MarksFairly(s, t)
    && forall id :: id in s.connected && Blocked(s, id) ==> id == t.id && Now(Drop) in t.ops
  }

  lemma StaysSafeBut(s: Registry, t: Task, answer: Answer)
    requires SafeBut(s, t) && t.ops != [] && (t.ops[0].Ask? ==> Suits(t.ops[0].call, answer))
    ensures SafeBut(if t.ops[0].Now? then Do(s, Entry(t.id, t.ops[0].act)) else s, t.(ops := Rest(s, t, answer)))
  {
    RestProper(s, t, answer);
    FairStep(s, t, answer);
    if t.ops[0].Now? && t.ops[0].act.Reject? {
      assert |t.ops| == 1;
      assert LEAVE[0] == Now(Drop);
    } else if Now(Drop) in t.ops {
      assert t.ops[0].Now?;
      assert Now(Drop) in t.ops[1..] || t.ops[0] == Now(Drop);
    }
  }

  lemma {:induction false} AloneEndsSafe(s: Registry, t: Task, answer: Answer)
    requires SafeBut(s, t)
    requires forall op :: op in t.ops && op.Ask? ==> Suits(op.call, answer)
    ensures Safe(RunAlone(s, t, answer))
    decreases Weight(t.ops)
  {
    if t.ops != [] {
      StaysSafeBut(s, t, answer);
      RestIsLighter(s, t, answer);
      AloneEndsSafe(if t.ops[0].Now? then Do(s, Entry(t.id, t.ops[0].act)) else s,
                    t.(ops := Rest(s, t, answer)), answer);
    }
  }

  predicate Answers(c: Command, answer: Answer) {
    c.Publish? <==> answer.Published?
  }

  /** Every command, run alone, keeps blocked connections disconnected. */
  lemma CommandsKeepSafe(s: Registry, id: string, c: Command, answer: Answer)
    requires Safe(s) && Answers(c, answer)
    ensures Safe(RunAlone(s, Task(id, Program(c)), answer))
  {
    ProgramsProper(c);
    assert Now(Mark) !in Program(c);
    AloneEndsSafe(s, Task(id, Program(c)), answer);
  }

  /** `run` can go on to a world that has this registry and these tasks. */
  ghost predicate CanReach(run: seq<Step>, s: Registry, tasks: map<nat, Task>) {
    exists more :: Arrives(Exec(run + more), s, tasks)
  }

  predicate Arrives(w: Option<World>, s: Registry, tasks: map<nat, Task>) {
    w.Some? && w.value.registry == s && w.value.tasks == tasks
  }

  lemma OneStepEarlier(run: seq<Step>, a: Step, s: Registry, tasks: map<nat, Task>)
    requires CanReach(run + [a], s, tasks)
    ensures CanReach(run, s, tasks)
  {
    var more :| Arrives(Exec(run + [a] + more), s, tasks);
    assert run + ([a] + more) == run + [a] + more;
  }

  predicate Suited(ops: seq<Op>, answer: Answer) {
    forall i :: 0 <= i < |ops| && ops[i].Ask? ==> Suits(ops[i].call, answer)
  }

  /** What one step of `q` does, in the terms of `RunAlone`. */
  lemma OneStepOn(run: seq<Step>, w: World, q: nat, answer: Answer) returns (w': World)
    requires Exec(run) == Some(w) && q in w.tasks && w.tasks[q].ops != [] && Suited(w.tasks[q].ops, answer)
    ensures Exec(run + [Advance(q, answer)]) == Some(w')
    ensures w'.tasks == w.tasks[q := w'.tasks[q]] && q in w'.tasks && w'.tasks[q].id == w.tasks[q].id
    ensures Suited(w'.tasks[q].ops, answer) && Weight(w'.tasks[q].ops) < Weight(w.tasks[q].ops)
    ensures RunAlone(w.registry, w.tasks[q], answer) == RunAlone(w'.registry, w'.tasks[q], answer)
  {
    var a := Advance(q, answer);
    ExecAppends(run, a);
    w' := Apply(w, a);
    RestIsLighter(w.registry, w.tasks[q], answer);
  }

  /** Running alone is one of the ways to run: from any reachable world, a
      command can go through to its end undisturbed. */
  lemma {:induction false} AloneIsARun(run: seq<Step>, w: World, q: nat, answer: Answer)
    requires Exec(run) == Some(w) && q in w.tasks && Suited(w.tasks[q].ops, answer)
    ensures CanReach(run, RunAlone(w.registry, w.tasks[q], answer), w.tasks[q := Task(w.tasks[q].id, [])])
    decreases Weight(w.tasks[q].ops)
  {
    var id := w.tasks[q].id;
    if w.tasks[q].ops == [] {
      assert run + [] == run;
      assert w.tasks[q := Task(id, [])] == w.tasks;
      assert Arrives(Exec(run + []), w.registry, w.tasks);
    } else {
      var w' := OneStepOn(run, w, q, answer);
      AloneIsARun(run + [Advance(q, answer)], w', q, answer);
      assert w'.tasks[q := Task(id, [])] == w.tasks[q := Task(id, [])];
      OneStepEarlier(run, Advance(q, answer), RunAlone(w.registry, w.tasks[q], answer), w.tasks[q := Task(id, [])]);
    }
  }

  // ----- How a list begins

  lemma ForgetFirst(s: Registry, id: string, rest: seq<Op>, answer: Answer)
    ensures RunAlone(s, Task(id, FORGET + rest), answer)
            == RunAlone(Do(Do(s, Entry(id, Clear)), Entry(id, ClearDenials)), Task(id, rest), answer)
  {
    assert (FORGET + rest)[1..] == [Now(ClearDenials)] + rest;
    assert ([Now(ClearDenials)] + rest)[1..] == rest;
  }

  lemma LeaveFirst(s: Registry, id: string, rest: seq<Op>, answer: Answer)
    ensures RunAlone(s, Task(id, LEAVE + rest), answer)
            == RunAlone(Do(Do(s, Entry(id, Drop)), Entry(id, ClearDenials)), Task(id, rest), answer)
  {
    assert (LEAVE + rest)[1..] == [Now(ClearDenials)] + rest;
    assert ([Now(ClearDenials)] + rest)[1..] == rest;
  }

  function Failing(s: Registry, id: string, m: string): Registry {
    var f := Do(s, Entry(id, Reject(m)));
    if Blocked(f, id) then Do(Do(f, Entry(id, Drop)), Entry(id, ClearDenials)) else f
  }

  lemma RejectAlone(s: Registry, id: string, m: string, answer: Answer)
    ensures RunAlone(s, Task(id, [Now(Reject(m))]), answer) == Failing(s, id, m)
  {
    var f := Do(s, Entry(id, Reject(m)));
    var one: seq<Op> := [Now(Reject(m))];
    assert one[1..] == [] && LEAVE + one[1..] == LEAVE + [];
    if Blocked(f, id) {
      LeaveFirst(f, id, [], answer);
    }
  }

  // ----- The commands

  method ConnectionForRequest(reg: ConnectionRegistry, id: string, saved: bool) returns (ok: bool)
    ensures ok <==> saved && !Blocked(reg.Model(), id)
  {
    var reason := reg.AuthBlockReason(id);
    ok := reason.None? && saved;
  }

  /** What an answer does to the registry: a success clears the slate, a rejection
      counts if it is to be counted, and nothing else leaves a trace. */
  ghost predicate Verdict(s: Registry, t: Registry, id: string, counted: bool, answer: Answer) {
    match answer
    case Accepted(_) => Cleared(s, t, id)
    case BadCredentials(m) => if counted then Counted(s, t, id, m) else t == s
    case _ => t == s
  }

  /** `record_auth_outcome` when `counted`, else `record_auth_success_only`. */
  method RecordOutcome(reg: ConnectionRegistry, id: string, counted: bool, answer: Answer)
    requires !answer.Published?
    modifies reg
    ensures reg.Model() == RunAlone(old(reg.Model()), Task(id, AfterAnswer(Asking(counted), answer)), answer)
    ensures Verdict(old(reg.Model()), reg.Model(), id, counted, answer)
  {
    match answer
    case Accepted(_) =>
      assert FORGET + [] == FORGET;
      ForgetFirst(reg.Model(), id, [], answer);
      reg.RecordAuthSuccess(id);
    case BadCredentials(m) =>
      if counted {
        RejectAlone(reg.Model(), id, m, answer);
        reg.RecordAuthFailure(id, m);
      }
    case Failed =>
  }

  /** A connection missing from the database leaves the registry as a call that
      fails without a verdict does. */
  function Heard(ok: bool, answer: Answer): Answer {
    if ok then answer else Failed
  }

  /** Which the interleaved steps agree on: giving up where the broker would be
      asked is a way to go on, and leaves the world as a failed call does. */
  lemma GivingUpIsFailing(run: seq<Step>, w: World, q: nat, call: Call)
    requires Exec(run) == Some(w) && q in w.tasks && w.tasks[q].ops == [Ask(call)]
    ensures Exec(run + [GiveUp(q)]).Some?
    ensures Exec(run + [GiveUp(q)]) ==
            Exec(run + [Advance(q, if call.Publishing? then Published(false, NoFailure) else Failed)])
  {
    var answer := if call.Publishing? then Published(false, NoFailure) else Failed;
    ExecAppends(run, GiveUp(q));
    ExecAppends(run, Advance(q, answer));
    assert AfterAnswer(call, answer) == [];
  }

  method ConnectionConnect(reg: ConnectionRegistry, id: string, saved: bool, answer: Answer)
    requires !answer.Published?
    modifies reg
    ensures reg.Model() == RunAlone(old(reg.Model()), Task(id, Program(Connect)), Heard(saved, answer))
    ensures old(Safe(reg.Model())) ==> Safe(reg.Model())
    // one attempt is left afterwards if the broker rejects it, and two if not
    ensures OnlyAbout(old(reg.Model()), reg.Model(), id) && NoDenials(reg.Model(), id)
    ensures if saved && answer.BadCredentials? then id in reg.failures && reg.failures[id] == Failures(1, answer.reason)
            else id !in reg.failures
    ensures if saved && answer == Accepted(true) then id in reg.connected
            else SameConnected(old(reg.Model()), reg.Model(), id)
  {
    ghost var s := reg.Model();
    CommandKept(s, id, Connect, Heard(saved, answer));
    ForgetFirst(s, id, [Gate, Ask(Connecting)], Heard(saved, answer));
    reg.ClearAuthFailures(id);
    ghost var cleared := reg.Model();
    GateAlone(cleared, id, [Ask(Connecting)], Heard(saved, answer));
    AskAlone(cleared, id, Connecting, Heard(saved, answer));
    var ok := ConnectionForRequest(reg, id, saved);
    if ok {
      ConnectAnswered(cleared, id, answer);
      RecordOutcome(reg, id, true, answer);
      ghost var recorded := reg.Model();
      OnlyAboutThrough(s, cleared, recorded, id);
      if answer == Accepted(true) {
        reg.MarkConnected(id);
        OnlyAboutThrough(s, recorded, reg.Model(), id);
      }
    }
  }

  lemma CommandKept(s: Registry, id: string, c: Command, answer: Answer)
    requires Answers(c, answer)
    ensures Safe(s) ==> Safe(RunAlone(s, Task(id, Program(c)), answer))
  {
    if Safe(s) {
      CommandsKeepSafe(s, id, c, answer);
    }
  }

  lemma GateAlone(s: Registry, id: string, rest: seq<Op>, answer: Answer)
    ensures RunAlone(s, Task(id, [Gate] + rest), answer)
            == if Blocked(s, id) then s else RunAlone(s, Task(id, rest), answer)
  {
    assert ([Gate] + rest)[1..] == rest;
  }

  lemma AskAlone(s: Registry, id: string, call: Call, answer: Answer)
    ensures RunAlone(s, Task(id, [Ask(call)]), answer) == RunAlone(s, Task(id, AfterAnswer(call, answer)), answer)
  {
  }

  lemma ConnectAnswered(s: Registry, id: string, answer: Answer)
    requires !answer.Published?
    ensures var t := RunAlone(s, Task(id, AfterAnswer(Asking(true), answer)), answer);
            RunAlone(s, Task(id, AfterAnswer(Connecting, answer)), answer)
            == if answer == Accepted(true) then Do(t, Entry(id, Mark)) else t
  {
    if answer == Accepted(true) {
      ForgetFirst(s, id, [Now(Mark)], answer);
      ForgetFirst(s, id, [], answer);
      assert FORGET + [] == FORGET;
    }
  }

  /** `saved`: the new settings reached the database. */
  method ConnectionUpdate(reg: ConnectionRegistry, id: string, saved: bool)
    modifies reg
    ensures reg.Model() ==
            if saved then RunAlone(old(reg.Model()), Task(id, Program(Update)), Failed) else old(reg.Model())
    ensures old(Safe(reg.Model())) ==> Safe(reg.Model())
    ensures saved ==> !Blocked(reg.Model(), id)
    ensures saved ==> Cleared(old(reg.Model()), reg.Model(), id)
  {
    if saved {
      CommandKept(reg.Model(), id, Update, Failed);
      assert FORGET + [] == FORGET;
      ForgetFirst(reg.Model(), id, [], Failed);
      reg.ClearAuthFailures(id);
    }
  }

  method ConnectionDelete(reg: ConnectionRegistry, id: string, deleted: bool)
    modifies reg
    ensures reg.Model() ==
            if deleted then RunAlone(old(reg.Model()), Task(id, Program(Delete)), Failed) else old(reg.Model())
    ensures old(Safe(reg.Model())) ==> Safe(reg.Model())
    ensures deleted ==> id !in reg.connected && id !in reg.failures && forall topic :: (id, topic) !in reg.denials
    ensures OnlyAbout(old(reg.Model()), reg.Model(), id)
  {
    if deleted {
      ghost var s := reg.Model();
      CommandKept(s, id, Delete, Failed);
      LeaveFirst(s, id, FORGET, Failed);
      reg.MarkDisconnected(id);
      assert FORGET + [] == FORGET;
      ForgetFirst(reg.Model(), id, [], Failed);
      reg.ClearAuthFailures(id);
    }
  }

  /** Disconnecting forgets no rejection: a blocked connection stays blocked. */
  method ConnectionDisconnect(reg: ConnectionRegistry, id: string)
    modifies reg
    ensures reg.Model() == RunAlone(old(reg.Model()), Task(id, Program(Disconnect)), Failed)
    ensures old(Safe(reg.Model())) ==> Safe(reg.Model())
    ensures id !in reg.connected && reg.failures == old(reg.failures) && NoDenials(reg.Model(), id)
    ensures OnlyAbout(old(reg.Model()), reg.Model(), id)
  {
    CommandKept(reg.Model(), id, Disconnect, Failed);
    assert LEAVE + [] == LEAVE;
    LeaveFirst(reg.Model(), id, [], Failed);
    reg.MarkDisconnected(id);
  }

  /** Listing brokers, topics and partitions, fetching, and -- not `counted` --
      the consumer-group calls. */
  method BrokerRequest(reg: ConnectionRegistry, id: string, counted: bool, saved: bool, answer: Answer)
    returns (asked: bool)
    requires !answer.Published?
    modifies reg
    ensures asked <==> saved && !Blocked(old(reg.Model()), id)
    ensures reg.Model() == RunAlone(old(reg.Model()), Task(id, Program(Request(counted))), Heard(saved, answer))
    ensures if asked then Verdict(old(reg.Model()), reg.Model(), id, counted, answer)
            else reg.Model() == old(reg.Model())
    ensures old(Safe(reg.Model())) ==> Safe(reg.Model())
  {
    ghost var s := reg.Model();
    CommandKept(s, id, Request(counted), Heard(saved, answer));
    GateAlone(s, id, [Ask(Asking(counted))], Heard(saved, answer));
    AskAlone(s, id, Asking(counted), Heard(saved, answer));
    asked := ConnectionForRequest(reg, id, saved);
    if asked {
      RecordOutcome(reg, id, counted, answer);
    }
  }

  lemma NeedsAlone(s: Registry, id: string, topic: string, answer: Answer)
    ensures RunAlone(s, Task(id, [NeedConnected, NeedWritable(topic), Ask(Publishing(topic))]), answer)
            == if id in s.connected && DeniedReason(s, id, topic).None?
               then RunAlone(s, Task(id, AfterAnswer(Publishing(topic), answer)), answer) else s
  {
    var ops: seq<Op> := [NeedConnected, NeedWritable(topic), Ask(Publishing(topic))];
    assert ops[1..] == [NeedWritable(topic), Ask(Publishing(topic))];
    assert ops[1..][1..] == [Ask(Publishing(topic))];
    assert RunAlone(s, Task(id, []), answer) == s;
    assert RunAlone(s, Task(id, ops[1..]), answer)
           == RunAlone(s, Task(id, if DeniedReason(s, id, topic).Some? then [] else ops[1..][1..]), answer);
    AskAlone(s, id, Publishing(topic), answer);
  }

  lemma PublishAnswered(s: Registry, id: string, topic: string, delivered: bool, failure: PublishFailure)
    ensures var t := if delivered then Do(Do(s, Entry(id, Clear)), Entry(id, ClearDenials)) else s;
            var answer := Published(delivered, failure);
            RunAlone(s, Task(id, AfterAnswer(Publishing(topic), answer)), answer)
            == match failure
               case NotAuthorized(m) => Do(t, Entry(id, Deny(topic, m)))
               case NotAuthenticated(m) => Failing(t, id, m)
               case _ => t
  {
    var answer := Published(delivered, failure);
    var t := if delivered then Do(Do(s, Entry(id, Clear)), Entry(id, ClearDenials)) else s;
    var tail := AfterAnswer(Publishing(topic), Published(false, failure));
    if delivered {
      ForgetFirst(s, id, tail, answer);
      assert AfterAnswer(Publishing(topic), answer) == FORGET + tail;
    }
    if failure.NotAuthenticated? {
      RejectAlone(t, id, failure.why, answer);
      assert tail == [Now(Reject(failure.why))];
    }
  }

  /** What a producer's outcome does: anything delivered clears the slate; then a
      refusal is remembered for its topic, a rejection counts, and nothing else
      leaves a trace. */
  ghost predicate PublishVerdict(s: Registry, t: Registry, id: string, topic: string, delivered: bool,
                                 failure: PublishFailure)
  {
    && OnlyAbout(s, t, id)
    && match failure
       case NotAuthorized(m) =>
         && SameConnected(s, t, id) && DeniedReason(t, id, topic) == Some(m)
         && (if delivered then id !in t.failures else SameFailures(s, t, id))
         && forall other :: other != topic ==>
              DeniedReason(t, id, other) == if delivered then None else DeniedReason(s, id, other)
       case NotAuthenticated(m) =>
         if delivered then
           id in t.failures && t.failures[id] == Failures(1, m) && SameConnected(s, t, id) && NoDenials(t, id)
         else Counted(s, t, id, m)
       case _ => if delivered then Cleared(s, t, id) else t == s
  }

  /** `allowed` is the connection's own switch; `encodes` whether the messages
      are well formed; `produced` whether the producer gave an outcome at all. */
  method PublishMessages(reg: ConnectionRegistry, id: string, topic: string, saved: bool, allowed: bool,
                         encodes: bool, produced: bool, delivered: bool, failure: PublishFailure)
    returns (sent: bool)
    modifies reg
    ensures sent <==> saved && allowed && encodes && !Blocked(old(reg.Model()), id)
                      && id in old(reg.connected) && (id, topic) !in old(reg.denials)
    ensures reg.Model() ==
            RunAlone(old(reg.Model()), Task(id, Program(Publish(topic))),
                     if sent && produced then Published(delivered, failure) else Published(false, NoFailure))
    ensures if sent && produced then PublishVerdict(old(reg.Model()), reg.Model(), id, topic, delivered, failure)
            else reg.Model() == old(reg.Model())
    ensures old(Safe(reg.Model())) ==> Safe(reg.Model())
  {
    ghost var s := reg.Model();
    ghost var sends := saved && allowed && encodes && !Blocked(s, id) && id in s.connected && (id, topic) !in s.denials;
    ghost var answer := if sends && produced then Published(delivered, failure) else Published(false, NoFailure);
    CommandKept(s, id, Publish(topic), answer);
    GateAlone(s, id, [NeedConnected, NeedWritable(topic), Ask(Publishing(topic))], answer);
    NeedsAlone(s, id, topic, answer);
    PublishAnswered(s, id, topic, answer.delivered, answer.failure);
    sent := ConnectionForRequest(reg, id, saved);
    if sent {
      var connected := reg.IsConnected(id);
      var denied := reg.WriteDeniedReason(id, topic);
      sent := connected && allowed && denied.None? && encodes;
      if sent && produced {
        RecordPublish(reg, id, topic, delivered, failure);
      }
    }
  }

  /** The end of `connection_publish_messages`, once the producer has spoken. */
  method RecordPublish(reg: ConnectionRegistry, id: string, topic: string, delivered: bool, failure: PublishFailure)
    modifies reg
    ensures PublishVerdict(old(reg.Model()), reg.Model(), id, topic, delivered, failure)
    ensures var s := old(reg.Model());
            var t := if delivered then Do(Do(s, Entry(id, Clear)), Entry(id, ClearDenials)) else s;
            reg.Model() == match failure
                           case NotAuthorized(m) => Do(t, Entry(id, Deny(topic, m)))
                           case NotAuthenticated(m) => Failing(t, id, m)
                           case _ => t
  {
    ghost var s := reg.Model();
    if delivered {
      reg.RecordAuthSuccess(id);
    }
    ghost var t := reg.Model();
    assert OnlyAbout(s, t, id);
    match failure
    case NotAuthorized(m) =>
      reg.RecordWriteDenied(id, topic, m);
      DenialIsOnlyAbout(t, id, topic, m);
      OnlyAboutThrough(s, t, reg.Model(), id);
    case NotAuthenticated(m) =>
      reg.RecordAuthFailure(id, m);
      OnlyAboutThrough(s, t, reg.Model(), id);
    case _ =>
  }

  lemma DenialIsOnlyAbout(s: Registry, id: string, topic: string, m: string)
    ensures OnlyAbout(s, Do(s, Entry(id, Deny(topic, m))), id)
  {
  }
}
