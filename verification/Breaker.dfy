/** The commands that consult and feed the registry
    (src-tauri/src/commands/connections.rs, publish.rs), interleaved lock by
    lock. A command is the list of steps it still has to take; some of them
    depend on what the broker answers. */
module Breaker {
  import opened Common
  import opened AuthRegistry

  /** What is asked of the broker. `counted` is false for the consumer-group
      calls, whose rejections are not held against the connection. */
  datatype Call = Connecting | Asking(counted: bool) | Publishing(topic: string)

  datatype PublishFailure = NoFailure | NotAuthorized(why: string) | NotAuthenticated(why: string) | OtherFailure

  datatype Answer =
    | Accepted(reachable: bool)
    | BadCredentials(reason: string)
    | Failed
    | Published(delivered: bool, failure: PublishFailure)

  datatype Op =
    | Now(act: Act)
    | Gate                       // `connection_for_request`: a blocked connection goes no further
    | NeedConnected              // `publish_refusal`
    | NeedWritable(topic: string)
    | Ask(call: Call)

  datatype Command =
    | Connect
    | Update
    | Delete
    | Disconnect
    | Request(counted: bool)
    | Publish(topic: string)

  const FORGET: seq<Op> := [Now(Clear), Now(ClearDenials)]
  const LEAVE: seq<Op> := [Now(Drop), Now(ClearDenials)]

  function Program(c: Command): seq<Op> {
    match c
    case Connect => FORGET + [Gate, Ask(Connecting)]
    case Update => FORGET
    case Delete => LEAVE + FORGET
    case Disconnect => LEAVE
    case Request(counted) => [Gate, Ask(Asking(counted))]
    case Publish(topic) => [Gate, NeedConnected, NeedWritable(topic), Ask(Publishing(topic))]
  }

  predicate Suits(call: Call, answer: Answer) {
    call.Publishing? <==> answer.Published?
  }

  /** `record_auth_outcome`, `record_auth_success_only`, and the end of
      `connection_publish_messages`. */
  function AfterAnswer(call: Call, answer: Answer): seq<Op> {
    match answer
    case Accepted(reachable) => if call.Connecting? && reachable then FORGET + [Now(Mark)] else FORGET
    case BadCredentials(m) => if call.Asking? && !call.counted then [] else [Now(Reject(m))]
    case Failed => []
    case Published(delivered, failure) =>
      (if delivered then FORGET else []) +
      match failure
      case NoFailure => []
      case NotAuthorized(m) => if call.Publishing? then [Now(Deny(call.topic, m))] else []
      case NotAuthenticated(m) => [Now(Reject(m))]
      case OtherFailure => []
  }

  // ----- Commands, interleaved

  datatype Task = Task(id: string, ops: seq<Op>)

  /** `log` is everything done to the registry so far. */
  datatype World = World(registry: Registry, tasks: map<nat, Task>, log: seq<Entry>)

  const INITIALLY := World(FRESH, map[], [])

  /** `GiveUp`: the connection is not in the database, publishing is not
      allowed, or the messages do not encode. */
  datatype Step = Start(q: nat, id: string, c: Command) | Advance(q: nat, answer: Answer) | GiveUp(q: nat)

  predicate Enabled(w: World, a: Step) {
    match a
    case Start(q, id, c) => q !in w.tasks
    case Advance(q, answer) =>
      q in w.tasks && w.tasks[q].ops != [] && (w.tasks[q].ops[0].Ask? ==> Suits(w.tasks[q].ops[0].call, answer))
    case GiveUp(q) =>
      q in w.tasks && w.tasks[q].ops != [] && !w.tasks[q].ops[0].Now? && !w.tasks[q].ops[0].Gate?
  }

  /** What a command still has to do once its first step is done. */
  function Rest(s: Registry, t: Task, answer: Answer): seq<Op>
    requires t.ops != []
  {
    match t.ops[0]
    case Now(act) => if act.Reject? && Blocked(Do(s, Entry(t.id, act)), t.id) then LEAVE + t.ops[1..] else t.ops[1..]
    case Gate => if Blocked(s, t.id) then [] else t.ops[1..]
    case NeedConnected => if t.id in s.connected then t.ops[1..] else []
    case NeedWritable(topic) => if DeniedReason(s, t.id, topic).Some? then [] else t.ops[1..]
    case Ask(call) => AfterAnswer(call, answer)
  }

  function Apply(w: World, a: Step): World
    requires Enabled(w, a)
  {
    match a
    case Start(q, id, c) => w.(tasks := w.tasks[q := Task(id, Program(c))])
    case Advance(q, answer) =>
      var t := w.tasks[q];
      var tasks := w.tasks[q := t.(ops := Rest(w.registry, t, answer))];
      if t.ops[0].Now? then
        var e := Entry(t.id, t.ops[0].act);
        World(Do(w.registry, e), tasks, w.log + [e])
      else w.(tasks := tasks)
    case GiveUp(q) => w.(tasks := w.tasks[q := w.tasks[q].(ops := [])])
  }

  ghost function Exec(run: seq<Step>): Option<World> {
    if run == [] then Some(INITIALLY)
    else
      match Exec(run[..|run| - 1])
      case None => None
      case Some(w) => if Enabled(w, run[|run| - 1]) then Some(Apply(w, run[|run| - 1])) else None
  }

  lemma ExecAppends(run: seq<Step>, a: Step)
    requires Exec(run).Some? && Enabled(Exec(run).value, a)
    ensures Exec(run + [a]) == Some(Apply(Exec(run).value, a))
  {
    assert (run + [a])[..|run|] == run;
  }

  // ----- The shape of what is left of a command

  /** A step that reaches the broker, or counts its rejection. */
  predicate Hit(op: Op) {
    op.Ask? || (op.Now? && op.act.Reject?)
  }

  /** Nothing follows a hit, and no gate or question stands beside a Drop. */
  predicate Proper(ops: seq<Op>) {
    && (forall i :: 0 <= i < |ops| - 1 ==> !Hit(ops[i]))
    && (Now(Drop) in ops ==> forall i :: 0 <= i < |ops| ==> ops[i].Now?)
  }

  ghost predicate Shaped(w: World) {
    w.registry == Replay(w.log) && forall q :: q in w.tasks ==> Proper(w.tasks[q].ops)
  }

  lemma ProgramsProper(c: Command)
    ensures Proper(Program(c))
  {
  }

  lemma RestProper(s: Registry, t: Task, answer: Answer)
    requires t.ops != [] && Proper(t.ops)
    ensures Proper(Rest(s, t, answer))
  {
    if t.ops[0].Now? && t.ops[0].act.Reject? {
      assert |t.ops| == 1;
    }
  }

  lemma LogStays(w: World, a: Step)
    requires w.registry == Replay(w.log) && Enabled(w, a)
    ensures Apply(w, a).registry == Replay(Apply(w, a).log)
  {
    if a.Advance? && w.tasks[a.q].ops[0].Now? {
      ReplayAppends(w.log, Entry(w.tasks[a.q].id, w.tasks[a.q].ops[0].act));
    }
  }

  lemma StaysShaped(w: World, a: Step)
    requires Shaped(w) && Enabled(w, a)
    ensures Shaped(Apply(w, a))
  {
    LogStays(w, a);
    if a.Start? {
      ProgramsProper(a.c);
    } else if a.Advance? {
      RestProper(w.registry, w.tasks[a.q], a.answer);
    }
  }

  lemma {:induction false} AlwaysShaped(run: seq<Step>)
    requires Exec(run).Some?
    ensures Shaped(Exec(run).value)
  {
    if run != [] {
      AlwaysShaped(run[..|run| - 1]);
      StaysShaped(Exec(run[..|run| - 1]).value, run[|run| - 1]);
    }
  }

  // ----- How many rejections a connection can collect

  /** Past its gate, and with the broker's answer still to come or to count. */
  predicate Flying(ops: seq<Op>) {
    ops != [] && Gate !in ops && Hit(ops[|ops| - 1])
  }

  function InFlight(w: World, id: string): set<nat> {
    set q | q in w.tasks && w.tasks[q].id == id && Flying(w.tasks[q].ops)
  }

  /** Rejections counted against `id` since it was last cleared. */
  function Rejections(log: seq<Entry>, id: string): nat {
    if log == [] then 0
    else
      var before, e := Rejections(log[..|log| - 1], id), log[|log| - 1];
      if e == Entry(id, Clear) then 0
      else if e.id == id && e.act.Reject? then before + 1
      else before
  }

  lemma {:induction false} AttemptsAreRejections(log: seq<Entry>, id: string)
    ensures var f, n := Replay(log).failures, Rejections(log, id);
            (id in f <==> n > 0) && (id in f ==> f[id].attempts == Min(n, MAX_U32))
  {
    if log != [] {
      AttemptsAreRejections(log[..|log| - 1], id);
    }
  }

  lemma RejectionsAppend(log: seq<Entry>, e: Entry, id: string)
    ensures Rejections(log + [e], id) ==
            if e == Entry(id, Clear) then 0
            else Rejections(log, id) + if e.id == id && e.act.Reject? then 1 else 0
  {
    assert (log + [e])[..|log|] == log;
  }

  lemma FewerThan(a: set<nat>, b: set<nat>)
    requires a <= b
    ensures |a| <= |b|
  {
    assert b == a + (b - a);
  }

  lemma ProgramsStartGrounded(c: Command)
    ensures !Flying(Program(c))
  {
    var ops := Program(c);
    if c.Connect? {
      assert ops[2] == Gate;
    } else if c.Request? || c.Publish? {
      assert ops[0] == Gate;
    }
  }

  /** Only an open gate puts a request in flight. */
  lemma OnlyGatesLetThrough(w: World, a: Step, id: string)
    requires Shaped(w) && Enabled(w, a)
    requires var w' := Apply(w, a); !(InFlight(w', id) <= InFlight(w, id))
    ensures a.Advance? && w.tasks[a.q].id == id && w.tasks[a.q].ops[0].Gate? && !Blocked(w.registry, id)
    ensures Apply(w, a).log == w.log
  {
    var q :| q in InFlight(Apply(w, a), id) && q !in InFlight(w, id);
    assert q == a.q;
    if a.Start? {
      ProgramsStartGrounded(a.c);
    } else {
      var ops := w.tasks[q].ops;
      assert ops[|ops| - 1] == ops[1..][|ops| - 2] || |ops| == 1;
      assert forall op :: op in ops ==> op == ops[0] || op in ops[1..];
    }
  }

  /** Counting a rejection takes its request out of the air. */
  lemma RejectLands(w: World, a: Step, id: string)
    requires Shaped(w) && Enabled(w, a) && a.Advance?
    requires w.tasks[a.q].id == id && w.tasks[a.q].ops[0].Now? && w.tasks[a.q].ops[0].act.Reject?
    ensures a.q in InFlight(w, id) && InFlight(Apply(w, a), id) <= InFlight(w, id) - {a.q}
  {
    var ops := w.tasks[a.q].ops;
    assert |ops| == 1;
    assert ops[1..] == [];
  }

  ghost predicate Within(w: World, id: string, k: nat) {
    Rejections(w.log, id) + |InFlight(w, id)| <= MAX_AUTH_ATTEMPTS - 1 + k
  }

  lemma StaysWithin(w: World, a: Step, id: string, k: nat)
    requires Shaped(w) && Enabled(w, a) && Within(w, id, k)
    requires |InFlight(Apply(w, a), id)| <= k
    ensures Within(Apply(w, a), id, k)
  {
    var w' := Apply(w, a);
    AttemptsAreRejections(w.log, id);
    if InFlight(w', id) <= InFlight(w, id) {
      FewerThan(InFlight(w', id), InFlight(w, id));
      if a.Advance? && w.tasks[a.q].ops[0].Now? {
        var e := Entry(w.tasks[a.q].id, w.tasks[a.q].ops[0].act);
        RejectionsAppend(w.log, e, id);
        if e.id == id && e.act.Reject? {
          RejectLands(w, a, id);
          FewerThan(InFlight(w', id), InFlight(w, id) - {a.q});
        }
      }
    } else {
      OnlyGatesLetThrough(w, a, id);
    }
  }

  /** At no time were more than `k` requests for `id` in flight. */
  ghost predicate AtMost(run: seq<Step>, id: string, k: nat) {
    && (Exec(run).Some? ==> |InFlight(Exec(run).value, id)| <= k)
    && (run != [] ==> AtMost(run[..|run| - 1], id, k))
  }

  /** However requests interleave, a connection collects at most one rejection
      fewer than its allowance, plus one for each request in flight at once. */
  lemma {:induction false} RejectionsBounded(run: seq<Step>, id: string, k: nat)
    requires Exec(run).Some? && AtMost(run, id, k)
    ensures Rejections(Exec(run).value.log, id) + |InFlight(Exec(run).value, id)| <= MAX_AUTH_ATTEMPTS - 1 + k
  {
    if run != [] {
      RejectionsBounded(run[..|run| - 1], id, k);
      AlwaysShaped(run[..|run| - 1]);
      StaysWithin(Exec(run[..|run| - 1]).value, run[|run| - 1], id, k);
    }
  }

  // ----- A blocked connection costs the broker nothing

  ghost predicate Quiet(w: World, id: string) {
    Blocked(w.registry, id) && InFlight(w, id) == {}
  }

  lemma StaysQuiet(w: World, a: Step, id: string)
    requires Shaped(w) && Enabled(w, a) && Quiet(w, id)
    ensures Quiet(Apply(w, a), id) || Apply(w, a).log == w.log + [Entry(id, Clear)]
  {
    if !(InFlight(Apply(w, a), id) <= InFlight(w, id)) {
      OnlyGatesLetThrough(w, a, id);
    }
  }

  lemma LogGrows(w: World, a: Step)
    requires Enabled(w, a) && Apply(w, a).log != w.log
    ensures |Apply(w, a).log| == |w.log| + 1 && w.log <= Apply(w, a).log
  {
  }

  /** Once a blocked connection has nothing in flight, no request of any kind
      reaches its broker until somebody clears it. */
  lemma {:induction false} BlockedCostsNothing(run: seq<Step>, more: seq<Step>, id: string)
    requires Exec(run).Some? && Exec(run + more).Some? && Quiet(Exec(run).value, id)
    ensures var v, w := Exec(run).value, Exec(run + more).value;
            && v.log <= w.log
            && (Entry(id, Clear) !in w.log[|v.log|..] ==> Quiet(w, id))
  {
    if more == [] {
      assert run + more == run;
    } else {
      var init, a := more[..|more| - 1], more[|more| - 1];
      assert (run + more)[..|run + more| - 1] == run + init;
      BlockedCostsNothing(run, init, id);
      AlwaysShaped(run + init);
      var v, u := Exec(run).value, Exec(run + init).value;
      var w := Apply(u, a);
      if w.log != u.log {
        LogGrows(u, a);
        var n := |v.log|;
        assert w.log[n..] == u.log[n..] + [w.log[|u.log|]];
      }
      if Quiet(u, id) {
        StaysQuiet(u, a, id);
      }
    }
  }
}
