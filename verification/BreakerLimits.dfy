/** Runs that show the breaker's bounds are the right ones: the allowance can be
    overshot by as much as the bound permits, and interleaving can leave a
    blocked connection marked as connected. */
module BreakerLimits {
  import opened Common
  import opened AuthRegistry
  import opened Breaker
  import opened BreakerSafety

  /** Some run leads to `w` with never more than `k` requests for `id` in flight. */
  ghost predicate Reached(w: World, id: string, k: nat) {
    exists run :: Exec(run) == Some(w) && AtMost(run, id, k)
  }

  lemma Take(w: World, a: Step, id: string, k: nat) returns (w': World)
    requires Reached(w, id, k) && Enabled(w, a) && |InFlight(Apply(w, a), id)| <= k
    ensures w' == Apply(w, a) && Reached(w', id, k)
  {
    w' := Apply(w, a);
    var run :| Exec(run) == Some(w) && AtMost(run, id, k);
    ExecAppends(run, a);
    assert (run + [a])[..|run|] == run;
    assert AtMost(run + [a], id, k);
  }

  predicate Between(q: nat, from: nat, to: nat) {
    from <= q < to
  }

  ghost function Range(from: nat, to: nat): set<nat> {
    set q: nat {:trigger Between(q, from, to)} | q < to && Between(q, from, to)
  }

  lemma {:induction false} RangeSize(from: nat, to: nat)
    requires from <= to
    ensures |Range(from, to)| == to - from
  {
    if from < to {
      RangeSize(from, to - 1);
      assert forall q :: Between(q, from, to) <==> Between(q, from, to - 1) || q == to - 1;
      assert Range(from, to) == Range(from, to - 1) + {to - 1};
    }
  }

  const WAITING: seq<Op> := [Ask(Asking(true))]

  /** Requests 0 to `started - 1` have begun; the first `end` of them have
      finished, the last of which has `ops` still to do. */
  ghost predicate Underway(w: World, id: string, k: nat, end: nat, started: nat, ops: seq<Op>) {
    && Reached(w, id, k) && Shaped(w) && end < started
    && w.tasks.Keys == Range(0, started)
    && (forall q :: 0 <= q < end ==> w.tasks[q] == Task(id, []))
    && w.tasks[end] == Task(id, ops)
    && (forall q :: end < q < started ==> w.tasks[q] == Task(id, WAITING))
  }

  ghost predicate Stage(w: World, id: string, k: nat, done: nat, started: nat) {
    && Reached(w, id, k) && Shaped(w) && done <= started
    && Rejections(w.log, id) == done
    && w.tasks.Keys == Range(0, started)
    && (forall q :: 0 <= q < done ==> w.tasks[q] == Task(id, []))
    && (forall q :: done <= q < started ==> w.tasks[q] == Task(id, WAITING))
  }

  lemma FewInFlight(w: World, id: string, from: nat, to: nat)
    requires from <= to
    requires forall q :: q in InFlight(w, id) ==> from <= q < to
    ensures |InFlight(w, id)| <= to - from
  {
    RangeSize(from, to);
    FewerThan(InFlight(w, id), Range(from, to));
  }

  lemma Begin(w: World, id: string, k: nat, done: nat, started: nat) returns (w': World)
    requires Stage(w, id, k, done, started) && done < MAX_AUTH_ATTEMPTS && started - done < k
    ensures Stage(w', id, k, done, started + 1)
  {
    var a := Start(started, id, Request(true));
    assert Program(Request(true))[0] == Gate;
    FewInFlight(Apply(w, a), id, done, started);
    var u := Take(w, a, id, k);
    StaysShaped(w, a);
    w' := PassGate(u, id, k, done, started);
  }

  lemma GateOpens(w: World, id: string, q: nat)
    requires q in w.tasks && w.tasks[q] == Task(id, Program(Request(true)))
    requires Shaped(w) && Rejections(w.log, id) < MAX_AUTH_ATTEMPTS
    ensures Apply(w, Advance(q, Failed)) == w.(tasks := w.tasks[q := Task(id, WAITING)])
  {
    AttemptsAreRejections(w.log, id);
    assert Program(Request(true))[1..] == WAITING;
  }

  /** One more request waits for its answer. */
  lemma OneMoreWaiting(w: World, id: string, k: nat, done: nat, started: nat)
    requires Reached(w, id, k) && Shaped(w) && done <= started && Rejections(w.log, id) == done
    requires w.tasks.Keys == Range(0, started + 1) && w.tasks[started] == Task(id, WAITING)
    requires forall q :: 0 <= q < done ==> w.tasks[q] == Task(id, [])
    requires forall q :: done <= q < started ==> w.tasks[q] == Task(id, WAITING)
    ensures Stage(w, id, k, done, started + 1)
  {
  }

  lemma PassGate(w: World, id: string, k: nat, done: nat, started: nat) returns (w': World)
    requires Reached(w, id, k) && Shaped(w) && done < MAX_AUTH_ATTEMPTS && done <= started && started - done < k
    requires started in w.tasks && w.tasks[started] == Task(id, Program(Request(true)))
    requires Rejections(w.log, id) == done
    requires w.tasks.Keys == Range(0, started + 1)
    requires forall q :: 0 <= q < done ==> w.tasks[q] == Task(id, [])
    requires forall q :: done <= q < started ==> w.tasks[q] == Task(id, WAITING)
    ensures Stage(w', id, k, done, started + 1)
  {
    w' := ThroughGate(w, id, k, done, started);
    OneMoreWaiting(w', id, k, done, started);
  }

  lemma ThroughGate(w: World, id: string, k: nat, done: nat, started: nat) returns (w': World)
    requires Reached(w, id, k) && Shaped(w) && done <= started && started - done < k
    requires started in w.tasks && w.tasks[started] == Task(id, Program(Request(true)))
    requires Rejections(w.log, id) < MAX_AUTH_ATTEMPTS && w.tasks.Keys == Range(0, started + 1)
    requires forall q :: 0 <= q < done ==> w.tasks[q] == Task(id, [])
    ensures w' == w.(tasks := w.tasks[started := Task(id, WAITING)]) && Reached(w', id, k) && Shaped(w')
  {
    var a := Advance(started, Failed);
    GateOpens(w, id, started);
    StaysShaped(w, a);
    w' := w.(tasks := w.tasks[started := Task(id, WAITING)]);
    FewInFlight(w', id, done, started + 1);
    w' := Take(w, a, id, k);
  }

  /** One step of the request `end`, the first not to have finished. */
  lemma Onward(w: World, id: string, k: nat, end: nat, started: nat, ops: seq<Op>, answer: Answer, rest: seq<Op>)
    returns (w': World)
    requires Underway(w, id, k, end, started, ops) && started - end <= k
    requires ops != [] && (ops[0].Ask? ==> Suits(ops[0].call, answer))
    requires Rest(w.registry, Task(id, ops), answer) == rest
    ensures Underway(w', id, k, end, started, rest)
    ensures w'.log == if ops[0].Now? then w.log + [Entry(id, ops[0].act)] else w.log
  {
    var a := Advance(end, answer);
    FewInFlight(Apply(w, a), id, end, started);
    w' := Take(w, a, id, k);
    StaysShaped(w, a);
  }

  /** A rejected request, step by step. */
  lemma RejectedRests(s: Registry, id: string)
    ensures Rest(s, Task(id, WAITING), BadCredentials("")) == [Now(Reject(""))]
    ensures Rest(s, Task(id, [Now(Reject(""))]), Failed)
            == if Blocked(Do(s, Entry(id, Reject(""))), id) then LEAVE else []
    ensures Rest(s, Task(id, LEAVE), Failed) == [Now(ClearDenials)]
    ensures Rest(s, Task(id, [Now(ClearDenials)]), Failed) == []
  {
    var reject: seq<Op> := [Now(Reject(""))];
    assert LEAVE + reject[1..] == LEAVE && reject[1..] == [];
  }

  lemma Refused(w: World, id: string, k: nat, done: nat, started: nat) returns (w': World)
    requires Stage(w, id, k, done, started) && done < started && started - done <= k
    ensures Underway(w', id, k, done, started, []) || Underway(w', id, k, done, started, LEAVE)
    ensures Rejections(w'.log, id) == done + 1
  {
    RejectedRests(w.registry, id);
    var u := Onward(w, id, k, done, started, WAITING, BadCredentials(""), [Now(Reject(""))]);
    RejectedRests(u.registry, id);
    RejectionsAppend(u.log, Entry(id, Reject("")), id);
    w' := Onward(u, id, k, done, started, [Now(Reject(""))], Failed,
                 if Blocked(Do(u.registry, Entry(id, Reject(""))), id) then LEAVE else []);
  }

  lemma Finishes(w: World, id: string, k: nat, done: nat, started: nat)
    requires Underway(w, id, k, done, started, []) && Rejections(w.log, id) == done + 1
    ensures Stage(w, id, k, done + 1, started)
  {
  }

  lemma Rejected(w: World, id: string, k: nat, done: nat, started: nat) returns (w': World)
    requires Stage(w, id, k, done, started) && done < started && started - done <= k
    ensures Stage(w', id, k, done + 1, started)
  {
    w' := Refused(w, id, k, done, started);
    if !Underway(w', id, k, done, started, []) {
      w' := Left(w', id, k, done, started);
    }
    Finishes(w', id, k, done, started);
  }

  lemma Left(w: World, id: string, k: nat, end: nat, started: nat) returns (w': World)
    requires Underway(w, id, k, end, started, LEAVE) && started - end <= k
    ensures Underway(w', id, k, end, started, [])
    ensures Rejections(w'.log, id) == Rejections(w.log, id)
  {
    RejectedRests(w.registry, id);
    RejectionsAppend(w.log, Entry(id, Drop), id);
    var u := Onward(w, id, k, end, started, LEAVE, Failed, [Now(ClearDenials)]);
    RejectedRests(u.registry, id);
    RejectionsAppend(u.log, Entry(id, ClearDenials), id);
    w' := Onward(u, id, k, end, started, [Now(ClearDenials)], Failed, []);
  }

  lemma {:induction false} BeginUpTo(w: World, id: string, k: nat, started: nat) returns (w': World)
    requires Stage(w, id, k, 1, started) && started <= k + 1
    ensures Stage(w', id, k, 1, k + 1)
    decreases k + 1 - started
  {
    w' := w;
    if started < k + 1 {
      w' := Begin(w, id, k, 1, started);
      w' := BeginUpTo(w', id, k, started + 1);
    }
  }

  lemma {:induction false} RejectUpTo(w: World, id: string, k: nat, done: nat) returns (w': World)
    requires Stage(w, id, k, done, k + 1) && 1 <= done
    ensures Stage(w', id, k, k + 1, k + 1)
    decreases k + 1 - done
  {
    w' := w;
    if done < k + 1 {
      w' := Rejected(w, id, k, done, k + 1);
      w' := RejectUpTo(w', id, k, done + 1);
    }
  }

  /** The bound on rejections is met, whatever the number of requests in
      flight: one request is refused, and `k` more pass the gate before any of
      them hears back. */
  lemma RejectionsReachTheBound(id: string, k: nat)
    requires k > 0
    ensures exists run :: Exec(run).Some? && AtMost(run, id, k)
                          && Rejections(Exec(run).value.log, id) == MAX_AUTH_ATTEMPTS - 1 + k
  {
    assert InFlight(INITIALLY, id) == {};
    assert Exec([]) == Some(INITIALLY) && AtMost([], id, k);
    var w := Begin(INITIALLY, id, k, 0, 0);
    w := Rejected(w, id, k, 0, 1);
    w := BeginUpTo(w, id, k, 1);
    w := RejectUpTo(w, id, k, 1);
    var run :| Exec(run) == Some(w) && AtMost(run, id, k);
  }

  // ----- A connection that is shown as connected while blocked

  /** Command 0 is a Connect, 1 and 2 are requests. */
  ghost predicate Three(w: World, id: string, c: seq<Op>, r1: seq<Op>, r2: seq<Op>) {
    && Reached(w, id, 3) && w.tasks.Keys == {0, 1, 2}
    && w.tasks[0] == Task(id, c) && w.tasks[1] == Task(id, r1) && w.tasks[2] == Task(id, r2)
  }

  /** Command `q`, whose steps left are `ops`, takes the next of them. */
  lemma Turn(w: World, id: string, q: nat, ops: seq<Op>, answer: Answer, rest: seq<Op>) returns (w': World)
    requires Reached(w, id, 3) && w.tasks.Keys <= Range(0, 3)
    requires q in w.tasks && w.tasks[q] == Task(id, ops) && ops != []
    requires ops[0].Ask? ==> Suits(ops[0].call, answer)
    requires Rest(w.registry, Task(id, ops), answer) == rest
    ensures Reached(w', id, 3)
    ensures w'.tasks == w.tasks[q := Task(id, rest)]
    ensures w'.registry == if ops[0].Now? then Do(w.registry, Entry(id, ops[0].act)) else w.registry
  {
    var a := Advance(q, answer);
    FewInFlight(Apply(w, a), id, 0, 3);
    w' := Take(w, a, id, 3);
  }

  lemma ConnectTurn(w: World, id: string, c: seq<Op>, r1: seq<Op>, r2: seq<Op>, answer: Answer, rest: seq<Op>)
    returns (w': World)
    requires Three(w, id, c, r1, r2) && c != []
    requires c[0].Ask? ==> Suits(c[0].call, answer)
    requires Rest(w.registry, Task(id, c), answer) == rest
    ensures Three(w', id, rest, r1, r2)
    ensures w'.registry == if c[0].Now? then Do(w.registry, Entry(id, c[0].act)) else w.registry
  {
    w' := Turn(w, id, 0, c, answer, rest);
  }

  lemma Arrives(w: World, id: string, q: nat, c: Command) returns (w': World)
    requires Reached(w, id, 3) && w.tasks.Keys == Range(0, q) && q < 3
    ensures Reached(w', id, 3) && w'.registry == w.registry && w'.tasks == w.tasks[q := Task(id, Program(c))]
    ensures w'.tasks.Keys == Range(0, q + 1)
  {
    var a := Start(q, id, c);
    FewInFlight(Apply(w, a), id, 0, 3);
    w' := Take(w, a, id, 3);
  }

  lemma AllArrive(id: string) returns (w: World)
    ensures Reached(w, id, 3) && w.registry == FRESH
    ensures Three(w, id, Program(Connect), Program(Request(true)), Program(Request(true)))
  {
    assert InFlight(INITIALLY, id) == {};
    assert Exec([]) == Some(INITIALLY) && AtMost([], id, 3);
    w := Arrives(INITIALLY, id, 0, Connect);
    w := Arrives(w, id, 1, Request(true));
    w := Arrives(w, id, 2, Request(true));
  }

  /** Forgetting what there is not. */
  lemma FreshStays(id: string, act: Act)
    requires act == Clear || act == ClearDenials
    ensures Do(FRESH, Entry(id, act)) == FRESH
  {
  }

  /** The requests have passed their gates. */
  lemma RequestsAsk(id: string) returns (w: World)
    ensures w.registry == FRESH && Three(w, id, Program(Connect), WAITING, WAITING)
  {
    w := AllArrive(id);
    var r := Program(Request(true));
    assert r[1..] == WAITING;
    w := Turn(w, id, 1, r, Failed, WAITING);
    w := Turn(w, id, 2, r, Failed, WAITING);
  }

  /** So has the Connect. */
  lemma AllAsk(id: string) returns (w: World)
    ensures w.registry == FRESH && Three(w, id, [Ask(Connecting)], WAITING, WAITING)
  {
    w := RequestsAsk(id);
    var c := Program(Connect);
    FreshStays(id, Clear);
    FreshStays(id, ClearDenials);
    w := ConnectTurn(w, id, c, WAITING, WAITING, Failed, c[1..]);
    w := ConnectTurn(w, id, c[1..], WAITING, WAITING, Failed, c[2..]);
    w := ConnectTurn(w, id, c[2..], WAITING, WAITING, Failed, [Ask(Connecting)]);
  }

  /** The Connect has succeeded, and has only to say so. */
  lemma AboutToMark(id: string) returns (w: World)
    ensures w.registry == FRESH && Three(w, id, [Now(Mark)], WAITING, WAITING)
  {
    w := AllAsk(id);
    var c := FORGET + [Now(Mark)];
    FreshStays(id, Clear);
    FreshStays(id, ClearDenials);
    w := ConnectTurn(w, id, [Ask(Connecting)], WAITING, WAITING, Accepted(true), c);
    w := ConnectTurn(w, id, c, WAITING, WAITING, Failed, c[1..]);
    w := ConnectTurn(w, id, c[1..], WAITING, WAITING, Failed, [Now(Mark)]);
  }

  lemma RejectionCounted(s: Registry, id: string, n: nat)
    requires 1 <= n <= 2
    requires s.failures == if n == 1 then map[] else map[id := Failures(1, "")]
    ensures var s' := Do(s, Entry(id, Reject("")));
            s'.failures == map[id := Failures(n, "")] && (Blocked(s', id) <==> n == 2)
  {
  }

  /** A waiting request is refused, its connection's `n`th rejection. */
  lemma OneRefused(w: World, id: string, q: nat, n: nat) returns (w': World)
    requires Reached(w, id, 3) && w.tasks.Keys <= Range(0, 3) && 1 <= n <= 2
    requires q in w.tasks && w.tasks[q] == Task(id, WAITING)
    requires w.registry.failures == if n == 1 then map[] else map[id := Failures(1, "")]
    ensures Reached(w', id, 3) && w'.tasks == w.tasks[q := Task(id, if n == 1 then [] else LEAVE)]
    ensures w'.registry.failures == map[id := Failures(n, "")]
  {
    RejectedRests(w.registry, id);
    RejectionCounted(w.registry, id, n);
    var u := Turn(w, id, q, WAITING, BadCredentials(""), [Now(Reject(""))]);
    w' := Turn(u, id, q, [Now(Reject(""))], Failed, if n == 1 then [] else LEAVE);
    assert w'.tasks == w.tasks[q := Task(id, if n == 1 then [] else LEAVE)];
  }

  /** The second request leaves: it drops the connection, and stays blocked. */
  lemma RejectedLeaves(w: World, id: string) returns (w': World)
    requires Three(w, id, [Now(Mark)], [], LEAVE) && Blocked(w.registry, id)
    ensures Three(w', id, [Now(Mark)], [], []) && Blocked(w'.registry, id)
  {
    RejectedRests(w.registry, id);
    var u := Turn(w, id, 2, LEAVE, Failed, [Now(ClearDenials)]);
    RejectedRests(u.registry, id);
    w' := Turn(u, id, 2, [Now(ClearDenials)], Failed, []);
  }

  lemma BothRejected(id: string) returns (w: World)
    ensures Blocked(w.registry, id) && Three(w, id, [Now(Mark)], [], [])
  {
    w := AboutToMark(id);
    w := OneRefused(w, id, 1, 1);
    w := OneRefused(w, id, 2, 2);
    w := RejectedLeaves(w, id);
  }

  /** A Connect that succeeds can mark its connection after two requests have
      had it blocked, and nothing then drops it. */
  lemma ConnectCanMarkBlocked(id: string)
    ensures exists run :: Exec(run).Some? && Quiescent(Exec(run).value)
                          && Blocked(Exec(run).value.registry, id) && id in Exec(run).value.registry.connected
  {
    var w := BothRejected(id);
    w := ConnectTurn(w, id, [Now(Mark)], [], [], Failed, []);
    var run :| Exec(run) == Some(w) && AtMost(run, id, 3);
  }
}
