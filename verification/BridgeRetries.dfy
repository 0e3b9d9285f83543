/**
 * That a dropped call is sent again (src/bridge/pump.ts): what one failed write leads to, and how often a
 * call goes out over any run whose own writes are all dropped.
 */
module BridgeRetries {
  import opened Ordered
  import opened RetryBook
  import opened Bridge
  import opened BridgeSafety
  import opened BridgeResults

  /** The client has not cancelled the call of task `t`. */
  predicate Wanted(s: State, t: nat)
    requires t < |s.tasks| && s.tasks[t].Retryable()
  {
    !CancelledFrom(s.trace, s.tasks[t].at + 1, s.tasks[t].msg.id)
  }

  /** In a running bridge a wanted call without its answer is tracked, under the attempt that is out. */
  lemma WantedIsTracked(delays: nat, s: State, t: nat)
    requires Inv(delays, s) && !s.settled && t < |s.tasks| && s.tasks[t].Retryable() && Wanted(s, t)
    requires s.tasks[t].phase.Pausing? || (s.tasks[t].phase.Writing? && s.tasks[t].phase.reply.None?)
    ensures s.tasks[t].msg.id in s.book.calls.vals
    ensures s.tasks[t].msg.id !in s.book.answered && s.tasks[t].msg.id !in s.book.cancelled
    ensures 1 <= |s.tasks[t].writes| <= delays + 1
    ensures s.tasks[t].phase.Pausing? ==> |s.tasks[t].writes| <= delays
  {
    assert TaskOk(delays, s, t);
    assert Follows(s, s.tasks[t]);
  }

  // ---------------------------------------------------------------------------
  // One step

  /**
   * A failed write of a wanted call without an answer, in a running bridge: a fatal failure ends the
   * bridge; a dropped connection pauses the call, silently, while it has been written `delays` times at
   * most; anything else costs the client one error.
   */
  lemma FailedWriteLeadsTo(delays: nat, s: State, t: nat, failure: Failure)
    requires Reachable(delays, s) && !s.settled && t < |s.tasks| && s.tasks[t].Retryable() && Wanted(s, t)
    requires s.tasks[t].phase.Writing? && s.tasks[t].phase.reply.None?
    ensures var s' := Step(delays, s, WriteFails(t, failure)); var task, task' := s.tasks[t], s'.tasks[t];
      && Assumed(s, WriteFails(t, failure)) && task'.writes == task.writes
      && (s'.settled <==> failure == Fatal)
      && (failure == Fatal ==> task'.phase == Done(false) && s'.trace == s.trace)
      && (failure == Network && |task.writes| <= delays
          ==> task'.phase == Pausing && s'.trace == s.trace && Enabled(s', PauseEnds(t)))
      && (failure == Refused || (failure == Network && |task.writes| > delays)
          ==> task'.phase == Done(false) && s'.trace == s.trace + [ToClient(task.msg.id, Synthesized)])
      && (forall id :: id in s'.book.calls.vals <==>
          id in s.book.calls.vals && !(id == task.msg.id && failure != Fatal && task'.phase.Done?))
      && task.phase.wire !in s'.book.attempts
      && (task'.phase.Pausing? ==> s'.book.calls.vals[task.msg.id] == None)
  {
    ReachableInv(delays, s);
    FailureStep(delays, s, t, failure);
    FailedBook(delays, s, t, failure);
  }

  /** Only a call that is given up loses its tracking; the failed attempt leads back no more. */
  lemma FailedBook(delays: nat, s: State, t: nat, failure: Failure)
    requires Inv(delays, s) && !s.settled && t < |s.tasks| && s.tasks[t].Retryable() && Wanted(s, t)
    requires s.tasks[t].phase.Writing? && s.tasks[t].phase.reply.None?
    ensures var s' := Fail(s, t, failure, delays);
      && (forall id :: id in s'.book.calls.vals <==>
          id in s.book.calls.vals && !(id == s.tasks[t].msg.id && failure != Fatal && s'.tasks[t].phase.Done?))
      && s.tasks[t].phase.wire !in s'.book.attempts
      && (s'.tasks[t].phase.Pausing? ==> s'.book.calls.vals[s.tasks[t].msg.id] == None)
  {
    WantedIsTracked(delays, s, t);
    FailureStep(delays, s, t, failure);
    assert TaskOk(delays, s, t);
    if s.tasks[t].phase.wire in s.book.attempts {
      assert Issued(s.tasks[t].phase.wire, s.book.counter);
    }
  }

  lemma FailureStep(delays: nat, s: State, t: nat, failure: Failure)
    requires Inv(delays, s) && !s.settled && t < |s.tasks| && s.tasks[t].Retryable() && Wanted(s, t)
    requires s.tasks[t].phase.Writing? && s.tasks[t].phase.reply.None?
    ensures var s' := Fail(s, t, failure, delays);
      && s'.settled == (failure == Fatal)
      && s'.tasks[t] == s.tasks[t].(phase :=
          if failure == Network && |s.tasks[t].writes| <= delays then Pausing else Done(false))
      && s'.trace == (if failure == Refused || (failure == Network && |s.tasks[t].writes| > delays)
                      then s.trace + [ToClient(s.tasks[t].msg.id, Synthesized)] else s.trace)
  {
    WantedIsTracked(delays, s, t);
  }

  /** After its answer, a failed write says nothing more to the client, nor is the call sent again. */
  lemma FailureAfterTheAnswer(delays: nat, s: State, t: nat, failure: Failure)
    requires Reachable(delays, s) && !s.settled && t < |s.tasks| && s.tasks[t].Retryable() && Wanted(s, t)
    requires s.tasks[t].phase.Writing? && s.tasks[t].phase.reply.Some? && Assumed(s, WriteFails(t, failure))
    ensures var s' := Step(delays, s, WriteFails(t, failure));
      && s'.trace == s.trace && s'.tasks[t].phase == Done(false) && s'.tasks[t].writes == s.tasks[t].writes
      && (s'.settled <==> failure == Fatal)
  {
    ReachableInv(delays, s);
    assert TaskOk(delays, s, t);
    assert Follows(s, s.tasks[t]);
  }

  /** The end of a wanted call's pause adds one write, under the next attempt id, and no note. */
  lemma PauseLeadsToAWrite(delays: nat, s: State, t: nat)
    requires Reachable(delays, s) && !s.settled && t < |s.tasks| && s.tasks[t].Retryable() && Wanted(s, t)
    requires s.tasks[t].phase.Pausing?
    ensures var s' := Step(delays, s, PauseEnds(t)); var next := AttemptId(s.book.counter + 1);
      && s'.tasks[t] == s.tasks[t].(writes := s.tasks[t].writes + [next], phase := Writing(next, None))
      && s'.trace == s.trace && !s'.settled && s'.book.counter == s.book.counter + 1
      && (forall u :: 0 <= u < |s.tasks| && s.tasks[u].Retryable() ==> next !in s.tasks[u].writes)
  {
    ReachableInv(delays, s);
    WantedIsTracked(delays, s, t);
    NextIdIsNew(delays, s);
  }

  /**
   * The end of a pause writes nothing once the bridge has ended or the call is no longer tracked: it is over,
   * and untracked, with an error to the client only if the bridge runs and no cancel of it is remembered.
   */
  lemma PauseEndsWithoutAWrite(delays: nat, s: State, t: nat)
    requires Reachable(delays, s) && Enabled(s, PauseEnds(t)) && s.tasks[t].Retryable()
    requires s.settled || s.tasks[t].msg.id !in s.book.calls.vals
    ensures var s' := Step(delays, s, PauseEnds(t)); var id := s.tasks[t].msg.id;
      && s'.tasks == s.tasks[t := s.tasks[t].(phase := Done(false))] && s'.settled == s.settled
      && id !in s'.book.calls.vals && (forall o :: o != id ==> (o in s'.book.calls.vals <==> o in s.book.calls.vals))
      && s'.trace == if s.settled || id in s.book.cancelled || id in s.book.answered then s.trace
                     else s.trace + [ToClient(id, Synthesized)]
  {
    ReachableInv(delays, s);
    assert TaskOk(delays, s, t);
    GiveUpShape(s, t);
  }

  /** The first answer to a wanted call reaches the client under the call's own id, whichever attempt it answers. */
  lemma AnswerReachesTheClient(delays: nat, s: State, t: nat)
    requires Reachable(delays, s) && Enabled(s, ServiceAnswers(t)) && !s.settled
    requires s.tasks[t].Retryable() && Wanted(s, t)
    ensures var s' := Step(delays, s, ServiceAnswers(t));
      && s'.trace == s.trace + [ToClient(s.tasks[t].msg.id, Reply)]
      && s'.tasks == s.tasks[t := s.tasks[t].(phase := Writing(s.tasks[t].phase.wire, Some(|s.trace|)))]
      && s.tasks[t].msg.id !in s'.book.calls.vals && s.tasks[t].msg.id in s'.book.answered
  {
    ReachableInv(delays, s);
    AnswerFollows(delays, s, t);
    WantedIsTracked(delays, s, t);
    OwnRoute(delays, s, t);
    NewestRemembered(s.book.answered, s.tasks[t].msg.id, MAX_REMEMBERED);
  }

  /** The attempt the book knows to be out for a call. */
  function OutFor(b: Book, id: Id): Option<Id> {
    if id != Null && id in b.calls.vals then b.calls.vals[id] else None
  }

  /**
   * A message of the client of a running bridge goes out at once, once: a request under its own id, a cancel
   * under the attempt that is out for the call it names, if there is one, and under the id it names otherwise.
   * A retryable call is tracked from then on.
   */
  lemma SentAtOnce(delays: nat, s: State, msg: Message)
    requires Reachable(delays, s) && !s.settled && Assumed(s, ClientSends(msg))
    ensures var s' := Step(delays, s, ClientSends(msg)); var task := s'.tasks[|s'.tasks| - 1];
      && s'.tasks == s.tasks + [task] && !s'.settled
      && task.msg == msg && |task.writes| == 1 && task.phase == Writing(task.writes[0], None)
      && s'.trace == s.trace + [FromClient(msg)] && task.at == |s.trace|
      && (msg.Request? ==> task.writes[0] == msg.id)
      && (msg.CancelOf? ==>
          task.writes[0] == if OutFor(s.book, msg.target).Some? then OutFor(s.book, msg.target).value else msg.target)
      && (msg.Request? && msg.toolUse && msg.id != Null ==>
          && msg.id in s'.book.calls.vals && s'.book.calls.vals[msg.id] == None && Wanted(s', |s.tasks|)
          && forall id :: id in s.book.calls.vals ==> id in s'.book.calls.vals)
      && (msg.Request? && !(msg.toolUse && msg.id != Null) ==> s'.book == s.book)
  {
  }

  /** The end settles the bridge; once settled, it sends nothing and writes nothing to the client. */
  lemma NothingAfterTheEnd(delays: nat, s: State, e: Event)
    requires Enabled(s, e) && (s.settled || e.BridgeEnds?)
    ensures var s' := Step(delays, s, e);
      && s'.settled && s'.trace == s.trace && |s'.tasks| == |s.tasks|
      && (e.ServiceAnswers? ==>
            s'.tasks[e.t].phase == Writing(s.tasks[e.t].phase.wire, Some(|s.trace|)) && s'.book == s.book)
      && forall u :: 0 <= u < |s.tasks| ==> s'.tasks[u].writes == s.tasks[u].writes
  {
    match e {
      case WriteFails(t, _) => GiveUpShape(s, t);
      case PauseEnds(t) => GiveUpShape(s, t);
      case _ =>
    }
  }

  /** A write that succeeds says nothing to the client: it ends the task, and a first write the tracking too. */
  lemma SuccessEndsTheTask(delays: nat, s: State, t: nat)
    requires Reachable(delays, s) && Enabled(s, WriteSucceeds(t)) && s.tasks[t].Retryable()
    ensures var s' := Step(delays, s, WriteSucceeds(t)); var task := s.tasks[t];
      && s'.trace == s.trace && s'.settled == s.settled
      && s'.tasks == s.tasks[t := task.(phase := Done(task.phase.reply.None?))]
      && (forall id :: id in s'.book.calls.vals <==>
          id in s.book.calls.vals && !(id == task.msg.id && |task.writes| == 1))
      && s'.book.attempts == s.book.attempts
  {
  }

  // ---------------------------------------------------------------------------
  // Whole runs

  lemma {:induction false} RunGrows(delays: nat, s: State, es: seq<Event>, i: nat, id: Id)
    requires ValidRun(delays, s, es) && i <= |s.trace|
    ensures var s' := Exec(delays, s, es);
      && (s.settled ==> s'.settled) && s.trace <= s'.trace
      && (CancelledFrom(s.trace, i, id) ==> CancelledFrom(s'.trace, i, id))
    decreases |es|
  {
    if es != [] {
      var s1 := Step(delays, s, es[0]);
      StepShape(delays, s, es[0]);
      if s1.trace != s.trace {
        var n := s1.trace[|s.trace|];
        assert s1.trace == s.trace + [n];
        CancelledAppend(s.trace, n, i, id);
      }
      if s.settled {
        NothingAfterTheEnd(delays, s, es[0]);
      }
      RunGrows(delays, s1, es[1..], i, id);
    }
  }

  /** A step about another task leaves a task alone. */
  lemma OthersStep(delays: nat, s: State, e: Event, t: nat)
    requires Enabled(s, e) && t < |s.tasks|
    requires e !in {ServiceAnswers(t), WriteSucceeds(t), PauseEnds(t)} && !(e.WriteFails? && e.t == t)
    ensures t < |Step(delays, s, e).tasks| && Step(delays, s, e).tasks[t] == s.tasks[t]
  {
    match e {
      case WriteFails(u, failure) => FailShape(s, u, failure, delays);
      case PauseEnds(u) => GiveUpShape(s, u);
      case _ =>
    }
  }

  /** Of the events that end a write of task `t`, `es` holds only dropped connections, and no answer to one. */
  predicate OnlyDrops(es: seq<Event>, t: nat) {
    forall e | e in es :: IsDropAt(e, t)
  }

  predicate IsDropAt(e: Event, t: nat) {
    e != ServiceAnswers(t) && e != WriteSucceeds(t) && (e.WriteFails? && e.t == t ==> e.failure == Network)
  }

  /** How many pauses of task `t` end in `es`. */
  function PausesOf(es: seq<Event>, t: nat): nat {
    if es == [] then 0 else (if es[0] == PauseEnds(t) then 1 else 0) + PausesOf(es[1..], t)
  }

  /** The call is waiting for its write, or for its next one, or it went out `delays` + 1 times. */
  ghost predicate Dropping(delays: nat, t: Task) {
    match t.phase
    case Writing(_, reply) => reply.None?
    case Pausing => true
    case Done(unanswered) => !unanswered && |t.writes| == delays + 1
  }

  lemma DroppedStep(delays: nat, s: State, e: Event, t: nat)
    requires Inv(delays, s) && Enabled(s, e) && !s.settled && t < |s.tasks| && s.tasks[t].Retryable() && Wanted(s, t)
    requires Dropping(delays, s.tasks[t]) && IsDropAt(e, t)
    ensures var s' := Step(delays, s, e);
      && t < |s'.tasks| && s'.tasks[t].Retryable() && SameCall(s.tasks[t], s'.tasks[t])
      && Dropping(delays, s'.tasks[t])
      && |s'.tasks[t].writes| == |s.tasks[t].writes| + if e == PauseEnds(t) then 1 else 0
  {
    StepShape(delays, s, e);
    assert SameCall(s.tasks[t], Step(delays, s, e).tasks[t]);
    if e.WriteFails? && e.t == t {
      WantedIsTracked(delays, s, t);
      FailureStep(delays, s, t, Network);
    } else if e == PauseEnds(t) {
      WantedIsTracked(delays, s, t);
    } else {
      OthersStep(delays, s, e, t);
    }
  }

  lemma {:induction false} DroppedRun(delays: nat, s: State, es: seq<Event>, t: nat)
    requires Inv(delays, s) && Noted(s) && ValidRun(delays, s, es) && t < |s.tasks| && s.tasks[t].Retryable()
    requires Dropping(delays, s.tasks[t]) && OnlyDrops(es, t)
    requires var s' := Exec(delays, s, es);
      !s'.settled && !CancelledFrom(s'.trace, s.tasks[t].at + 1, s.tasks[t].msg.id)
    ensures var s' := Exec(delays, s, es);
      && t < |s'.tasks| && s'.tasks[t].Retryable() && SameCall(s.tasks[t], s'.tasks[t])
      && Dropping(delays, s'.tasks[t]) && Inv(delays, s')
      && |s'.tasks[t].writes| == |s.tasks[t].writes| + PausesOf(es, t)
    decreases |es|
  {
    if es != [] {
      var e, s1 := es[0], Step(delays, s, es[0]);
      assert TaskOk(delays, s, t);
      RunGrows(delays, s, es, s.tasks[t].at + 1, s.tasks[t].msg.id);
      assert IsDropAt(e, t);
      DroppedStep(delays, s, e, t);
      StepKeeps(delays, s, e);
      StepNoted(delays, s, e);
      DroppedRun(delays, s1, es[1..], t);
    }
  }

  /**
   * A call whose every write is dropped is written again after each of its pauses; once it is over, it has
   * gone out exactly `delays` + 1 times and the client has had one response to it. So over any continuation
   * of any run, of any other calls, in which it is neither cancelled nor answered and the bridge goes on.
   */
  lemma DroppedCallIsSentAgain(delays: nat, s: State, es: seq<Event>, t: nat)
    requires Reachable(delays, s) && ValidRun(delays, s, es) && t < |s.tasks| && s.tasks[t].Retryable()
    requires s.tasks[t].phase.Writing? && s.tasks[t].phase.reply.None? && OnlyDrops(es, t)
    requires var s' := Exec(delays, s, es);
      !s'.settled && !CancelledFrom(s'.trace, s.tasks[t].at + 1, s.tasks[t].msg.id)
    ensures t < |Exec(delays, s, es).tasks|
    ensures var s' := Exec(delays, s, es); var task, task' := s.tasks[t], s'.tasks[t];
      && SameCall(task, task')
      && |task'.writes| == |task.writes| + PausesOf(es, t)
      && (task'.Running() ==> Responses(s'.trace, task.at + 1, task.msg.id) == 0)
      && (!task'.Running() ==>
          |task'.writes| == delays + 1 && Responses(s'.trace, task.at + 1, task.msg.id) == 1)
  {
    ReachableInv(delays, s);
    DroppedRun(delays, s, es, t);
    var s' := Exec(delays, s, es);
    assert TaskOk(delays, s', t);
    assert Follows(s', s'.tasks[t]);
  }

  /** `n` times a dropped write and the pause after it, then one more dropped write. */
  function Drops(t: nat, n: nat): seq<Event> {
    if n == 0 then [WriteFails(t, Network)] else [WriteFails(t, Network), PauseEnds(t)] + Drops(t, n - 1)
  }

  /**
   * That run exists from every state where the call's write is out: its write and every further one is
   * dropped, until after `delays` + 1 writes in all the client gets the error, and nothing before it.
   */
  lemma DropsRunOut(delays: nat, s: State, t: nat)
    requires Reachable(delays, s) && !s.settled && t < |s.tasks| && s.tasks[t].Retryable() && Wanted(s, t)
    requires s.tasks[t].phase.Writing? && s.tasks[t].phase.reply.None?
    ensures |s.tasks[t].writes| <= delays + 1
    ensures var es := Drops(t, delays + 1 - |s.tasks[t].writes|);
      && ValidRun(delays, s, es)
      && var s' := Exec(delays, s, es);
      && |s'.tasks| == |s.tasks| && |s'.tasks[t].writes| == delays + 1 && s'.tasks[t].phase == Done(false)
      && s.tasks[t].writes <= s'.tasks[t].writes
      && s'.trace == s.trace + [ToClient(s.tasks[t].msg.id, Synthesized)]
  {
    ReachableInv(delays, s);
    WantedIsTracked(delays, s, t);
    DropsFrom(delays, s, t, delays + 1 - |s.tasks[t].writes|);
  }

  lemma {:induction false} DropsFrom(delays: nat, s: State, t: nat, n: nat)
    requires Inv(delays, s) && !s.settled && t < |s.tasks| && s.tasks[t].Retryable() && Wanted(s, t)
    requires s.tasks[t].phase.Writing? && s.tasks[t].phase.reply.None? && n == delays + 1 - |s.tasks[t].writes|
    ensures ValidRun(delays, s, Drops(t, n))
    ensures var s' := Exec(delays, s, Drops(t, n));
      && |s'.tasks| == |s.tasks| && |s'.tasks[t].writes| == delays + 1 && s'.tasks[t].phase == Done(false)
      && s.tasks[t].writes <= s'.tasks[t].writes
      && s'.trace == s.trace + [ToClient(s.tasks[t].msg.id, Synthesized)]
    decreases n
  {
    var drop := WriteFails(t, Network);
    FailureStep(delays, s, t, Network);
    FailShape(s, t, Network, delays);
    if n == 0 {
      LastEvent(delays, s, drop);
    } else {
      DroppedOnce(delays, s, t);
      DropsFrom(delays, Step(delays, Step(delays, s, drop), PauseEnds(t)), t, n - 1);
      TwoEvents(delays, s, drop, PauseEnds(t), Drops(t, n - 1));
    }
  }

  /** A dropped write with a pause left, and the end of that pause. */
  lemma DroppedOnce(delays: nat, s: State, t: nat)
    requires Inv(delays, s) && !s.settled && t < |s.tasks| && s.tasks[t].Retryable() && Wanted(s, t)
    requires s.tasks[t].phase.Writing? && s.tasks[t].phase.reply.None? && |s.tasks[t].writes| <= delays
    ensures var s1 := Step(delays, s, WriteFails(t, Network));
      && Enabled(s1, PauseEnds(t))
      && var s2 := Step(delays, s1, PauseEnds(t)); var task, task' := s.tasks[t], s2.tasks[t];
      && Inv(delays, s2) && !s2.settled && |s2.tasks| == |s.tasks| && SameCall(task, task') && s2.trace == s.trace
      && task'.phase.Writing? && task'.phase.reply.None?
      && task.writes <= task'.writes && |task'.writes| == |task.writes| + 1
  {
    var s1 := Step(delays, s, WriteFails(t, Network));
    FailureStep(delays, s, t, Network);
    FailShape(s, t, Network, delays);
    StepKeeps(delays, s, WriteFails(t, Network));
    WantedIsTracked(delays, s1, t);
    StepKeeps(delays, s1, PauseEnds(t));
  }

  lemma LastEvent(delays: nat, s: State, e: Event)
    requires Enabled(s, e) && Assumed(s, e)
    ensures ValidRun(delays, s, [e]) && Exec(delays, s, [e]) == Step(delays, s, e)
  {
    assert [e][1..] == [];
    assert ValidRun(delays, Step(delays, s, e), []);
  }

  lemma TwoEvents(delays: nat, s: State, e1: Event, e2: Event, rest: seq<Event>)
    requires Enabled(s, e1) && Assumed(s, e1)
    requires Enabled(Step(delays, s, e1), e2) && Assumed(Step(delays, s, e1), e2)
    requires ValidRun(delays, Step(delays, Step(delays, s, e1), e2), rest)
    ensures ValidRun(delays, s, [e1, e2] + rest)
    ensures Exec(delays, s, [e1, e2] + rest) == Exec(delays, Step(delays, Step(delays, s, e1), e2), rest)
  {
    var es := [e1, e2] + rest;
    assert es[1..] == [e2] + rest && es[1..][1..] == rest;
    assert ValidRun(delays, Step(delays, s, e1), es[1..]);
  }
}
