/**
 * Requests without a tool-use id (src/bridge/pump.ts): never written again, and not covered by the promise
 * of one answer. How many they get, and exactly when a second one comes.
 */
module BridgeOthers {
  import opened Ordered
  import opened RetryBook
  import opened Bridge
  import opened BridgeSafety
  import opened BridgeResults

  /** A request the bridge does not send again, with an id to answer. */
  predicate IsOther(t: Task) {
    t.msg.Request? && !t.Retryable() && t.msg.id != Null
  }

  /** The responses to the request of task `t` so far. */
  function Seen(s: State, t: nat): nat
    requires t < |s.tasks| && s.tasks[t].msg.Request?
  {
    Responses(s.trace, s.tasks[t].at + 1, s.tasks[t].msg.id)
  }

  /** An answer under this id would reach the client. */
  predicate Passes(b: Book, id: Id) {
    IsEmpty(b) || id !in b.answered
  }

  /** The step that answers the request of task `t`: its reply that is let through, or a failure of its write. */
  predicate AnswersIt(s: State, e: Event, t: nat)
    requires t < |s.tasks| && s.tasks[t].msg.Request?
  {
    && !s.settled
    && (|| (e == ServiceAnswers(t) && Passes(s.book, s.tasks[t].msg.id))
        || (e.WriteFails? && e.t == t && e.failure != Fatal))
  }

  /** A note on another running task's request is none on this one's. */
  lemma NotedForAnother(delays: nat, s: State, u: nat, kind: Answering, t: nat)
    requires Inv(delays, s) && t < |s.tasks| && u < |s.tasks| && u != t && IsOther(s.tasks[t])
    requires s.tasks[u].Running() && s.tasks[u].msg.Request?
    ensures Responses(s.trace + [ToClient(s.tasks[u].msg.id, kind)], s.tasks[t].at + 1, s.tasks[t].msg.id) == Seen(s, t)
  {
    assert TaskOk(delays, s, t);
    if s.tasks[u].msg.id != Null {
      ResponseForeign(delays, s, u, kind, t);
    }
    ResponsesAppend(s.trace, ToClient(s.tasks[u].msg.id, kind), s.tasks[t].at + 1, s.tasks[t].msg.id);
  }

  /** A note on its own request counts while it runs. */
  lemma NotedForIt(delays: nat, s: State, kind: Answering, t: nat)
    requires Inv(delays, s) && t < |s.tasks| && IsOther(s.tasks[t]) && s.tasks[t].Running()
    ensures Responses(s.trace + [ToClient(s.tasks[t].msg.id, kind)], s.tasks[t].at + 1, s.tasks[t].msg.id)
        == Seen(s, t) + 1
  {
    assert TaskOk(delays, s, t);
    assert Open(s.trace, s.tasks[t]);
    ResponsesAppend(s.trace, ToClient(s.tasks[t].msg.id, kind), s.tasks[t].at + 1, s.tasks[t].msg.id);
  }

  /** Its answer is routed by its own id: it passes unless that id is remembered as answered. */
  lemma OtherRoute(delays: nat, s: State, t: nat)
    requires Inv(delays, s) && Enabled(s, ServiceAnswers(t)) && IsOther(s.tasks[t])
    ensures Routed(s.book, s.tasks[t].phase.wire).1
         == if Passes(s.book, s.tasks[t].msg.id) then Some(s.tasks[t].msg.id) else None
  {
    assert TaskOk(delays, s, t);
    var id := s.tasks[t].msg.id;
    assert id in s.book.attempts ==> Issued(id, s.book.counter);
  }

  lemma AnswerCounts(delays: nat, s: State, u: nat, t: nat)
    requires Inv(delays, s) && Enabled(s, ServiceAnswers(u)) && t < |s.tasks| && IsOther(s.tasks[t])
    ensures Seen(Answer(s, u), t) == Seen(s, t) + if AnswersIt(s, ServiceAnswers(u), t) then 1 else 0
  {
    OwnRoute(delays, s, u);
    if !s.settled {
      if u == t {
        OtherRoute(delays, s, t);
        NotedForIt(delays, s, Reply, t);
      } else {
        NotedForAnother(delays, s, u, Reply, t);
      }
    }
  }

  lemma FailCounts(delays: nat, s: State, u: nat, failure: Failure, t: nat)
    requires Inv(delays, s) && Enabled(s, WriteFails(u, failure)) && t < |s.tasks| && IsOther(s.tasks[t])
    ensures Seen(Fail(s, u, failure, delays), t)
         == Seen(s, t) + if AnswersIt(s, WriteFails(u, failure), t) then 1 else 0
  {
    FailShape(s, u, failure, delays);
    if u == t {
      NotedForIt(delays, s, Synthesized, t);
      GiveUpShape(s, t);
    } else if s.tasks[u].msg.Request? {
      NotedForAnother(delays, s, u, Synthesized, t);
    }
  }

  lemma ResumeCounts(delays: nat, s: State, u: nat, t: nat)
    requires Inv(delays, s) && Enabled(s, PauseEnds(u)) && t < |s.tasks| && IsOther(s.tasks[t])
    ensures Seen(Resume(s, u), t) == Seen(s, t)
  {
    GiveUpShape(s, u);
    assert TaskOk(delays, s, t) && TaskOk(delays, s, u);
    NotedForAnother(delays, s, u, Synthesized, t);
  }

  /**
   * The exact count: a step adds one response to a request without a tool-use id if it is the request's
   * own reply, and that passes, or an ordinary failure of its write; and no other step adds any. So where
   * the reply came first, the failure adds a second one.
   */
  lemma AnsweredExactlyBy(delays: nat, s: State, e: Event, t: nat)
    requires Reachable(delays, s) && Enabled(s, e) && Assumed(s, e) && t < |s.tasks| && IsOther(s.tasks[t])
    ensures t < |Step(delays, s, e).tasks| && IsOther(Step(delays, s, e).tasks[t])
    ensures Seen(Step(delays, s, e), t) == Seen(s, t) + if AnswersIt(s, e, t) then 1 else 0
  {
    ReachableInv(delays, s);
    StepCounts(delays, s, e, t);
  }

  lemma StepCounts(delays: nat, s: State, e: Event, t: nat)
    requires Inv(delays, s) && Enabled(s, e) && t < |s.tasks| && IsOther(s.tasks[t])
    ensures t < |Step(delays, s, e).tasks| && SameCall(s.tasks[t], Step(delays, s, e).tasks[t])
    ensures Seen(Step(delays, s, e), t) == Seen(s, t) + if AnswersIt(s, e, t) then 1 else 0
  {
    StepShape(delays, s, e);
    assert SameCall(s.tasks[t], Step(delays, s, e).tasks[t]);
    match e {
      case ClientSends(msg) =>
        assert TaskOk(delays, s, t);
        ResponsesAppend(s.trace, FromClient(msg), s.tasks[t].at + 1, s.tasks[t].msg.id);
      case ServiceAnswers(u) => AnswerCounts(delays, s, u, t);
      case WriteFails(u, failure) => FailCounts(delays, s, u, failure, t);
      case PauseEnds(u) => ResumeCounts(delays, s, u, t);
      case _ =>
    }
  }

  // ---------------------------------------------------------------------------
  // Never more than two

  /** None before its reply, at most one with it, at most two once it is over. */
  ghost predicate OtherOk(s: State, t: nat) {
    t < |s.tasks| && IsOther(s.tasks[t]) ==>
      match s.tasks[t].phase
      case Writing(_, None) => Seen(s, t) == 0
      case Writing(_, Some(_)) => Seen(s, t) <= 1
      case Pausing => false
      case Done(_) => Seen(s, t) <= 2
  }

  lemma StepKeepsOthers(delays: nat, s: State, e: Event, t: nat)
    requires Inv(delays, s) && Enabled(s, e) && OtherOk(s, t)
    ensures OtherOk(Step(delays, s, e), t)
  {
    StepShape(delays, s, e);
    if t < |s.tasks| && IsOther(s.tasks[t]) {
      StepCounts(delays, s, e, t);
      PhaseMoves(delays, s, e, t);
    }
  }

  /** Where a step leaves a task that is not sent again. */
  lemma PhaseMoves(delays: nat, s: State, e: Event, t: nat)
    requires Inv(delays, s) && Enabled(s, e) && t < |s.tasks| && IsOther(s.tasks[t])
    ensures t < |Step(delays, s, e).tasks|
    ensures var was, now := s.tasks[t].phase, Step(delays, s, e).tasks[t].phase;
      || (now == was && !(e.WriteFails? && e.t == t) && e != ServiceAnswers(t))
      || (e == ServiceAnswers(t) && was.Writing? && was.reply.None? && now.Writing? && now.reply.Some?)
      || (was.Writing? && now.Done?)
  {
    assert TaskOk(delays, s, t);
    match e {
      case WriteFails(u, failure) =>
        FailShape(s, u, failure, delays);
        GiveUpShape(s, u);
      case PauseEnds(u) => GiveUpShape(s, u);
      case _ =>
    }
  }

  lemma {:induction false} RunKeepsOthers(delays: nat, s: State, es: seq<Event>, t: nat)
    requires Inv(delays, s) && Noted(s) && ValidRun(delays, s, es) && OtherOk(s, t)
    ensures OtherOk(Exec(delays, s, es), t)
    decreases |es|
  {
    if es != [] {
      StepKeeps(delays, s, es[0]);
      StepNoted(delays, s, es[0]);
      StepKeepsOthers(delays, s, es[0], t);
      RunKeepsOthers(delays, Step(delays, s, es[0]), es[1..], t);
    }
  }

  /** On every run such a request gets at most two responses, at most one before its write has ended. */
  lemma AtMostTwoResponses(delays: nat, s: State, t: nat)
    requires Reachable(delays, s) && t < |s.tasks| && IsOther(s.tasks[t])
    ensures Seen(s, t) <= 2 && (s.tasks[t].Running() ==> Seen(s, t) <= 1)
  {
    var es :| ValidRun(delays, INIT, es) && s == Exec(delays, INIT, es);
    RunKeepsOthers(delays, INIT, es, t);
  }

  /**
   * And it gets two whenever its reply passes and its write then fails: from any state of any run, for
   * any failure that does not end the bridge.
   */
  lemma ReplyThenFailureAnswersTwice(delays: nat, s: State, t: nat, failure: Failure)
    requires Reachable(delays, s) && Enabled(s, ServiceAnswers(t)) && IsOther(s.tasks[t]) && !s.settled
        && failure != Fatal
    ensures var s1 := Step(delays, s, ServiceAnswers(t));
      && Enabled(s1, WriteFails(t, failure))
      && Seen(Step(delays, s1, WriteFails(t, failure)), t) == if Passes(s.book, s.tasks[t].msg.id) then 2 else 1
  {
    ReachableInv(delays, s);
    var es :| ValidRun(delays, INIT, es) && s == Exec(delays, INIT, es);
    RunKeepsOthers(delays, INIT, es, t);
    StepCounts(delays, s, ServiceAnswers(t), t);
    AnswerKeeps(delays, s, t);
    StepCounts(delays, Step(delays, s, ServiceAnswers(t)), WriteFails(t, failure), t);
  }

  /**
   * The smallest run: another request whose answer arrives before its write fails is answered twice.
   */
  lemma OtherRequestMayBeAnsweredTwice(delays: nat, id: Id)
    requires id != Null && !IsBridgeId(id)
    ensures var es := [ClientSends(Request(id, false)), ServiceAnswers(0), WriteFails(0, Network)];
      ValidRun(delays, INIT, es) && Responses(Exec(delays, INIT, es).trace, 1, id) == 2
  {
    var es := [ClientSends(Request(id, false)), ServiceAnswers(0), WriteFails(0, Network)];
    var s1 := Step(delays, INIT, es[0]);
    var s2 := Step(delays, s1, es[1]);
    var s3 := Step(delays, s2, es[2]);
    assert RepliesAfter(s2.trace, 1) == {};
    assert es[1..] == [es[1], es[2]] && es[1..][1..] == [es[2]] && es[1..][1..][1..] == [];
    assert ValidRun(delays, s3, []);
    assert ValidRun(delays, s2, [es[2]]);
    assert ValidRun(delays, s1, [es[1], es[2]]);
    assert s3.trace == [FromClient(Request(id, false)), ToClient(id, Reply), ToClient(id, Synthesized)];
    assert Exec(delays, s2, [es[2]]) == s3;
    assert Exec(delays, s1, [es[1], es[2]]) == s3;
    assert Exec(delays, INIT, es) == s3;
    assert Responses(s3.trace, 3, id) == 0;
    assert Responses(s3.trace, 2, id) == 1;
  }
}
