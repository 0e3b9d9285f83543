/** The promises of the bridge's retries, over every run of the pump. */
module BridgeResults {
  import opened Ordered
  import opened RetryBook
  import opened Bridge
  import opened BridgeSafety

  /** Every request in the trace has a task, and only ids of the client's own reach the client. */
  ghost predicate Noted(s: State) {
    && (forall p | 0 <= p < |s.trace| && s.trace[p].FromClient? :: HasTask(s, p))
    && (forall p | 0 <= p < |s.trace| && s.trace[p].ToClient? :: !IsBridgeId(s.trace[p].id))
  }

  ghost predicate HasTask(s: State, p: nat) {
    exists t :: 0 <= t < |s.tasks| && s.tasks[t].at == p
  }

  ghost predicate SameCall(t: Task, t': Task) {
    t'.msg == t.msg && t'.at == t.at
  }

  /** A step keeps every task's call, adds a task only for a client message and notes at most one thing. */
  lemma StepShape(delays: nat, s: State, e: Event)
    requires Enabled(s, e)
    ensures var s' := Step(delays, s, e);
      && (forall t | 0 <= t < |s.tasks| :: t < |s'.tasks| && SameCall(s.tasks[t], s'.tasks[t]))
      && (s'.trace == s.trace || (|s'.trace| == |s.trace| + 1 && s.trace <= s'.trace))
      && (e.ClientSends? && s'.trace != s.trace ==>
            s'.trace == s.trace + [FromClient(e.msg)] && |s'.tasks| == |s.tasks| + 1
                && s'.tasks[|s.tasks|].at == |s.trace|)
  {
    match e {
      case WriteFails(t, _) =>
        GiveUpShape(if s.tasks[t].Retryable() then s.(book := AttemptFailed(s.book, s.tasks[t].msg.id)) else s, t);
      case PauseEnds(t) => GiveUpShape(s, t);
      case _ =>
    }
  }

  /** Any other step notes only a response to its own task's request. */
  lemma StepNotes(delays: nat, s: State, e: Event)
    requires Inv(delays, s) && Enabled(s, e) && !e.ClientSends? && Step(delays, s, e).trace != s.trace
    ensures var n := Step(delays, s, e).trace[|s.trace|];
      n.ToClient? && !IsBridgeId(n.id)
  {
    match e {
      case ServiceAnswers(t) =>
        assert TaskOk(delays, s, t);
        OwnRoute(delays, s, t);
      case WriteFails(t, _) =>
        assert TaskOk(delays, s, t);
        GiveUpShape(if s.tasks[t].Retryable() then s.(book := AttemptFailed(s.book, s.tasks[t].msg.id)) else s, t);
      case PauseEnds(t) =>
        assert TaskOk(delays, s, t);
        GiveUpShape(s, t);
      case _ =>
    }
  }

  lemma StepNoted(delays: nat, s: State, e: Event)
    requires Inv(delays, s) && Noted(s) && Enabled(s, e)
    ensures Noted(Step(delays, s, e))
  {
    var s' := Step(delays, s, e);
    StepShape(delays, s, e);
    if !e.ClientSends? && s'.trace != s.trace {
      StepNotes(delays, s, e);
    }
    forall p | 0 <= p < |s'.trace| && s'.trace[p].FromClient? ensures HasTask(s', p) {
      if p < |s.trace| {
        assert HasTask(s, p);
        var t :| 0 <= t < |s.tasks| && s.tasks[t].at == p;
        assert SameCall(s.tasks[t], s'.tasks[t]);
      } else {
        assert s'.tasks[|s.tasks|].at == p;
      }
    }
  }

  lemma {:induction false} RunKeeps(delays: nat, s: State, es: seq<Event>)
    requires Inv(delays, s) && Noted(s) && ValidRun(delays, s, es)
    ensures Inv(delays, Exec(delays, s, es)) && Noted(Exec(delays, s, es))
    decreases |es|
  {
    if es != [] {
      StepKeeps(delays, s, es[0]);
      StepNoted(delays, s, es[0]);
      RunKeeps(delays, Step(delays, s, es[0]), es[1..]);
    }
  }

  /** The state a run from the start ends in. */
  ghost predicate Reachable(delays: nat, s: State) {
    exists es :: ValidRun(delays, INIT, es) && s == Exec(delays, INIT, es)
  }

  lemma ReachableInv(delays: nat, s: State)
    requires Reachable(delays, s)
    ensures Inv(delays, s) && Noted(s)
  {
    var es :| ValidRun(delays, INIT, es) && s == Exec(delays, INIT, es);
    assert Inv(delays, INIT) && Noted(INIT);
    RunKeeps(delays, INIT, es);
  }

  /** A retryable call the client has not cancelled gets at most one response, of either kind. */
  lemma AtMostOneResponse(delays: nat, s: State, p: nat)
    requires Reachable(delays, s)
    requires p < |s.trace| && s.trace[p].FromClient? && IsRetryable(s.trace[p].msg)
    requires !CancelledFrom(s.trace, p + 1, s.trace[p].msg.id)
    ensures Responses(s.trace, p + 1, s.trace[p].msg.id) <= 1
  {
    ReachableInv(delays, s);
    assert HasTask(s, p);
    var t :| 0 <= t < |s.tasks| && s.tasks[t].at == p;
    assert TaskOk(delays, s, t);
  }

  /** It gets exactly one once it is over, unless its last write succeeded unanswered or the bridge ended. */
  lemma ExactlyOneResponse(delays: nat, s: State, t: nat)
    requires Reachable(delays, s) && !s.settled
    requires t < |s.tasks| && s.tasks[t].Retryable() && s.tasks[t].phase == Done(false)
    requires !CancelledFrom(s.trace, s.tasks[t].at + 1, s.tasks[t].msg.id)
    ensures Responses(s.trace, s.tasks[t].at + 1, s.tasks[t].msg.id) == 1
  {
    ReachableInv(delays, s);
    assert TaskOk(delays, s, t);
  }

  /** No response reaches the client under a bridge id. */
  lemma NoBridgeIdReachesTheClient(delays: nat, s: State, p: nat)
    requires Reachable(delays, s) && p < |s.trace| && s.trace[p].ToClient?
    ensures !IsBridgeId(s.trace[p].id)
  {
    ReachableInv(delays, s);
  }

  /** At most `delays` + 1 writes: the first under the call's own id, the rest under distinct bridge ids. */
  lemma WritesOfACall(delays: nat, s: State, t: nat)
    requires Reachable(delays, s) && t < |s.tasks| && s.tasks[t].Retryable()
    ensures var w := s.tasks[t].writes;
      && 1 <= |w| <= delays + 1 && w[0] == s.tasks[t].msg.id && !IsBridgeId(w[0])
      && (forall k :: 1 <= k < |w| ==> IsBridgeId(w[k]))
      && (forall j, k :: 0 <= j < k < |w| ==> w[j] != w[k])
  {
    ReachableInv(delays, s);
    assert TaskOk(delays, s, t);
    var w := s.tasks[t].writes;
    forall k | 1 <= k < |w| ensures IsBridgeId(w[k]) {
      assert Issued(w[k], s.book.counter);
    }
  }

  /** No other event writes a call again, and only a network failure of its own write makes it pause. */
  lemma NotResentBy(delays: nat, s: State, e: Event, t: nat)
    requires Enabled(s, e) && t < |s.tasks| && e != PauseEnds(t)
    ensures Step(delays, s, e).tasks[t].writes == s.tasks[t].writes
    ensures Step(delays, s, e).tasks[t].phase.Pausing? && !s.tasks[t].phase.Pausing? ==> e == WriteFails(t, Network)
  {
    match e {
      case WriteFails(u, _) =>
        GiveUpShape(if s.tasks[u].Retryable() then s.(book := AttemptFailed(s.book, s.tasks[u].msg.id)) else s, u);
      case PauseEnds(u) => GiveUpShape(s, u);
      case _ =>
    }
  }

  /** The id the next attempt gets is new to every call. */
  lemma NextIdIsNew(delays: nat, s: State)
    requires Inv(delays, s)
    ensures forall u ::
        0 <= u < |s.tasks| && s.tasks[u].Retryable() ==> AttemptId(s.book.counter + 1) !in s.tasks[u].writes
  {
    forall u | 0 <= u < |s.tasks| && s.tasks[u].Retryable()
      ensures AttemptId(s.book.counter + 1) !in s.tasks[u].writes
    {
      NewWriteFresh(delays, s, u);
    }
  }

  /**
   * A call is written again only at the end of its own pause, while it is tracked and the bridge
   * runs, under an id nothing was written under before; and it pauses only after a network failure.
   */
  lemma ResentOnlyAfterNetworkFailure(delays: nat, s: State, e: Event, t: nat)
    requires Reachable(delays, s) && Enabled(s, e) && Assumed(s, e) && t < |s.tasks| && s.tasks[t].Retryable()
    ensures var t' := Step(delays, s, e).tasks[t];
      && (t'.writes == s.tasks[t].writes
          || (e == PauseEnds(t) && !s.settled && s.tasks[t].phase.Pausing? && s.tasks[t].msg.id in s.book.calls.vals
              && |t'.writes| == |s.tasks[t].writes| + 1 && s.tasks[t].writes < t'.writes
              && forall u :: 0 <= u < |s.tasks| && s.tasks[u].Retryable()
                  ==> t'.writes[|s.tasks[t].writes|] !in s.tasks[u].writes))
      && (t'.phase.Pausing? && !s.tasks[t].phase.Pausing? ==> e == WriteFails(t, Network))
  {
    if e == PauseEnds(t) {
      ReachableInv(delays, s);
      NextIdIsNew(delays, s);
      GiveUpShape(s, t);
    } else {
      NotResentBy(delays, s, e, t);
    }
  }

  /** A cancel of a tracked call names the attempt then out, or the original id, and ends its tracking. */
  lemma CancelNamesTheLiveAttempt(delays: nat, s: State, t: nat)
    requires Reachable(delays, s) && !s.settled && t < |s.tasks| && s.tasks[t].Retryable() && s.tasks[t].Running()
    requires s.tasks[t].msg.id in s.book.calls.vals
    ensures var id := s.tasks[t].msg.id; var s' := Send(s, CancelOf(id));
      && s'.tasks[|s.tasks|].writes == [if s.tasks[t].phase.Writing? then s.tasks[t].phase.wire else id]
      && id !in s'.book.calls.vals && id in s'.book.cancelled && s'.tasks[t] == s.tasks[t]
  {
    ReachableInv(delays, s);
    assert TaskOk(delays, s, t);
    assert Follows(s, s.tasks[t]);
    RememberProperties(s.book.cancelled, s.tasks[t].msg.id, MAX_REMEMBERED);
  }

  /** Once a running call is not tracked, no step writes it again or tracks it again while it runs. */
  lemma UntrackedStaysQuietStep(delays: nat, s: State, e: Event, t: nat)
    requires Inv(delays, s) && Enabled(s, e) && Assumed(s, e) && t < |s.tasks|
    requires s.tasks[t].Retryable() && (s.tasks[t].Running() ==> s.tasks[t].msg.id !in s.book.calls.vals)
    ensures var t' := Step(delays, s, e).tasks[t];
      && t'.msg == s.tasks[t].msg && t'.writes == s.tasks[t].writes
      && (t'.Running() ==> t'.msg.id !in Step(delays, s, e).book.calls.vals)
  {
    match e {
      case ServiceAnswers(u) => OwnRoute(delays, s, u);
      case WriteFails(u, failure) => UntrackedAtFailure(delays, s, u, failure, t);
      case PauseEnds(u) => GiveUpShape(s, u);
      case _ =>
    }
  }

  lemma UntrackedAtFailure(delays: nat, s: State, u: nat, failure: Failure, t: nat)
    requires Enabled(s, WriteFails(u, failure)) && t < |s.tasks|
    requires s.tasks[t].Retryable() && (s.tasks[t].Running() ==> s.tasks[t].msg.id !in s.book.calls.vals)
    ensures var s' := Fail(s, u, failure, delays);
      && s'.tasks[t].msg == s.tasks[t].msg && s'.tasks[t].writes == s.tasks[t].writes
      && (s'.tasks[t].Running() ==> s'.tasks[t].msg.id !in s'.book.calls.vals)
  {
    FailShape(s, u, failure, delays);
  }

  lemma {:induction false} UntrackedStaysQuiet(delays: nat, s: State, es: seq<Event>, t: nat)
    requires Inv(delays, s) && Noted(s) && ValidRun(delays, s, es) && t < |s.tasks|
    requires s.tasks[t].Retryable() && (s.tasks[t].Running() ==> s.tasks[t].msg.id !in s.book.calls.vals)
    ensures t < |Exec(delays, s, es).tasks| && Exec(delays, s, es).tasks[t].writes == s.tasks[t].writes
    decreases |es|
  {
    if es != [] {
      var s1 := Step(delays, s, es[0]);
      UntrackedStaysQuietStep(delays, s, es[0], t);
      StepKeeps(delays, s, es[0]);
      StepNoted(delays, s, es[0]);
      UntrackedStaysQuiet(delays, s1, es[1..], t);
    }
  }

  /** After a cancel of a tracked call is processed, no run writes another attempt of it. */
  lemma NoAttemptAfterCancel(delays: nat, s: State, t: nat, es: seq<Event>)
    requires Reachable(delays, s) && !s.settled && t < |s.tasks| && s.tasks[t].Retryable() && s.tasks[t].Running()
    requires s.tasks[t].msg.id in s.book.calls.vals
    requires ValidRun(delays, Send(s, CancelOf(s.tasks[t].msg.id)), es)
    ensures var s' := Exec(delays, Send(s, CancelOf(s.tasks[t].msg.id)), es);
      t < |s'.tasks| && s'.tasks[t].writes == s.tasks[t].writes
  {
    ReachableInv(delays, s);
    var cancel := ClientSends(CancelOf(s.tasks[t].msg.id));
    assert Step(delays, s, cancel) == Send(s, CancelOf(s.tasks[t].msg.id));
    StepKeeps(delays, s, cancel);
    StepNoted(delays, s, cancel);
    CancelNamesTheLiveAttempt(delays, s, t);
    UntrackedStaysQuiet(delays, Send(s, CancelOf(s.tasks[t].msg.id)), es, t);
  }

  /** While a running call is among the remembered cancels, no step synthesizes an error for it. */
  lemma NoErrorWhileCancelRemembered(delays: nat, s: State, e: Event, t: nat)
    requires Reachable(delays, s) && Enabled(s, e) && Assumed(s, e)
    requires t < |s.tasks| && s.tasks[t].Retryable() && s.tasks[t].Running() && s.tasks[t].msg.id in s.book.cancelled
    ensures var trace := Step(delays, s, e).trace;
      forall p :: |s.trace| <= p < |trace| ==> trace[p] != ToClient(s.tasks[t].msg.id, Synthesized)
  {
    ReachableInv(delays, s);
    var s' := Step(delays, s, e);
    match e {
      case WriteFails(u, _) =>
        var s1 := if s.tasks[u].Retryable() then s.(book := AttemptFailed(s.book, s.tasks[u].msg.id)) else s;
        GiveUpShape(s1, u);
        if u != t && s.tasks[u].msg.Request? {
          RunningDistinct(delays, s, t, u);
        }
      case PauseEnds(u) =>
        GiveUpShape(s, u);
        assert TaskOk(delays, s, u);
        if u != t {
          RunningDistinct(delays, s, t, u);
        }
      case _ =>
    }
  }

  /** How many more writes and pauses a task can end. */
  function Budget(delays: nat, t: Task): int {
    match t.phase
    case Writing(_, _) => 2 * (delays + 1 - |t.writes|) + 2
    case Pausing => 2 * (delays + 1 - |t.writes|) + 1
    case Done(_) => 0
  }

  /** Every end of a write or pause of a retryable call brings it closer to its own end, and no step moves it away. */
  lemma EveryCallEnds(delays: nat, s: State, e: Event, t: nat)
    requires Reachable(delays, s) && Enabled(s, e) && Assumed(s, e) && t < |s.tasks| && s.tasks[t].Retryable()
    ensures t < |Step(delays, s, e).tasks|
    ensures var b, b' := Budget(delays, s.tasks[t]), Budget(delays, Step(delays, s, e).tasks[t]);
      && 0 <= b' <= b
      && (e.WriteSucceeds? && e.t == t ==> b' < b)
      && (e.WriteFails? && e.t == t ==> b' < b)
      && (e.PauseEnds? && e.t == t ==> b' < b)
  {
    ReachableInv(delays, s);
    BudgetFalls(delays, s, e, t);
  }

  lemma BudgetFalls(delays: nat, s: State, e: Event, t: nat)
    requires Inv(delays, s) && Enabled(s, e) && Assumed(s, e) && t < |s.tasks| && s.tasks[t].Retryable()
    ensures var s' := Step(delays, s, e);
      && t < |s'.tasks| && s'.tasks[t].Retryable() && Inv(delays, s')
      && 0 <= Budget(delays, s'.tasks[t]) <= Budget(delays, s.tasks[t])
      && (IsEndOf(e, t) ==> Budget(delays, s'.tasks[t]) < Budget(delays, s.tasks[t]))
  {
    StepKeeps(delays, s, e);
    StepShape(delays, s, e);
    assert SameCall(s.tasks[t], Step(delays, s, e).tasks[t]);
    WritesBounded(delays, s, t);
    WritesBounded(delays, Step(delays, s, e), t);
    BudgetStep(delays, s, e, t);
  }

  /** A write or pause of task `t` ends. */
  predicate IsEndOf(e: Event, t: nat) {
    (e.WriteSucceeds? || e.WriteFails? || e.PauseEnds?) && e.t == t
  }

  function EndsOf(es: seq<Event>, t: nat): nat {
    if es == [] then 0 else (if IsEndOf(es[0], t) then 1 else 0) + EndsOf(es[1..], t)
  }

  lemma {:induction false} EndsBounded(delays: nat, s: State, es: seq<Event>, t: nat)
    requires Inv(delays, s) && ValidRun(delays, s, es) && t < |s.tasks| && s.tasks[t].Retryable()
    ensures EndsOf(es, t) <= Budget(delays, s.tasks[t]) <= 2 * delays + 2
    decreases |es|
  {
    WritesBounded(delays, s, t);
    if es != [] {
      BudgetFalls(delays, s, es[0], t);
      EndsBounded(delays, Step(delays, s, es[0]), es[1..], t);
    }
  }

  /**
   * The retry loop ends: over any continuation of any run, writes and pauses of one call end at most
   * `2 * delays + 2` times in all, and at most as often as its budget then says.
   */
  lemma EveryCallEndsOverRuns(delays: nat, s: State, es: seq<Event>, t: nat)
    requires Reachable(delays, s) && ValidRun(delays, s, es) && t < |s.tasks| && s.tasks[t].Retryable()
    ensures EndsOf(es, t) <= Budget(delays, s.tasks[t]) <= 2 * delays + 2
  {
    ReachableInv(delays, s);
    EndsBounded(delays, s, es, t);
  }

  lemma WritesBounded(delays: nat, s: State, t: nat)
    requires Inv(delays, s) && t < |s.tasks| && s.tasks[t].Retryable()
    ensures 1 <= |s.tasks[t].writes| <= delays + 1
  {
    assert TaskOk(delays, s, t);
  }

  lemma BudgetStep(delays: nat, s: State, e: Event, t: nat)
    requires Enabled(s, e) && t < |s.tasks| && s.tasks[t].Retryable() && t < |Step(delays, s, e).tasks|
    requires 1 <= |s.tasks[t].writes| <= delays + 1
    requires 1 <= |Step(delays, s, e).tasks[t].writes| <= delays + 1
    ensures var b, b' := Budget(delays, s.tasks[t]), Budget(delays, Step(delays, s, e).tasks[t]);
      && 0 <= b' <= b
      && (e.WriteSucceeds? && e.t == t ==> b' < b)
      && (e.WriteFails? && e.t == t ==> b' < b)
      && (e.PauseEnds? && e.t == t ==> b' < b)
  {
    match e {
      case WriteFails(u, _) =>
        GiveUpShape(if s.tasks[u].Retryable() then s.(book := AttemptFailed(s.book, s.tasks[u].msg.id)) else s, u);
      case PauseEnds(u) => GiveUpShape(s, u);
      case _ =>
    }
  }

  /** A run that respects no assumption but the order of callbacks. */
  predicate CanRun(delays: nat, s: State, es: seq<Event>)
    decreases |es|
  {
    es == [] || (Enabled(s, es[0]) && CanRun(delays, Step(delays, s, es[0]), es[1..]))
  }

  function AfterRun(delays: nat, s: State, es: seq<Event>): State
    requires CanRun(delays, s, es)
    decreases |es|
  {
    if es == [] then s else AfterRun(delays, Step(delays, s, es[0]), es[1..])
  }

  /**
   * The promise does not hold for a client that reuses an id once it has the answer, while the write that carried
   * the answer is still open: that write's failure is then taken for the new call's.
   */
  lemma ReuseOfAnOpenIdMayBeAnsweredTwice(delays: nat, id: Id)
    requires id != Null && !IsBridgeId(id)
    ensures var call := ClientSends(Request(id, true));
            var es := [call, ServiceAnswers(0), call, WriteFails(0, Refused), ServiceAnswers(1)];
            && CanRun(delays, INIT, es)
            && |AfterRun(delays, INIT, es).trace| > 2
            && AfterRun(delays, INIT, es).trace[2] == FromClient(Request(id, true))
            && Responses(AfterRun(delays, INIT, es).trace, 3, id) == 2
  {
    var msg := Request(id, true);
    var es := [ClientSends(msg), ServiceAnswers(0), ClientSends(msg), WriteFails(0, Refused), ServiceAnswers(1)];
    var s1 := Step(delays, INIT, es[0]);
    var s2 := Step(delays, s1, es[1]);
    AnsweredWhileOpen(delays, id);
    var s3 := Step(delays, s2, es[2]);
    var s4 := Step(delays, s3, es[3]);
    ReusedThenRefused(delays, id, s2);
    FiveSteps(delays, INIT, es, s1, s2, s3, s4);
    var trace := Step(delays, s4, es[4]).trace;
    assert Responses(trace, 5, id) == 0;
    assert Responses(trace, 4, id) == 1;
  }

  /** The first half of that run: the call is answered while its write is open. */
  lemma AnsweredWhileOpen(delays: nat, id: Id)
    requires id != Null && !IsBridgeId(id)
    ensures var s1 := Step(delays, INIT, ClientSends(Request(id, true)));
            && Enabled(INIT, ClientSends(Request(id, true))) && Enabled(s1, ServiceAnswers(0))
            && AnsweredOnce(Step(delays, s1, ServiceAnswers(0)), id)
  {
    var s1 := Step(delays, INIT, ClientSends(Request(id, true)));
    assert s1.book.calls.order == [id] && s1.book.answered == [];
    assert s1.tasks == [Task(Request(id, true), 0, [id], Writing(id, None))];
    OnlyAnswer(s1.book, id);
  }

  predicate AnsweredOnce(s: State, id: Id) {
    && s.book.calls == EmptyMap() && s.book.attempts == map[] && s.book.answered == [id] && s.book.cancelled == []
    && s.tasks == [Task(Request(id, true), 0, [id], Writing(id, Some(1)))] && !s.settled
    && s.trace == [FromClient(Request(id, true)), ToClient(id, Reply)]
  }

  /** The second half: the id is sent again, the old write is refused, and the new call is answered. */
  lemma ReusedThenRefused(delays: nat, id: Id, s: State)
    requires id != Null && !IsBridgeId(id) && AnsweredOnce(s, id)
    ensures var s3 := Step(delays, s, ClientSends(Request(id, true)));
            && Enabled(s, ClientSends(Request(id, true))) && Enabled(s3, WriteFails(0, Refused))
            && var s4 := Step(delays, s3, WriteFails(0, Refused));
            && Enabled(s4, ServiceAnswers(1))
            && Step(delays, s4, ServiceAnswers(1)).trace
               == s.trace + [FromClient(Request(id, true)), ToClient(id, Synthesized), ToClient(id, Reply)]
  {
    var msg := Request(id, true);
    var s3 := Step(delays, s, ClientSends(msg));
    assert [id][1..] == [] && Without([id], id) == [];
    assert s3.book.calls.order == [id] && s3.book.answered == [] && s3.book.cancelled == [];
    assert s3.tasks[1] == Task(msg, 2, [id], Writing(id, None));
    var s4 := Step(delays, s3, WriteFails(0, Refused));
    assert s4.book.calls.order == [] && s4.book.attempts == map[];
    assert s4.trace == s3.trace + [ToClient(id, Synthesized)];
  }

  lemma OnlyAnswer(b: Book, id: Id)
    requires id != Null && b.calls.order == [id] && b.calls.vals == map[id := None] && b.answered == []
        && b.attempts == map[]
    ensures AnswerFor(b, id).1 == DeliverAs(id) && AnswerFor(b, id).0.answered == [id]
    ensures AnswerFor(b, id).0.calls == EmptyMap() && AnswerFor(b, id).0.attempts == map[]
  {
    assert [id][1..] == [] && Without([id], id) == [];
    assert b.calls.vals - {id} == map[];
  }

  lemma FiveSteps(delays: nat, s: State, es: seq<Event>, s1: State, s2: State, s3: State, s4: State)
    requires |es| == 5
    requires Enabled(s, es[0]) && s1 == Step(delays, s, es[0])
    requires Enabled(s1, es[1]) && s2 == Step(delays, s1, es[1])
    requires Enabled(s2, es[2]) && s3 == Step(delays, s2, es[2])
    requires Enabled(s3, es[3]) && s4 == Step(delays, s3, es[3])
    requires Enabled(s4, es[4])
    ensures CanRun(delays, s, es) && AfterRun(delays, s, es) == Step(delays, s4, es[4])
  {
    var e1, e2, e3, e4 := es[1..], es[2..], es[3..], es[4..];
    assert e1[1..] == e2 && e2[1..] == e3 && e3[1..] == e4 && e4[1..] == [];
    assert CanRun(delays, s4, e4) && AfterRun(delays, s4, e4) == Step(delays, s4, es[4]);
    assert CanRun(delays, s3, e3) && AfterRun(delays, s3, e3) == AfterRun(delays, s4, e4);
    assert CanRun(delays, s2, e2) && AfterRun(delays, s2, e2) == AfterRun(delays, s3, e3);
    assert CanRun(delays, s1, e1) && AfterRun(delays, s1, e1) == AfterRun(delays, s2, e2);
  }
}
