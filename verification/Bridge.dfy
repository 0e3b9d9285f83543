/**
 * The bridge's pump (src/bridge/pump.ts) as a step system: one step per callback. A task is one
 * `forward` call; its state is where `sendWithRetries` waits. The trace and the `writes` of a task
 * record what the client and the service saw.
 */
module Bridge {
  import opened Ordered
  import opened RetryBook

  /** A client message: a request (`toolUse`: a `tools/call` carrying a tool-use id), a cancel, or anything else. */
  datatype Message = Request(id: Id, toolUse: bool) | CancelOf(target: Id) | Other

  /**
   * What a failed write means (src/bridge/failure.ts): it ends the bridge, the connection dropped, or
   * the request was refused.
   */
  datatype Failure = Fatal | Network | Refused

  datatype Answering = Reply | Synthesized

  /** What crossed the client side, in order. */
  datatype Note = FromClient(msg: Message) | ToClient(id: Id, kind: Answering)

  /** A call that qualifies for a retry (`retryableCallOf`). */
  predicate IsRetryable(msg: Message) {
    msg.Request? && msg.toolUse && msg.id != Null
  }

  /**
   * Where a task waits: on the write of `wire` (`reply`: where in the trace its answer was noted,
   * once it arrived), on a pause before the next attempt, or nowhere (`unanswered`: its last write
   * succeeded without having carried an answer).
   */
  datatype Phase = Writing(wire: Id, reply: Option<nat>) | Pausing | Done(unanswered: bool)

  /** `at`: where in the trace its message entered; `writes`: the ids it has been written under. */
  datatype Task = Task(msg: Message, at: nat, writes: seq<Id>, phase: Phase)
  {
    predicate Retryable() {
      IsRetryable(msg)
    }

    predicate Running() {
      !phase.Done?
    }
  }

  datatype State = State(settled: bool, book: Book, tasks: seq<Task>, trace: seq<Note>)

  const INIT := State(false, EMPTY_BOOK, [], [])

  datatype Event =
    | ClientSends(msg: Message)
    | ServiceAnswers(t: nat)
    | WriteSucceeds(t: nat)
    | WriteFails(t: nat, failure: Failure)
    | PauseEnds(t: nat)
    /** The client hung up, or the service side reported a fatal error. */
    | BridgeEnds

  // ---------------------------------------------------------------------------
  // The steps

  /** `runBridge`'s client handler, then `forward` up to its first write. */
  function Send(s: State, msg: Message): State {
    if s.settled then s
    else
      var (book, wire) :=
        match msg
        case Request(id, _) => (if IsRetryable(msg) then Begin(s.book, id) else s.book, id)
        case CancelOf(target) =>
          var (b, live) := Cancel(s.book, target);
          (b, if live.Some? then live.value else target)
        case Other => (s.book, Null);
      State(false, book, s.tasks + [Task(msg, |s.trace|, [wire], Writing(wire, None))], s.trace + [FromClient(msg)])
  }

  /** `toClient`: the book after an answer under `id`, and the id the client sees it under, if it does. */
  function Routed(b: Book, id: Id): (Book, Option<Id>) {
    if IsEmpty(b) then (b, Some(id))
    else
      var (b', route) := AnswerFor(b, id);
      (b', match route case NotOurs => Some(id) case Drop => None case DeliverAs(original) => Some(original))
  }

  /** The service handler: an answer to the write that is out for task `t`. */
  function Answer(s: State, t: nat): State
    requires t < |s.tasks| && s.tasks[t].phase.Writing?
  {
    var wire := s.tasks[t].phase.wire;
    var tasks := s.tasks[t := s.tasks[t].(phase := Writing(wire, Some(|s.trace|)))];
    if s.settled then s.(tasks := tasks)
    else
      var (book, seen) := Routed(s.book, wire);
      State(false, book, tasks, if seen.Some? then s.trace + [ToClient(seen.value, Reply)] else s.trace)
  }

  function Finish(s: State, t: nat, unanswered: bool): State
    requires t < |s.tasks|
  {
    s.(tasks := s.tasks[t := s.tasks[t].(phase := Done(unanswered))])
  }

  /** `reportUndelivered`: nothing reaches the client once the bridge has ended, or without an id to answer. */
  function Report(s: State, msg: Message): State {
    if s.settled || !msg.Request? || msg.id == Null then s
    else s.(trace := s.trace + [ToClient(msg.id, Synthesized)])
  }

  function GiveUp(s: State, t: nat): State
    requires t < |s.tasks|
  {
    var task := s.tasks[t];
    if task.Retryable() then
      var silent := task.msg.id in s.book.cancelled || task.msg.id in s.book.answered;
      var s1 := Finish(s.(book := Forget(s.book, task.msg.id)), t, false);
      if silent then s1 else Report(s1, task.msg)
    else Report(Finish(s, t, false), task.msg)
  }

  function Succeed(s: State, t: nat): State
    requires t < |s.tasks| && s.tasks[t].phase.Writing?
  {
    var task := s.tasks[t];
    var book := if task.Retryable() && |task.writes| == 1 then Forget(s.book, task.msg.id) else s.book;
    Finish(s.(book := book), t, task.phase.reply.None?)
  }

  /** The catch branch of `sendWithRetries`, with `delays` pauses configured. */
  function Fail(s: State, t: nat, failure: Failure, delays: nat): State
    requires t < |s.tasks| && s.tasks[t].phase.Writing?
  {
    var task := s.tasks[t];
    var s1 := if task.Retryable() then s.(book := AttemptFailed(s.book, task.msg.id)) else s;
    if failure == Fatal then Finish(s1.(settled := true), t, false)
    else if task.Retryable() && task.msg.id in s1.book.answered then Finish(s1, t, false)
    else if !task.Retryable() || |task.writes| > delays || failure != Network || task.msg.id !in s1.book.calls.vals
    then GiveUp(s1, t)
    else s1.(tasks := s1.tasks[t := task.(phase := Pausing)])
  }

  /** After `pauseFor`: the next attempt under a fresh id, unless the call is not to go again. */
  function Resume(s: State, t: nat): State
    requires t < |s.tasks|
  {
    var task := s.tasks[t];
    if !s.settled && task.msg.Request? && task.msg.id in s.book.calls.vals then
      var (book, id) := NextAttempt(s.book, task.msg.id);
      s.(book := book, tasks := s.tasks[t := task.(writes := task.writes + [id], phase := Writing(id, None))])
    else GiveUp(s, t)
  }

  predicate Enabled(s: State, e: Event) {
    match e
    case ClientSends(_) => true
    case ServiceAnswers(t) =>
      t < |s.tasks| && s.tasks[t].msg.Request? && s.tasks[t].phase.Writing? && s.tasks[t].phase.reply.None?
    case WriteSucceeds(t) => t < |s.tasks| && s.tasks[t].phase.Writing?
    case WriteFails(t, _) => t < |s.tasks| && s.tasks[t].phase.Writing?
    case PauseEnds(t) => t < |s.tasks| && s.tasks[t].phase.Pausing?
    case BridgeEnds => true
  }

  function Step(delays: nat, s: State, e: Event): State
    requires Enabled(s, e)
  {
    match e
    case ClientSends(msg) => Send(s, msg)
    case ServiceAnswers(t) => Answer(s, t)
    case WriteSucceeds(t) => Succeed(s, t)
    case WriteFails(t, failure) => Fail(s, t, failure, delays)
    case PauseEnds(t) => Resume(s, t)
    case BridgeEnds => s.(settled := true)
  }

  // ---------------------------------------------------------------------------
  // What the run may rely on

  predicate IsRequestFor(n: Note, id: Id) {
    n.FromClient? && n.msg.Request? && n.msg.id == id
  }

  /** The ids answered after place `p` of the trace. */
  function RepliesAfter(trace: seq<Note>, p: nat): set<Id> {
    set i | p < i < |trace| && trace[i].ToClient? && trace[i].kind == Reply :: trace[i].id
  }

  /**
   * The client never uses a bridge id, nor an id whose earlier write is still open, even if that one
   * already has its answer; fewer than 1,024 calls are tracked when another begins; and fewer than
   * 256 ids were answered between a call's answer and the failure of its write. That a write is
   * answered at most once and only while it is out is part of `Enabled`.
   */
  predicate Assumed(s: State, e: Event) {
    match e
    case ClientSends(Request(id, toolUse)) =>
      && !IsBridgeId(id)
      && (id != Null ==> forall t | 0 <= t < |s.tasks| ::
          s.tasks[t].Running() && s.tasks[t].msg.Request? ==> s.tasks[t].msg.id != id)
      && (toolUse ==> |s.book.calls.order| < MAX_BOOK_CALLS)
    case WriteFails(t, _) =>
      t < |s.tasks| && s.tasks[t].phase.Writing? && s.tasks[t].phase.reply.Some?
      ==> |RepliesAfter(s.trace, s.tasks[t].phase.reply.value)| < MAX_REMEMBERED
    case _ => true
  }

  ghost predicate ValidRun(delays: nat, s: State, es: seq<Event>)
    decreases |es|
  {
    es == [] || (Enabled(s, es[0]) && Assumed(s, es[0]) && ValidRun(delays, Step(delays, s, es[0]), es[1..]))
  }

  function Exec(delays: nat, s: State, es: seq<Event>): State
    requires ValidRun(delays, s, es)
    decreases |es|
  {
    if es == [] then s else Exec(delays, Step(delays, s, es[0]), es[1..])
  }

  // ---------------------------------------------------------------------------
  // What the trace says about the call whose message entered at `at`

  /** How many responses under `id` follow place `i`, up to the next request that reuses `id`. */
  function Responses(trace: seq<Note>, i: nat, id: Id): nat
    decreases |trace| - i
  {
    if i >= |trace| || IsRequestFor(trace[i], id) then 0
    else (if trace[i].ToClient? && trace[i].id == id then 1 else 0) + Responses(trace, i + 1, id)
  }

  /** Whether a cancel of `id` follows place `i`, before the next request that reuses `id`. */
  predicate CancelledFrom(trace: seq<Note>, i: nat, id: Id)
    decreases |trace| - i
  {
    i < |trace| && !IsRequestFor(trace[i], id)
        && (trace[i] == FromClient(CancelOf(id)) || CancelledFrom(trace, i + 1, id))
  }

  predicate Reused(trace: seq<Note>, i: nat, id: Id) {
    exists k :: i <= k < |trace| && IsRequestFor(trace[k], id)
  }
}
