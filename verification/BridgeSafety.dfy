/** What every run of the bridge keeps, and the results that follow (src/bridge/pump.ts, src/bridge/retry.ts). */
module BridgeSafety {
  import opened Ordered
  import opened RetryBook
  import opened Bridge

  // ---------------------------------------------------------------------------
  // How the trace functions grow

  lemma {:induction false} ResponsesAppend(trace: seq<Note>, n: Note, i: nat, id: Id)
    requires i <= |trace|
    ensures Responses(trace + [n], i, id)
         == Responses(trace, i, id) + if !Reused(trace, i, id) && n.ToClient? && n.id == id then 1 else 0
    decreases |trace| - i
  {
    if i == |trace| {
      assert Responses(trace + [n], i + 1, id) == 0;
    } else {
      assert (trace + [n])[i] == trace[i];
      if !IsRequestFor(trace[i], id) {
        ResponsesAppend(trace, n, i + 1, id);
        assert Reused(trace, i, id) <==> Reused(trace, i + 1, id);
      }
    }
  }

  lemma {:induction false} CancelledAppend(trace: seq<Note>, n: Note, i: nat, id: Id)
    requires i <= |trace|
    ensures CancelledFrom(trace + [n], i, id)
        <==> CancelledFrom(trace, i, id) || (!Reused(trace, i, id) && n == FromClient(CancelOf(id)))
    decreases |trace| - i
  {
    if i == |trace| {
      assert !CancelledFrom(trace + [n], i + 1, id);
    } else {
      assert (trace + [n])[i] == trace[i];
      if !IsRequestFor(trace[i], id) {
        CancelledAppend(trace, n, i + 1, id);
        assert Reused(trace, i, id) <==> Reused(trace, i + 1, id);
      }
    }
  }

  lemma RepliesAppend(trace: seq<Note>, n: Note, p: nat)
    requires p < |trace|
    ensures RepliesAfter(trace + [n], p)
         == RepliesAfter(trace, p) + if n.ToClient? && n.kind == Reply then {n.id} else {}
  {
    var t' := trace + [n];
    assert forall i :: 0 <= i < |trace| ==> t'[i] == trace[i];
    forall id | id in RepliesAfter(trace, p) ensures id in RepliesAfter(t', p) {
      var i :| p < i < |trace| && trace[i].ToClient? && trace[i].kind == Reply && trace[i].id == id;
      assert t'[i].id == id;
    }
    if n.ToClient? && n.kind == Reply {
      assert t'[|trace|].id == n.id;
    }
  }

  // ---------------------------------------------------------------------------
  // What one call's bookkeeping leaves alone of another's

  /** The bookkeeping of `y` is as it was, but for `marked` ids remembered as answered after it. */
  ghost predicate Undisturbed(b: Book, b': Book, y: Id, marked: set<Id>) {
    && (y in b'.calls.vals <==> y in b.calls.vals)
    && (y in b.calls.vals ==> b'.calls.vals[y] == b.calls.vals[y])
    && (forall a :: LeadsBack(b, a, y) ==> LeadsBack(b', a, y))
    && (y in b'.cancelled ==> y in b.cancelled)
    && b.counter <= b'.counter
    && (y in b.answered && |After(b.answered, y) + marked| < MAX_REMEMBERED
        ==> y in b'.answered && After(b'.answered, y) <= After(b.answered, y) + marked)
  }

  lemma BeginUndisturbed(b: Book, id: Id, y: Id)
    requires Valid(b) && y != id && |b.calls.order| < MAX_BOOK_CALLS
    ensures Undisturbed(b, Begin(b, id), y, {})
  {
    WithoutElements(b.answered, id);
    WithoutElements(b.cancelled, id);
    if y in b.answered {
      AfterWithout(b.answered, id, y);
    }
  }

  lemma NextAttemptUndisturbed(b: Book, id: Id, y: Id)
    requires Valid(b) && y != id
    ensures Undisturbed(b, NextAttempt(b, id).0, y, {})
  {
    FreshAttempt(b);
  }

  lemma AnswerForUndisturbed(b: Book, id: Id, y: Id)
    requires Valid(b) && AnswerFor(b, id).1 != DeliverAs(y) && y != Null
    requires id in b.attempts ==> b.attempts[id] != y
    ensures Undisturbed(b, AnswerFor(b, id).0, y,
                        if AnswerFor(b, id).1.DeliverAs? then {AnswerFor(b, id).1.id} else {})
  {
    var route := AnswerFor(b, id).1;
    if route.DeliverAs? && y in b.answered && |After(b.answered, y) + {route.id}| < MAX_REMEMBERED {
      RememberKeepsOthers(b.answered, y, route.id, MAX_REMEMBERED);
    }
  }

  lemma CancelUndisturbed(b: Book, id: Id, y: Id)
    requires Valid(b) && y != id
    ensures Undisturbed(b, Cancel(b, id).0, y, {})
  {
    RememberProperties(b.cancelled, id, MAX_REMEMBERED);
  }

  lemma AttemptFailedUndisturbed(b: Book, id: Id, y: Id)
    requires Valid(b) && y != id
    ensures Undisturbed(b, AttemptFailed(b, id), y, {})
  {
  }

  lemma UndisturbedTwice(b: Book, b1: Book, b2: Book, y: Id)
    requires Undisturbed(b, b1, y, {}) && Undisturbed(b1, b2, y, {})
    ensures Undisturbed(b, b2, y, {})
  {
    if y in b.answered && |After(b.answered, y) + {}| < MAX_REMEMBERED {
      assert After(b.answered, y) + {} == After(b.answered, y);
      SubsetSize(After(b1.answered, y), After(b.answered, y));
      assert After(b1.answered, y) + {} == After(b1.answered, y);
    }
  }

  // ---------------------------------------------------------------------------
  // The invariant

  /** `t` entered the trace where it says, and its id has not been used again since. */
  ghost predicate Open(trace: seq<Note>, t: Task) {
    t.msg.Request? && !Reused(trace, t.at + 1, t.msg.id)
  }

  /** The call is tracked, and `live` is the attempt the book knows to be out. */
  ghost predicate Tracked(b: Book, id: Id, live: Option<Id>) {
    id in b.calls.vals && b.calls.vals[id] == live && id !in b.cancelled
  }

  /** First under its own id, then under pairwise distinct attempt ids, `delays` + 1 times at most. */
  ghost predicate WritesOk(delays: nat, counter: nat, t: Task) {
    && t.msg.Request? && 1 <= |t.writes| <= delays + 1
    && t.writes[0] == t.msg.id
    && (forall k :: 1 <= k < |t.writes| ==> Issued(t.writes[k], counter))
    && (forall j, k :: 0 <= j < k < |t.writes| ==> t.writes[j] != t.writes[k])
    && (t.phase.Writing? ==> t.phase.wire == t.writes[|t.writes| - 1])
    && (t.phase.Pausing? ==> |t.writes| <= delays)
  }

  /** The book and the trace agree with where an uncancelled running call is. */
  ghost predicate Follows(s: State, t: Task)
    requires t.msg.Request?
  {
    var id := t.msg.id;
    match t.phase
    case Writing(wire, None) =>
      && Tracked(s.book, id, if |t.writes| == 1 then None else Some(wire))
      && Responses(s.trace, t.at + 1, id) == 0
    case Writing(wire, Some(p)) =>
      && t.at < p < |s.trace| && Responses(s.trace, t.at + 1, id) == 1
      && id !in s.book.calls.vals && id !in s.book.cancelled
      && (|RepliesAfter(s.trace, p)| < MAX_REMEMBERED
          ==> id in s.book.answered && After(s.book.answered, id) <= RepliesAfter(s.trace, p))
    case Pausing => Tracked(s.book, id, None) && Responses(s.trace, t.at + 1, id) == 0
    case Done(unanswered) => !unanswered ==> Responses(s.trace, t.at + 1, id) == 1
  }

  ghost predicate CallOk(delays: nat, s: State, t: Task) {
    t.Retryable() &&
    var id := t.msg.id;
    var cancelled := CancelledFrom(s.trace, t.at + 1, id);
    && WritesOk(delays, s.book.counter, t)
    && (!cancelled ==> Responses(s.trace, t.at + 1, id) <= 1)
    && (!cancelled && !s.settled ==> Follows(s, t))
    && (cancelled && t.Running() ==> id !in s.book.calls.vals)
    && (t.phase.Writing? && t.phase.reply.None? && |t.writes| > 1 ==> LeadsBack(s.book, t.phase.wire, id))
  }

  ghost predicate TaskOk(delays: nat, s: State, i: nat) {
    i < |s.tasks| &&
    var t := s.tasks[i];
    && t.at < |s.trace| && s.trace[t.at] == FromClient(t.msg)
    && (t.msg.Request? ==> !IsBridgeId(t.msg.id))
    && (t.msg.Request? && t.msg.id != Null && t.Running() ==> Open(s.trace, t))
    && (t.msg.Request? && !t.Retryable() && t.phase.Writing? ==> t.phase.wire == t.msg.id)
    && (!t.Retryable() ==> !t.phase.Pausing?)
    && (t.Retryable() ==> CallOk(delays, s, t))
  }

  ghost predicate Inv(delays: nat, s: State) {
    && Valid(s.book)
    && (forall i | 0 <= i < |s.tasks| :: TaskOk(delays, s, i))
    && (forall i, j | 0 <= i < j < |s.tasks| :: s.tasks[i].at < s.tasks[j].at)
  }

  // ---------------------------------------------------------------------------
  // Tasks a step does not touch

  /** How a step grew the trace. */
  ghost predicate Grew(s: State, s': State, n: Option<Note>) {
    && (s.settled ==> s'.settled)
    && s'.trace == if n.Some? then s.trace + [n.value] else s.trace
  }

  /** `n` says nothing of the call of task `t`: it is not about its id, or the id was used again. */
  ghost predicate Foreign(trace: seq<Note>, t: Task, n: Note) {
    && t.msg.Request?
    && !(n == FromClient(CancelOf(t.msg.id)) && t.Retryable() && t.Running())
    && !(IsRequestFor(n, t.msg.id) && t.Running())
    && (n.ToClient? && n.id == t.msg.id ==> Reused(trace, t.at + 1, t.msg.id))
  }

  ghost function MarkedBy(n: Option<Note>): set<Id> {
    if n.Some? && n.value.ToClient? && n.value.kind == Reply then {n.value.id} else {}
  }

  lemma ForeignCounts(s: State, s': State, t: Task, n: Option<Note>)
    requires t.msg.Request? && t.at < |s.trace|
    requires Grew(s, s', n) && (n.Some? ==> Foreign(s.trace, t, n.value))
    ensures Responses(s'.trace, t.at + 1, t.msg.id) == Responses(s.trace, t.at + 1, t.msg.id)
    ensures t.Retryable() && t.Running() ==>
      (CancelledFrom(s'.trace, t.at + 1, t.msg.id) <==> CancelledFrom(s.trace, t.at + 1, t.msg.id))
    ensures CancelledFrom(s.trace, t.at + 1, t.msg.id) ==> CancelledFrom(s'.trace, t.at + 1, t.msg.id)
    ensures t.Running() && Open(s.trace, t) ==> Open(s'.trace, t)
  {
    if n.Some? {
      ResponsesAppend(s.trace, n.value, t.at + 1, t.msg.id);
      CancelledAppend(s.trace, n.value, t.at + 1, t.msg.id);
      assert forall k :: 0 <= k < |s.trace| ==> s'.trace[k] == s.trace[k];
    }
  }

  /** An uncancelled running call still follows after a step on another call. */
  lemma FollowsKept(s: State, s': State, t: Task, n: Option<Note>, marked: set<Id>)
    requires t.Retryable() && t.at < |s.trace| && Follows(s, t)
    requires Grew(s, s', n) && (n.Some? ==> Foreign(s.trace, t, n.value))
    requires marked <= MarkedBy(n) && (t.Running() ==> Undisturbed(s.book, s'.book, t.msg.id, marked))
    ensures Follows(s', t)
  {
    ForeignCounts(s, s', t, n);
    if t.phase.Writing? && t.phase.reply.Some? {
      var p := t.phase.reply.value;
      if n.Some? {
        RepliesAppend(s.trace, n.value, p);
      }
      assert RepliesAfter(s'.trace, p) == RepliesAfter(s.trace, p) + MarkedBy(n);
      if |RepliesAfter(s'.trace, p)| < MAX_REMEMBERED {
        SubsetSize(RepliesAfter(s.trace, p), RepliesAfter(s'.trace, p));
        SubsetSize(After(s.book.answered, t.msg.id) + marked, RepliesAfter(s'.trace, p));
      }
    }
  }

  lemma WritesKept(delays: nat, c: nat, c': nat, t: Task)
    requires t.msg.Request? && WritesOk(delays, c, t) && c <= c'
    ensures WritesOk(delays, c', t)
  {
    forall k | 1 <= k < |t.writes| ensures Issued(t.writes[k], c') {
      assert Issued(t.writes[k], c);
    }
  }

  lemma OtherTaskKept(delays: nat, s: State, s': State, i: nat, n: Option<Note>, marked: set<Id>)
    requires i < |s.tasks| && i < |s'.tasks| && s'.tasks[i] == s.tasks[i]
    requires TaskOk(delays, s, i)
    requires Grew(s, s', n) && (n.Some? && s.tasks[i].msg.Request? && s.tasks[i].msg.id != Null
        ==> Foreign(s.trace, s.tasks[i], n.value))
    requires marked <= MarkedBy(n) && s.book.counter <= s'.book.counter
    requires s.tasks[i].Retryable() && s.tasks[i].Running() ==> Undisturbed(s.book, s'.book, s.tasks[i].msg.id, marked)
    ensures TaskOk(delays, s', i)
  {
    var t := s.tasks[i];
    if t.msg.Request? && t.msg.id != Null {
      ForeignCounts(s, s', t, n);
    }
    if t.Retryable() {
      WritesKept(delays, s.book.counter, s'.book.counter, t);
      if !CancelledFrom(s'.trace, t.at + 1, t.msg.id) && !s'.settled {
        FollowsKept(s, s', t, n, marked);
      }
    }
  }

  lemma RunningDistinct(delays: nat, s: State, i: nat, j: nat)
    requires Inv(delays, s) && i < |s.tasks| && j < |s.tasks| && i != j
    requires s.tasks[i].Running() && s.tasks[j].Running()
    requires s.tasks[i].msg.Request? && s.tasks[j].msg.Request? && s.tasks[i].msg.id != Null
    ensures s.tasks[i].msg.id != s.tasks[j].msg.id
  {
    assert TaskOk(delays, s, i) && TaskOk(delays, s, j);
    assert IsRequestFor(s.trace[s.tasks[i].at], s.tasks[i].msg.id);
    assert IsRequestFor(s.trace[s.tasks[j].at], s.tasks[j].msg.id);
    assert i < j ==> s.tasks[i].at < s.tasks[j].at;
    assert j < i ==> s.tasks[j].at < s.tasks[i].at;
    assert Open(s.trace, s.tasks[i]);
  }

  /** A response to a running request is foreign to every other task. */
  lemma ResponseForeign(delays: nat, s: State, j: nat, kind: Answering, i: nat)
    requires Inv(delays, s) && i < |s.tasks| && j < |s.tasks| && i != j
    requires s.tasks[j].Running() && s.tasks[j].msg.Request? && s.tasks[j].msg.id != Null
    requires s.tasks[i].msg.Request?
    ensures Foreign(s.trace, s.tasks[i], ToClient(s.tasks[j].msg.id, kind))
  {
    var t, u := s.tasks[i], s.tasks[j];
    if t.msg.id == u.msg.id {
      assert TaskOk(delays, s, i) && TaskOk(delays, s, j);
      assert Open(s.trace, u);
      assert IsRequestFor(s.trace[t.at], u.msg.id) && IsRequestFor(s.trace[u.at], u.msg.id);
      assert i < j ==> t.at < u.at;
      assert j < i ==> u.at < t.at;
      assert t.at < u.at;
      assert Reused(s.trace, t.at + 1, t.msg.id);
    }
  }

  // ---------------------------------------------------------------------------
  // Each step keeps the invariant

  lemma SendRequestKeeps(delays: nat, s: State, id: Id, toolUse: bool)
    requires Inv(delays, s) && !s.settled && Assumed(s, ClientSends(Request(id, toolUse)))
    ensures Inv(delays, Send(s, Request(id, toolUse)))
  {
    var msg := Request(id, toolUse);
    var s' := Send(s, msg);
    var n := FromClient(msg);
    BeginValid(s.book, id);
    forall i | 0 <= i < |s.tasks| ensures TaskOk(delays, s', i) && s.tasks[i].at < |s.trace| {
      assert TaskOk(delays, s, i);
      var t := s.tasks[i];
      if t.Retryable() && t.Running() && IsRetryable(msg) {
        BeginUndisturbed(s.book, id, t.msg.id);
      }
      OtherTaskKept(delays, s, s', i, Some(n), {});
    }
    var t := s'.tasks[|s.tasks|];
    assert !Reused(s'.trace, t.at + 1, id);
    WithoutElements(s.book.cancelled, id);
    assert TaskOk(delays, s', |s.tasks|);
  }

  /** The running call a cancel names. */
  lemma CancelledTaskKept(delays: nat, s: State, target: Id, i: nat)
    requires Inv(delays, s) && !s.settled && i < |s.tasks|
    requires s.tasks[i].Retryable() && s.tasks[i].Running() && s.tasks[i].msg.id == target
    ensures TaskOk(delays, Send(s, CancelOf(target)), i)
  {
    var s' := Send(s, CancelOf(target));
    var t := s.tasks[i];
    assert TaskOk(delays, s, i);
    CancelValid(s.book, target);
    WithoutElements(s.book.calls.order, target);
    CancelledAppend(s.trace, FromClient(CancelOf(target)), t.at + 1, target);
    assert CancelledFrom(s'.trace, t.at + 1, target);
    WritesKept(delays, s.book.counter, s'.book.counter, t);
    assert forall k :: 0 <= k < |s.trace| ==> s'.trace[k] == s.trace[k];
    assert Open(s'.trace, t);
  }

  lemma SendCancelKeeps(delays: nat, s: State, target: Id)
    requires Inv(delays, s) && !s.settled
    ensures Inv(delays, Send(s, CancelOf(target)))
  {
    var s' := Send(s, CancelOf(target));
    var n := FromClient(CancelOf(target));
    CancelValid(s.book, target);
    forall i | 0 <= i < |s.tasks| ensures TaskOk(delays, s', i) && s.tasks[i].at < |s.trace| {
      assert TaskOk(delays, s, i);
      var t := s.tasks[i];
      if t.Retryable() && t.Running() && t.msg.id == target {
        CancelledTaskKept(delays, s, target, i);
      } else {
        if t.Retryable() && t.Running() {
          CancelUndisturbed(s.book, target, t.msg.id);
        }
        OtherTaskKept(delays, s, s', i, Some(n), {});
      }
    }
  }

  lemma SendOtherKeeps(delays: nat, s: State)
    requires Inv(delays, s) && !s.settled
    ensures Inv(delays, Send(s, Other))
  {
    var s' := Send(s, Other);
    forall i | 0 <= i < |s.tasks| ensures TaskOk(delays, s', i) && s.tasks[i].at < |s.trace| {
      assert TaskOk(delays, s, i);
      OtherTaskKept(delays, s, s', i, Some(FromClient(Other)), {});
    }
  }

  /** Where an answer to task `j`'s write goes: nowhere, or to its own call. */
  lemma OwnRoute(delays: nat, s: State, j: nat)
    requires Inv(delays, s) && Enabled(s, ServiceAnswers(j))
    ensures var task := s.tasks[j]; var (book, seen) := Routed(s.book, task.phase.wire);
      && Valid(book) && book.counter == s.book.counter
      && (seen.Some? ==> seen.value == task.msg.id)
      && (task.Retryable() && task.msg.id in s.book.calls.vals
          ==> (book, DeliverAs(task.msg.id)) == AnswerFor(s.book, task.phase.wire) && seen.Some?)
      && (forall k | k in book.calls.vals :: k in s.book.calls.vals)
  {
    assert TaskOk(delays, s, j);
    var task := s.tasks[j];
    var wire := task.phase.wire;
    AnswerForValid(s.book, wire);
    if wire in s.book.attempts {
      assert Issued(wire, s.book.counter);
      assert IsBridgeId(wire);
    }
    if task.Retryable() && task.msg.id in s.book.calls.vals {
      assert s.book.calls.order != [];
    }
  }

  ghost function MarkedByRoute(b: Book, id: Id): set<Id> {
    if !IsEmpty(b) && AnswerFor(b, id).1.DeliverAs? then {AnswerFor(b, id).1.id} else {}
  }

  lemma OwnRouteUndisturbs(delays: nat, s: State, j: nat, i: nat)
    requires Inv(delays, s) && Enabled(s, ServiceAnswers(j)) && i < |s.tasks| && i != j
    requires s.tasks[i].Retryable() && s.tasks[i].Running()
    ensures var wire := s.tasks[j].phase.wire;
      Undisturbed(s.book, Routed(s.book, wire).0, s.tasks[i].msg.id, MarkedByRoute(s.book, wire))
  {
    var wire := s.tasks[j].phase.wire;
    var y := s.tasks[i].msg.id;
    RunningDistinct(delays, s, i, j);
    OwnRoute(delays, s, j);
    assert TaskOk(delays, s, j);
    if IsEmpty(s.book) {
    } else {
      if wire in s.book.attempts {
        assert IsBridgeId(wire) by { assert Issued(wire, s.book.counter); }
        assert LeadsBack(s.book, wire, s.tasks[j].msg.id);
      }
      AnswerForUndisturbed(s.book, wire, y);
    }
  }

  /** A step of one running task, noting at most a response to its own request. */
  lemma OneTaskStep(delays: nat, s: State, s': State, j: nat, t': Task, n: Option<Note>, marked: set<Id>)
    requires Inv(delays, s) && j < |s.tasks| && s.tasks[j].Running()
    requires s'.tasks == s.tasks[j := t'] && t'.msg == s.tasks[j].msg && t'.at == s.tasks[j].at
    requires Valid(s'.book) && s.book.counter <= s'.book.counter
    requires Grew(s, s', n) && marked <= MarkedBy(n)
    requires n.Some? ==> t'.msg.Request? && n.value.ToClient? && n.value.id == t'.msg.id
    requires forall i | 0 <= i < |s.tasks| && i != j && s.tasks[i].Retryable() && s.tasks[i].Running() ::
      Undisturbed(s.book, s'.book, s.tasks[i].msg.id, marked)
    requires if t'.Retryable() then CallOk(delays, s', t')
             else !t'.phase.Pausing? && (t'.phase.Writing? ==>
                 s.tasks[j].phase.Writing? && t'.phase.wire == s.tasks[j].phase.wire)
    ensures Inv(delays, s')
  {
    forall i | 0 <= i < |s'.tasks| ensures TaskOk(delays, s', i) {
      assert TaskOk(delays, s, i) && TaskOk(delays, s, j);
      if i == j {
        if n.Some? {
          assert forall k :: 0 <= k < |s.trace| ==> s'.trace[k] == s.trace[k];
        }
        assert t'.msg.Request? && t'.msg.id != Null ==> Open(s.trace, s.tasks[j]);
      } else {
        if n.Some? && n.value.id != Null && s.tasks[i].msg.Request? {
          ResponseForeign(delays, s, j, n.value.kind, i);
        }
        OtherTaskKept(delays, s, s', i, n, marked);
      }
    }
  }

  /** An answer after the bridge has ended changes no book and no trace. */
  lemma LateAnswerKeeps(delays: nat, s: State, j: nat)
    requires Inv(delays, s) && Enabled(s, ServiceAnswers(j)) && s.settled
    ensures Inv(delays, Answer(s, j))
  {
    var s' := Answer(s, j);
    assert TaskOk(delays, s, j);
    forall i | 0 <= i < |s.tasks| && i != j && s.tasks[i].Retryable()
      ensures Undisturbed(s.book, s'.book, s.tasks[i].msg.id, {})
    {
    }
    OneTaskStep(delays, s, s', j, s'.tasks[j], None, {});
  }

  lemma AnswerKeeps(delays: nat, s: State, j: nat)
    requires Inv(delays, s) && Enabled(s, ServiceAnswers(j))
    ensures Inv(delays, Answer(s, j))
  {
    var s' := Answer(s, j);
    var task := s.tasks[j];
    var wire := task.phase.wire;
    var t' := s'.tasks[j];
    assert TaskOk(delays, s, j);
    if s.settled {
      LateAnswerKeeps(delays, s, j);
    } else {
      var (book, seen) := Routed(s.book, wire);
      var n := if seen.Some? then Some(ToClient(seen.value, Reply)) else None;
      OwnRoute(delays, s, j);
      if task.Retryable() {
        AnswerOwn(delays, s, j);
      }
      forall i | 0 <= i < |s.tasks| && i != j && s.tasks[i].Retryable() && s.tasks[i].Running()
        ensures Undisturbed(s.book, s'.book, s.tasks[i].msg.id, MarkedByRoute(s.book, wire))
      {
        OwnRouteUndisturbs(delays, s, j, i);
      }
      OneTaskStep(delays, s, s', j, t', n, MarkedByRoute(s.book, wire));
    }
  }

  lemma AnswerOwn(delays: nat, s: State, j: nat)
    requires Inv(delays, s) && Enabled(s, ServiceAnswers(j)) && !s.settled && s.tasks[j].Retryable()
    ensures CallOk(delays, Answer(s, j), Answer(s, j).tasks[j])
  {
    var s' := Answer(s, j);
    var task := s.tasks[j];
    var id := task.msg.id;
    var n := ToClient(id, Reply);
    assert TaskOk(delays, s, j);
    OwnRoute(delays, s, j);
    ResponsesAppend(s.trace, n, task.at + 1, id);
    CancelledAppend(s.trace, n, task.at + 1, id);
    if !CancelledFrom(s.trace, task.at + 1, id) {
      AnswerFollows(delays, s, j);
    }
  }

  /** The answer to an uncancelled call reaches the client. */
  lemma AnswerFollows(delays: nat, s: State, j: nat)
    requires Inv(delays, s) && Enabled(s, ServiceAnswers(j)) && !s.settled && s.tasks[j].Retryable()
    requires !CancelledFrom(s.trace, s.tasks[j].at + 1, s.tasks[j].msg.id)
    ensures Answer(s, j).trace == s.trace + [ToClient(s.tasks[j].msg.id, Reply)]
    ensures Follows(Answer(s, j), Answer(s, j).tasks[j])
  {
    var task := s.tasks[j];
    assert TaskOk(delays, s, j);
    assert Follows(s, task);
    OwnRoute(delays, s, j);
    ResponsesAppend(s.trace, ToClient(task.msg.id, Reply), task.at + 1, task.msg.id);
    WithoutElements(s.book.calls.order, task.msg.id);
    NewestRemembered(s.book.answered, task.msg.id, MAX_REMEMBERED);
  }

  lemma SucceedKeeps(delays: nat, s: State, j: nat)
    requires Inv(delays, s) && Enabled(s, WriteSucceeds(j))
    ensures Inv(delays, Succeed(s, j))
  {
    var s' := Succeed(s, j);
    assert TaskOk(delays, s, j);
    OwnBookStep(delays, s, s', j);
    OneTaskStep(delays, s, s', j, s'.tasks[j], None, {});
  }

  /** Forgetting a call, failing its attempt or starting the next one disturbs no other running call. */
  lemma OwnBookStep(delays: nat, s: State, s': State, j: nat)
    requires Inv(delays, s) && j < |s.tasks| && s.tasks[j].Running()
    requires s'.book == s.book
      || (s.tasks[j].Retryable() && (var id := s.tasks[j].msg.id;
          || s'.book == Forget(s.book, id)
          || s'.book == AttemptFailed(s.book, id)
          || s'.book == Forget(AttemptFailed(s.book, id), id)
          || s'.book == NextAttempt(s.book, id).0))
    ensures Valid(s'.book) && s.book.counter <= s'.book.counter
    ensures forall i | 0 <= i < |s.tasks| && i != j && s.tasks[i].Retryable() && s.tasks[i].Running() ::
      Undisturbed(s.book, s'.book, s.tasks[i].msg.id, {})
  {
    if s'.book != s.book {
      var id := s.tasks[j].msg.id;
      ValidStep(s.book, OpForget(id));
      ValidStep(s.book, OpAttemptFailed(id));
      ValidStep(AttemptFailed(s.book, id), OpForget(id));
      NextAttemptValid(s.book, id);
    }
    forall i | 0 <= i < |s.tasks| && i != j && s.tasks[i].Retryable() && s.tasks[i].Running()
      ensures Undisturbed(s.book, s'.book, s.tasks[i].msg.id, {})
    {
      var y := s.tasks[i].msg.id;
      if s'.book == s.book {
      } else {
        RunningDistinct(delays, s, i, j);
        ForgetUndisturbed(s.book, s.tasks[j].msg.id, y);
        AttemptFailedUndisturbed(s.book, s.tasks[j].msg.id, y);
        ForgetUndisturbed(AttemptFailed(s.book, s.tasks[j].msg.id), s.tasks[j].msg.id, y);
        UndisturbedTwice(s.book, AttemptFailed(s.book, s.tasks[j].msg.id),
            Forget(AttemptFailed(s.book, s.tasks[j].msg.id), s.tasks[j].msg.id), y);
        NextAttemptUndisturbed(s.book, s.tasks[j].msg.id, y);
      }
    }
  }

  lemma ForgetUndisturbed(b: Book, id: Id, y: Id)
    requires y != id
    ensures Undisturbed(b, Forget(b, id), y, {})
  {
  }

  /** The error note `GiveUp` adds after the book step `b`, if it does. */
  ghost function GiveUpNote(s: State, t: nat): Option<Note>
    requires t < |s.tasks|
  {
    var msg := s.tasks[t].msg;
    if s.settled || !msg.Request? || msg.id == Null
       || (s.tasks[t].Retryable() && (msg.id in s.book.cancelled || msg.id in s.book.answered))
    then None
    else Some(ToClient(msg.id, Synthesized))
  }

  lemma GiveUpShape(s: State, t: nat)
    requires t < |s.tasks|
    ensures var s' := GiveUp(s, t);
      && s'.settled == s.settled
      && s'.tasks == s.tasks[t := s.tasks[t].(phase := Done(false))]
      && s'.book == (if s.tasks[t].Retryable() then Forget(s.book, s.tasks[t].msg.id) else s.book)
      && s'.trace == if GiveUpNote(s, t).Some? then s.trace + [GiveUpNote(s, t).value] else s.trace
  {
  }

  /** A call given up before any answer is answered once, unless it was cancelled or the bridge has ended. */
  lemma GiveUpOwn(delays: nat, s: State, j: nat)
    requires j < |s.tasks| && s.tasks[j].Retryable() && s.tasks[j].at < |s.trace|
    requires WritesOk(delays, s.book.counter, s.tasks[j]) && Open(s.trace, s.tasks[j]) && Valid(s.book)
    requires var t := s.tasks[j];
      !CancelledFrom(s.trace, t.at + 1, t.msg.id) ==>
        && Responses(s.trace, t.at + 1, t.msg.id) <= 1
        && (!s.settled ==> Tracked(s.book, t.msg.id, None) && Responses(s.trace, t.at + 1, t.msg.id) == 0)
    ensures CallOk(delays, GiveUp(s, j), GiveUp(s, j).tasks[j])
  {
    GiveUpShape(s, j);
    var t := s.tasks[j];
    if GiveUpNote(s, j).Some? {
      ResponsesAppend(s.trace, GiveUpNote(s, j).value, t.at + 1, t.msg.id);
      CancelledAppend(s.trace, GiveUpNote(s, j).value, t.at + 1, t.msg.id);
    }
  }

  lemma FailOwn(delays: nat, s: State, j: nat, failure: Failure)
    requires Inv(delays, s) && Enabled(s, WriteFails(j, failure)) && Assumed(s, WriteFails(j, failure))
    requires s.tasks[j].Retryable()
    ensures CallOk(delays, Fail(s, j, failure, delays), Fail(s, j, failure, delays).tasks[j])
  {
    var t := s.tasks[j];
    if failure != Fatal && t.msg.id !in s.book.answered
       && (|t.writes| > delays || failure != Network || t.msg.id !in s.book.calls.vals)
    {
      FailGivesUpOwn(delays, s, j, failure);
    } else if failure != Fatal && t.msg.id !in s.book.answered {
      FailPausesOwn(delays, s, j);
    } else {
      assert TaskOk(delays, s, j);
      WritesKept(delays, s.book.counter, AttemptFailed(s.book, t.msg.id).counter, t);
    }
  }

  /** A failed write after which the call pauses before its next attempt. */
  lemma FailPausesOwn(delays: nat, s: State, j: nat)
    requires Inv(delays, s) && Enabled(s, WriteFails(j, Network)) && Assumed(s, WriteFails(j, Network))
    requires s.tasks[j].Retryable() && s.tasks[j].msg.id !in s.book.answered
    requires |s.tasks[j].writes| <= delays && s.tasks[j].msg.id in s.book.calls.vals
    ensures CallOk(delays, Fail(s, j, Network, delays), Fail(s, j, Network, delays).tasks[j])
  {
    assert TaskOk(delays, s, j);
    WritesKept(delays, s.book.counter, AttemptFailed(s.book, s.tasks[j].msg.id).counter, s.tasks[j]);
  }

  /** A failed write after which the call is not sent again, no answer having come. */
  lemma FailGivesUpOwn(delays: nat, s: State, j: nat, failure: Failure)
    requires Inv(delays, s) && Enabled(s, WriteFails(j, failure)) && Assumed(s, WriteFails(j, failure))
    requires s.tasks[j].Retryable() && failure != Fatal && s.tasks[j].msg.id !in s.book.answered
    requires |s.tasks[j].writes| > delays || failure != Network || s.tasks[j].msg.id !in s.book.calls.vals
    ensures CallOk(delays, Fail(s, j, failure, delays), Fail(s, j, failure, delays).tasks[j])
  {
    assert TaskOk(delays, s, j);
    var t := s.tasks[j];
    ValidStep(s.book, OpAttemptFailed(t.msg.id));
    WritesKept(delays, s.book.counter, AttemptFailed(s.book, t.msg.id).counter, t);
    GiveUpOwn(delays, s.(book := AttemptFailed(s.book, t.msg.id)), j);
  }

  /** What a failed write notes: an error for its own request, or nothing. */
  ghost function FailNote(s: State, j: nat, failure: Failure, delays: nat): Option<Note>
    requires j < |s.tasks| && s.tasks[j].phase.Writing?
  {
    if Fail(s, j, failure, delays).trace == s.trace then None
    else GiveUpNote(if s.tasks[j].Retryable() then s.(book := AttemptFailed(s.book, s.tasks[j].msg.id)) else s, j)
  }

  lemma FailShape(s: State, j: nat, failure: Failure, delays: nat)
    requires j < |s.tasks| && s.tasks[j].phase.Writing?
    ensures var s' := Fail(s, j, failure, delays); var t, t' := s.tasks[j], s'.tasks[j];
      && s'.tasks == s.tasks[j := t'] && t'.msg == t.msg && t'.at == t.at
      && (t'.phase.Done? || (t.Retryable() && t'.phase.Pausing?))
      && Grew(s, s', FailNote(s, j, failure, delays))
      && (s'.book == s.book
          || (t.Retryable() && (s'.book == AttemptFailed(s.book, t.msg.id)
              || s'.book == Forget(AttemptFailed(s.book, t.msg.id), t.msg.id))))
  {
    GiveUpShape(if s.tasks[j].Retryable() then s.(book := AttemptFailed(s.book, s.tasks[j].msg.id)) else s, j);
  }

  lemma FailKeeps(delays: nat, s: State, j: nat, failure: Failure)
    requires Inv(delays, s) && Enabled(s, WriteFails(j, failure)) && Assumed(s, WriteFails(j, failure))
    ensures Inv(delays, Fail(s, j, failure, delays))
  {
    if s.tasks[j].Retryable() {
      FailOwn(delays, s, j, failure);
    }
    var s' := Fail(s, j, failure, delays);
    FailShape(s, j, failure, delays);
    OwnBookStep(delays, s, s', j);
    OneTaskStep(delays, s, s', j, s'.tasks[j], FailNote(s, j, failure, delays), {});
  }

  lemma ResumeOwn(delays: nat, s: State, j: nat)
    requires Inv(delays, s) && Enabled(s, PauseEnds(j)) && !s.settled && s.tasks[j].Retryable()
    requires s.tasks[j].msg.id in s.book.calls.vals
    ensures CallOk(delays, Resume(s, j), Resume(s, j).tasks[j])
  {
    assert TaskOk(delays, s, j);
    var t := s.tasks[j];
    NewWriteFresh(delays, s, j);
    assert !CancelledFrom(s.trace, t.at + 1, t.msg.id);
    assert Follows(s, t);
    AttemptOwn(delays, s, t);
  }

  /** A tracked call that is written again under a new attempt id. */
  lemma AttemptOwn(delays: nat, s: State, t: Task)
    requires t.Retryable() && t.phase.Pausing? && CallOk(delays, s, t) && !s.settled
    requires !CancelledFrom(s.trace, t.at + 1, t.msg.id)
    requires AttemptId(s.book.counter + 1) !in t.writes && Issued(AttemptId(s.book.counter + 1), s.book.counter + 1)
    ensures var (book, a) := NextAttempt(s.book, t.msg.id);
      CallOk(delays, s.(book := book), t.(writes := t.writes + [a], phase := Writing(a, None)))
  {
    assert Follows(s, t);
  }

  lemma ResumeKeeps(delays: nat, s: State, j: nat)
    requires Inv(delays, s) && Enabled(s, PauseEnds(j))
    ensures Inv(delays, Resume(s, j))
  {
    var s' := Resume(s, j);
    assert TaskOk(delays, s, j);
    if !s.settled && s.tasks[j].msg.id in s.book.calls.vals {
      OwnBookStep(delays, s, s', j);
      ResumeOwn(delays, s, j);
      OneTaskStep(delays, s, s', j, s'.tasks[j], None, {});
    } else {
      GiveUpShape(s, j);
      OwnBookStep(delays, s, s', j);
      GiveUpOwn(delays, s, j);
      OneTaskStep(delays, s, s', j, s'.tasks[j], GiveUpNote(s, j), {});
    }
  }

  /** The id of the next attempt is one no task has been written under. */
  lemma NewWriteFresh(delays: nat, s: State, i: nat)
    requires Inv(delays, s) && i < |s.tasks| && s.tasks[i].Retryable()
    ensures AttemptId(s.book.counter + 1) !in s.tasks[i].writes
    ensures Issued(AttemptId(s.book.counter + 1), s.book.counter + 1)
  {
    assert TaskOk(delays, s, i);
    var a := AttemptId(s.book.counter + 1);
    var t := s.tasks[i];
    assert IsBridgeId(a);
    if a in t.writes {
      var k :| 0 <= k < |t.writes| && t.writes[k] == a;
      assert k >= 1 && Issued(a, s.book.counter);
      var m: nat :| 1 <= m <= s.book.counter && a == AttemptId(m);
      AttemptIdInjective(m, s.book.counter + 1);
    }
  }

  /** Every step the run may take keeps the invariant. */
  lemma StepKeeps(delays: nat, s: State, e: Event)
    requires Inv(delays, s) && Enabled(s, e) && Assumed(s, e)
    ensures Inv(delays, Step(delays, s, e))
  {
    match e {
      case ClientSends(msg) =>
        if !s.settled {
          match msg {
            case Request(id, toolUse) => SendRequestKeeps(delays, s, id, toolUse);
            case CancelOf(target) => SendCancelKeeps(delays, s, target);
            case Other => SendOtherKeeps(delays, s);
          }
        }
      case ServiceAnswers(t) => AnswerKeeps(delays, s, t);
      case WriteSucceeds(t) => SucceedKeeps(delays, s, t);
      case WriteFails(t, failure) => FailKeeps(delays, s, t, failure);
      case PauseEnds(t) => ResumeKeeps(delays, s, t);
      case BridgeEnds =>
        forall i | 0 <= i < |s.tasks| ensures TaskOk(delays, s.(settled := true), i) {
          assert TaskOk(delays, s, i);
        }
    }
  }
}
