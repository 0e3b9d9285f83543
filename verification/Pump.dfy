/** The pump as the bridge runs it: its callbacks, each carrying out one step of the step system. */
module Pump {
  import opened Ordered
  import opened RetryBook
  import opened Bridge

  class BridgePump {
    var settled: bool
    const book: Ledger
    var tasks: seq<Task>
    var trace: seq<Note>
    const delays: nat

    function View(): State
      reads this, book
    {
      State(settled, book.View(), tasks, trace)
    }

    constructor (delays: nat)
      ensures View() == INIT && fresh(book) && this.delays == delays
    {
      settled, tasks, trace := false, [], [];
      this.delays := delays;
      book := new Ledger();
    }

    /** `client.source.onMessage`: a cancel is moved to the attempt that is out, a retryable call is tracked. */
    method OnClientMessage(msg: Message)
      modifies this, book
      ensures View() == Send(old(View()), msg)
    {
      if settled {
        return;
      }
      var wire := Null;
      match msg {
        case CancelOf(target) =>
          var live := book.DoCancel(target);
          wire := if live.Some? then live.value else target;
        case Request(id, _) =>
          wire := id;
          if IsRetryable(msg) {
            book.DoBegin(id);
          }
        case Other =>
      }
      tasks := tasks + [Task(msg, |trace|, [wire], Writing(wire, None))];
      trace := trace + [FromClient(msg)];
    }

    /** `service.source.onMessage`, for the answer to the write of task `t`. */
    method OnAnswer(t: nat)
      requires Enabled(View(), ServiceAnswers(t))
      modifies this, book
      ensures View() == Answer(old(View()), t)
    {
      var wire := tasks[t].phase.wire;
      tasks := tasks[t := tasks[t].(phase := Writing(wire, Some(|trace|)))];
      if settled {
        return;
      }
      if book.calls.order == [] && book.attempts == map[] {
        trace := trace + [ToClient(wire, Reply)];
        return;
      }
      var route := book.DoAnswerFor(wire);
      match route {
        case NotOurs => trace := trace + [ToClient(wire, Reply)];
        case Drop =>
        case DeliverAs(original) => trace := trace + [ToClient(original, Reply)];
      }
    }

    method OnWriteSucceeded(t: nat)
      requires Enabled(View(), WriteSucceeds(t))
      modifies this, book
      ensures View() == Succeed(old(View()), t)
    {
      if tasks[t].Retryable() && |tasks[t].writes| == 1 {
        book.DoForget(tasks[t].msg.id);
      }
      End(t, tasks[t].phase.reply.None?);
    }

    method OnWriteFailed(t: nat, failure: Failure)
      requires Enabled(View(), WriteFails(t, failure))
      modifies this, book
      ensures View() == Fail(old(View()), t, failure, delays)
    {
      var task := tasks[t];
      if task.Retryable() {
        book.DoAttemptFailed(task.msg.id);
      }
      if failure == Fatal {
        settled := true;
        End(t, false);
        return;
      }
      if task.Retryable() && task.msg.id in book.answered {
        End(t, false);
        return;
      }
      if !task.Retryable() || |task.writes| > delays || failure != Network || task.msg.id !in book.calls.vals {
        DoGiveUp(t);
        return;
      }
      tasks := tasks[t := task.(phase := Pausing)];
    }

    method OnPauseEnded(t: nat)
      requires Enabled(View(), PauseEnds(t))
      modifies this, book
      ensures View() == Resume(old(View()), t)
    {
      var task := tasks[t];
      if settled || !task.msg.Request? || task.msg.id !in book.calls.vals {
        DoGiveUp(t);
        return;
      }
      var attempt := book.DoNextAttempt(task.msg.id);
      tasks := tasks[t := task.(writes := task.writes + [attempt], phase := Writing(attempt, None))];
    }

    method End(t: nat, unanswered: bool)
      requires t < |tasks|
      modifies this`tasks
      ensures View() == Finish(old(View()), t, unanswered)
    {
      tasks := tasks[t := tasks[t].(phase := Done(unanswered))];
    }

    method ReportUndelivered(msg: Message)
      modifies this`trace
      ensures View() == Report(old(View()), msg)
    {
      if settled || !msg.Request? || msg.id == Null {
        return;
      }
      trace := trace + [ToClient(msg.id, Synthesized)];
    }

    method DoGiveUp(t: nat)
      requires t < |tasks|
      modifies this, book
      ensures View() == GiveUp(old(View()), t)
    {
      var task := tasks[t];
      if task.Retryable() {
        var silent := task.msg.id in book.cancelled || task.msg.id in book.answered;
        book.DoForget(task.msg.id);
        End(t, false);
        if silent {
          return;
        }
      } else {
        End(t, false);
      }
      ReportUndelivered(task.msg);
    }
  }
}
