/**
 * What a sign-up and a reconcile bring about (hub/src/provisioning.ts, hub/src/signin.ts): each step of them
 * exactly, and a whole reconcile that nobody comes between.
 */
module Reconciling {
  import opened Ordered
  import opened Accounts
  import opened Provisioning

  /**
   * A sign-up that gets its seat is handed to the background at once, unless the hub is stopping or an
   * earlier task of the account is not over: then its row waits, pending, for a reconcile.
   */
  lemma SignUpStartsItsTask(maxAccounts: nat, s: State, input: Signup)
    requires Enabled(s, SignUp(input)) && input.githubId !in s.db.accounts && |s.db.accounts| < maxAccounts
    requires forall id :: id in s.db.accounts ==> s.db.accounts[id].subdomain != input.subdomain
    ensures var s' := Step(maxAccounts, s, SignUp(input)); var id := input.githubId;
      && Waits(s', id, PendingRow(input)) && OnlyRow(s.db, s'.db, id, Some(PendingRow(input)))
      && s' == s.(db := s'.db, tasks := s'.tasks)
      && s'.tasks == (if !s.stopping && id !in s.tasks then s.tasks[id := Creating(PendingRow(input), s.now)]
                      else s.tasks)
  {
  }

  /** A sign-up that is refused changes nothing. */
  lemma RefusedSignUpChangesNothing(maxAccounts: nat, s: State, input: Signup)
    requires Enabled(s, SignUp(input))
    requires || input.githubId in s.db.accounts || |s.db.accounts| >= maxAccounts
      || exists id :: id in s.db.accounts && s.db.accounts[id].subdomain == input.subdomain
    ensures Step(maxAccounts, s, SignUp(input)) == s
  {
  }

  /**
   * The end of a create, in any state: its task is over. A success makes the row active it was started for, if
   * that still waits, and keeps its token; a failure rolls back whatever sign-up of the account waits then and
   * marks the one it was started for, unless the hub is stopping.
   */
  lemma CreateEndMeans(maxAccounts: nat, s: State, id: int, ok: bool)
    requires Enabled(s, CreateEnds(id, ok))
    ensures var s' := Step(maxAccounts, s, CreateEnds(id, ok)); var account := s.tasks[id].account;
      var pending := id in s.db.accounts && s.db.accounts[id].status == Pending;
      var same := pending && s.db.accounts[id].createdAt == account.createdAt;
      && s' == s.(tasks := s.tasks[id := Over], db := s'.db, tokens := s'.tokens, failed := s'.failed)
      && s'.tokens == (if ok && same then s.tokens + {Key(id, account.createdAt)} else s.tokens)
      && s'.failed == (if !ok && !s.stopping then s.failed + {Key(id, account.createdAt)} else s.failed)
      && (ok && same ==> OnlyRow(s.db, s'.db, id, Some(s.db.accounts[id].(status := Active))))
      && (!ok && !s.stopping && pending ==> OnlyRow(s.db, s'.db, id, None))
      && ((ok && !same) || (!ok && (s.stopping || !pending)) ==> s'.db == s.db)
  {
  }

  /** The steps that only keep the books: a task forgotten, a reconcile begun with no count, a stop, the clock. */
  lemma BooksKept(maxAccounts: nat, s: State, id: int, rows: seq<Listed>, ms: nat)
    ensures Enabled(s, TaskForgotten(id)) ==>
      Step(maxAccounts, s, TaskForgotten(id)) == s.(tasks := map i | i in s.tasks && i != id :: s.tasks[i])
    ensures Enabled(s, ReconcileStarts(rows)) ==>
      Step(maxAccounts, s, ReconcileStarts(rows))
          == s.(reconciles := s.reconciles + [Reconcile(rows, 0, false, Counts(0, 0, 0))])
    ensures Step(maxAccounts, s, Stop) == s.(stopping := true)
    ensures Step(maxAccounts, s, Tick(ms)) == s.(now := s.now + ms)
  {
  }

  /** The row a reconcile has come to. */
  function Current(s: State, r: nat): Listed
    requires r < |s.reconciles| && s.reconciles[r].next < |s.reconciles[r].rows|
  {
    s.reconciles[r].rows[s.reconciles[r].next]
  }

  /** It is inspected exactly if the provisioner is there and no task works on it; else it is left, and counted so. */
  lemma NextMeans(maxAccounts: nat, s: State, r: nat, available: bool)
    requires Enabled(s, ReconcileNext(r, available))
    ensures var s' := Step(maxAccounts, s, ReconcileNext(r, available));
      && |s'.reconciles| == |s.reconciles| && s' == s.(reconciles := s'.reconciles)
      && (forall q :: 0 <= q < |s.reconciles| && q != r ==> s'.reconciles[q] == s.reconciles[q])
      && var run, run' := s.reconciles[r], s'.reconciles[r];
      && run'.rows == run.rows
      && (run'.inspecting <==> available && Current(s, r).githubId !in s.tasks)
      && (run'.inspecting ==> run'.next == run.next && run'.counts == run.counts)
      && (!run'.inspecting ==> run'.next == run.next + 1 && CountedOne(run.counts, run'.counts, 0, 0, 1))
  {
  }

  predicate CountedOne(c: Counts, c': Counts, activated: nat, discarded: nat, left: nat) {
    c' == Counts(c.activated + activated, c.discarded + discarded, c.leftPending + left)
  }

  /**
   * The answer settles the row it was asked for: an install that is there activates the sign-up listed, if it
   * still waits; none at all discards whatever sign-up of the account waits then, without a tombstone; no
   * answer leaves it. The reconcile counts what it did and goes on.
   */
  lemma AnswerSettles(maxAccounts: nat, s: State, r: nat, presence: Presence)
    requires Enabled(s, Inspected(r, presence))
    ensures var s' := Step(maxAccounts, s, Inspected(r, presence));
      var id, listed := Current(s, r).githubId, Current(s, r).account;
      var pending := id in s.db.accounts && s.db.accounts[id].status == Pending;
      var same := pending && s.db.accounts[id].createdAt == listed.createdAt;
      && s' == s.(db := s'.db, reconciles := s'.reconciles)
      && (presence == Found && same ==> OnlyRow(s.db, s'.db, id, Some(s.db.accounts[id].(status := Active))))
      && (presence == Absent && pending ==> OnlyRow(s.db, s'.db, id, None))
      && (presence == Unknown || (presence == Found && !same) || (presence == Absent && !pending) ==> s'.db == s.db)
      && |s'.reconciles| == |s.reconciles|
      && (forall q :: 0 <= q < |s.reconciles| && q != r ==> s'.reconciles[q] == s.reconciles[q])
      && var run, run' := s.reconciles[r], s'.reconciles[r];
      && run'.rows == run.rows && run'.next == run.next + 1 && !run'.inspecting
      && CountedOne(run.counts, run'.counts, if presence == Found && same then 1 else 0,
            if presence == Absent && pending then 1 else 0,
            if (presence == Found && same) || (presence == Absent && pending) then 0 else 1)
  {
  }

  // ---------------------------------------------------------------------------
  // A whole reconcile

  /** What the provisioner answers for each account it is asked for. */
  type Answers = int -> Presence

  /** The steps from row `k` of the list to its end, when nobody comes between: tasks are as they were. */
  function Rest(r: nat, rows: seq<Listed>, k: nat, tasks: set<int>, answers: Answers): seq<Event>
    requires k <= |rows|
    decreases |rows| - k
  {
    if k == |rows| then []
    else
      var id := rows[k].githubId;
      [ReconcileNext(r, true)] + (if id in tasks then [] else [Inspected(r, answers(id))])
          + Rest(r, rows, k + 1, tasks, answers)
  }

  /** What becomes of a row a reconcile found pending. */
  function SettledRow(row: Row, busy: bool, presence: Presence): Option<Row> {
    if busy || presence == Unknown then Some(row)
    else if presence == Found then Some(row.(status := Active))
    else None
  }

  /** From `db` to `after` the rows from `k` on were settled by the answers, and no other row was written. */
  ghost predicate SettledFrom(db: Db, after: Db, rows: seq<Listed>, k: nat, tasks: set<int>, answers: Answers) {
    && after.tombstones == db.tombstones
    && (forall id :: IsListedFrom(rows, k, id) && id in db.accounts ==>
        RowIs(after, id, SettledRow(db.accounts[id], id in tasks, answers(id))))
    && (forall id :: !IsListedFrom(rows, k, id) ==>
        RowIs(after, id, if id in db.accounts then Some(db.accounts[id]) else None))
  }

  predicate IsListedFrom(rows: seq<Listed>, k: nat, id: int) {
    exists j :: k <= j < |rows| && rows[j].githubId == id
  }

  predicate RowIs(db: Db, id: int, row: Option<Row>) {
    if row.Some? then id in db.accounts && db.accounts[id] == row.value else id !in db.accounts
  }

  /** Reconcile `r` is about to come to row `k`, and the rows from there on are as it listed them. */
  ghost predicate AtRow(s: State, r: nat, rows: seq<Listed>, k: nat) {
    && r < |s.reconciles| && s.reconciles[r].rows == rows && s.reconciles[r].next == k <= |rows|
    && !s.reconciles[r].inspecting
    && (forall j :: k <= j < |rows| ==>
        rows[j].githubId in s.db.accounts && s.db.accounts[rows[j].githubId] == rows[j].account
        && rows[j].account.status == Pending)
    && (forall i, j :: k <= i < j < |rows| ==> rows[i].githubId != rows[j].githubId)
  }

  /** One row: asked for unless a task works on it, and settled by the answer. */
  function OneRow(r: nat, id: int, tasks: set<int>, answers: Answers): seq<Event> {
    [ReconcileNext(r, true)] + (if id in tasks then [] else [Inspected(r, answers(id))])
  }

  lemma OneRowSettles(maxAccounts: nat, s: State, r: nat, rows: seq<Listed>, k: nat, answers: Answers)
    requires AtRow(s, r, rows, k) && k < |rows|
    ensures CanRun(maxAccounts, s, OneRow(r, rows[k].githubId, s.tasks.Keys, answers))
    ensures var id := rows[k].githubId; var s' := Final(maxAccounts, s, OneRow(r, id, s.tasks.Keys, answers));
      && AtRow(s', r, rows, k + 1) && s'.tasks == s.tasks
      && OnlyRow(s.db, s'.db, id, SettledRow(rows[k].account, id in s.tasks, answers(id)))
  {
    var id := rows[k].githubId;
    var es := OneRow(r, id, s.tasks.Keys, answers);
    var s1 := Step(maxAccounts, s, es[0]);
    NextMeans(maxAccounts, s, r, true);
    if id in s.tasks {
      assert es[1..] == [] && CanRun(maxAccounts, s1, es[1..]);
    } else {
      AnswerSettles(maxAccounts, s1, r, answers(id));
      var s2 := Step(maxAccounts, s1, Inspected(r, answers(id)));
      assert es[1..] == [Inspected(r, answers(id))] && es[1..][1..] == [];
      assert CanRun(maxAccounts, s2, []) && Final(maxAccounts, s2, []) == s2;
      assert CanRun(maxAccounts, s1, es[1..]) && Final(maxAccounts, s1, es[1..]) == s2;
      assert forall j :: k < j < |rows| ==> rows[j].githubId != id;
    }
  }

  lemma {:induction false} RestSettles(maxAccounts: nat, s: State, r: nat, rows: seq<Listed>, k: nat,
                                       answers: Answers)
    requires AtRow(s, r, rows, k)
    ensures CanRun(maxAccounts, s, Rest(r, rows, k, s.tasks.Keys, answers))
    ensures SettledFrom(s.db, Final(maxAccounts, s, Rest(r, rows, k, s.tasks.Keys, answers)).db, rows, k,
        s.tasks.Keys, answers)
    decreases |rows| - k
  {
    if k < |rows| {
      var id := rows[k].githubId;
      var first := OneRow(r, id, s.tasks.Keys, answers);
      OneRowSettles(maxAccounts, s, r, rows, k, answers);
      var s1 := Final(maxAccounts, s, first);
      RestSettles(maxAccounts, s1, r, rows, k + 1, answers);
      var rest := Rest(r, rows, k + 1, s.tasks.Keys, answers);
      RunThenRun(maxAccounts, s, first, rest);
      RowThenRest(s.db, s1.db, Final(maxAccounts, s1, rest).db, rows, k, s.tasks.Keys, answers);
    }
  }

  lemma RowThenRest(db: Db, db1: Db, after: Db, rows: seq<Listed>, k: nat, tasks: set<int>, answers: Answers)
    requires k < |rows| && rows[k].githubId in db.accounts && db.accounts[rows[k].githubId] == rows[k].account
    requires forall j :: k < j < |rows| ==> rows[k].githubId != rows[j].githubId
    requires OnlyRow(db, db1, rows[k].githubId,
        SettledRow(rows[k].account, rows[k].githubId in tasks, answers(rows[k].githubId)))
    requires SettledFrom(db1, after, rows, k + 1, tasks, answers)
    ensures SettledFrom(db, after, rows, k, tasks, answers)
  {
    var own := rows[k].githubId;
    assert !IsListedFrom(rows, k + 1, own);
    forall id ensures IsListedFrom(rows, k, id) <==> id == own || IsListedFrom(rows, k + 1, id) {
      if id == own {
        assert rows[k].githubId == id;
      }
    }
  }

  /**
   * A reconcile nobody comes between settles every pending row no task works on by what the provisioner says:
   * active where its install is there, gone, without a tombstone, where it is not, and pending where there is
   * no answer. It writes no other row.
   */
  lemma ReconcileSettlesEveryRow(maxAccounts: nat, s: State, rows: seq<Listed>, answers: Answers)
    requires ListsPending(rows, s.db.accounts)
    ensures var es := [ReconcileStarts(rows)] + Rest(|s.reconciles|, rows, 0, s.tasks.Keys, answers);
      && CanRun(maxAccounts, s, es)
      && var after := Final(maxAccounts, s, es).db;
      && after.tombstones == s.db.tombstones
      && (forall id :: id in s.db.accounts ==>
            var row := s.db.accounts[id];
            RowIs(after, id, if row.status == Pending then SettledRow(row, id in s.tasks, answers(id)) else Some(row)))
      && (forall id :: id in after.accounts ==> id in s.db.accounts)
  {
    var r := |s.reconciles|;
    var s1 := Step(maxAccounts, s, ReconcileStarts(rows));
    assert AtRow(s1, r, rows, 0);
    RestSettles(maxAccounts, s1, r, rows, 0, answers);
    var rest := Rest(r, rows, 0, s.tasks.Keys, answers);
    var es := [ReconcileStarts(rows)] + rest;
    assert es[0] == ReconcileStarts(rows) && es[1..] == rest;
    var after := Final(maxAccounts, s, es).db;
    forall id | id in s.db.accounts
      ensures var row := s.db.accounts[id];
        RowIs(after, id, if row.status == Pending then SettledRow(row, id in s.tasks, answers(id)) else Some(row))
    {
      if s.db.accounts[id].status == Pending {
        assert Listed(id, s.db.accounts[id]) in rows;
        var j :| 0 <= j < |rows| && rows[j] == Listed(id, s.db.accounts[id]);
        assert IsListedFrom(rows, 0, id) by {
          assert rows[j].githubId == id;
        }
      } else {
        assert !IsListedFrom(rows, 0, id);
      }
    }
  }
}
