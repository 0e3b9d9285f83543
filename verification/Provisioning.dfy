/**
 * Sign-ups whose installs are created in the background, and the reconcile that settles the pending rows
 * no task works on (hub/src/provisioning.ts), among all the other writes to the accounts. One step per
 * stretch of code between two awaits; a task and a reconcile hold the rows they read before an await.
 */
module Provisioning {
  import opened Ordered
  import opened Accounts

  /** A task of the background: its create is out, or it is over and only not yet forgotten. */
  datatype Task = Creating(account: Row, since: int) | Over

  datatype Listed = Listed(githubId: int, account: Row)

  datatype Counts = Counts(activated: nat, discarded: nat, leftPending: nat)

  /** A reconcile: the pending rows as it listed them, and how far it got. */
  datatype Reconcile = Reconcile(rows: seq<Listed>, next: nat, inspecting: bool, counts: Counts)

  /** What the provisioner says of an install. */
  datatype Presence = Found | Absent | Unknown

  datatype State = State(
    db: Db,
    now: int,
    stopping: bool,
    tasks: map<int, Task>,
    reconciles: seq<Reconcile>,
    tokens: set<Key>,
    failed: set<Key>)

  datatype Event =
    | SignUp(input: Signup)
    | CreateEnds(githubId: int, ok: bool)
    | TaskForgotten(githubId: int)
    | ReconcileStarts(rows: seq<Listed>)
    | ReconcileNext(r: nat, available: bool)
    | Inspected(r: nat, presence: Presence)
    /** A write of the sweeper, the waker, a sign-in or the operator. */
    | OtherWrite(w: Write)
    | Stop
    | Tick(ms: nat)

  // ---------------------------------------------------------------------------
  // The steps

  /** `start`: one task per account, and none once the hub is stopping. */
  function Start(s: State, id: int, account: Row): State {
    if s.stopping || id in s.tasks then s else s.(tasks := s.tasks[id := Creating(account, s.now)])
  }

  /** `createAccount`: the seat is reserved and the install handed to the background. */
  function SignedUp(s: State, input: Signup, maxAccounts: nat): State {
    var (db, result) := Insert(s.db, input, maxAccounts);
    if result.Reserved? then Start(s.(db := db), input.githubId, result.account) else s
  }

  /** `provision` after its await. */
  function CreateEnded(s: State, id: int, ok: bool): State
    requires id in s.tasks && s.tasks[id].Creating?
  {
    var key := Key(id, s.tasks[id].account.createdAt);
    var s1 := s.(tasks := s.tasks[id := Over]);
    if !ok then
      if s.stopping then s1 else s1.(db := DiscardPending(s.db, id).0, failed := s.failed + {key})
    else
      var (db, activated) := StatusTo(s.db, key, Pending, Active);
      s1.(db := db, tokens := if activated then s.tokens + {key} else s.tokens)
  }

  function Advanced(r: Reconcile, counts: Counts): Reconcile {
    r.(next := r.next + 1, inspecting := false, counts := counts)
  }

  function CountLeft(c: Counts): Counts {
    c.(leftPending := c.leftPending + 1)
  }

  /** The next row of the list: left alone while a task runs for it, inspected otherwise. */
  function Next(s: State, r: nat, available: bool): State
    requires r < |s.reconciles| && s.reconciles[r].next < |s.reconciles[r].rows|
  {
    var run := s.reconciles[r];
    var after := if available && run.rows[run.next].githubId !in s.tasks then run.(inspecting := true)
                 else Advanced(run, CountLeft(run.counts));
    s.(reconciles := s.reconciles[r := after])
  }

  /** `settleOne` after its await. */
  function Settled(s: State, r: nat, presence: Presence): State
    requires r < |s.reconciles| && s.reconciles[r].next < |s.reconciles[r].rows|
  {
    var run := s.reconciles[r];
    var listed := run.rows[run.next];
    var (db, changed) :=
      match presence
      case Unknown => (s.db, false)
      case Found => StatusTo(s.db, Key(listed.githubId, listed.account.createdAt), Pending, Active)
      case Absent => DiscardPending(s.db, listed.githubId);
    var counts :=
      if !changed then CountLeft(run.counts)
      else if presence.Found? then run.counts.(activated := run.counts.activated + 1)
      else run.counts.(discarded := run.counts.discarded + 1);
    s.(db := db, reconciles := s.reconciles[r := Advanced(run, counts)])
  }

  /** The rows are the pending ones, each once, in any order. */
  ghost predicate ListsPending(rows: seq<Listed>, accounts: map<int, Row>) {
    && (forall k | 0 <= k < |rows| ::
        && rows[k].githubId in accounts && accounts[rows[k].githubId] == rows[k].account
        && rows[k].account.status == Pending)
    && (forall k, l | 0 <= k < l < |rows| :: rows[k].githubId != rows[l].githubId)
    && (forall id | id in accounts && accounts[id].status == Pending :: Listed(id, accounts[id]) in rows)
  }

  /** An unblock finds its row blocked, a deletion carries the time it happens; the rest is decided on any row. */
  predicate WrittenByOthers(s: State, w: Write) {
    match w
    case WInsert(_) => false
    case WActivate(_) => false
    case WDiscardPending(_) => false
    case WUnblock(id) => id in s.db.accounts && s.db.accounts[id].status == Blocked
    case WDelete(_, _, at) => at == s.now
    case _ => true
  }

  predicate IsInspecting(s: State, r: nat, id: int) {
    && r < |s.reconciles| && s.reconciles[r].inspecting && s.reconciles[r].next < |s.reconciles[r].rows|
    && s.reconciles[r].rows[s.reconciles[r].next].githubId == id
  }

  predicate IsCreating(s: State, id: int) {
    id in s.tasks && s.tasks[id].Creating?
  }

  ghost predicate Enabled(s: State, e: Event) {
    match e
    case SignUp(input) => input.now == s.now
    case CreateEnds(id, _) => IsCreating(s, id)
    case TaskForgotten(id) => id in s.tasks && s.tasks[id].Over?
    case ReconcileStarts(rows) => ListsPending(rows, s.db.accounts)
    case ReconcileNext(r, _) =>
      r < |s.reconciles| && !s.reconciles[r].inspecting && s.reconciles[r].next < |s.reconciles[r].rows|
    case Inspected(r, _) => r < |s.reconciles| && s.reconciles[r].inspecting
        && s.reconciles[r].next < |s.reconciles[r].rows|
    case OtherWrite(w) => WrittenByOthers(s, w)
    case Stop => true
    case Tick(_) => true
  }

  ghost function Step(maxAccounts: nat, s: State, e: Event): State
    requires Enabled(s, e)
  {
    match e
    case SignUp(input) => SignedUp(s, input, maxAccounts)
    case CreateEnds(id, ok) => CreateEnded(s, id, ok)
    case TaskForgotten(id) => s.(tasks := s.tasks - {id})
    case ReconcileStarts(rows) => s.(reconciles := s.reconciles + [Reconcile(rows, 0, false, Counts(0, 0, 0))])
    case ReconcileNext(r, available) => Next(s, r, available)
    case Inspected(r, presence) => Settled(s, r, presence)
    case OtherWrite(w) => s.(db := Apply(s.db, maxAccounts, w))
    case Stop => s.(stopping := true)
    case Tick(ms) => s.(now := s.now + ms)
  }

  // ---------------------------------------------------------------------------
  // What every run keeps

  /** Nobody signs up while a reconcile waits to hear of the install of that very account. */
  ghost predicate Apart(s: State, e: Event) {
    e.SignUp? ==> forall r | 0 <= r < |s.reconciles| :: !IsInspecting(s, r, e.input.githubId)
  }

  /** The row a create was started for is still there, still pending. */
  predicate Waits(s: State, id: int, account: Row) {
    && id in s.db.accounts && s.db.accounts[id].status == Pending
    && s.db.accounts[id].createdAt == account.createdAt && s.db.accounts[id].subdomain == account.subdomain
  }

  /** The operator deleted the account at or after `since`. */
  predicate DeletedSince(s: State, id: int, since: int) {
    id in s.db.tombstones && s.db.tombstones[id].at >= since
  }

  predicate TaskOk(s: State, id: int)
    requires id in s.tasks
  {
    s.tasks[id].Creating? ==>
      && s.tasks[id].since <= s.now
      && (Waits(s, id, s.tasks[id].account) || DeletedSince(s, id, s.tasks[id].since))
  }

  predicate ReconcileOk(s: State, r: nat)
    requires r < |s.reconciles|
  {
    var run := s.reconciles[r];
    && run.next <= |run.rows| && (run.inspecting ==> run.next < |run.rows|)
    && run.counts.activated + run.counts.discarded + run.counts.leftPending == run.next
  }

  ghost predicate Inv(s: State) {
    && PendingUnmarked(s.db.accounts)
    && (forall id | id in s.tasks :: TaskOk(s, id))
    && (forall r | 0 <= r < |s.reconciles| :: ReconcileOk(s, r))
    && (forall r, id | 0 <= r < |s.reconciles| && IsInspecting(s, r, id) :: !IsCreating(s, id))
  }

  /** A start of the hub: the rows of an earlier one, no task and no reconcile. */
  predicate Fresh(s: State) {
    PendingUnmarked(s.db.accounts) && !s.stopping && s.tasks == map[] && s.reconciles == [] && s.tokens == {}
        && s.failed == {}
  }

  ghost predicate CanRun(maxAccounts: nat, s: State, es: seq<Event>)
    decreases |es|
  {
    es == [] || (Enabled(s, es[0]) && CanRun(maxAccounts, Step(maxAccounts, s, es[0]), es[1..]))
  }

  ghost function Final(maxAccounts: nat, s: State, es: seq<Event>): State
    requires CanRun(maxAccounts, s, es)
    decreases |es|
  {
    if es == [] then s else Final(maxAccounts, Step(maxAccounts, s, es[0]), es[1..])
  }

  ghost predicate AllApart(maxAccounts: nat, s: State, es: seq<Event>)
    requires CanRun(maxAccounts, s, es)
    decreases |es|
  {
    es == [] || (Apart(s, es[0]) && AllApart(maxAccounts, Step(maxAccounts, s, es[0]), es[1..]))
  }

  /** Only the operator's deletion, among the writes of others, touches a row that waits for its install. */
  lemma OthersSpareWaiting(maxAccounts: nat, s: State, w: Write, id: int, account: Row)
    requires WrittenByOthers(s, w) && PendingUnmarked(s.db.accounts) && Waits(s, id, account)
    ensures var s' := s.(db := Apply(s.db, maxAccounts, w));
      if w.WDelete? && w.githubId == id then id !in s'.db.accounts && DeletedSince(s', id, s.now)
      else Waits(s', id, account)
  {
  }

  lemma OtherWriteKeeps(maxAccounts: nat, s: State, w: Write)
    requires Inv(s) && WrittenByOthers(s, w)
    ensures Inv(s.(db := Apply(s.db, maxAccounts, w)))
  {
    var s' := s.(db := Apply(s.db, maxAccounts, w));
    WriteShape(s.db, maxAccounts, w);
    forall id | id in s'.tasks ensures TaskOk(s', id) {
      assert TaskOk(s, id);
      if IsCreating(s, id) && Waits(s, id, s.tasks[id].account) {
        OthersSpareWaiting(maxAccounts, s, w, id, s.tasks[id].account);
      }
    }
    ReconcilesKept(s, s');
  }

  /** A step that writes no row but `id`'s, and starts no task but one for a waiting row of `id`. */
  lemma OneRowKeeps(s: State, s': State, id: int)
    requires Inv(s) && PendingUnmarked(s'.db.accounts) && s'.db.tombstones == s.db.tombstones && s.now <= s'.now
    requires s'.db.accounts - {id} == s.db.accounts - {id} && s'.tasks - {id} == s.tasks - {id}
    requires id in s'.tasks ==> TaskOk(s', id)
    requires forall r | 0 <= r < |s'.reconciles| :: ReconcileOk(s', r)
    requires forall r, i | 0 <= r < |s'.reconciles| && IsInspecting(s', r, i) :: !IsCreating(s', i)
    ensures Inv(s')
  {
    forall i | i in s'.tasks ensures TaskOk(s', i) {
      if i != id {
        assert i in s'.tasks - {id} && (s'.tasks - {id})[i] == (s.tasks - {id})[i];
        assert TaskOk(s, i);
        assert i in s'.db.accounts <==> i in s'.db.accounts - {id};
        assert i in s.db.accounts <==> i in s.db.accounts - {id};
        assert i in s.db.accounts ==> (s'.db.accounts - {id})[i] == (s.db.accounts - {id})[i];
      }
    }
  }

  lemma SignedUpKeeps(maxAccounts: nat, s: State, input: Signup)
    requires Inv(s) && Enabled(s, SignUp(input)) && Apart(s, SignUp(input))
    ensures Inv(SignedUp(s, input, maxAccounts))
  {
    var id := input.githubId;
    var (db, result) := Insert(s.db, input, maxAccounts);
    if result.Reserved? {
      SeatKeeps(s, id, PendingRow(input));
      var s1 := s.(db := db);
      forall r | 0 <= r < |s1.reconciles| ensures !IsInspecting(s1, r, id) {
        assert !IsInspecting(s, r, id);
      }
      StartKeeps(s1, id, PendingRow(input));
    }
  }

  lemma SeatKeeps(s: State, id: int, row: Row)
    requires Inv(s) && id !in s.db.accounts && row.stoppedAt.None?
    ensures Inv(s.(db := SetRow(s.db, id, row)))
  {
    var s' := s.(db := SetRow(s.db, id, row));
    assert s'.db.accounts - {id} == s.db.accounts - {id};
    if id in s.tasks {
      assert TaskOk(s, id);
    }
    ReconcilesKept(s, s');
    OneRowKeeps(s, s', id);
  }

  /** Reconciles that did not move, while no create began. */
  lemma ReconcilesKept(s: State, s': State)
    requires Inv(s) && s'.reconciles == s.reconciles
    requires forall id | IsCreating(s', id) :: IsCreating(s, id)
    ensures forall r | 0 <= r < |s'.reconciles| :: ReconcileOk(s', r)
    ensures forall r, i | 0 <= r < |s'.reconciles| && IsInspecting(s', r, i) :: !IsCreating(s', i)
  {
    forall r | 0 <= r < |s'.reconciles| ensures ReconcileOk(s', r) {
      assert ReconcileOk(s, r);
    }
    forall r, i | 0 <= r < |s'.reconciles| && IsInspecting(s', r, i) ensures !IsCreating(s', i) {
      assert IsInspecting(s, r, i);
    }
  }

  lemma StartKeeps(s: State, id: int, account: Row)
    requires Inv(s) && Waits(s, id, account)
    requires forall r | 0 <= r < |s.reconciles| :: !IsInspecting(s, r, id)
    ensures Inv(Start(s, id, account))
  {
    var s' := Start(s, id, account);
    if id !in s.tasks {
      assert s'.tasks - {id} == s.tasks - {id};
      forall r | 0 <= r < |s'.reconciles| ensures ReconcileOk(s', r) {
        assert ReconcileOk(s, r);
      }
      forall r, i | 0 <= r < |s'.reconciles| && IsInspecting(s', r, i) ensures !IsCreating(s', i) {
        assert IsInspecting(s, r, i);
      }
      OneRowKeeps(s, s', id);
    }
  }

  lemma CreateEndedKeeps(s: State, id: int, ok: bool)
    requires Inv(s) && IsCreating(s, id)
    ensures Inv(CreateEnded(s, id, ok))
  {
    var s' := CreateEnded(s, id, ok);
    assert s'.db.accounts - {id} == s.db.accounts - {id};
    assert s'.tasks - {id} == s.tasks - {id};
    ReconcilesKept(s, s');
    OneRowKeeps(s, s', id);
  }

  /** A step of reconcile `r` that writes no row but that of an account without a create under way. */
  lemma ReconcileStepKeeps(s: State, s': State, r: nat, id: int)
    requires Inv(s) && r < |s.reconciles| && PendingUnmarked(s'.db.accounts) && s'.db.tombstones == s.db.tombstones
    requires s'.db.accounts - {id} == s.db.accounts - {id} && s'.tasks == s.tasks && s'.now == s.now
    requires IsCreating(s, id) ==> s'.db == s.db
    requires |s'.reconciles| == |s.reconciles| && ReconcileOk(s', r)
    requires forall i | 0 <= i < |s.reconciles| && i != r :: s'.reconciles[i] == s.reconciles[i]
    requires forall i | IsInspecting(s', r, i) :: !IsCreating(s, i)
    ensures Inv(s')
  {
    forall i | 0 <= i < |s'.reconciles| ensures ReconcileOk(s', i) {
      assert ReconcileOk(s, i);
    }
    forall i, j | 0 <= i < |s'.reconciles| && IsInspecting(s', i, j) ensures !IsCreating(s', j) {
      assert i != r ==> IsInspecting(s, i, j);
    }
    if id in s.tasks {
      assert TaskOk(s, id);
    }
    OneRowKeeps(s, s', id);
  }

  lemma StepKeeps(maxAccounts: nat, s: State, e: Event)
    requires Inv(s) && Enabled(s, e) && Apart(s, e)
    ensures Inv(Step(maxAccounts, s, e))
  {
    var s' := Step(maxAccounts, s, e);
    match e {
      case SignUp(input) => SignedUpKeeps(maxAccounts, s, input);
      case CreateEnds(id, ok) => CreateEndedKeeps(s, id, ok);
      case ReconcileNext(r, _) =>
        assert ReconcileOk(s, r);
        ReconcileStepKeeps(s, s', r, s.reconciles[r].rows[s.reconciles[r].next].githubId);
      case Inspected(r, _) =>
        assert ReconcileOk(s, r);
        var id := s.reconciles[r].rows[s.reconciles[r].next].githubId;
        assert IsInspecting(s, r, id);
        assert s'.db.accounts - {id} == s.db.accounts - {id};
        ReconcileStepKeeps(s, s', r, id);
      case OtherWrite(w) => OtherWriteKeeps(maxAccounts, s, w);
      case _ => QuietStepKeeps(maxAccounts, s, e);
    }
  }

  /** The steps that write no row. */
  lemma QuietStepKeeps(maxAccounts: nat, s: State, e: Event)
    requires Inv(s) && Enabled(s, e) && (e.TaskForgotten? || e.ReconcileStarts? || e.Stop? || e.Tick?)
    ensures Inv(Step(maxAccounts, s, e))
  {
    var s' := Step(maxAccounts, s, e);
    forall id | id in s'.tasks ensures TaskOk(s', id) {
      assert TaskOk(s, id);
    }
    forall r | 0 <= r < |s'.reconciles| ensures ReconcileOk(s', r) {
      assert r < |s.reconciles| ==> ReconcileOk(s, r);
    }
    forall r, id | 0 <= r < |s'.reconciles| && IsInspecting(s', r, id) ensures !IsCreating(s', id) {
      assert IsInspecting(s, r, id);
    }
  }

  lemma {:induction false} RunKeeps(maxAccounts: nat, s: State, es: seq<Event>)
    requires Inv(s) && CanRun(maxAccounts, s, es) && AllApart(maxAccounts, s, es)
    ensures Inv(Final(maxAccounts, s, es))
    decreases |es|
  {
    if es != [] {
      StepKeeps(maxAccounts, s, es[0]);
      RunKeeps(maxAccounts, Step(maxAccounts, s, es[0]), es[1..]);
    }
  }

  // ---------------------------------------------------------------------------
  // What becomes of a sign-up

  /**
   * Over every run in which nobody signs up while a reconcile waits on that very account, and whatever
   * else is written meanwhile: the end of a create finds the pending row it was started for, unless the
   * operator deleted the account since. A success makes that row active and keeps its token; a failure
   * rolls the sign-up back and says so.
   */
  lemma CreateSettlesItsOwnRow(maxAccounts: nat, s0: State, es: seq<Event>, id: int, ok: bool)
    requires Fresh(s0) && CanRun(maxAccounts, s0, es) && AllApart(maxAccounts, s0, es)
    requires IsCreating(Final(maxAccounts, s0, es), id)
    ensures var s := Final(maxAccounts, s0, es); var task := s.tasks[id]; var key := Key(id, task.account.createdAt);
      var s' := CreateEnded(s, id, ok);
      || DeletedSince(s, id, task.since)
      || (&& Waits(s, id, task.account)
          && (ok ==> s'.db.accounts == s.db.accounts[id := s.db.accounts[id].(status := Active)] && key in s'.tokens)
          && (!ok && !s.stopping ==> s'.db.accounts == s.db.accounts - {id} && key in s'.failed)
          && (!ok && s.stopping ==> s'.db == s.db)
          && s'.db.tombstones == s.db.tombstones)
  {
    RunKeeps(maxAccounts, s0, es);
    assert TaskOk(Final(maxAccounts, s0, es), id);
  }

  /**
   * In any state, and whatever happened before: a row that waits for its install stops waiting, other than
   * by the end of its own create, exactly when the operator deletes it or a reconcile that was waiting on
   * that account settles it: on an install it did not find, or on one it found for this very sign-up.
   */
  lemma WhatEndsAWait(maxAccounts: nat, s: State, e: Event, id: int, account: Row)
    requires PendingUnmarked(s.db.accounts) && Enabled(s, e) && Waits(s, id, account)
    requires !(e.CreateEnds? && e.githubId == id)
    ensures !Waits(Step(maxAccounts, s, e), id, account) <==>
      || (e.OtherWrite? && e.w.WDelete? && e.w.githubId == id)
      || (e.Inspected? && IsInspecting(s, e.r, id)
          && (e.presence == Absent
              || (e.presence == Found
                  && s.reconciles[e.r].rows[s.reconciles[e.r].next].account.createdAt == account.createdAt)))
  {
    if e.OtherWrite? {
      OthersSpareWaiting(maxAccounts, s, e.w, id, account);
    }
  }

  /**
   * The hypothesis is needed wherever it fails: a sign-up during an inspection of its account can lose its
   * row to the answer, and then its create succeeds with no row to activate, no token and no tombstone.
   */
  lemma SignUpDuringInspectionCanBeLost(maxAccounts: nat, s: State, r: nat, input: Signup)
    requires IsInspecting(s, r, input.githubId) && Enabled(s, SignUp(input))
    requires Insert(s.db, input, maxAccounts).1.Reserved? && !s.stopping && input.githubId !in s.tasks
    ensures var es := [SignUp(input), Inspected(r, Absent), CreateEnds(input.githubId, true)];
      CanRun(maxAccounts, s, es) &&
      var s' := Final(maxAccounts, s, es);
      && input.githubId !in s'.db.accounts && s'.db.tombstones == s.db.tombstones
      && s'.tokens == s.tokens && s'.failed == s.failed
  {
    var id := input.githubId;
    var es := [SignUp(input), Inspected(r, Absent), CreateEnds(id, true)];
    var s1 := Step(maxAccounts, s, es[0]);
    assert IsCreating(s1, id) && IsInspecting(s1, r, id);
    var s2 := Step(maxAccounts, s1, es[1]);
    assert IsCreating(s2, id) && id !in s2.db.accounts;
    var s3 := Step(maxAccounts, s2, es[2]);
    RunOfThree(maxAccounts, s, es, s1, s2);
  }

  lemma RunOfThree(maxAccounts: nat, s: State, es: seq<Event>, s1: State, s2: State)
    requires |es| == 3 && Enabled(s, es[0]) && s1 == Step(maxAccounts, s, es[0])
    requires Enabled(s1, es[1]) && s2 == Step(maxAccounts, s1, es[1]) && Enabled(s2, es[2])
    ensures CanRun(maxAccounts, s, es) && Final(maxAccounts, s, es) == Step(maxAccounts, s2, es[2])
  {
    var e1, e2 := es[1..], es[2..];
    assert e1[1..] == e2 && e2[1..] == [];
    assert CanRun(maxAccounts, s2, e2) && Final(maxAccounts, s2, e2) == Step(maxAccounts, s2, es[2]);
    assert CanRun(maxAccounts, s1, e1) && Final(maxAccounts, s1, e1) == Final(maxAccounts, s2, e2);
  }

  lemma {:induction false} RunThenRun(maxAccounts: nat, s: State, es: seq<Event>, more: seq<Event>)
    requires CanRun(maxAccounts, s, es) && CanRun(maxAccounts, Final(maxAccounts, s, es), more)
    ensures CanRun(maxAccounts, s, es + more)
    ensures Final(maxAccounts, s, es + more) == Final(maxAccounts, Final(maxAccounts, s, es), more)
    decreases |es|
  {
    if es == [] {
      assert [] + more == more;
    } else {
      RunThenRun(maxAccounts, Step(maxAccounts, s, es[0]), es[1..], more);
      assert (es + more)[0] == es[0] && (es + more)[1..] == es[1..] + more;
    }
  }

  /** A sign-up whose create fails while a reconcile that listed it waits on another account. */
  function FailedWhileListed(other: Listed, b: Signup): seq<Event> {
    [SignUp(b), ReconcileStarts([other, Listed(b.githubId, PendingRow(b))]), ReconcileNext(0, true),
        CreateEnds(b.githubId, false)]
  }

  /** The reconcile then asks for the install of that account. */
  function ThenInspected(id: int): seq<Event> {
    [TaskForgotten(id), Inspected(0, Unknown), ReconcileNext(0, true), Tick(1)]
  }

  /** The person signs up again before the answer. */
  function ThenSignedUpAgain(b: Signup): seq<Event> {
    [SignUp(b.(now := b.now + 1)), Inspected(0, Absent), CreateEnds(b.githubId, true)]
  }

  /**
   * One reconcile is enough: in this run a sign-up that failed is tried again while the reconcile waits on
   * it, and the new account is gone although its create succeeds.
   */
  lemma OneReconcileCanLoseASignUp(maxAccounts: nat, s0: State, other: Listed, b: Signup)
    requires Fresh(s0) && maxAccounts >= 2 && s0.db.accounts == map[other.githubId := other.account]
    requires other.account.status == Pending && b.githubId != other.githubId && b.subdomain != other.account.subdomain
    requires b.now == s0.now
    ensures var es := FailedWhileListed(other, b) + ThenInspected(b.githubId) + ThenSignedUpAgain(b);
      CanRun(maxAccounts, s0, es) &&
      var s := Final(maxAccounts, s0, es);
      && b.githubId !in s.db.accounts && s.db.tombstones == s0.db.tombstones
      && s.tokens == {} && s.failed == {Key(b.githubId, b.now)}
  {
    FailsWhileListed(maxAccounts, s0, other, b);
    var s4 := Final(maxAccounts, s0, FailedWhileListed(other, b));
    IsInspectedThen(maxAccounts, s4, other, b);
    var s8 := Final(maxAccounts, s4, ThenInspected(b.githubId));
    assert Insert(s8.db, b.(now := b.now + 1), maxAccounts).1.Reserved?;
    SignUpDuringInspectionCanBeLost(maxAccounts, s8, 0, b.(now := b.now + 1));
    RunThenRun(maxAccounts, s0, FailedWhileListed(other, b), ThenInspected(b.githubId));
    RunThenRun(maxAccounts, s0, FailedWhileListed(other, b) + ThenInspected(b.githubId), ThenSignedUpAgain(b));
  }

  /** After the first part: only the other account is left, and the reconcile waits on it. */
  predicate Failed(s0: State, s: State, other: Listed, b: Signup) {
    && s.db == s0.db && s.now == s0.now && !s.stopping && s.tokens == {} && s.failed == {Key(b.githubId, b.now)}
    && s.tasks == map[b.githubId := Over]
    && s.reconciles == [Reconcile([other, Listed(b.githubId, PendingRow(b))], 0, true, Counts(0, 0, 0))]
  }

  lemma SecondSeat(db: Db, maxAccounts: nat, other: Listed, b: Signup)
    requires db.accounts == map[other.githubId := other.account] && maxAccounts >= 2 && other.account.status == Pending
    requires b.githubId != other.githubId && b.subdomain != other.account.subdomain
    ensures var (after, result) := Insert(db, b, maxAccounts);
      && result == Reserved(PendingRow(b)) && after.tombstones == db.tombstones
      && after.accounts == map[other.githubId := other.account, b.githubId := PendingRow(b)]
      && after.accounts - {b.githubId} == db.accounts
      && ListsPending([other, Listed(b.githubId, PendingRow(b))], after.accounts)
  {
    var rows := [other, Listed(b.githubId, PendingRow(b))];
    assert rows[0] == other && rows[1] == Listed(b.githubId, PendingRow(b));
  }

  lemma FailsWhileListed(maxAccounts: nat, s0: State, other: Listed, b: Signup)
    requires Fresh(s0) && maxAccounts >= 2 && s0.db.accounts == map[other.githubId := other.account]
    requires other.account.status == Pending && b.githubId != other.githubId && b.subdomain != other.account.subdomain
    requires b.now == s0.now
    ensures CanRun(maxAccounts, s0, FailedWhileListed(other, b))
    ensures Failed(s0, Final(maxAccounts, s0, FailedWhileListed(other, b)), other, b)
  {
    var es := FailedWhileListed(other, b);
    var rows := [other, Listed(b.githubId, PendingRow(b))];
    var s1 := Step(maxAccounts, s0, es[0]);
    SecondSeat(s0.db, maxAccounts, other, b);
    var s2 := Step(maxAccounts, s1, es[1]);
    var s3 := Step(maxAccounts, s2, es[2]);
    assert s3.tasks == map[b.githubId := Creating(PendingRow(b), s0.now)];
    var s4 := Step(maxAccounts, s3, es[3]);
    assert s4.db.accounts == s0.db.accounts;
    RunOfFour(maxAccounts, s0, es, s1, s2, s3);
  }

  lemma IsInspectedThen(maxAccounts: nat, s: State, other: Listed, b: Signup)
    requires |s.reconciles| == 1
    requires s.reconciles[0] == Reconcile([other, Listed(b.githubId, PendingRow(b))], 0, true, Counts(0, 0, 0))
    requires s.tasks == map[b.githubId := Over]
    ensures CanRun(maxAccounts, s, ThenInspected(b.githubId))
    ensures var s' := Final(maxAccounts, s, ThenInspected(b.githubId));
      && s'.db == s.db && s'.now == s.now + 1 && s'.tasks == map[] && s'.stopping == s.stopping
      && s'.tokens == s.tokens && s'.failed == s.failed && IsInspecting(s', 0, b.githubId)
  {
    var es := ThenInspected(b.githubId);
    var s1 := Step(maxAccounts, s, es[0]);
    assert s1.tasks == map[];
    var s2 := Step(maxAccounts, s1, es[1]);
    var s3 := Step(maxAccounts, s2, es[2]);
    RunOfFour(maxAccounts, s, es, s1, s2, s3);
  }

  lemma RunOfFour(maxAccounts: nat, s: State, es: seq<Event>, s1: State, s2: State, s3: State)
    requires |es| == 4 && Enabled(s, es[0]) && s1 == Step(maxAccounts, s, es[0])
    requires Enabled(s1, es[1]) && s2 == Step(maxAccounts, s1, es[1])
    requires Enabled(s2, es[2]) && s3 == Step(maxAccounts, s2, es[2]) && Enabled(s3, es[3])
    ensures CanRun(maxAccounts, s, es) && Final(maxAccounts, s, es) == Step(maxAccounts, s3, es[3])
  {
    var rest := es[1..];
    RunOfThree(maxAccounts, s1, rest, s2, s3);
  }

  // ---------------------------------------------------------------------------
  // The code, callback by callback

  class Hub {
    var db: Db
    var now: int
    var stopping: bool
    var tasks: map<int, Task>
    var reconciles: seq<Reconcile>
    var tokens: set<Key>
    var failed: set<Key>
    const maxAccounts: nat

    constructor (db: Db, now: int, maxAccounts: nat)
      requires PendingUnmarked(db.accounts)
      ensures Fresh(View()) && this.db == db && this.now == now && this.maxAccounts == maxAccounts
    {
      this.db, this.now, this.stopping, this.maxAccounts := db, now, false, maxAccounts;
      tasks, reconciles, tokens, failed := map[], [], {}, {};
    }

    function View(): State
      reads this
    {
      State(db, now, stopping, tasks, reconciles, tokens, failed)
    }

    /** The tail of a GitHub callback, from the policy to the answer. */
    method OnSignUp(input: Signup)
      requires Enabled(View(), SignUp(input))
      modifies this
      ensures View() == Step(maxAccounts, old(View()), SignUp(input))
    {
      var (after, result) := Insert(db, input, maxAccounts);
      if result.Reserved? {
        db := after;
        var started := StartTask(input.githubId, result.account);
      }
    }

    method StartTask(id: int, account: Row) returns (started: bool)
      modifies this
      ensures View() == Start(old(View()), id, account)
      ensures started <==> !old(stopping) && id !in old(tasks)
    {
      if stopping || id in tasks {
        return false;
      }
      tasks := tasks[id := Creating(account, now)];
      return true;
    }

    method OnCreateEnded(id: int, ok: bool)
      requires Enabled(View(), CreateEnds(id, ok))
      modifies this
      ensures View() == Step(maxAccounts, old(View()), CreateEnds(id, ok))
    {
      var account := tasks[id].account;
      tasks := tasks[id := Over];
      if !ok {
        if stopping {
          return;
        }
        db := DiscardPending(db, id).0;
        failed := failed + {Key(id, account.createdAt)};
        return;
      }
      var (after, activated) := StatusTo(db, Key(id, account.createdAt), Pending, Active);
      if !activated {
        return;
      }
      db := after;
      tokens := tokens + {Key(id, account.createdAt)};
    }

    method OnReconcileStarts(rows: seq<Listed>)
      requires Enabled(View(), ReconcileStarts(rows))
      modifies `reconciles
      ensures View() == Step(maxAccounts, old(View()), ReconcileStarts(rows))
    {
      reconciles := reconciles + [Reconcile(rows, 0, false, Counts(0, 0, 0))];
    }

    /** One turn of the loop up to its await, or past a row that is left alone. */
    method OnReconcileNext(r: nat, available: bool)
      requires Enabled(View(), ReconcileNext(r, available))
      modifies this
      ensures View() == Step(maxAccounts, old(View()), ReconcileNext(r, available))
    {
      var run := reconciles[r];
      if available && run.rows[run.next].githubId !in tasks {
        reconciles := reconciles[r := run.(inspecting := true)];
      } else {
        Count(r, CountLeft(run.counts));
      }
    }

    method OnInspected(r: nat, presence: Presence)
      requires Enabled(View(), Inspected(r, presence))
      modifies this
      ensures View() == Step(maxAccounts, old(View()), Inspected(r, presence))
    {
      var run := reconciles[r];
      var listed := run.rows[run.next];
      var changed := false;
      if presence == Found {
        var (after, done) := StatusTo(db, Key(listed.githubId, listed.account.createdAt), Pending, Active);
        db, changed := after, done;
      } else if presence == Absent {
        var (after, done) := DiscardPending(db, listed.githubId);
        db, changed := after, done;
      }
      if !changed {
        Count(r, CountLeft(run.counts));
      } else if presence == Found {
        Count(r, run.counts.(activated := run.counts.activated + 1));
      } else {
        Count(r, run.counts.(discarded := run.counts.discarded + 1));
      }
    }

    method Count(r: nat, counts: Counts)
      requires r < |reconciles|
      modifies `reconciles
      ensures reconciles == old(reconciles)[r := Advanced(old(reconciles)[r], counts)]
    {
      reconciles := reconciles[r := Advanced(reconciles[r], counts)];
    }
  }
}
