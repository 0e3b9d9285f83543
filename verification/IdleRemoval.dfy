/**
 * One account's install over time: sign-ins, agent writes, sweeps that stop and remove it, wake-ups
 * and starts by hand, interleaved at every `await` (hub/src/idle-sweeper.ts, accounts-idle.ts,
 * install-waker.ts). One sweeper runs; nobody blocks the account or stops the install from outside.
 */
module IdleRemoval {
  import opened Ordered
  import opened Idle
  import opened Accounts

  /** Where the sweeper is with this account: it listed the row, found it not waking, inspected the install. */
  datatype Sweep =
    | NotSweeping
    | Listed(ctxNow: int, account: Row)
    | Asked(ctxNow: int, account: Row)
    | Inspected(ctxNow: int, account: Row, inspection: Inspection)

  datatype Waker = Asleep | Starting | Started

  /** `lastSignIn`: when its person truly last signed in; `row` is gone once removed. */
  datatype State = State(
    nowMs: int,
    row: Option<Row>,
    install: Option<Install>,
    sweep: Sweep,
    waker: Waker,
    lastSignIn: int)

  datatype Event =
    | Tick(ms: nat)
    | SignIn
    /** Asked for by a sign-in or a visit to `/account`. */
    | Wake
    | OrchestratorStarted
    | StartFailed
    | StartRecorded
    | StartByHand
    | InstallWrites
    /** A sweep that took its time `startedAt`, settled what was pending, and only then listed the accounts. */
    | SweepLists(startedAt: int)
    | SweepAsks
    | SweepInspects
    | SweepActs

  // ---------------------------------------------------------------------------
  // The steps

  /** The row after `factsOf` dropped a stop mark found stale. */
  function MarkDropped(row: Row, account: Row, i: Inspection): Row {
    if i.running && account.stoppedAt.Some? && row.stoppedAt.Some? then Unmarked(row, None) else row
  }

  /** `stopInstall`: the stop and its mark as one step. */
  function StopAndMark(s: State, row: Row, ctxNow: int): State {
    s.(row := Some(if row.status == Active && row.stoppedAt.None? then row.(stoppedAt := Some(ctxNow)) else row),
       install := if s.install.Some? then Some(s.install.value.(running := false)) else None,
       sweep := NotSweeping)
  }

  /** From the inspection's answer to the action it leads to. */
  function Act(s: State): State
    requires s.sweep.Inspected?
  {
    var Inspected(ctxNow, account, inspection) := s.sweep;
    var done := s.(sweep := NotSweeping);
    if s.row.None? then done
    else
      var row := MarkDropped(s.row.value, account, inspection);
      match Decide(FactsOf(account, inspection, ctxNow))
      case Keep => done.(row := Some(row))
      case Stop => StopAndMark(s, row, ctxNow)
      case Remove =>
        // Decided again on a fresh read.
        if row.createdAt != account.createdAt || row.status != Active
            || Decide(FactsOf(row, inspection, ctxNow)) != Remove
        then done.(row := Some(row))
        else done.(row := None, install := None)
  }

  predicate Enabled(s: State, e: Event) {
    match e
    case Tick(_) => true
    case SignIn => s.row.Some?
    case Wake => s.row.Some? && s.row.value.status == Active && s.row.value.stoppedAt.Some? && s.waker.Asleep?
    case OrchestratorStarted => s.waker.Starting?
    case StartFailed => s.waker.Starting?
    case StartRecorded => s.waker.Started?
    case StartByHand => s.install.Some?
    // No write comes between an inspection and the action it leads to.
    case InstallWrites => s.install.Some? && s.install.value.running && !s.sweep.Inspected?
    case SweepLists(startedAt) => startedAt <= s.nowMs && s.row.Some? && s.row.value.status == Active
        && s.sweep.NotSweeping?
    case SweepAsks => s.sweep.Listed?
    case SweepInspects => s.sweep.Asked?
    case SweepActs => s.sweep.Inspected?
  }

  function Step(s: State, e: Event): State
    requires Enabled(s, e)
  {
    match e
    case Tick(ms) => s.(nowMs := s.nowMs + ms)
    case SignIn => s.(row := Some(s.row.value.(lastSeenAt := s.nowMs)), lastSignIn := s.nowMs)
    case Wake => s.(waker := Starting)
    case OrchestratorStarted =>
      s.(waker := Started, install := if s.install.Some? then Some(s.install.value.(running := true)) else None)
    case StartFailed => s.(waker := Asleep)
    case StartRecorded =>
      s.(waker := Asleep,
         row := if s.row.Some? && s.row.value.stoppedAt.Some? then Some(Unmarked(s.row.value, Some(s.nowMs)))
             else s.row)
    case StartByHand => s.(install := Some(s.install.value.(running := true)))
    case InstallWrites => s.(install := Some(s.install.value.(lastWrite := Some(s.nowMs))))
    case SweepLists(startedAt) => s.(sweep := Listed(startedAt, s.row.value))
    case SweepAsks =>
      // An account being started again is left for the next sweep.
      s.(sweep := if s.waker.Asleep? then Asked(s.sweep.ctxNow, s.sweep.account) else NotSweeping)
    case SweepInspects =>
      // A missing install is only flagged.
      if s.install.None? then s.(sweep := NotSweeping)
      else s.(sweep := Inspected(s.sweep.ctxNow, s.sweep.account, Inspect(s.install.value)))
    case SweepActs => Act(s)
  }

  /** A new account: its install runs, and its sign-up was a sign-in. */
  predicate Initial(s: State) {
    && s.row.Some? && s.row.value.status == Active && s.row.value.stoppedAt.None?
    && s.row.value.lastSeenAt == s.lastSignIn <= s.nowMs
    && s.install.Some? && s.install.value.running && s.install.value.lastWrite.None?
    && s.sweep.NotSweeping? && s.waker.Asleep?
  }

  ghost predicate ValidRun(s: State, es: seq<Event>)
    decreases |es|
  {
    es == [] || (Enabled(s, es[0]) && ValidRun(Step(s, es[0]), es[1..]))
  }

  function Exec(s: State, es: seq<Event>): State
    requires ValidRun(s, es)
    decreases |es|
  {
    if es == [] then s else Exec(Step(s, es[0]), es[1..])
  }

  // ---------------------------------------------------------------------------
  // What every run keeps

  /** What the row says bounds the last write: the person was seen since, or the stop came 60 idle days after it. */
  ghost predicate Covered(i: Install, row: Row) {
    i.lastWrite.Some? ==>
      || Second(i.lastWrite.value) <= row.lastSeenAt
      || (row.stoppedAt.Some? && Second(i.lastWrite.value) <= row.stoppedAt.value - STOP_AFTER_MS)
  }

  ghost predicate RowOk(s: State, row: Row) {
    && row.status == Active
    && s.lastSignIn <= row.lastSeenAt <= s.nowMs
    && (s.install.Some? && !s.install.value.running ==> Covered(s.install.value, row))
  }

  /** The sweeper's copy of the row is at most behind in marks dropped, and speaks for an install it found stopped. */
  ghost predicate CopyOk(s: State, row: Row, ctxNow: int, account: Row) {
    && ctxNow <= s.nowMs
    && (row.stoppedAt == account.stoppedAt || row.stoppedAt.None?)
    && (s.install.Some? && !s.install.value.running && account.stoppedAt.None? ==> Covered(s.install.value, account))
  }

  ghost predicate SweepOk(s: State, row: Row) {
    match s.sweep
    case NotSweeping => true
    case Listed(ctxNow, account) => CopyOk(s, row, ctxNow, account)
    case Asked(ctxNow, account) => CopyOk(s, row, ctxNow, account)
    case Inspected(ctxNow, account, inspection) =>
      && CopyOk(s, row, ctxNow, account)
      && s.install.Some?
      && (inspection.running ==> s.install.value.running && inspection == Inspect(s.install.value))
      && (!inspection.running ==>
            && inspection.lastActivityAt.None? && Covered(s.install.value, row)
            && (account.stoppedAt.None? ==> Covered(s.install.value, account)))
  }

  ghost predicate Inv(s: State) {
    && (s.install.Some? && s.install.value.lastWrite.Some? ==> s.install.value.lastWrite.value <= s.nowMs)
    && (s.row.Some? ==> RowOk(s, s.row.value) && SweepOk(s, s.row.value))
  }

  lemma StepKeeps(s: State, e: Event)
    requires Inv(s) && Enabled(s, e)
    ensures Inv(Step(s, e))
  {
  }

  lemma {:induction false} RunKeeps(s: State, es: seq<Event>)
    requires Inv(s) && ValidRun(s, es)
    ensures Inv(Exec(s, es))
    decreases |es|
  {
    if es != [] {
      StepKeeps(s, es[0]);
      RunKeeps(Step(s, es[0]), es[1..]);
    }
  }

  /**
   * Removal is never early: over any run of stops, wake-ups and hand starts, whenever a sweep removes
   * the install 90 days have passed since its person's true last sign-in and since the second of its true
   * last write.
   */
  lemma RemovalIsNeverEarly(s0: State, es: seq<Event>, e: Event)
    requires Initial(s0) && ValidRun(s0, es) && Enabled(Exec(s0, es), e)
    ensures var s := Exec(s0, es);
      s.install.Some? && Step(s, e).install.None? ==>
        && e == SweepActs && Step(s, e).row.None?
        && s.nowMs - s.lastSignIn >= REMOVE_AFTER_MS
        && (s.install.value.lastWrite.Some? ==> s.nowMs - Second(s.install.value.lastWrite.value) >= REMOVE_AFTER_MS)
  {
    RunKeeps(s0, es);
  }

  /**
   * A stop is never early either: 60 days since the second of the last write, and since the sign-in
   * the sweep knew of.
   */
  lemma StopIsNeverEarly(s0: State, es: seq<Event>, e: Event)
    requires Initial(s0) && ValidRun(s0, es) && Enabled(Exec(s0, es), e)
    ensures var s := Exec(s0, es);
      s.install.Some? && s.install.value.running && Step(s, e).install.Some? && !Step(s, e).install.value.running ==>
        && e == SweepActs && Step(s, e).row.Some? && Step(s, e).row.value.stoppedAt == Some(s.sweep.ctxNow)
        && s.sweep.ctxNow - s.sweep.account.lastSeenAt >= STOP_AFTER_MS
        && (s.install.value.lastWrite.Some? ==> s.nowMs - Second(s.install.value.lastWrite.value) >= STOP_AFTER_MS)
  {
    RunKeeps(s0, es);
  }

  // ---------------------------------------------------------------------------
  // What a sweep does, and a wake-up

  /**
   * A sweep nobody comes between does what is due, in every state it can be taken from: an install unused for
   * 90 days is removed with its account; one unused for 60 is down and marked; any other is left, a running
   * one without a mark.
   */
  lemma SweepRunsItsCourse(s: State)
    requires s.row.Some? && s.row.value.status == Active && s.install.Some?
    requires s.sweep.NotSweeping? && s.waker.Asleep?
    ensures var es := [SweepLists(s.nowMs), SweepAsks, SweepInspects, SweepActs];
      && ValidRun(s, es)
      && var s' := Exec(s, es); var row, i := s.row.value, s.install.value;
      && s' == s.(row := s'.row, install := s'.install)
      && if Unused(row, i, s.nowMs, 90) then s'.row.None? && s'.install.None?
         else if Unused(row, i, s.nowMs, 60) && (i.running || row.stoppedAt.None?) then
           s'.row == Some(row.(stoppedAt := Some(s.nowMs))) && s'.install == Some(i.(running := false))
         else
           s'.row == Some(if i.running then row.(stoppedAt := None) else row) && s'.install == s.install
  {
    var row, i := s.row.value, s.install.value;
    var s3 := s.(sweep := Inspected(s.nowMs, row, Inspect(i)));
    FourSteps(s, SweepLists(s.nowMs), SweepAsks, SweepInspects, SweepActs, s3);
    DueMeans(row, i, s.nowMs);
    var row1 := MarkDropped(row, row, Inspect(i));
    assert FactsOf(row1, Inspect(i), s.nowMs) == FactsOf(row, Inspect(i), s.nowMs);
  }

  lemma FourSteps(s: State, e1: Event, e2: Event, e3: Event, e4: Event, s3: State)
    requires Enabled(s, e1) && Enabled(Step(s, e1), e2) && Enabled(Step(Step(s, e1), e2), e3)
    requires s3 == Step(Step(Step(s, e1), e2), e3) && Enabled(s3, e4)
    ensures ValidRun(s, [e1, e2, e3, e4]) && Exec(s, [e1, e2, e3, e4]) == Step(s3, e4)
  {
    var es := [e1, e2, e3, e4];
    assert es[1..] == [e2, e3, e4] && es[1..][1..] == [e3, e4] && es[1..][1..][1..] == [e4];
    assert [e4][1..] == [];
    assert ValidRun(Step(s3, e4), []) && Exec(Step(s3, e4), []) == Step(s3, e4);
    assert ValidRun(s3, [e4]) && Exec(s3, [e4]) == Exec(Step(s3, e4), [e4][1..]);
    var s1, s2 := Step(s, e1), Step(Step(s, e1), e2);
    assert ValidRun(s2, [e3, e4]) && Exec(s2, [e3, e4]) == Exec(s3, [e4]);
    assert ValidRun(s1, [e2, e3, e4]) && Exec(s1, [e2, e3, e4]) == Exec(s2, [e3, e4]);
  }

  /** What happens around the sweeper: time passes, people sign in, installs are started by hand and write. */
  lemma TheWorldMoves(s: State, ms: nat)
    ensures Step(s, Tick(ms)) == s.(nowMs := s.nowMs + ms)
    ensures Enabled(s, SignIn) ==>
      Step(s, SignIn) == s.(row := Some(s.row.value.(lastSeenAt := s.nowMs)), lastSignIn := s.nowMs)
    ensures Enabled(s, StartByHand) ==>
      Step(s, StartByHand) == s.(install := Some(s.install.value.(running := true)))
    ensures Enabled(s, InstallWrites) ==>
      Step(s, InstallWrites) == s.(install := Some(s.install.value.(lastWrite := Some(s.nowMs))))
  {
  }

  /** A sign-in while the sweep is under way saves the install: it is not removed on what was listed before. */
  lemma SignInSavesTheInstall(s: State)
    requires Enabled(s, SweepActs) && s.row.Some?
    requires s.sweep.ctxNow - s.row.value.lastSeenAt < 90 * 86_400_000
    ensures Step(s, SweepActs).row.Some? && (s.install.Some? ==> Step(s, SweepActs).install.Some?)
    ensures var row := s.row.value; var Inspected(at, account, inspection) := s.sweep;
      Decide(FactsOf(account, inspection, at)) != Stop ==>
        && Step(s, SweepActs) == s.(sweep := NotSweeping, row := Step(s, SweepActs).row)
        && Step(s, SweepActs).row == Some(
             if inspection.running && account.stoppedAt.Some? then row.(stoppedAt := None) else row)
  {
  }

  /** A sweep leaves an install just being started again, and one that is not there. */
  lemma SweepPassesBy(s: State)
    ensures Enabled(s, SweepAsks) && !s.waker.Asleep? ==> Step(s, SweepAsks) == s.(sweep := NotSweeping)
    ensures Enabled(s, SweepInspects) && s.install.None? ==> Step(s, SweepInspects) == s.(sweep := NotSweeping)
  {
  }

  /** A wake-up of a stopped install that goes through: it runs again, unmarked, and counts as used just now. */
  lemma WakeRunsItsCourse(s: State)
    requires Enabled(s, Wake) && s.install.Some?
    ensures var s1 := Step(s, Wake);
      && Enabled(s1, OrchestratorStarted) && Enabled(s1, StartFailed) && Step(s1, StartFailed) == s
      && var s2 := Step(s1, OrchestratorStarted);
      && Enabled(s2, StartRecorded)
      && Step(s2, StartRecorded) == s.(
            install := Some(s.install.value.(running := true)),
            row := Some(s.row.value.(stoppedAt := None, lastSeenAt := s.nowMs)))
  {
  }
}
