/** The idle rule (hub/src/idle-sweeper.ts): how long an install has been unused, and what that means. */
module Idle {
  import opened Ordered
  import opened Accounts

  const DAY_MS := 24 * 60 * 60 * 1000
  const STOP_AFTER_MS := 60 * DAY_MS
  const REMOVE_AFTER_MS := 90 * DAY_MS

  /** A timestamp as `Date.parse` reads it. */
  datatype Stamp = At(ms: int) | NotADate

  /** What the rule decides on; `lastActivityAt` is absent when the provisioner could not read it. */
  datatype Facts = Facts(lastSeenAt: Stamp, lastActivityAt: Option<Stamp>, stoppedAt: Option<Stamp>, now: Stamp)

  datatype Decision = Keep | Stop | Remove

  /** `Math.max` over instants: absent ones do not count, one that is not a date spoils it. */
  function Later(a: Stamp, b: Option<Stamp>): Stamp {
    if b.None? then a
    else if a.NotADate? || b.value.NotADate? then NotADate
    else if a.ms < b.value.ms then b.value else a
  }

  function Earlier(s: Stamp, ms: int): Stamp {
    if s.At? then At(s.ms - ms) else NotADate
  }

  function LastActive(f: Facts): Stamp {
    Later(Later(f.lastSeenAt, f.lastActivityAt),
          if f.stoppedAt.None? then None else Some(Earlier(f.stoppedAt.value, STOP_AFTER_MS)))
  }

  function IdleMs(f: Facts): Option<int> {
    if f.now.At? && LastActive(f).At? then Some(f.now.ms - LastActive(f).ms) else None
  }

  function IdleDays(f: Facts): Option<int> {
    if IdleMs(f).None? then None else Some(IdleMs(f).value / DAY_MS)
  }

  function Decide(f: Facts): Decision {
    if IdleMs(f).None? then Keep
    else if IdleMs(f).value >= REMOVE_AFTER_MS then Remove
    else if IdleMs(f).value >= STOP_AFTER_MS && f.stoppedAt.None? then Stop
    else Keep
  }

  /** An install as it is; `lastWrite`: when it truly last wrote its journal or state. */
  datatype Install = Install(running: bool, lastWrite: Option<int>)

  /** The whole second an instant lies in: how finely the provisioner reads a file's time. */
  function Second(ms: int): int {
    ms - ms % 1000
  }

  /** What the provisioner tells of an install: its activity only while it runs. */
  datatype Inspection = Inspection(running: bool, lastActivityAt: Option<Stamp>)

  function Inspect(i: Install): Inspection {
    Inspection(i.running, if i.running && i.lastWrite.Some? then Some(At(Second(i.lastWrite.value))) else None)
  }

  /** The facts of a row: while the install runs a stop mark counts for nothing. */
  function FactsOf(row: Row, i: Inspection, ctxNow: int): Facts {
    var staleMark := i.running && row.stoppedAt.Some?;
    Facts(
      At(row.lastSeenAt),
      i.lastActivityAt,
      if staleMark || row.stoppedAt.None? then None else Some(At(row.stoppedAt.value)),
      At(ctxNow))
  }

  // ---------------------------------------------------------------------------
  // What the rule means

  /** Every instant of the facts is a date. */
  predicate AllDates(f: Facts) {
    && f.now.At? && f.lastSeenAt.At?
    && (f.lastActivityAt.Some? ==> f.lastActivityAt.value.At?)
    && (f.stoppedAt.Some? ==> f.stoppedAt.value.At?)
  }

  /** At least `ms` since every instant known, of which the stop counts as 60 days older than it is. */
  predicate SinceAll(f: Facts, ms: int)
    requires AllDates(f)
  {
    && f.now.ms - f.lastSeenAt.ms >= ms
    && (f.lastActivityAt.Some? ==> f.now.ms - f.lastActivityAt.value.ms >= ms)
    && (f.stoppedAt.Some? ==> f.now.ms - f.stoppedAt.value.ms >= ms - 60 * 86_400_000)
  }

  /** A removal means 90 days since every instant known, and 30 since the stop. */
  lemma RemoveMeans(f: Facts)
    ensures Decide(f) == Remove <==>
      && f.now.At? && f.lastSeenAt.At? && f.now.ms - f.lastSeenAt.ms >= 90 * 86_400_000
      && (f.lastActivityAt.Some? ==>
          f.lastActivityAt.value.At? && f.now.ms - f.lastActivityAt.value.ms >= 90 * 86_400_000)
      && (f.stoppedAt.Some? ==>
          f.stoppedAt.value.At? && f.now.ms - f.stoppedAt.value.ms >= 30 * 86_400_000)
  {
  }

  /** A stop means 60 days since every instant known but not yet 90, and no stop mark. */
  lemma StopMeans(f: Facts)
    ensures Decide(f) == Stop <==>
      AllDates(f) && f.stoppedAt.None? && SinceAll(f, 60 * 86_400_000) && !SinceAll(f, 90 * 86_400_000)
  {
  }

  /** The days reported are the whole ones since the latest instant, and none if one is not a date. */
  lemma IdleDaysMean(f: Facts, days: int)
    ensures IdleDays(f).Some? <==> AllDates(f)
    ensures AllDates(f) ==>
      (IdleDays(f) == Some(days) <==> SinceAll(f, days * 86_400_000) && !SinceAll(f, (days + 1) * 86_400_000))
  {
  }

  /**
   * An account's install has been unused for `days` days: since its person's last sign-in, since the second
   * of its last write while it runs, and since 60 days before its stop mark while it does not.
   */
  predicate Unused(row: Row, i: Install, now: int, days: int) {
    && now - row.lastSeenAt >= days * 86_400_000
    && (i.running && i.lastWrite.Some? ==> now - i.lastWrite.value / 1000 * 1000 >= days * 86_400_000)
    && (!i.running && row.stoppedAt.Some? ==> now - row.stoppedAt.value >= (days - 60) * 86_400_000)
  }

  /** What is decided on the facts of a row and its install. */
  lemma DueMeans(row: Row, i: Install, now: int)
    ensures var d := Decide(FactsOf(row, Inspect(i), now));
      && (d == Remove <==> Unused(row, i, now, 90))
      && (d == Stop <==> Unused(row, i, now, 60) && !Unused(row, i, now, 90) && (i.running || row.stoppedAt.None?))
  {
  }
}
