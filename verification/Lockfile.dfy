/**
 * The cross-process lockfile (src/lockfile.ts) as a step system: any number of acquisitions, each
 * with its own program counter, over one file and one clock. One step per filesystem call or clock
 * reading. A crashed process is one whose steps no longer come.
 */
module Lockfile {
  import opened Ordered

  /** The holder token of a record: the acquisition that wrote it, or some other writer. */
  datatype Nonce = Own(p: nat) | Foreign(token: string)

  /** What the file holds: a parseable record, or bytes that are not one. */
  datatype Content = Record(createdAtMs: int, nonce: Nonce) | Garbage(text: string)

  /** `creator`: the acquisition that created this file, if one did; its write lands in this file only. */
  datatype Inode = Inode(content: Content, mtimeMs: int, creator: Option<nat>)

  /** `atomicCreate`: whether creating the file and writing its record is one step. */
  datatype Options = Options(pollMs: nat, staleMs: nat, atomicCreate: bool)

  const FORCE_RECOVERY_STALE_FACTOR := 3

  // ---------------------------------------------------------------------------
  // What a contender decides on

  predicate RecordIsStale(o: Options, raw: Content, nowMs: int) {
    raw.Record? && nowMs - raw.createdAtMs >= o.staleMs
  }

  /** How old an mtime must be to speak for the file: a parseable record is trusted longer. */
  function AgeNeeded(o: Options, raw: Content): nat {
    if raw.Record? then FORCE_RECOVERY_STALE_FACTOR * o.staleMs else o.staleMs
  }

  predicate RecentlyTouched(o: Options, raw: Content, mtimeMs: int, nowMs: int) {
    nowMs - mtimeMs < AgeNeeded(o, raw)
  }

  // ---------------------------------------------------------------------------
  // States

  /** An mtime a contender saw, and when it looked. */
  datatype Sighting = Sighting(mtimeMs: int, at: int)

  /** What a removal was judged on: a record of its own age, or two sightings of an old mtime. */
  datatype Evidence =
    | OldRecord(judgedAt: int)
    | OldMtime(first: Sighting, second: Sighting, judgedAt: int)

  /** `Create(true)`: the attempt that opens a round; `Create(false)`: the one inside a steal. */
  datatype Pc =
    | Create(opening: bool)
    | Opened
    | Stamped(createdAtMs: int)
    | ReadRaw
    | Stat(raw: Content)
    | JudgeRecord(raw: Content, sighting: Sighting)
    | JudgeMtime(raw: Content, sighting: Sighting)
    | Confirm(raw: Content, evidence: Evidence)
    | Remove(raw: Content, evidence: Evidence)
    | CheckDeadline
    | Sleeping(until: int)
    | Holding(createdAtMs: int)
    | Releasing(createdAtMs: int)
    | Over

  /** `last`: the mtime seen on the previous attempt; `rounds`: how often the loop came round. */
  datatype Proc = Proc(pc: Pc, last: Option<Sighting>, startedAt: int, deadlineMs: int, rounds: nat)
  {
    predicate Holds() {
      pc.Holding? || pc.Releasing?
    }

    /** Still in `acquireFileLock`'s loop, so its record has never been written. */
    predicate Acquiring() {
      !pc.Holding? && !pc.Releasing? && !pc.Over?
    }
  }

  datatype State = State(file: Option<Inode>, nowMs: int, procs: seq<Proc>)

  datatype Event =
    | Tick(ms: nat)
    | Begin(deadlineMs: int)
    | Act(p: nat)
    | Crash(p: nat)

  predicate Owns(s: State, p: nat) {
    s.file.Some? && s.file.value.content.Record? && s.file.value.content.nonce == Own(p)
  }

  // ---------------------------------------------------------------------------
  // The steps

  function Become(s: State, p: nat, pc: Pc): State
    requires p < |s.procs|
  {
    s.(procs := s.procs[p := s.procs[p].(pc := pc)])
  }

  /** The round ends without the lock, having observed `seen`. */
  function BackOff(s: State, p: nat, seen: Option<Sighting>): State
    requires p < |s.procs|
  {
    s.(procs := s.procs[p := s.procs[p].(pc := CheckDeadline, last := seen)])
  }

  /** `tryCreateLockFile`. */
  function TryCreate(o: Options, s: State, p: nat, opening: bool): State
    requires p < |s.procs|
  {
    if s.file.Some? then (if opening then Become(s, p, ReadRaw) else BackOff(s, p, None))
    else if o.atomicCreate then
      Become(s.(file := Some(Inode(Record(s.nowMs, Own(p)), s.nowMs, Some(p)))), p, Holding(s.nowMs))
    else
      Become(s.(file := Some(Inode(Garbage(""), s.nowMs, Some(p)))), p, Opened)
  }

  /** The record lands in the file the acquisition created, wherever that is by now. */
  function WriteRecord(s: State, p: nat, createdAtMs: int): State
    requires p < |s.procs|
  {
    var file :=
      if s.file.Some? && s.file.value.creator == Some(p)
      then Some(Inode(Record(createdAtMs, Own(p)), s.nowMs, Some(p)))
      else s.file;
    Become(s.(file := file), p, Holding(createdAtMs))
  }

  /** `recoverAbandonedLock`, up to its removal. */
  function DecideOnMtime(o: Options, s: State, p: nat, raw: Content, seen: Sighting): State
    requires p < |s.procs|
  {
    var last := s.procs[p].last;
    if RecentlyTouched(o, raw, seen.mtimeMs, s.nowMs) then BackOff(s, p, Some(seen))
    else if last.None? || last.value.mtimeMs != seen.mtimeMs then BackOff(s, p, Some(seen))
    else Become(s, p, Confirm(raw, OldMtime(last.value, seen, s.nowMs)))
  }

  predicate Enabled(s: State, e: Event) {
    match e
    case Tick(_) => true
    case Begin(_) => true
    case Act(p) => p < |s.procs| && !s.procs[p].pc.Over? && (s.procs[p].pc.Sleeping? ==> s.procs[p].pc.until <= s.nowMs)
    case Crash(p) => p < |s.procs|
  }

  function ActOf(o: Options, s: State, p: nat): State
    requires p < |s.procs|
  {
    match s.procs[p].pc
    case Create(opening) => TryCreate(o, s, p, opening)
    case Opened => Become(s, p, Stamped(s.nowMs))
    case Stamped(createdAtMs) => WriteRecord(s, p, createdAtMs)
    case ReadRaw => Become(s, p, if s.file.None? then Create(false) else Stat(s.file.value.content))
    case Stat(raw) =>
      Become(s, p, if s.file.None? then Create(false) else JudgeRecord(raw, Sighting(s.file.value.mtimeMs, s.nowMs)))
    case JudgeRecord(raw, seen) =>
      Become(s, p, if RecordIsStale(o, raw, s.nowMs) then Confirm(raw, OldRecord(s.nowMs)) else JudgeMtime(raw, seen))
    case JudgeMtime(raw, seen) => DecideOnMtime(o, s, p, raw, seen)
    case Confirm(raw, evidence) =>
      if s.file.Some? && s.file.value.content == raw then Become(s, p, Remove(raw, evidence)) else BackOff(s, p, None)
    case Remove(_, _) => Become(s.(file := None), p, Create(false))
    case CheckDeadline => Become(s, p, if s.nowMs >= s.procs[p].deadlineMs then Over else Sleeping(s.nowMs + o.pollMs))
    case Sleeping(_) =>
      s.(procs := s.procs[p := s.procs[p].(pc := Create(true), rounds := s.procs[p].rounds + 1)])
    case Holding(createdAtMs) => Become(s, p, if Owns(s, p) then Releasing(createdAtMs) else Over)
    case Releasing(_) => Become(s.(file := None), p, Over)
    case Over => s
  }

  function Step(o: Options, s: State, e: Event): State
    requires Enabled(s, e)
  {
    match e
    case Tick(ms) => s.(nowMs := s.nowMs + ms)
    case Begin(deadlineMs) => s.(procs := s.procs + [Proc(Create(true), None, s.nowMs, deadlineMs, 0)])
    case Act(p) => ActOf(o, s, p)
    case Crash(p) => Become(s, p, Over)
  }

  /** A lockfile nobody here wrote, or none. */
  predicate Initial(s: State) {
    && s.procs == []
    && (s.file.Some? ==> s.file.value.creator.None?
                         && (s.file.value.content.Record? ==> s.file.value.content.nonce.Foreign?))
  }

  /** What a run of the step system is expected to respect at each step; `Free` asks nothing. */
  datatype Discipline = Free | Timely | TimelyWithoutCrashes

  /** Everyone who holds the lock, crashed processes apart, releases it strictly before its record is stale. */
  predicate ReleasesInTime(o: Options, s: State, ms: nat) {
    forall p | 0 <= p < |s.procs| && s.procs[p].Holds() :: s.nowMs + ms < s.procs[p].pc.createdAtMs + o.staleMs
  }

  predicate Respects(o: Options, d: Discipline, s: State, e: Event) {
    match d
    case Free => true
    case Timely =>
      && (e.Tick? ==> ReleasesInTime(o, s, e.ms))
      // Two contenders are never both between a confirming read that succeeds and their removal.
      && (e.Act? && e.p < |s.procs| && s.procs[e.p].pc.Confirm? && s.file.Some?
          && s.file.value.content == s.procs[e.p].pc.raw
          ==> forall q | 0 <= q < |s.procs| && q != e.p :: !s.procs[q].pc.Remove?)
    case TimelyWithoutCrashes =>
      && (e.Tick? ==> ReleasesInTime(o, s, e.ms))
      && (e.Crash? ==> e.p < |s.procs| && !s.procs[e.p].Holds())
  }

  ghost predicate ValidRun(o: Options, d: Discipline, s: State, es: seq<Event>)
    decreases |es|
  {
    es == [] || (Enabled(s, es[0]) && Respects(o, d, s, es[0]) && ValidRun(o, d, Step(o, s, es[0]), es[1..]))
  }

  function Exec(o: Options, d: Discipline, s: State, es: seq<Event>): State
    requires ValidRun(o, d, s, es)
    decreases |es|
  {
    if es == [] then s else Exec(o, d, Step(o, s, es[0]), es[1..])
  }
}
