/** What the lockfile protocol guarantees, and under which assumptions (src/lockfile.ts). */
module LockSafety {
  import opened Ordered
  import opened Lockfile

  // ---------------------------------------------------------------------------
  // With no assumption at all

  /** The evidence `e` says that `raw` is old: by its record, or by an mtime seen twice, a poll apart. */
  ghost predicate EvidenceOk(o: Options, raw: Content, e: Evidence, nowMs: int) {
    match e
    case OldRecord(judgedAt) => raw.Record? && judgedAt <= nowMs && judgedAt - raw.createdAtMs >= o.staleMs
    case OldMtime(first, second, judgedAt) =>
      && first.mtimeMs == second.mtimeMs && first.at + o.pollMs <= second.at <= judgedAt <= nowMs
      && judgedAt - second.mtimeMs >= AgeNeeded(o, raw)
  }

  /** The content a contender works on. */
  function RawOf(pc: Pc): Option<Content> {
    match pc
    case Stat(raw) => Some(raw)
    case JudgeRecord(raw, _) => Some(raw)
    case JudgeMtime(raw, _) => Some(raw)
    case Confirm(raw, _) => Some(raw)
    case Remove(raw, _) => Some(raw)
    case _ => None
  }

  /** A record carrying the nonce of acquisition `q` was written by it, so `q` acquires no more. */
  ghost predicate Written(s: State, c: Content) {
    c.Record? && c.nonce.Own? ==> c.nonce.p < |s.procs| && !s.procs[c.nonce.p].Acquiring()
  }

  ghost predicate RawOk(s: State, proc: Proc) {
    RawOf(proc.pc).Some? ==> Written(s, RawOf(proc.pc).value)
  }

  /** The previous sighting is a poll older than the round that compares with it. */
  ghost predicate LastOk(o: Options, nowMs: int, proc: Proc) {
    proc.last.Some? && proc.Acquiring() ==>
      if proc.pc.CheckDeadline? then proc.last.value.at <= nowMs
      else if proc.pc.Sleeping? then proc.last.value.at + o.pollMs <= proc.pc.until
      else proc.last.value.at + o.pollMs <= nowMs
  }

  ghost predicate SightingOk(o: Options, nowMs: int, proc: Proc, seen: Sighting) {
    seen.at <= nowMs && (proc.last.Some? ==> proc.last.value.at + o.pollMs <= seen.at)
  }

  ghost predicate JudgedOk(o: Options, nowMs: int, proc: Proc) {
    match proc.pc
    case JudgeRecord(_, seen) => SightingOk(o, nowMs, proc, seen)
    case JudgeMtime(_, seen) => SightingOk(o, nowMs, proc, seen)
    case Confirm(raw, evidence) => EvidenceOk(o, raw, evidence, nowMs)
    case Remove(raw, evidence) => EvidenceOk(o, raw, evidence, nowMs)
    case _ => true
  }

  ghost predicate ProcOk(o: Options, s: State, p: nat) {
    p < |s.procs| && RawOk(s, s.procs[p]) && LastOk(o, s.nowMs, s.procs[p]) && JudgedOk(o, s.nowMs, s.procs[p])
  }

  ghost predicate Inv(o: Options, s: State) {
    && (s.file.Some? ==> Written(s, s.file.value.content))
    && (forall p | 0 <= p < |s.procs| :: ProcOk(o, s, p))
  }

  /** Nobody acquires again, and every acquisition stays. */
  ghost predicate Later(s: State, s': State) {
    && s.nowMs <= s'.nowMs && |s.procs| <= |s'.procs|
    && (forall q | 0 <= q < |s.procs| :: s'.procs[q].Acquiring() ==> s.procs[q].Acquiring())
  }

  lemma StepLater(o: Options, s: State, e: Event)
    requires Enabled(s, e)
    ensures Later(s, Step(o, s, e))
  {
  }

  lemma StepKeepsFile(o: Options, s: State, e: Event)
    requires Inv(o, s) && Enabled(s, e)
    ensures var s' := Step(o, s, e); s'.file.Some? ==> Written(s', s'.file.value.content)
  {
    StepLater(o, s, e);
  }

  lemma ActKeepsRaw(o: Options, s: State, p: nat)
    requires Enabled(s, Act(p)) && RawOk(s, s.procs[p]) && (s.file.Some? ==> Written(s, s.file.value.content))
    ensures RawOk(ActOf(o, s, p), ActOf(o, s, p).procs[p])
  {
    StepLater(o, s, Act(p));
  }

  lemma ActKeepsLast(o: Options, s: State, p: nat)
    requires Enabled(s, Act(p)) && LastOk(o, s.nowMs, s.procs[p]) && JudgedOk(o, s.nowMs, s.procs[p])
    ensures LastOk(o, s.nowMs, ActOf(o, s, p).procs[p])
  {
  }

  lemma ActKeepsJudged(o: Options, s: State, p: nat)
    requires Enabled(s, Act(p)) && LastOk(o, s.nowMs, s.procs[p]) && JudgedOk(o, s.nowMs, s.procs[p])
    ensures JudgedOk(o, s.nowMs, ActOf(o, s, p).procs[p])
  {
  }

  lemma StepKeeps(o: Options, s: State, e: Event)
    requires Inv(o, s) && Enabled(s, e)
    ensures Inv(o, Step(o, s, e))
  {
    var s' := Step(o, s, e);
    StepLater(o, s, e);
    StepKeepsFile(o, s, e);
    forall p | 0 <= p < |s'.procs| ensures ProcOk(o, s', p) {
      if p < |s.procs| {
        assert ProcOk(o, s, p);
        if e == Act(p) {
          ActKeepsRaw(o, s, p);
          ActKeepsLast(o, s, p);
          ActKeepsJudged(o, s, p);
        } else {
          OtherProcKept(o, s, e, p);
        }
      }
    }
  }

  lemma OtherProcKept(o: Options, s: State, e: Event, p: nat)
    requires Enabled(s, e) && e != Act(p) && ProcOk(o, s, p) && Later(s, Step(o, s, e))
    ensures ProcOk(o, Step(o, s, e), p)
  {
  }

  lemma {:induction false} RunKeeps(o: Options, d: Discipline, s: State, es: seq<Event>)
    requires Inv(o, s) && ValidRun(o, d, s, es)
    ensures Inv(o, Exec(o, d, s, es))
    decreases |es|
  {
    if es != [] {
      StepKeeps(o, s, es[0]);
      RunKeeps(o, d, Step(o, s, es[0]), es[1..]);
    }
  }

  ghost predicate Reachable(o: Options, d: Discipline, s: State) {
    exists s0, es :: ReachableBy(o, d, s0, es, s)
  }

  ghost predicate ReachableBy(o: Options, d: Discipline, s0: State, es: seq<Event>, s: State) {
    && Initial(s0) && (d == TimelyWithoutCrashes ==> s0.file.None?)
    && ValidRun(o, d, s0, es) && s == Exec(o, d, s0, es)
  }

  lemma ReachableInv(o: Options, d: Discipline, s: State)
    requires Reachable(o, d, s)
    ensures Inv(o, s)
  {
    var s0, es :| ReachableBy(o, d, s0, es, s);
    RunKeeps(o, d, s0, es);
  }

  /** A nonce appears on disk by its own acquisition's write only, which ends that acquisition. */
  lemma NonceAppearsOnce(o: Options, s: State, e: Event, p: nat)
    requires Enabled(s, e) && p < |s.procs| && !Owns(s, p) && Owns(Step(o, s, e), p)
    ensures e == Act(p) && s.procs[p].Acquiring() && Step(o, s, e).procs[p].pc.Holding?
  {
  }

  /** Once an acquisition no longer owns the lockfile it never does again: `ownsFileLock` stays false. */
  lemma {:induction false} OwnershipNeverReturns(o: Options, d: Discipline, s: State, es: seq<Event>, p: nat)
    requires ValidRun(o, d, s, es) && p < |s.procs| && !s.procs[p].Acquiring() && !Owns(s, p)
    ensures p < |Exec(o, d, s, es).procs| && !Owns(Exec(o, d, s, es), p)
    decreases |es|
  {
    if es != [] {
      var s1 := Step(o, s, es[0]);
      StepLater(o, s, es[0]);
      if Owns(s1, p) {
        NonceAppearsOnce(o, s, es[0], p);
      }
      OwnershipNeverReturns(o, d, s1, es[1..], p);
    }
  }

  /**
   * The evidence a removal may act on, in milliseconds: a record `staleMs` old when it was judged, or one mtime
   * seen twice, a poll apart, and by then `staleMs` old, three times that under a parseable record.
   */
  predicate Speaks(o: Options, raw: Content, e: Evidence, nowMs: int) {
    match e
    case OldRecord(at) => raw.Record? && at <= nowMs && at - raw.createdAtMs >= o.staleMs
    case OldMtime(first, second, at) =>
      && first.mtimeMs == second.mtimeMs && second.at - first.at >= o.pollMs && second.at <= at <= nowMs
      && at - second.mtimeMs >= if raw.Record? then 3 * o.staleMs else o.staleMs
  }

  /**
   * Creating in two steps: an acquisition that finds no file, and is left alone, has its record on disk after
   * three of its steps; if its file was replaced meanwhile, the record goes to the file that is gone.
   */
  lemma CreateWritesItsRecord(o: Options, s: State, p: nat)
    requires !o.atomicCreate && p < |s.procs| && s.procs[p].pc.Create? && s.file.None?
    ensures var s1 := Step(o, s, Act(p));
      && s1.file == Some(Inode(Garbage(""), s.nowMs, Some(p))) && Enabled(s1, Act(p))
      && var s2 := Step(o, s1, Act(p));
      && Enabled(s2, Act(p))
      && Step(o, s2, Act(p)).file == Some(Inode(Record(s.nowMs, Own(p)), s.nowMs, Some(p)))
      && Step(o, s2, Act(p)).procs[p].pc == Holding(s.nowMs)
      && forall other: Inode :: other.creator != Some(p) ==>
          Step(o, s2.(file := Some(other)), Act(p)).file == Some(other)
  {
  }

  /**
   * A lockfile leaves the disk in two ways only: the release of a process that found itself the owner,
   * or a contender's removal that was judged on evidence. A process comes to the first only by a read
   * that shows its own nonce, and to the second only by a read that shows the content it judged.
   */
  lemma RemovalFollowsEvidence(o: Options, d: Discipline, s: State, e: Event)
    requires Reachable(o, d, s) && Enabled(s, e)
    ensures s.file.Some? && Step(o, s, e).file.None? ==>
      && e.Act?
      && (|| s.procs[e.p].pc.Releasing?
          || (s.procs[e.p].pc.Remove? && Speaks(o, s.procs[e.p].pc.raw, s.procs[e.p].pc.evidence, s.nowMs)))
    ensures forall p | 0 <= p < |s.procs| && Step(o, s, e).procs[p].pc.Remove? && !s.procs[p].pc.Remove? ::
      && s.procs[p].pc.Confirm? && s.file.Some? && s.file.value.content == s.procs[p].pc.raw
      && Step(o, s, e).procs[p].pc == Remove(s.procs[p].pc.raw, s.procs[p].pc.evidence)
    ensures forall p | 0 <= p < |s.procs| && Step(o, s, e).procs[p].pc.Releasing? && !s.procs[p].pc.Releasing? ::
      e == Act(p) && s.procs[p].pc.Holding? && Owns(s, p)
  {
    ReachableInv(o, d, s);
    if e.Act? {
      assert ProcOk(o, s, e.p);
    }
  }

  // ---------------------------------------------------------------------------
  // Mutual exclusion, when holders release in time

  /** A holder's file is on disk, as it wrote it, and its record is not stale. */
  ghost predicate HolderOk(o: Options, s: State, p: nat) {
    p < |s.procs| && s.procs[p].Holds() ==>
      var c := s.procs[p].pc.createdAtMs;
      s.file == Some(Inode(Record(c, Own(p)), c, Some(p))) && c <= s.nowMs < c + o.staleMs
  }

  /** The mtime a contender holds for the content it read. */
  function SeenMtime(pc: Pc): Option<int> {
    match pc
    case JudgeRecord(_, seen) => Some(seen.mtimeMs)
    case JudgeMtime(_, seen) => Some(seen.mtimeMs)
    case Confirm(_, OldMtime(_, seen, _)) => Some(seen.mtimeMs)
    case Remove(_, OldMtime(_, seen, _)) => Some(seen.mtimeMs)
    case _ => None
  }

  predicate FromOurs(c: Content) {
    c.Record? && c.nonce.Own?
  }

  /** If the record a contender read is one of ours and still on disk, the mtime it saw is that file's. */
  ghost predicate SeenOk(s: State, pc: Pc) {
    RawOf(pc).Some? && SeenMtime(pc).Some? && FromOurs(RawOf(pc).value)
      && s.file.Some? && s.file.value.content == RawOf(pc).value
    ==> s.file.value.mtimeMs == SeenMtime(pc).value
  }

  /** No holder wrote `raw`. */
  ghost predicate Orphan(s: State, raw: Content) {
    forall h | 0 <= h < |s.procs| && s.procs[h].Holds() :: raw != Record(s.procs[h].pc.createdAtMs, Own(h))
  }

  ghost predicate RemovalOk(d: Discipline, s: State, p: nat) {
    p < |s.procs| && s.procs[p].pc.Remove? ==>
      && d != TimelyWithoutCrashes
      && s.file.Some? && s.file.value.content == s.procs[p].pc.raw && Orphan(s, s.procs[p].pc.raw)
      && forall q | 0 <= q < |s.procs| && q != p :: !s.procs[q].pc.Remove?
  }

  ghost predicate FileOk(d: Discipline, s: State) {
    s.file.Some? ==>
      var f := s.file.value;
      && (FromOurs(f.content) ==> f.mtimeMs == f.content.createdAtMs)
      && (d == TimelyWithoutCrashes ==>
          FromOurs(f.content) && f.content.nonce.p < |s.procs| && s.procs[f.content.nonce.p].Holds())
  }

  ghost predicate TimelyInv(o: Options, d: Discipline, s: State) {
    && Inv(o, s) && FileOk(d, s)
    && (forall p | 0 <= p < |s.procs| ::
          && HolderOk(o, s, p) && RemovalOk(d, s, p) && SeenOk(s, s.procs[p].pc)
          && !s.procs[p].pc.Opened? && !s.procs[p].pc.Stamped?)
  }

  /** A judged content that is confirmed on disk is no holder's. */
  lemma ConfirmedIsOrphan(o: Options, d: Discipline, s: State, p: nat)
    requires TimelyInv(o, d, s) && p < |s.procs| && s.procs[p].pc.Confirm?
    requires s.file.Some? && s.file.value.content == s.procs[p].pc.raw
    ensures Orphan(s, s.procs[p].pc.raw)
  {
    assert ProcOk(o, s, p);
    assert SeenOk(s, s.procs[p].pc);
    forall h | 0 <= h < |s.procs| && s.procs[h].Holds()
      ensures s.procs[p].pc.raw != Record(s.procs[h].pc.createdAtMs, Own(h))
    {
      assert HolderOk(o, s, h);
    }
  }

  lemma TickKeepsTimely(o: Options, d: Discipline, s: State, ms: nat)
    requires TimelyInv(o, d, s) && d != Free && Respects(o, d, s, Tick(ms))
    ensures TimelyInv(o, d, Step(o, s, Tick(ms)))
  {
    StepKeeps(o, s, Tick(ms));
    var s' := Step(o, s, Tick(ms));
    forall p | 0 <= p < |s'.procs|
      ensures HolderOk(o, s', p) && RemovalOk(d, s', p) && SeenOk(s', s'.procs[p].pc)
      ensures !s.procs[p].pc.Opened? && !s.procs[p].pc.Stamped?
    {
      assert HolderOk(o, s, p) && RemovalOk(d, s, p) && SeenOk(s, s.procs[p].pc);
    }
  }

  lemma BeginKeepsTimely(o: Options, d: Discipline, s: State, deadlineMs: int)
    requires TimelyInv(o, d, s)
    ensures TimelyInv(o, d, Step(o, s, Begin(deadlineMs)))
  {
    StepKeeps(o, s, Begin(deadlineMs));
    var s' := Step(o, s, Begin(deadlineMs));
    forall p | 0 <= p < |s'.procs|
      ensures HolderOk(o, s', p) && RemovalOk(d, s', p) && SeenOk(s', s'.procs[p].pc)
      ensures !s'.procs[p].pc.Opened? && !s'.procs[p].pc.Stamped?
    {
      if p < |s.procs| {
        assert HolderOk(o, s, p) && RemovalOk(d, s, p) && SeenOk(s, s.procs[p].pc);
      }
    }
  }

  lemma CrashKeepsTimely(o: Options, d: Discipline, s: State, p: nat)
    requires TimelyInv(o, d, s) && d != Free && Enabled(s, Crash(p)) && Respects(o, d, s, Crash(p))
    ensures TimelyInv(o, d, Step(o, s, Crash(p)))
  {
    StepKeeps(o, s, Crash(p));
    var s' := Step(o, s, Crash(p));
    forall q | 0 <= q < |s'.procs|
      ensures HolderOk(o, s', q) && RemovalOk(d, s', q) && SeenOk(s', s'.procs[q].pc)
      ensures !s'.procs[q].pc.Opened? && !s'.procs[q].pc.Stamped?
    {
      assert HolderOk(o, s, q) && RemovalOk(d, s, q) && SeenOk(s, s.procs[q].pc);
    }
  }

  /** Where a contender that leaves the file alone and does not come to hold the lock stands afterwards. */
  lemma QuietActSelf(o: Options, d: Discipline, s: State, p: nat)
    requires TimelyInv(o, d, s) && d != Free && Enabled(s, Act(p)) && Respects(o, d, s, Act(p))
    requires ActOf(o, s, p).file == s.file
    ensures var s' := ActOf(o, s, p);
        HolderOk(o, s', p) && SeenOk(s', s'.procs[p].pc) && !s'.procs[p].pc.Opened? && !s'.procs[p].pc.Stamped?
  {
    assert HolderOk(o, s, p) && SeenOk(s, s.procs[p].pc);
  }

  /** A contender that comes to its removal confirmed an orphan, and is the only one there. */
  lemma QuietActRemoval(o: Options, d: Discipline, s: State, p: nat, q: nat)
    requires TimelyInv(o, d, s) && d != Free && Enabled(s, Act(p)) && Respects(o, d, s, Act(p))
    requires ActOf(o, s, p).file == s.file && q < |s.procs|
    ensures RemovalOk(d, ActOf(o, s, p), q)
  {
    assert RemovalOk(d, s, p) && RemovalOk(d, s, q);
    if ActOf(o, s, p).procs[p].pc.Remove? {
      ConfirmedIsOrphan(o, d, s, p);
    }
  }

  lemma QuietActKeepsTimely(o: Options, d: Discipline, s: State, p: nat)
    requires TimelyInv(o, d, s) && d != Free && Enabled(s, Act(p)) && Respects(o, d, s, Act(p))
    requires ActOf(o, s, p).file == s.file
    ensures TimelyInv(o, d, ActOf(o, s, p))
  {
    StepKeeps(o, s, Act(p));
    var s' := ActOf(o, s, p);
    QuietActSelf(o, d, s, p);
    forall q | 0 <= q < |s'.procs|
      ensures HolderOk(o, s', q) && RemovalOk(d, s', q) && SeenOk(s', s'.procs[q].pc)
      ensures !s'.procs[q].pc.Opened? && !s'.procs[q].pc.Stamped?
    {
      QuietActRemoval(o, d, s, p, q);
      assert HolderOk(o, s, q) && SeenOk(s, s.procs[q].pc);
    }
    QuietActFile(o, d, s, p);
  }

  lemma QuietActFile(o: Options, d: Discipline, s: State, p: nat)
    requires TimelyInv(o, d, s) && Enabled(s, Act(p)) && ActOf(o, s, p).file == s.file
    ensures FileOk(d, ActOf(o, s, p))
  {
    if s.file.Some? && d == TimelyWithoutCrashes {
      assert HolderOk(o, s, s.file.value.content.nonce.p);
    }
  }

  /** Taking or giving up the lock, or removing an orphan: nobody else holds it then. */
  lemma FileActKeepsTimely(o: Options, d: Discipline, s: State, p: nat)
    requires TimelyInv(o, d, s) && d != Free && Enabled(s, Act(p)) && Respects(o, d, s, Act(p))
    requires o.atomicCreate && o.staleMs > 0 && ActOf(o, s, p).file != s.file
    ensures forall q | 0 <= q < |s.procs| && q != p :: !s.procs[q].Holds() && !s.procs[q].pc.Remove?
    ensures TimelyInv(o, d, ActOf(o, s, p))
  {
    StepKeeps(o, s, Act(p));
    var s' := ActOf(o, s, p);
    assert HolderOk(o, s, p) && RemovalOk(d, s, p);
    forall q | 0 <= q < |s.procs| && q != p ensures !s.procs[q].Holds() && !s.procs[q].pc.Remove? {
      assert HolderOk(o, s, q) && RemovalOk(d, s, q);
    }
    forall q | 0 <= q < |s'.procs|
      ensures HolderOk(o, s', q) && RemovalOk(d, s', q) && SeenOk(s', s'.procs[q].pc)
      ensures !s'.procs[q].pc.Opened? && !s'.procs[q].pc.Stamped?
    {
      assert HolderOk(o, s, q) && RemovalOk(d, s, q) && SeenOk(s, s.procs[q].pc) && ProcOk(o, s, q);
    }
  }

  lemma StepKeepsTimely(o: Options, d: Discipline, s: State, e: Event)
    requires TimelyInv(o, d, s) && d != Free && Enabled(s, e) && Respects(o, d, s, e)
    requires o.atomicCreate && o.staleMs > 0
    ensures TimelyInv(o, d, Step(o, s, e))
  {
    match e {
      case Tick(ms) => TickKeepsTimely(o, d, s, ms);
      case Begin(deadlineMs) => BeginKeepsTimely(o, d, s, deadlineMs);
      case Crash(p) => CrashKeepsTimely(o, d, s, p);
      case Act(p) =>
        if ActOf(o, s, p).file == s.file {
          QuietActKeepsTimely(o, d, s, p);
        } else {
          FileActKeepsTimely(o, d, s, p);
        }
    }
  }

  lemma {:induction false} RunKeepsTimely(o: Options, d: Discipline, s: State, es: seq<Event>)
    requires TimelyInv(o, d, s) && d != Free && ValidRun(o, d, s, es) && o.atomicCreate && o.staleMs > 0
    ensures TimelyInv(o, d, Exec(o, d, s, es))
    decreases |es|
  {
    if es != [] {
      StepKeepsTimely(o, d, s, es[0]);
      RunKeepsTimely(o, d, Step(o, s, es[0]), es[1..]);
    }
  }

  lemma ReachableTimely(o: Options, d: Discipline, s: State)
    requires Reachable(o, d, s) && d != Free && o.atomicCreate && o.staleMs > 0
    ensures TimelyInv(o, d, s)
  {
    var s0, es :| ReachableBy(o, d, s0, es, s);
    RunKeepsTimely(o, d, s0, es);
  }

  /**
   * Mutual exclusion for any number of processes. Holders that do not crash release before their
   * record is stale, and the create writes its record in one step. Either nobody crashes holding the
   * lock and there was no lockfile to begin with, whatever stale reads contenders act on; or crashes
   * and any first lockfile are allowed, and two contenders are never both about to remove.
   */
  lemma MutualExclusion(o: Options, d: Discipline, s: State, p: nat, q: nat)
    requires Reachable(o, d, s) && d != Free && o.atomicCreate && o.staleMs > 0
    requires p < |s.procs| && q < |s.procs| && s.procs[p].Holds() && s.procs[q].Holds()
    ensures p == q && Owns(s, p)
  {
    ReachableTimely(o, d, s);
    assert HolderOk(o, s, p) && HolderOk(o, s, q);
  }

  /** No removal takes the lockfile of a process that holds the lock, other than its own release. */
  lemma OnlyTheHolderRemovesItsLock(o: Options, d: Discipline, s: State, e: Event, p: nat)
    requires Reachable(o, d, s) && d != Free && o.atomicCreate && o.staleMs > 0
    requires Enabled(s, e) && Respects(o, d, s, e)
    requires p < |s.procs| && s.procs[p].Holds() && Step(o, s, e).file != s.file
    ensures e == Act(p) && s.procs[p].pc.Releasing? && Step(o, s, e).file.None?
    ensures d == TimelyWithoutCrashes ==> forall q | 0 <= q < |s.procs| :: !s.procs[q].pc.Remove?
  {
    ReachableTimely(o, d, s);
    assert HolderOk(o, s, p);
    assert e.Act?;
    assert HolderOk(o, s, e.p);
    assert RemovalOk(d, s, e.p);
    forall q | 0 <= q < |s.procs| ensures d == TimelyWithoutCrashes ==> !s.procs[q].pc.Remove? {
      assert RemovalOk(d, s, q);
    }
  }

  /** Where no holder crashes and there was no lockfile to begin with, no contender ever comes to a removal. */
  lemma NobodyRemovesWithoutCrashes(o: Options, s: State, p: nat)
    requires Reachable(o, TimelyWithoutCrashes, s) && o.atomicCreate && o.staleMs > 0 && p < |s.procs|
    ensures !s.procs[p].pc.Remove?
  {
    ReachableTimely(o, TimelyWithoutCrashes, s);
    assert RemovalOk(TimelyWithoutCrashes, s, p);
  }

  // ---------------------------------------------------------------------------
  // The acquire loop ends

  /** The rounds an acquisition has gone through took a poll each, and all but the last began before its deadline. */
  ghost predicate RoundsOk(o: Options, nowMs: int, proc: Proc) {
    && proc.startedAt + proc.rounds <= nowMs
    && (proc.rounds > 0 ==> proc.startedAt + proc.rounds <= proc.deadlineMs + o.pollMs)
    && (proc.pc.Sleeping? ==>
          proc.startedAt + proc.rounds + o.pollMs <= proc.pc.until < proc.deadlineMs + o.pollMs)
  }

  lemma StepKeepsRounds(o: Options, s: State, e: Event, p: nat)
    requires o.pollMs > 0 && Enabled(s, e) && p < |Step(o, s, e).procs|
    requires p < |s.procs| ==> RoundsOk(o, s.nowMs, s.procs[p])
    ensures RoundsOk(o, Step(o, s, e).nowMs, Step(o, s, e).procs[p])
  {
  }

  /** How far into its round an acquisition is. */
  function Progress(pc: Pc): nat {
    match pc
    case Create(opening) => if opening then 0 else 8
    case ReadRaw => 1
    case Stat(_) => 2
    case JudgeRecord(_, _) => 3
    case JudgeMtime(_, _) => 4
    case Confirm(_, _) => 5
    case Remove(_, _) => 6
    case CheckDeadline => 9
    case Sleeping(_) => 10
    case Opened => 9
    case Stamped(_) => 10
    case Holding(_) => 11
    case Releasing(_) => 12
    case Over => 13
  }

  /** The steps an acquisition has left: at most 11 a round, and no more rounds than milliseconds to its deadline. */
  function StepsLeft(o: Options, proc: Proc): int {
    11 * (Max(proc.deadlineMs - proc.startedAt, 0) + o.pollMs - proc.rounds) + 13 - Progress(proc.pc)
  }

  function Max(a: int, b: int): int {
    if a < b then b else a
  }

  /** Every step of an acquisition uses up its budget, whatever the other processes do: the loop ends. */
  lemma AcquireEnds(o: Options, s: State, e: Event, p: nat)
    requires o.pollMs > 0 && Enabled(s, e) && p < |s.procs| && RoundsOk(o, s.nowMs, s.procs[p])
    ensures StepsLeft(o, s.procs[p]) >= 0
    ensures e == Act(p) ==> StepsLeft(o, Step(o, s, e).procs[p]) < StepsLeft(o, s.procs[p])
    ensures e != Act(p) && e != Crash(p) ==> Step(o, s, e).procs[p] == s.procs[p]
  {
  }

  ghost predicate AllRoundsOk(o: Options, s: State) {
    forall p | 0 <= p < |s.procs| :: RoundsOk(o, s.nowMs, s.procs[p])
  }

  lemma {:induction false} RunKeepsRounds(o: Options, d: Discipline, s: State, es: seq<Event>)
    requires o.pollMs > 0 && ValidRun(o, d, s, es) && AllRoundsOk(o, s)
    ensures AllRoundsOk(o, Exec(o, d, s, es))
    decreases |es|
  {
    if es != [] {
      var s1 := Step(o, s, es[0]);
      forall p | 0 <= p < |s1.procs| ensures RoundsOk(o, s1.nowMs, s1.procs[p]) {
        StepKeepsRounds(o, s, es[0], p);
      }
      RunKeepsRounds(o, d, s1, es[1..]);
    }
  }

  lemma CrashEnds(o: Options, s: State, p: nat)
    requires p < |s.procs|
    ensures StepsLeft(o, Step(o, s, Crash(p)).procs[p]) <= StepsLeft(o, s.procs[p])
  {
  }

  /** How many of the steps are acquisition `p`'s own. */
  function OwnSteps(es: seq<Event>, p: nat): nat {
    if es == [] then 0 else (if es[0] == Act(p) then 1 else 0) + OwnSteps(es[1..], p)
  }

  lemma {:induction false} OwnStepsBounded(o: Options, d: Discipline, s: State, es: seq<Event>, p: nat)
    requires o.pollMs > 0 && ValidRun(o, d, s, es) && p < |s.procs| && RoundsOk(o, s.nowMs, s.procs[p])
    ensures OwnSteps(es, p) <= StepsLeft(o, s.procs[p])
    decreases |es|
  {
    AcquireEnds(o, s, Tick(0), p);
    if es != [] {
      StepKeepsRounds(o, s, es[0], p);
      AcquireEnds(o, s, es[0], p);
      if es[0] == Crash(p) {
        CrashEnds(o, s, p);
      }
      OwnStepsBounded(o, d, Step(o, s, es[0]), es[1..], p);
    }
  }

  /**
   * The acquire loop ends: over any run, whatever the other processes do, an acquisition makes at most
   * so many steps, a number fixed by its deadline when it begins.
   */
  lemma AcquireEndsOverRuns(o: Options, d: Discipline, s: State, deadlineMs: int, es: seq<Event>)
    requires o.pollMs > 0 && ValidRun(o, d, Step(o, s, Begin(deadlineMs)), es)
    ensures OwnSteps(es, |s.procs|) <= 11 * (Max(deadlineMs - s.nowMs, 0) + o.pollMs) + 13
  {
    OwnStepsBounded(o, d, Step(o, s, Begin(deadlineMs)), es, |s.procs|);
  }

  /** And at most what is left of that from any state a run has reached. */
  lemma StepsLeftOverRuns(o: Options, d: Discipline, s: State, es: seq<Event>, p: nat)
    requires o.pollMs > 0 && Reachable(o, d, s) && ValidRun(o, d, s, es) && p < |s.procs|
    ensures OwnSteps(es, p) <= StepsLeft(o, s.procs[p])
  {
    var s0, before :| ReachableBy(o, d, s0, before, s);
    RunKeepsRounds(o, d, s0, before);
    OwnStepsBounded(o, d, s, es, p);
  }
}
