/**
 * What the lockfile protocol lets happen where the discipline of `LockSafety` is not kept
 * (src/lockfile.ts): two removals at once, and a holder that releases late.
 */
module LockRaces {
  import opened Ordered
  import opened Lockfile
  import opened LockSafety

  // ---------------------------------------------------------------------------
  // Runs in which holders may take up to `b` milliseconds

  /** A run that respects `d`, with `b` in place of the age at which a record is stale. */
  ghost predicate BoundedRun(o: Options, d: Discipline, b: nat, s: State, es: seq<Event>)
    decreases |es|
  {
    es == [] || (Enabled(s, es[0]) && Respects(o.(staleMs := b), d, s, es[0])
        && BoundedRun(o, d, b, Step(o, s, es[0]), es[1..]))
  }

  ghost function Final(o: Options, d: Discipline, b: nat, s: State, es: seq<Event>): State
    requires BoundedRun(o, d, b, s, es)
    decreases |es|
  {
    if es == [] then s else Final(o, d, b, Step(o, s, es[0]), es[1..])
  }

  /** A tighter bound is the discipline itself. */
  lemma {:induction false} BoundedIsValid(o: Options, d: Discipline, b: nat, s: State, es: seq<Event>)
    requires BoundedRun(o, d, b, s, es) && b <= o.staleMs
    ensures ValidRun(o, d, s, es) && Exec(o, d, s, es) == Final(o, d, b, s, es)
    decreases |es|
  {
    if es != [] {
      BoundedIsValid(o, d, b, Step(o, s, es[0]), es[1..]);
    }
  }

  ghost predicate Leads(o: Options, d: Discipline, b: nat, s: State, es: seq<Event>, s': State) {
    BoundedRun(o, d, b, s, es) && Final(o, d, b, s, es) == s'
  }

  lemma {:induction false} LeadsOn(o: Options, d: Discipline, b: nat, s: State, es: seq<Event>, s1: State,
                                   more: seq<Event>, s2: State)
    requires Leads(o, d, b, s, es, s1) && Leads(o, d, b, s1, more, s2)
    ensures Leads(o, d, b, s, es + more, s2)
    decreases |es|
  {
    if es == [] {
      assert es + more == more;
    } else {
      assert (es + more)[0] == es[0] && (es + more)[1..] == es[1..] + more;
      LeadsOn(o, d, b, Step(o, s, es[0]), es[1..], s1, more, s2);
    }
  }

  lemma OneStep(o: Options, d: Discipline, b: nat, s: State, e: Event)
    requires Enabled(s, e) && Respects(o.(staleMs := b), d, s, e)
    ensures Leads(o, d, b, s, [e], Step(o, s, e))
  {
    assert [e][1..] == [];
    assert BoundedRun(o, d, b, Step(o, s, e), []) && Final(o, d, b, Step(o, s, e), []) == Step(o, s, e);
  }

  // ---------------------------------------------------------------------------
  // Several steps of one acquisition

  predicate CanAct(o: Options, s: State, p: nat, n: nat)
    decreases n
  {
    n == 0 || (Enabled(s, Act(p)) && CanAct(o, ActOf(o, s, p), p, n - 1))
  }

  function Acted(o: Options, s: State, p: nat, n: nat): State
    requires CanAct(o, s, p, n)
    decreases n
  {
    if n == 0 then s else Acted(o, ActOf(o, s, p), p, n - 1)
  }

  function Acts(p: nat, n: nat): seq<Event> {
    if n == 0 then [] else [Act(p)] + Acts(p, n - 1)
  }

  /** No other process is about to remove the file. */
  predicate NoOtherRemoval(s: State, p: nat) {
    forall q | 0 <= q < |s.procs| && q != p :: !s.procs[q].pc.Remove?
  }

  lemma StillNoOther(o: Options, s: State, p: nat)
    requires p < |s.procs| && NoOtherRemoval(s, p)
    ensures NoOtherRemoval(ActOf(o, s, p), p)
  {
  }

  lemma {:induction false} ActsAreARun(o: Options, d: Discipline, b: nat, s: State, p: nat, n: nat)
    requires CanAct(o, s, p, n) && (d == Timely ==> NoOtherRemoval(s, p))
    ensures Leads(o, d, b, s, Acts(p, n), Acted(o, s, p, n))
    decreases n
  {
    if n > 0 {
      if d == Timely {
        StillNoOther(o, s, p);
      }
      ActsAreARun(o, d, b, ActOf(o, s, p), p, n - 1);
      OneStep(o, d, b, s, Act(p));
      LeadsOn(o, d, b, s, [Act(p)], ActOf(o, s, p), Acts(p, n - 1), Acted(o, s, p, n));
    }
  }

  lemma {:induction false} ActsThenActs(o: Options, s: State, p: nat, m: nat, n: nat)
    requires CanAct(o, s, p, m) && CanAct(o, Acted(o, s, p, m), p, n)
    ensures CanAct(o, s, p, m + n) && Acted(o, s, p, m + n) == Acted(o, Acted(o, s, p, m), p, n)
    decreases m
  {
    if m > 0 {
      var s1 := ActOf(o, s, p);
      ActsThenActs(o, s1, p, m - 1, n);
      assert Acted(o, s, p, m) == Acted(o, s1, p, m - 1);
      assert CanAct(o, s, p, m + n) && Acted(o, s, p, m + n) == Acted(o, s1, p, m - 1 + n);
    }
  }

  function TakenBy(s: State, p: nat): State
    requires p < |s.procs|
  {
    Become(s.(file := Some(Inode(Record(s.nowMs, Own(p)), s.nowMs, Some(p)))), p, Holding(s.nowMs))
  }

  /** A contender that meets a stale record comes to remove it in five steps, */
  lemma ToRemoval(o: Options, s: State, p: nat, raw: Content)
    requires p < |s.procs| && s.procs[p].pc == Create(true)
    requires s.file.Some? && s.file.value.content == raw && RecordIsStale(o, raw, s.nowMs)
    ensures CanAct(o, s, p, 5)
    ensures Acted(o, s, p, 5) == Become(s, p, Remove(raw, OldRecord(s.nowMs)))
  {
    var s1 := ActOf(o, s, p);
    var s2 := ActOf(o, s1, p);
    var s3 := ActOf(o, s2, p);
    var s4 := ActOf(o, s3, p);
    var s5 := ActOf(o, s4, p);
    assert CanAct(o, s5, p, 0) && CanAct(o, s4, p, 1) && CanAct(o, s3, p, 2);
    assert CanAct(o, s2, p, 3) && CanAct(o, s1, p, 4);
    assert s5 == Become(s, p, Remove(raw, OldRecord(s.nowMs)));
    assert Acted(o, s3, p, 2) == Acted(o, s4, p, 1) == s5;
    assert Acted(o, s1, p, 4) == Acted(o, s2, p, 3);
  }

  /** and from there holds the lock in two. */
  lemma RemovesAndTakes(o: Options, s: State, p: nat)
    requires o.atomicCreate && p < |s.procs| && s.procs[p].pc.Remove?
    ensures CanAct(o, s, p, 2)
    ensures Acted(o, s, p, 2) == TakenBy(s, p)
  {
    var s1 := ActOf(o, s, p);
    var s2 := ActOf(o, s1, p);
    assert CanAct(o, s2, p, 0) && CanAct(o, s1, p, 1);
    assert Acted(o, s1, p, 1) == s2;
    assert s2 == TakenBy(s, p);
  }

  // ---------------------------------------------------------------------------
  // Two removals at once

  /** Both processes hold the lock, by the file on disk only the second does, and no time has passed. */
  ghost predicate BothHold(s: State, s': State, p: nat, q: nat) {
    && s'.nowMs == s.nowMs && |s'.procs| == |s.procs| && p < |s.procs| && q < |s.procs|
    && s'.procs[p].pc == s'.procs[q].pc == Holding(s.nowMs)
    && !Owns(s', p) && Owns(s', q)
  }

  /**
   * The last condition of the discipline is needed wherever it fails: from any state in which two
   * processes are about to remove the file, four steps without a tick make both of them hold the lock.
   */
  lemma OverlappingRemovalsLose(o: Options, s: State, p: nat, q: nat)
    requires o.atomicCreate && p < |s.procs| && q < |s.procs| && p != q
    requires s.procs[p].pc.Remove? && s.procs[q].pc.Remove?
    ensures ValidRun(o, Free, s, Acts(p, 2) + Acts(q, 2))
    ensures BothHold(s, Exec(o, Free, s, Acts(p, 2) + Acts(q, 2)), p, q)
  {
    RemovesAndTakes(o, s, p);
    ActsAreARun(o, Free, o.staleMs, s, p, 2);
    var s1 := TakenBy(s, p);
    RemovesAndTakes(o, s1, q);
    ActsAreARun(o, Free, o.staleMs, s1, q, 2);
    LeadsOn(o, Free, o.staleMs, s, Acts(p, 2), s1, Acts(q, 2), TakenBy(s1, q));
    BoundedIsValid(o, Free, o.staleMs, s, Acts(p, 2) + Acts(q, 2));
  }

  function AtRemoval(o: Options, raw: Content, deadlineMs: int): Proc {
    Proc(Remove(raw, OldRecord(o.staleMs)), None, o.staleMs, deadlineMs, 0)
  }

  /** Two contenders that found the same orphan, both about to remove it. */
  function BothAtRemoval(o: Options, raw: Content, deadlineMs: int): State {
    State(Some(Inode(raw, 0, None)), o.staleMs, [AtRemoval(o, raw, deadlineMs), AtRemoval(o, raw, deadlineMs)])
  }

  lemma BothConfirm(o: Options, raw: Content, deadlineMs: int) returns (s0: State, es: seq<Event>)
    requires raw.Record? && raw.createdAtMs == 0 && raw.nonce.Foreign?
    ensures Initial(s0) && Leads(o, Free, o.staleMs, s0, es, BothAtRemoval(o, raw, deadlineMs))
  {
    var b, begin := o.staleMs, [Begin(deadlineMs)];
    s0 := State(Some(Inode(raw, 0, None)), o.staleMs, []);
    var proc := Proc(Create(true), None, o.staleMs, deadlineMs, 0);
    var s2 := s0.(procs := [proc, proc]);
    TwoBegin(o, s0, s2, deadlineMs);
    es := begin + begin;
    ToRemoval(o, s2, 0, raw);
    ActsAreARun(o, Free, b, s2, 0, 5);
    var s3 := s2.(procs := [AtRemoval(o, raw, deadlineMs), proc]);
    assert Acted(o, s2, 0, 5) == s3;
    LeadsOn(o, Free, b, s0, es, s2, Acts(0, 5), s3);
    es := es + Acts(0, 5);
    ToRemoval(o, s3, 1, raw);
    ActsAreARun(o, Free, b, s3, 1, 5);
    assert Acted(o, s3, 1, 5) == BothAtRemoval(o, raw, deadlineMs);
    LeadsOn(o, Free, b, s0, es, s3, Acts(1, 5), BothAtRemoval(o, raw, deadlineMs));
    es := es + Acts(1, 5);
  }

  lemma TwoBegin(o: Options, s0: State, s2: State, deadlineMs: int)
    requires s0.procs == []
    requires var proc := Proc(Create(true), None, s0.nowMs, deadlineMs, 0); s2 == s0.(procs := [proc, proc])
    ensures Leads(o, Free, o.staleMs, s0, [Begin(deadlineMs)] + [Begin(deadlineMs)], s2)
  {
    var s1 := Step(o, s0, Begin(deadlineMs));
    OneStep(o, Free, o.staleMs, s0, Begin(deadlineMs));
    OneStep(o, Free, o.staleMs, s1, Begin(deadlineMs));
    assert Step(o, s1, Begin(deadlineMs)) == s2;
    LeadsOn(o, Free, o.staleMs, s0, [Begin(deadlineMs)], s1, [Begin(deadlineMs)], s2);
  }

  /**
   * Such a state is reached with nobody late: both confirm the same orphan, one removes it and takes
   * the lock, the other removes that lock.
   */
  lemma OverlappingRemovalsBreakExclusion(o: Options, token: string, deadlineMs: int)
    requires o.atomicCreate && o.staleMs > 0
    ensures exists s :: Reachable(o, Free, s) && |s.procs| == 2 && s.procs[0].Holds() && s.procs[1].Holds()
                        && ReleasesInTime(o, s, 0) && !Owns(s, 0) && Owns(s, 1)
  {
    var raw := Record(0, Foreign(token));
    var s0, es := BothConfirm(o, raw, deadlineMs);
    var s := BothAtRemoval(o, raw, deadlineMs);
    FreeIsReachable(o, s0, es, s);
    OverlappingRemovalsLose(o, s, 0, 1);
    ReachableOn(o, s, Acts(0, 2) + Acts(1, 2));
  }

  lemma ReachableOn(o: Options, s: State, es: seq<Event>)
    requires Reachable(o, Free, s) && ValidRun(o, Free, s, es)
    ensures Reachable(o, Free, Exec(o, Free, s, es))
  {
    var s0, before :| ReachableBy(o, Free, s0, before, s);
    ValidIsBounded(o, Free, s0, before);
    ValidIsBounded(o, Free, s, es);
    LeadsOn(o, Free, o.staleMs, s0, before, s, es, Exec(o, Free, s, es));
    FreeIsReachable(o, s0, before + es, Exec(o, Free, s, es));
  }

  lemma {:induction false} ValidIsBounded(o: Options, d: Discipline, s: State, es: seq<Event>)
    requires ValidRun(o, d, s, es)
    ensures Leads(o, d, o.staleMs, s, es, Exec(o, d, s, es))
    decreases |es|
  {
    if es != [] {
      assert o.(staleMs := o.staleMs) == o;
      ValidIsBounded(o, d, Step(o, s, es[0]), es[1..]);
    }
  }

  lemma FreeIsReachable(o: Options, s0: State, es: seq<Event>, s: State)
    requires Initial(s0) && Leads(o, Free, o.staleMs, s0, es, s)
    ensures Reachable(o, Free, s)
  {
    BoundedIsValid(o, Free, o.staleMs, s0, es);
    assert ReachableBy(o, Free, s0, es, s);
  }

  // ---------------------------------------------------------------------------
  // Late releases

  /** A new acquisition that runs undisturbed for seven steps. */
  function Overtake(deadlineMs: int, p: nat): seq<Event> {
    [Begin(deadlineMs)] + Acts(p, 7)
  }

  /** The state in which process `p` of `s` has been overtaken by a new one. */
  function Overtaken(s: State, deadlineMs: int): State {
    State(
      Some(Inode(Record(s.nowMs, Own(|s.procs|)), s.nowMs, Some(|s.procs|))),
      s.nowMs,
      s.procs + [Proc(Holding(s.nowMs), None, s.nowMs, deadlineMs, 0)])
  }

  lemma OvertakeRuns(o: Options, d: Discipline, b: nat, s: State, deadlineMs: int)
    requires o.atomicCreate && s.file.Some? && RecordIsStale(o, s.file.value.content, s.nowMs)
    requires d == Timely ==> forall q | 0 <= q < |s.procs| :: !s.procs[q].pc.Remove?
    ensures Leads(o, d, b, s, Overtake(deadlineMs, |s.procs|), Overtaken(s, deadlineMs))
  {
    var n := |s.procs|;
    var s1 := Step(o, s, Begin(deadlineMs));
    OneStep(o, d, b, s, Begin(deadlineMs));
    ToRemoval(o, s1, n, s.file.value.content);
    var s2 := Acted(o, s1, n, 5);
    RemovesAndTakes(o, s2, n);
    ActsThenActs(o, s1, n, 5, 2);
    assert TakenBy(s2, n) == Overtaken(s, deadlineMs);
    ActsAreARun(o, d, b, s1, n, 7);
    LeadsOn(o, d, b, s, [Begin(deadlineMs)], s1, Acts(n, 7), Overtaken(s, deadlineMs));
  }

  /** The step of `p` would remove the lockfile of another process that holds the lock. */
  predicate RemovesAnothers(s: State, p: nat) {
    && p < |s.procs| && s.procs[p].pc.Releasing? && s.file.Some? && !Owns(s, p)
    && exists q :: 0 <= q < |s.procs| && q != p && s.procs[q].Holds() && Owns(s, q)
  }

  /**
   * Every late release can go wrong: in any state in which a process has read its own record, is about
   * to remove it and that record is stale, a new acquisition can take the lock over without a tick of the
   * clock, and the pending removal then deletes the lockfile of the new holder.
   */
  lemma EveryLateReleaseCanLose(o: Options, s: State, p: nat, deadlineMs: int)
    requires o.atomicCreate && p < |s.procs| && s.procs[p].pc.Releasing? && Owns(s, p)
    requires RecordIsStale(o, s.file.value.content, s.nowMs)
    ensures ValidRun(o, Free, s, Overtake(deadlineMs, |s.procs|))
    ensures var s' := Exec(o, Free, s, Overtake(deadlineMs, |s.procs|));
      && s'.nowMs == s.nowMs && |s'.procs| == |s.procs| + 1
      && s'.procs[|s.procs|].pc.Holding? && Owns(s', |s.procs|) && RemovesAnothers(s', p)
      && Enabled(s', Act(p)) && Step(o, s', Act(p)).file.None?
  {
    OvertakeRuns(o, Free, o.staleMs, s, deadlineMs);
    BoundedIsValid(o, Free, o.staleMs, s, Overtake(deadlineMs, |s.procs|));
  }

  /** A run from a start that `d` allows. */
  ghost predicate RunFrom(o: Options, d: Discipline, b: nat, s0: State, es: seq<Event>) {
    Initial(s0) && (d == TimelyWithoutCrashes ==> s0.file.None?) && BoundedRun(o, d, b, s0, es)
  }

  /** With holders that take less than `b`, whoever is about to remove its lockfile still owns it. */
  ghost predicate ReleasersOwn(o: Options, d: Discipline, b: nat) {
    forall s0, es, p | RunFrom(o, d, b, s0, es) ::
      var s := Final(o, d, b, s0, es);
      0 <= p < |s.procs| && s.procs[p].pc.Releasing? ==> Owns(s, p)
  }

  /** With holders that take less than `b`, no release removes the lockfile of another holder. */
  ghost predicate ReleasesSpareOthers(o: Options, d: Discipline, b: nat) {
    forall s0, es, p: nat | RunFrom(o, d, b, s0, es) :: !RemovesAnothers(Final(o, d, b, s0, es), p)
  }

  /**
   * Releases are safe if and only if holders are bound to take no longer than the age at which a record
   * is stale: with the bound `staleMs` or a tighter one no release ever removes another's lockfile, and
   * with any looser one some run has it happen.
   */
  lemma ReleasesAreSafeExactlyInTime(o: Options, d: Discipline, b: nat)
    requires d != Free && o.atomicCreate && o.staleMs > 0
    ensures ReleasersOwn(o, d, b) <==> b <= o.staleMs
    ensures ReleasesSpareOthers(o, d, b) <==> b <= o.staleMs
  {
    if b <= o.staleMs {
      InTimeIsSafe(o, d, b);
    } else {
      var s0, es := LateRun(o, d, b, 0);
      LateRemovesAnothers(o, 0);
      assert RunFrom(o, d, b, s0, es) && Final(o, d, b, s0, es) == Late(o, 0);
    }
  }

  lemma InTimeIsSafe(o: Options, d: Discipline, b: nat)
    requires d != Free && o.atomicCreate && o.staleMs > 0 && b <= o.staleMs
    ensures ReleasersOwn(o, d, b) && ReleasesSpareOthers(o, d, b)
  {
    forall s0, es, p: nat | RunFrom(o, d, b, s0, es) && p < |Final(o, d, b, s0, es).procs|
                            && Final(o, d, b, s0, es).procs[p].pc.Releasing?
      ensures Owns(Final(o, d, b, s0, es), p)
    {
      BoundedIsValid(o, d, b, s0, es);
      var s := Final(o, d, b, s0, es);
      assert ReachableBy(o, d, s0, es, s);
      MutualExclusion(o, d, s, p, p);
    }
  }

  /** A holder that read its own record, was overtaken once that turned stale, and is about to remove the file. */
  function Late(o: Options, deadlineMs: int): State {
    Overtaken(ReadItsOwn(deadlineMs).(nowMs := o.staleMs), deadlineMs)
  }

  function ReadItsOwn(deadlineMs: int): State {
    State(Some(Inode(Record(0, Own(0)), 0, Some(0))), 0, [Proc(Releasing(0), None, 0, deadlineMs, 0)])
  }

  lemma LateRun(o: Options, d: Discipline, b: nat, deadlineMs: int) returns (s0: State, es: seq<Event>)
    requires o.atomicCreate && b > o.staleMs
    ensures Initial(s0) && s0.file.None? && Leads(o, d, b, s0, es, Late(o, deadlineMs))
  {
    s0 := State(None, 0, []);
    ReadsItsOwn(o, d, b, s0, deadlineMs);
    es := [Begin(deadlineMs)] + Acts(0, 2);
    var s2 := ReadItsOwn(deadlineMs);
    var s3 := s2.(nowMs := o.staleMs);
    OneStep(o, d, b, s2, Tick(o.staleMs));
    LeadsOn(o, d, b, s0, es, s2, [Tick(o.staleMs)], s3);
    es := es + [Tick(o.staleMs)];
    OvertakeRuns(o, d, b, s3, deadlineMs);
    LeadsOn(o, d, b, s0, es, s3, Overtake(deadlineMs, 1), Late(o, deadlineMs));
    es := es + Overtake(deadlineMs, 1);
  }

  lemma ReadsItsOwn(o: Options, d: Discipline, b: nat, s0: State, deadlineMs: int)
    requires o.atomicCreate && s0 == State(None, 0, [])
    ensures Leads(o, d, b, s0, [Begin(deadlineMs)] + Acts(0, 2), ReadItsOwn(deadlineMs))
  {
    var s1 := Step(o, s0, Begin(deadlineMs));
    OneStep(o, d, b, s0, Begin(deadlineMs));
    assert s1.procs == [Proc(Create(true), None, 0, deadlineMs, 0)];
    HoldsThenReleases(o, s1, ReadItsOwn(deadlineMs));
    ActsAreARun(o, d, b, s1, 0, 2);
    LeadsOn(o, d, b, s0, [Begin(deadlineMs)], s1, Acts(0, 2), ReadItsOwn(deadlineMs));
  }

  lemma LateRemovesAnothers(o: Options, deadlineMs: int)
    ensures var s := Late(o, deadlineMs); s.procs[0].pc.Releasing? && !Owns(s, 0) && Owns(s, 1) && RemovesAnothers(s, 0)
  {
    var s := Late(o, deadlineMs);
    assert s.procs[1].Holds() && Owns(s, 1);
  }

  lemma HoldsThenReleases(o: Options, s1: State, s2: State)
    requires o.atomicCreate && |s1.procs| == 1 && s1.procs[0].pc == Create(true) && s1.file.None?
    requires s2 == State(Some(Inode(Record(s1.nowMs, Own(0)), s1.nowMs, Some(0))), s1.nowMs,
                         [s1.procs[0].(pc := Releasing(s1.nowMs))])
    ensures CanAct(o, s1, 0, 2) && Acted(o, s1, 0, 2) == s2
  {
    var h := ActOf(o, s1, 0);
    assert h == State(s2.file, s1.nowMs, [s1.procs[0].(pc := Holding(s1.nowMs))]);
    assert ActOf(o, h, 0) == s2;
    assert CanAct(o, s2, 0, 0) && CanAct(o, h, 0, 1);
    assert Acted(o, h, 0, 1) == s2;
  }

  /** The run of one holder that releases exactly when its record turns stale. */
  lemma LateReleaseRemovesAnothersLock(o: Options, deadlineMs: int)
    requires o.atomicCreate
    ensures exists s :: Reachable(o, Free, s) && |s.procs| == 2 && Enabled(s, Act(0))
                        && s.procs[0].pc.Releasing? && s.nowMs == s.procs[0].pc.createdAtMs + o.staleMs
                        && !Owns(s, 0) && s.procs[1].Holds() && Owns(s, 1) && Step(o, s, Act(0)).file.None?
  {
    var s0, es := LateRun(o, Free, o.staleMs + 1, deadlineMs);
    FreeBound(o, o.staleMs + 1, o.staleMs, s0, es);
    FreeIsReachable(o, s0, es, Late(o, deadlineMs));
    LateRemovesAnothers(o, deadlineMs);
  }

  /** A free run knows no bound. */
  lemma {:induction false} FreeBound(o: Options, b: nat, c: nat, s: State, es: seq<Event>)
    requires BoundedRun(o, Free, b, s, es)
    ensures BoundedRun(o, Free, c, s, es) && Final(o, Free, c, s, es) == Final(o, Free, b, s, es)
    decreases |es|
  {
    if es != [] {
      FreeBound(o, b, c, Step(o, s, es[0]), es[1..]);
    }
  }
}
