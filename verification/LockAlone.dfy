/**
 * `acquireFileLock` and `releaseFileLock` as one process runs them when no other touches the file
 * (src/lockfile.ts): every call to the filesystem takes up to `stepMs` of clock. Every method is a run
 * of the step system with this process alone in it.
 */
module LockAlone {
  import opened Ordered
  import opened Lockfile
  import LockSafety

  predicate Alone(es: seq<Event>) {
    forall i :: 0 <= i < |es| ==> es[i].Tick? || es[i] == Act(0)
  }

  /** The only process and the clock lead from `s` to `s'`. */
  ghost predicate Moves(o: Options, s: State, s': State) {
    exists es :: IsMove(o, s, es, s')
  }

  ghost predicate IsMove(o: Options, s: State, es: seq<Event>, s': State) {
    Alone(es) && ValidRun(o, Free, s, es) && Exec(o, Free, s, es) == s'
  }

  lemma NoMove(o: Options, s: State)
    ensures Moves(o, s, s)
  {
    assert IsMove(o, s, [], s);
  }

  lemma OneMove(o: Options, s: State, s1: State, e: Event)
    requires Moves(o, s, s1) && (e.Tick? || e == Act(0)) && Enabled(s1, e)
    ensures Moves(o, s, Step(o, s1, e))
  {
    var es :| IsMove(o, s, es, s1);
    assert [e][1..] == [] && ValidRun(o, Free, Step(o, s1, e), []);
    assert ValidRun(o, Free, s1, [e]) && Exec(o, Free, s1, [e]) == Step(o, s1, e);
    MovesConcat(o, s, es, [e]);
    assert IsMove(o, s, es + [e], Step(o, s1, e));
  }

  /** One step of the process, told by what it does to the file and the process. */
  lemma ActMove(o: Options, s: State, s1: State, s2: State)
    requires Moves(o, s, s1) && |s1.procs| == |s2.procs| == 1 && Enabled(s1, Act(0))
    requires var r := Step(o, s1, Act(0)); r.file == s2.file && r.nowMs == s2.nowMs && r.procs[0] == s2.procs[0]
    ensures Moves(o, s, s2)
  {
    OneMove(o, s, s1, Act(0));
    assert Step(o, s1, Act(0)).procs == s2.procs;
  }

  lemma MovesThrough(o: Options, s: State, s1: State, s2: State)
    requires Moves(o, s, s1) && Moves(o, s1, s2)
    ensures Moves(o, s, s2)
  {
    var es :| IsMove(o, s, es, s1);
    var es' :| IsMove(o, s1, es', s2);
    MovesConcat(o, s, es, es');
    assert IsMove(o, s, es + es', s2);
  }

  lemma {:induction false} MovesConcat(o: Options, s: State, es: seq<Event>, es': seq<Event>)
    requires ValidRun(o, Free, s, es) && ValidRun(o, Free, Exec(o, Free, s, es), es')
    ensures ValidRun(o, Free, s, es + es') && Exec(o, Free, s, es + es') == Exec(o, Free, Exec(o, Free, s, es), es')
    decreases |es|
  {
    if es == [] {
      assert es + es' == es';
    } else {
      assert (es + es')[0] == es[0] && (es + es')[1..] == es[1..] + es';
      MovesConcat(o, Step(o, s, es[0]), es[1..], es');
    }
  }

  /** Whatever the process does alone, it does in a run of the step system. */
  lemma AloneIsReachable(o: Options, s0: State, deadlineMs: int, s: State)
    requires Initial(s0) && Moves(o, Step(o, s0, Begin(deadlineMs)), s)
    ensures LockSafety.Reachable(o, Free, s)
  {
    var es :| IsMove(o, Step(o, s0, Begin(deadlineMs)), es, s);
    var all := [Begin(deadlineMs)] + es;
    assert all[1..] == es;
    assert LockSafety.ReachableBy(o, Free, s0, all, s);
  }

  /** The mtime remembered from the previous attempt. */
  function LastMtime(last: Option<Sighting>): Option<int> {
    if last.Some? then Some(last.value.mtimeMs) else None
  }

  /** The file holds a record at least `staleMs` old. */
  predicate HasOldRecord(o: Options, f: Inode, nowMs: int) {
    f.content.Record? && nowMs - f.content.createdAtMs >= o.staleMs
  }

  /** The file has not been touched for `staleMs`, or three times that where it holds a record. */
  predicate IsUntouched(o: Options, f: Inode, nowMs: int) {
    nowMs - f.mtimeMs >= if f.content.Record? then 3 * o.staleMs else o.staleMs
  }

  class LockDir {
    var file: Option<Inode>
    var nowMs: int
    /** Where the process stands in the step system. */
    ghost var proc: Proc
    const stepMs: nat
    const o: Options

    constructor (file: Option<Inode>, nowMs: int, deadlineMs: int, stepMs: nat, o: Options)
      ensures this.file == file && this.nowMs == nowMs && this.stepMs == stepMs && this.o == o
      ensures proc == Proc(Create(true), None, nowMs, deadlineMs, 0)
    {
      this.file, this.nowMs, this.stepMs, this.o := file, nowMs, stepMs, o;
      proc := Proc(Create(true), None, nowMs, deadlineMs, 0);
    }

    ghost function View(): State
      reads this
    {
      State(file, nowMs, [proc])
    }

    /** The lockfile carries this acquisition's record. */
    predicate Owned()
      reads this
    {
      file.Some? && file.value.content.Record? && file.value.content.nonce == Own(0)
    }

    /** A filesystem call goes by. */
    method Elapse()
      modifies this`nowMs
      ensures old(nowMs) <= nowMs <= old(nowMs) + stepMs
      ensures Moves(o, old(View()), View())
    {
      var ms :| 0 <= ms <= stepMs;
      Wait(ms);
    }

    method Wait(ms: nat)
      modifies this`nowMs
      ensures nowMs == old(nowMs) + ms
      ensures Moves(o, old(View()), View())
    {
      nowMs := nowMs + ms;
      NoMove(o, old(View()));
      OneMove(o, old(View()), old(View()), Tick(ms));
    }

    method TryCreate() returns (created: bool)
      requires o.atomicCreate && proc.pc.Create?
      modifies this
      ensures created == old(file).None?
      ensures created ==> Owned() && proc.pc.Holding?
      ensures !created ==> file == old(file)
      ensures !created ==> proc == if old(proc.pc.opening) then old(proc).(pc := ReadRaw)
          else old(proc).(pc := CheckDeadline, last := None)
      ensures old(nowMs) <= nowMs <= old(nowMs) + stepMs
      ensures Moves(o, old(View()), View())
    {
      NoMove(o, View());
      created := file.None?;
      if created {
        file := Some(Inode(Record(nowMs, Own(0)), nowMs, Some(0)));
        proc := proc.(pc := Holding(nowMs));
      } else if proc.pc.opening {
        proc := proc.(pc := ReadRaw);
      } else {
        proc := proc.(pc := CheckDeadline, last := None);
      }
      ghost var s1 := View();
      ActMove(o, old(View()), old(View()), s1);
      Elapse();
      MovesThrough(o, old(View()), s1, View());
    }

    method RemoveAndReclaim(expected: Content) returns (acquired: bool)
      requires o.atomicCreate && proc.pc.Confirm? && proc.pc.raw == expected
      modifies this
      ensures acquired == (old(file).Some? && old(file).value.content == expected)
      ensures acquired ==> Owned() && proc.pc.Holding?
      ensures !acquired ==> file == old(file) && proc == old(proc).(pc := CheckDeadline, last := None)
      ensures old(nowMs) <= nowMs <= old(nowMs) + 3 * stepMs
      ensures Moves(o, old(View()), View())
    {
      Elapse();
      ghost var s1 := View();
      if file.None? || file.value.content != expected {
        proc := proc.(pc := CheckDeadline, last := None);
        ActMove(o, old(View()), s1, View());
        return false;
      }
      proc := proc.(pc := Remove(expected, proc.pc.evidence));
      ghost var s2 := View();
      ActMove(o, old(View()), s1, s2);
      file := None;
      proc := proc.(pc := Create(false));
      ghost var s3 := View();
      ActMove(o, old(View()), s2, s3);
      Elapse();
      ghost var s4 := View();
      MovesThrough(o, old(View()), s3, s4);
      acquired := TryCreate();
      MovesThrough(o, old(View()), s4, View());
    }

    /** The mtime decision of `recoverAbandonedLock`, and its removal. */
    method RecoverAbandoned(raw: Content, mtimeMs: int, last: Option<int>)
      returns (acquired: bool, observed: Option<int>)
      requires o.atomicCreate && file.Some? && file.value.content == raw && file.value.mtimeMs == mtimeMs
      requires proc.pc.JudgeMtime? && proc.pc.raw == raw && proc.pc.sighting.mtimeMs == mtimeMs
          && LastMtime(proc.last) == last
      modifies this
      ensures acquired <==> IsUntouched(o, old(file).value, old(nowMs)) && last == Some(mtimeMs)
      ensures acquired ==> Owned() && proc.pc.Holding?
      ensures !acquired ==> file == old(file) && observed == Some(mtimeMs) && nowMs == old(nowMs)
      ensures !acquired ==> proc == old(proc).(pc := CheckDeadline, last := Some(old(proc.pc.sighting)))
      ensures old(nowMs) <= nowMs <= old(nowMs) + 3 * stepMs
      ensures Moves(o, old(View()), View())
    {
      NoMove(o, View());
      if RecentlyTouched(o, raw, mtimeMs, nowMs) || last != Some(mtimeMs) {
        proc := proc.(pc := CheckDeadline, last := Some(proc.pc.sighting));
        ActMove(o, old(View()), old(View()), View());
        return false, Some(mtimeMs);
      }
      proc := proc.(pc := Confirm(raw, OldMtime(proc.last.value, proc.pc.sighting, nowMs)));
      ghost var s1 := View();
      ActMove(o, old(View()), old(View()), s1);
      acquired := RemoveAndReclaim(raw);
      observed := None;
      MovesThrough(o, old(View()), s1, View());
    }

    /**
     * An attempt to steal: it takes over a file that is stale or seen abandoned twice, and backs off
     * from any other.
     */
    method StealIfStale(last: Option<int>) returns (acquired: bool, observed: Option<int>)
      requires o.atomicCreate && proc.pc.ReadRaw? && LastMtime(proc.last) == last
      modifies this
      ensures acquired ==> Owned() && proc.pc.Holding?
      ensures acquired && old(file).Some? ==>
        || HasOldRecord(o, old(file).value, nowMs)
        || (IsUntouched(o, old(file).value, nowMs) && last == Some(old(file).value.mtimeMs))
      ensures !acquired ==> old(file).Some? && file == old(file) && observed == Some(file.value.mtimeMs)
      ensures !acquired ==>
          && proc.pc.CheckDeadline? && LastMtime(proc.last) == observed
          && proc == old(proc).(pc := CheckDeadline, last := proc.last)
      ensures !acquired ==> !HasOldRecord(o, file.value, old(nowMs))
      ensures !acquired ==> !IsUntouched(o, file.value, old(nowMs)) || last != observed
      ensures !acquired ==> nowMs <= old(nowMs) + 2 * stepMs
      ensures old(nowMs) <= nowMs
      ensures Moves(o, old(View()), View())
    {
      observed := None;
      Elapse();
      ghost var s0 := View();
      if file.None? {
        proc := proc.(pc := Create(false));
        ghost var s1 := View();
        ActMove(o, old(View()), s0, s1);
        acquired := TryCreate();
        MovesThrough(o, old(View()), s1, View());
        return;
      }
      var raw := file.value.content;
      proc := proc.(pc := Stat(raw));
      ghost var s1 := View();
      ActMove(o, old(View()), s0, s1);
      Elapse();
      ghost var s2 := View();
      MovesThrough(o, old(View()), s1, s2);
      acquired, observed := JudgeAndTake(raw, file.value.mtimeMs, last);
      MovesThrough(o, old(View()), s2, View());
    }

    /** The two judgements, on content and mtime as read. */
    method JudgeAndTake(raw: Content, mtimeMs: int, last: Option<int>) returns (acquired: bool, observed: Option<int>)
      requires o.atomicCreate && file.Some? && file.value.content == raw && file.value.mtimeMs == mtimeMs
      requires proc.pc == Stat(raw) && LastMtime(proc.last) == last
      modifies this
      ensures acquired <==>
          || HasOldRecord(o, old(file).value, old(nowMs))
          || (IsUntouched(o, old(file).value, old(nowMs)) && last == Some(mtimeMs))
      ensures acquired ==> Owned() && proc.pc.Holding?
      ensures !acquired ==> file == old(file) && observed == Some(mtimeMs) && nowMs == old(nowMs)
      ensures !acquired ==>
          LastMtime(proc.last) == observed && proc == old(proc).(pc := CheckDeadline, last := proc.last)
      ensures old(nowMs) <= nowMs
      ensures Moves(o, old(View()), View())
    {
      NoMove(o, View());
      proc := proc.(pc := JudgeRecord(raw, Sighting(mtimeMs, nowMs)));
      ghost var s1 := View();
      ActMove(o, old(View()), old(View()), s1);
      if RecordIsStale(o, raw, nowMs) {
        proc := proc.(pc := Confirm(raw, OldRecord(nowMs)));
        ghost var s2 := View();
        ActMove(o, old(View()), s1, s2);
        observed := None;
        acquired := RemoveAndReclaim(raw);
        MovesThrough(o, old(View()), s2, View());
        return;
      }
      proc := proc.(pc := JudgeMtime(raw, proc.pc.sighting));
      ghost var s2 := View();
      ActMove(o, old(View()), s1, s2);
      acquired, observed := RecoverAbandoned(raw, mtimeMs, last);
      MovesThrough(o, old(View()), s2, View());
    }

    /** After a failed attempt: past the deadline the loop ends, else it sleeps a poll and comes round. */
    method CheckAndSleep(deadlineMs: int) returns (over: bool)
      requires proc.pc.CheckDeadline? && proc.deadlineMs == deadlineMs
      modifies this
      ensures file == old(file)
      ensures over <==> old(nowMs) >= deadlineMs
      ensures over ==> nowMs == old(nowMs) && proc == old(proc).(pc := Over)
      ensures !over ==>
          nowMs >= old(nowMs) + o.pollMs && proc == old(proc).(pc := Create(true), rounds := old(proc.rounds) + 1)
      ensures Moves(o, old(View()), View())
    {
      NoMove(o, View());
      over := nowMs >= deadlineMs;
      proc := proc.(pc := if over then Over else Sleeping(nowMs + o.pollMs));
      ghost var s1 := View();
      ActMove(o, old(View()), old(View()), s1);
      if over {
        return;
      }
      var late: nat :| late >= 0;
      Wait(o.pollMs + late);
      ghost var s2 := View();
      MovesThrough(o, old(View()), s1, s2);
      proc := proc.(pc := Create(true), rounds := proc.rounds + 1);
      ActMove(o, old(View()), s2, View());
    }

    /**
     * The acquire loop, run alone. It ends; it returns empty-handed only past its deadline, with the file as
     * it was. It takes over only a file whose record is stale or, a poll later at the earliest, one that has
     * not been touched for as long as its content asks; and that it does take over, a stale record at once
     * and the other by its second attempt.
     */
    method Acquire(deadlineMs: int) returns (acquired: bool)
      requires o.pollMs > 0 && o.atomicCreate && proc.pc == Create(true) && proc.last == None
          && proc.deadlineMs == deadlineMs
      modifies this
      ensures acquired ==> Owned() && proc.pc.Holding?
      ensures !acquired ==> nowMs >= deadlineMs && file == old(file) && file.Some? && proc.pc.Over?
      ensures acquired && old(file).Some? ==>
        || HasOldRecord(o, old(file).value, nowMs)
        || (IsUntouched(o, old(file).value, nowMs) && nowMs >= old(nowMs) + o.pollMs)
      ensures old(file).None? ==> acquired
      ensures old(file).Some? && HasOldRecord(o, old(file).value, old(nowMs)) ==> acquired
      ensures (old(file).Some? && old(nowMs) + 3 * stepMs < deadlineMs
               && IsUntouched(o, old(file).value, old(nowMs) + o.pollMs))
              ==> acquired
      ensures Moves(o, old(View()), View())
    {
      var last: Option<int> := None;
      ghost var attempts := 0;
      NoMove(o, View());
      while true
        invariant file == old(file) && old(nowMs) <= nowMs
        invariant proc.pc == Create(true) && LastMtime(proc.last) == last && proc.deadlineMs == deadlineMs
        invariant attempts == 0 ==> nowMs == old(nowMs) && last == None
        invariant attempts > 0 ==> file.Some? && last == Some(file.value.mtimeMs) && old(nowMs) + o.pollMs <= nowMs
        invariant attempts > 0 ==> !HasOldRecord(o, file.value, old(nowMs))
        invariant Moves(o, old(View()), View())
        decreases deadlineMs - nowMs
      {
        ghost var s0 := View();
        var created := TryCreate();
        MovesThrough(o, old(View()), s0, View());
        if created {
          return true;
        }
        ghost var s1 := View();
        acquired, last := StealIfStale(last);
        MovesThrough(o, old(View()), s1, View());
        if acquired {
          return;
        }
        ghost var s2 := View();
        var over := CheckAndSleep(deadlineMs);
        MovesThrough(o, old(View()), s2, View());
        if over {
          return;
        }
        attempts := attempts + 1;
      }
    }

    /** Removes the lockfile exactly when it is still the holder's. */
    method Release()
      requires proc.pc.Holding?
      modifies this
      ensures file == if old(Owned()) then None else old(file)
      ensures proc.pc.Over? && Moves(o, old(View()), View())
    {
      Elapse();
      ghost var s1 := View();
      proc := proc.(pc := if Owned() then Releasing(proc.pc.createdAtMs) else Over);
      ghost var s2 := View();
      ActMove(o, old(View()), s1, s2);
      if Owned() {
        file := None;
        proc := proc.(pc := Over);
        ghost var s3 := View();
        ActMove(o, old(View()), s2, s3);
        Elapse();
        MovesThrough(o, old(View()), s3, View());
      }
    }
  }
}
