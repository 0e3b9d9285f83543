/**
 * One whole sweep over every account (hub/src/idle-sweeper.ts), without a pending reconcile or
 * interference: the real one and the dry run, with calls that may fail and a stop in the middle.
 */
module IdleSweep {
  import opened Ordered
  import opened Accounts
  import opened Idle

  /** `missing`: the accounts whose install was not there, by the generation of their row. */
  datatype World = World(db: Db, installs: map<string, Install>, missing: map<int, int>)

  datatype Outcome = Kept | Stopped | Removed | Missing | Skipped | Failed

  /** Which call for an account fails, if one does: its inspection, or the stop or removal it leads to. */
  datatype Fault = NoFault | InspectFails | ActFails

  type Faults = int -> Fault

  const NO_FAULTS: Faults := (id: int) => NoFault

  datatype Entry = Entry(githubId: int, outcome: Outcome, idleDays: Option<int>, applied: bool)

  function KeyOf(id: int, account: Row): Key {
    Key(id, account.createdAt)
  }

  function Halted(installs: map<string, Install>, subdomain: string): map<string, Install>
    requires subdomain in installs
  {
    installs[subdomain := installs[subdomain].(running := false)]
  }

  function OutcomeOf(d: Decision): Outcome {
    match d case Keep => Kept case Stop => Stopped case Remove => Removed
  }

  /** `sweepOne` of an account as it was listed. */
  function SweepOne(w: World, now: int, dryRun: bool, waking: set<int>, id: int, account: Row, fault: Fault)
    : (World, Entry)
  {
    if id in waking then (w, Entry(id, Skipped, None, false))
    else if fault == InspectFails then (w, Entry(id, Failed, None, false))
    else if account.subdomain !in w.installs then
      (if dryRun then w else w.(missing := w.missing[id := account.createdAt]), Entry(id, Missing, None, false))
    else
      var inspection := Inspect(w.installs[account.subdomain]);
      var facts := FactsOf(account, inspection, now);
      var days := IdleDays(facts);
      var w1 := if dryRun then w else Seen(w, id, account, inspection);
      if dryRun || Decide(facts) == Keep then (w1, Entry(id, OutcomeOf(Decide(facts)), days, false))
      else if Decide(facts) == Stop then
        if fault == ActFails then (w1, Entry(id, Failed, None, false)) else
        (w1.(installs := Halted(w1.installs, account.subdomain), db := Mark(w1.db, KeyOf(id, account), Active, now).0),
         Entry(id, Stopped, days, true))
      else if Confirmed(w1.db, id, account, inspection, now) then
        if fault == ActFails then (w1, Entry(id, Failed, None, false)) else
        (World(DeleteIdle(w1.db, KeyOf(id, account)).0, w1.installs - {account.subdomain}, w1.missing - {id}),
         Entry(id, Removed, days, true))
      else (w1, Entry(id, Kept, days, false))
  }

  /** An install found there: not missing, and a stale stop mark is dropped. */
  function Seen(w: World, id: int, account: Row, inspection: Inspection): World {
    w.(missing := w.missing - {id},
       db := if inspection.running && account.stoppedAt.Some? then MarkStarted(w.db, KeyOf(id, account), None).0
           else w.db)
  }

  /** The removal decided again on a fresh read. */
  predicate Confirmed(db: Db, id: int, account: Row, inspection: Inspection, now: int) {
    && id in db.accounts && db.accounts[id].createdAt == account.createdAt && db.accounts[id].status == Active
    && Decide(FactsOf(db.accounts[id], inspection, now)) == Remove
  }

  /** `sweepBlocked`: the install of a blocked account is stopped and marked. */
  function SweepBlocked(w: World, now: int, dryRun: bool, id: int, account: Row, fault: Fault): (World, Entry) {
    if fault == InspectFails then (w, Entry(id, Failed, None, false))
    else if account.subdomain !in w.installs then (w, Entry(id, Kept, None, false))
    else if !w.installs[account.subdomain].running then
      (if dryRun then w else w.(db := Mark(w.db, KeyOf(id, account), Blocked, now).0), Entry(id, Kept, None, false))
    else if dryRun then (w, Entry(id, Stopped, None, false))
    else if fault == ActFails then (w, Entry(id, Failed, None, false))
    else
      (w.(installs := Halted(w.installs, account.subdomain), db := Mark(w.db, KeyOf(id, account), Blocked, now).0),
       Entry(id, Stopped, None, true))
  }

  /** The sweep of the accounts `order` lists, from the rows as they were listed. */
  function SweepActives(w: World, now: int, dryRun: bool, waking: set<int>, order: seq<int>, rows: map<int, Row>,
                        faults: Faults): (World, seq<Entry>)
    requires forall id | id in order :: id in rows
    decreases |order|
  {
    if order == [] then (w, [])
    else
      var (w1, entry) := SweepOne(w, now, dryRun, waking, order[0], rows[order[0]], faults(order[0]));
      var (w2, entries) := SweepActives(w1, now, dryRun, waking, order[1..], rows, faults);
      (w2, [entry] + entries)
  }

  function SweepBlockeds(w: World, now: int, dryRun: bool, order: seq<int>, rows: map<int, Row>,
                         faults: Faults): (World, seq<Entry>)
    requires forall id | id in order :: id in rows
    decreases |order|
  {
    if order == [] then (w, [])
    else
      var (w1, entry) := SweepBlocked(w, now, dryRun, order[0], rows[order[0]], faults(order[0]));
      var (w2, entries) := SweepBlockeds(w1, now, dryRun, order[1..], rows, faults);
      (w2, [entry] + entries)
  }

  predicate IsActive(row: Row) {
    row.status == Active
  }

  predicate IsBlockedUnstopped(row: Row) {
    row.status == Blocked && row.stoppedAt.None?
  }

  /** `order` lists the rows `which` selects, each once, in any order. */
  ghost predicate Lists(order: seq<int>, accounts: map<int, Row>, which: Row -> bool) {
    && Distinct(order)
    && (forall id | id in order :: id in accounts && which(accounts[id]))
    && (forall id | id in accounts && which(accounts[id]) :: id in order)
  }

  // ---------------------------------------------------------------------------
  // What the sweep of one account touches

  function InstallAt(w: World, subdomain: string): Option<Install> {
    if subdomain in w.installs then Some(w.installs[subdomain]) else None
  }

  /** Nothing of account `id`, in `w`, is different in `w'`. */
  ghost predicate SameAccount(w: World, w': World, id: int) {
    && id in w.db.accounts && id in w'.db.accounts && w'.db.accounts[id] == w.db.accounts[id]
    && InstallAt(w', w.db.accounts[id].subdomain) == InstallAt(w, w.db.accounts[id].subdomain)
    && (id in w'.missing <==> id in w.missing) && (id in w.missing ==> w'.missing[id] == w.missing[id])
  }

  /** Rows may be marked or gone, but nobody's address or status moved. */
  ghost predicate Grounded(w: World, w': World) {
    forall id | id in w'.db.accounts ::
      && id in w.db.accounts
      && w'.db.accounts[id].subdomain == w.db.accounts[id].subdomain
          && w'.db.accounts[id].status == w.db.accounts[id].status
  }

  /** Of the accounts, at most `id`'s row is different. */
  ghost predicate OwnRow(a: map<int, Row>, b: map<int, Row>, id: int) {
    && (forall o | o in a && o != id :: o in b && b[o] == a[o])
    && (forall o | o in b :: o in a && b[o].subdomain == a[o].subdomain && b[o].status == a[o].status)
  }

  ghost predicate OwnOnly(w: World, w': World, id: int, subdomain: string) {
    && OwnRow(w.db.accounts, w'.db.accounts, id)
    && w'.installs - {subdomain} == w.installs - {subdomain}
    && w'.missing - {id} == w.missing - {id}
  }

  lemma OneIsOwn(w: World, now: int, waking: set<int>, id: int, account: Row, fault: Fault)
    ensures OwnOnly(w, SweepOne(w, now, false, waking, id, account, fault).0, id, account.subdomain)
  {
    if id !in waking && account.subdomain in w.installs {
      assert OwnOnly(w, Seen(w, id, account, Inspect(w.installs[account.subdomain])), id, account.subdomain);
    }
  }

  lemma OwnSparesOthers(w: World, w': World, id: int, subdomain: string, other: int)
    requires OwnOnly(w, w', id, subdomain) && other in w.db.accounts && other != id
    requires w.db.accounts[other].subdomain != subdomain
    ensures SameAccount(w, w', other)
  {
    assert forall o | o != id :: o in w'.missing - {id} <==> o in w'.missing;
    assert forall o | o != id :: o in w.missing - {id} <==> o in w.missing;
    var sd := w.db.accounts[other].subdomain;
    assert sd in w'.installs <==> sd in w'.installs - {subdomain};
    assert sd in w.installs <==> sd in w.installs - {subdomain};
    if sd in w.installs {
      assert (w'.installs - {subdomain})[sd] == (w.installs - {subdomain})[sd];
    }
    if other in w.missing {
      assert (w'.missing - {id})[other] == (w.missing - {id})[other];
    }
  }

  lemma OneTouchesItsOwn(w: World, now: int, waking: set<int>, id: int, account: Row, fault: Fault)
    requires id in w.db.accounts && w.db.accounts[id] == account && SubdomainsUnique(w.db.accounts)
    ensures var w' := SweepOne(w, now, false, waking, id, account, fault).0;
      && Grounded(w, w')
      && forall other | other in w.db.accounts && other != id :: SameAccount(w, w', other)
  {
    var w' := SweepOne(w, now, false, waking, id, account, fault).0;
    OneIsOwn(w, now, waking, id, account, fault);
    forall other | other in w.db.accounts && other != id ensures SameAccount(w, w', other) {
      OwnSparesOthers(w, w', id, account.subdomain, other);
    }
  }

  lemma BlockedTouchesItsOwn(w: World, now: int, id: int, account: Row, fault: Fault)
    requires id in w.db.accounts && w.db.accounts[id] == account && SubdomainsUnique(w.db.accounts)
    ensures var w' := SweepBlocked(w, now, false, id, account, fault).0;
      && Grounded(w, w')
      && forall other | other in w.db.accounts && other != id :: SameAccount(w, w', other)
  {
    var w' := SweepBlocked(w, now, false, id, account, fault).0;
    assert OwnOnly(w, w', id, account.subdomain);
    forall other | other in w.db.accounts && other != id ensures SameAccount(w, w', other) {
      OwnSparesOthers(w, w', id, account.subdomain, other);
    }
  }

  // ---------------------------------------------------------------------------
  // The dry run tells the truth

  /** What the dry run said comes true, or failed; it applied nothing, and the real sweep what it stopped or removed. */
  ghost predicate SameReport(e: Entry, e': Entry) {
    && e.githubId == e'.githubId && e.outcome != Failed && !e.applied
    && (e'.applied <==> e'.outcome in {Stopped, Removed})
    && (|| (e'.outcome == Failed && e'.idleDays.None?)
        || (e.outcome == e'.outcome && e.idleDays == e'.idleDays))
  }

  ghost predicate SameReports(es: seq<Entry>, es': seq<Entry>) {
    |es| == |es'| && forall k | 0 <= k < |es| :: SameReport(es[k], es'[k])
  }

  /** Both sweeps find the accounts `order` still lists as they were listed. */
  ghost predicate Untouched(w0: World, w: World, order: seq<int>) {
    forall id | id in order :: id in w0.db.accounts && SameAccount(w0, w, id)
  }

  lemma OneReport(w0: World, w: World, now: int, waking: set<int>, id: int, fault: Fault)
    requires id in w0.db.accounts && SameAccount(w0, w, id) && w0.db.accounts[id].status == Active
    ensures SameReport(SweepOne(w0, now, true, waking, id, w0.db.accounts[id], NoFault).1,
                       SweepOne(w, now, false, waking, id, w0.db.accounts[id], fault).1)
    ensures SweepOne(w0, now, true, waking, id, w0.db.accounts[id], NoFault).0 == w0
  {
  }

  lemma BlockedReport(w0: World, w: World, now: int, id: int, fault: Fault)
    requires id in w0.db.accounts && SameAccount(w0, w, id)
    ensures SameReport(SweepBlocked(w0, now, true, id, w0.db.accounts[id], NoFault).1,
                       SweepBlocked(w, now, false, id, w0.db.accounts[id], fault).1)
    ensures SweepBlocked(w0, now, true, id, w0.db.accounts[id], NoFault).0 == w0
  {
  }

  /** An account the first step and the rest leave alone is left alone. */
  lemma RestUntouched(w: World, w1: World, w2: World, order: seq<int>)
    requires order != []
    requires forall other | other in w.db.accounts && other != order[0] :: SameAccount(w, w1, other)
    requires forall other | other in w1.db.accounts && other !in order[1..] :: SameAccount(w1, w2, other)
    ensures forall other | other in w.db.accounts && other !in order :: SameAccount(w, w2, other)
  {
    forall other | other in w.db.accounts && other !in order ensures SameAccount(w, w2, other) {
      assert SameAccount(w, w1, other) && SameAccount(w1, w2, other);
    }
  }

  lemma {:induction false} ActivesReport(w0: World, w: World, now: int, waking: set<int>, order: seq<int>,
                                         faults: Faults)
    requires Distinct(order) && Untouched(w0, w, order) && SubdomainsUnique(w.db.accounts)
    requires forall id | id in order :: id in w0.db.accounts && w0.db.accounts[id].status == Active
    ensures
      var dry := SweepActives(w0, now, true, waking, order, w0.db.accounts, NO_FAULTS);
      var done := SweepActives(w, now, false, waking, order, w0.db.accounts, faults);
      && dry.0 == w0 && SameReports(dry.1, done.1)
      && Grounded(w, done.0) && SubdomainsUnique(done.0.db.accounts)
      && forall id | id in w.db.accounts && id !in order :: SameAccount(w, done.0, id)
    decreases |order|
  {
    if order != [] {
      var id := order[0];
      OneReport(w0, w, now, waking, id, faults(id));
      OneTouchesItsOwn(w, now, waking, id, w0.db.accounts[id], faults(id));
      var w1 := SweepOne(w, now, false, waking, id, w0.db.accounts[id], faults(id)).0;
      forall other | other in order[1..] ensures other in w0.db.accounts && SameAccount(w0, w1, other) {
        assert SameAccount(w0, w, other) && SameAccount(w, w1, other);
      }
      ActivesReport(w0, w1, now, waking, order[1..], faults);
      var done := SweepActives(w, now, false, waking, order, w0.db.accounts, faults).0;
      forall other | other in w.db.accounts && other !in order ensures SameAccount(w, done, other) {
        assert other != id && SameAccount(w, w1, other) && SameAccount(w1, done, other);
      }
    }
  }

  lemma {:induction false} BlockedsReport(w0: World, w: World, now: int, order: seq<int>, faults: Faults)
    requires Distinct(order) && Untouched(w0, w, order) && SubdomainsUnique(w.db.accounts)
    requires forall id | id in order :: id in w0.db.accounts && w0.db.accounts[id].status == Blocked
    ensures
      var dry := SweepBlockeds(w0, now, true, order, w0.db.accounts, NO_FAULTS);
      var done := SweepBlockeds(w, now, false, order, w0.db.accounts, faults);
      && dry.0 == w0 && SameReports(dry.1, done.1)
      && Grounded(w, done.0) && SubdomainsUnique(done.0.db.accounts)
      && forall id | id in w.db.accounts && id !in order :: SameAccount(w, done.0, id)
    decreases |order|
  {
    if order != [] {
      var id := order[0];
      BlockedReport(w0, w, now, id, faults(id));
      BlockedTouchesItsOwn(w, now, id, w0.db.accounts[id], faults(id));
      var w1 := SweepBlocked(w, now, false, id, w0.db.accounts[id], faults(id)).0;
      forall other | other in order[1..] ensures other in w0.db.accounts && SameAccount(w0, w1, other) {
        assert SameAccount(w0, w, other) && SameAccount(w, w1, other);
      }
      BlockedsReport(w0, w1, now, order[1..], faults);
      RestUntouched(w, w1, SweepBlockeds(w, now, false, order, w0.db.accounts, faults).0, order);
    }
  }

  lemma {:induction false} SameRows(w: World, now: int, dryRun: bool, order: seq<int>, rows: map<int, Row>,
                                    rows': map<int, Row>, faults: Faults)
    requires forall id | id in order :: id in rows && id in rows' && rows'[id] == rows[id]
    ensures SweepBlockeds(w, now, dryRun, order, rows', faults) == SweepBlockeds(w, now, dryRun, order, rows, faults)
    decreases |order|
  {
    if order != [] {
      SameRows(SweepBlocked(w, now, dryRun, order[0], rows[order[0]], faults(order[0])).0, now, dryRun, order[1..],
          rows, rows', faults);
    }
  }

  /** `sweepAll`: the active accounts as listed at its start, then the blocked ones as listed after them. */
  ghost predicate Listings(w: World, now: int, dryRun: bool, waking: set<int>, order: seq<int>, blocked: seq<int>,
                           faults: Faults) {
    && Lists(order, w.db.accounts, IsActive)
    && Lists(blocked, SweepActives(w, now, dryRun, waking, order, w.db.accounts, faults).0.db.accounts,
        IsBlockedUnstopped)
  }

  ghost function Sweep(w: World, now: int, dryRun: bool, waking: set<int>, order: seq<int>, blocked: seq<int>,
                       faults: Faults): (World, seq<Entry>)
    requires Listings(w, now, dryRun, waking, order, blocked, faults)
  {
    var (w1, es) := SweepActives(w, now, dryRun, waking, order, w.db.accounts, faults);
    var (w2, es') := SweepBlockeds(w1, now, dryRun, blocked, w1.db.accounts, faults);
    (w2, es + es')
  }

  /** A dry run changes nothing and reports, for every account, what the real sweep does unless a call of it fails. */
  lemma DryRunTellsTheTruth(w: World, now: int, waking: set<int>, order: seq<int>, blocked: seq<int>, faults: Faults)
    requires SubdomainsUnique(w.db.accounts)
    requires Listings(w, now, true, waking, order, blocked, NO_FAULTS)
    ensures Listings(w, now, false, waking, order, blocked, faults)
    ensures Sweep(w, now, true, waking, order, blocked, NO_FAULTS).0 == w
    ensures SameReports(Sweep(w, now, true, waking, order, blocked, NO_FAULTS).1,
        Sweep(w, now, false, waking, order, blocked, faults).1)
  {
    assert Untouched(w, w, order);
    ActivesReport(w, w, now, waking, order, faults);
    var w1 := SweepActives(w, now, false, waking, order, w.db.accounts, faults).0;
    forall id | id in blocked ensures id in w.db.accounts && SameAccount(w, w1, id) {
      assert id !in order;
    }
    forall id | id in w1.db.accounts && IsBlockedUnstopped(w1.db.accounts[id]) ensures id in blocked {
      assert id !in order && SameAccount(w, w1, id);
    }
    SameRows(w1, now, false, blocked, w.db.accounts, w1.db.accounts, faults);
    BlockedsReport(w, w1, now, blocked, faults);
  }

  // ---------------------------------------------------------------------------
  // A second sweep at the same instant has nothing to do

  /** A sweep at `now` finds nothing to change about this active account. */
  ghost predicate Settled(w: World, now: int, waking: set<int>, id: int) {
    id in w.db.accounts &&
    var row := w.db.accounts[id];
    var install := InstallAt(w, row.subdomain);
    || id in waking
    || (install.None? && id in w.missing && w.missing[id] == row.createdAt)
    || (&& install.Some? && id !in w.missing && !(install.value.running && row.stoppedAt.Some?)
        && Decide(FactsOf(row, Inspect(install.value), now)) == Keep)
  }

  /** One sweep settles an account, or removes it. */
  lemma OneSettles(w: World, now: int, waking: set<int>, id: int, fault: Fault)
    requires id in w.db.accounts && w.db.accounts[id].status == Active
    ensures var w' := SweepOne(w, now, false, waking, id, w.db.accounts[id], fault).0;
      fault == NoFault && id in w'.db.accounts ==> Settled(w', now, waking, id)
  {
    var account := w.db.accounts[id];
    if fault == NoFault && id !in waking && account.subdomain in w.installs {
      InstalledSettles(w, now, waking, id, account, Inspect(w.installs[account.subdomain]));
    }
  }

  /** An install left alone keeps its facts; a stopped one is marked and stays stopped. */
  lemma InstalledSettles(w: World, now: int, waking: set<int>, id: int, account: Row, inspection: Inspection)
    requires id in w.db.accounts && account == w.db.accounts[id] && account.status == Active
    requires id !in waking && account.subdomain in w.installs && inspection == Inspect(w.installs[account.subdomain])
    ensures var w' := SweepOne(w, now, false, waking, id, account, NoFault).0;
      id in w'.db.accounts ==> Settled(w', now, waking, id)
  {
    var w1 := Seen(w, id, account, inspection);
    assert FactsOf(w1.db.accounts[id], inspection, now) == FactsOf(account, inspection, now);
    if Decide(FactsOf(account, inspection, now)) == Stop {
      StoppedSettles(w1, now, waking, id, account, inspection);
    }
  }

  /** A stop leaves the install down and its row marked. */
  lemma StoppedSettles(w: World, now: int, waking: set<int>, id: int, account: Row, inspection: Inspection)
    requires id in w.db.accounts && w.db.accounts[id].status == Active
        && w.db.accounts[id].createdAt == account.createdAt
    requires w.db.accounts[id].subdomain == account.subdomain && account.subdomain in w.installs && id !in w.missing
    requires inspection == Inspect(w.installs[account.subdomain])
    requires FactsOf(w.db.accounts[id], inspection, now) == FactsOf(account, inspection, now)
    requires inspection.running ==> w.db.accounts[id].stoppedAt.None?
    requires Decide(FactsOf(account, inspection, now)) == Stop
    ensures Settled(w.(installs := Halted(w.installs, account.subdomain),
        db := Mark(w.db, KeyOf(id, account), Active, now).0),
                    now, waking, id)
  {
  }

  lemma {:induction false} ActivesSettle(w: World, now: int, waking: set<int>, order: seq<int>, rows: map<int, Row>,
                                         faults: Faults)
    requires Distinct(order) && SubdomainsUnique(w.db.accounts)
    requires forall id | id in order ::
        id in rows && id in w.db.accounts && w.db.accounts[id] == rows[id] && rows[id].status == Active
    ensures var w' := SweepActives(w, now, false, waking, order, rows, faults).0;
      && Grounded(w, w')
      && (forall id | id in w.db.accounts && id !in order :: SameAccount(w, w', id))
      && (forall id | id in order && id in w'.db.accounts && faults(id) == NoFault :: Settled(w', now, waking, id))
    decreases |order|
  {
    if order != [] {
      var id := order[0];
      var w1 := SweepOne(w, now, false, waking, id, rows[id], faults(id)).0;
      OneTouchesItsOwn(w, now, waking, id, rows[id], faults(id));
      OneSettles(w, now, waking, id, faults(id));
      forall other | other in order[1..] ensures SameAccount(w, w1, other) {
        assert other != id;
      }
      ActivesSettle(w1, now, waking, order[1..], rows, faults);
      var w' := SweepActives(w, now, false, waking, order, rows, faults).0;
      forall other | other in w.db.accounts && other !in order ensures SameAccount(w, w', other) {
        assert other != id && SameAccount(w, w1, other) && SameAccount(w1, w', other);
      }
      forall other | other in order && other in w'.db.accounts && faults(other) == NoFault
        ensures Settled(w', now, waking, other)
      {
        if other == id {
          assert id !in order[1..] && SameAccount(w1, w', id);
        }
      }
    }
  }

  /** An account whose install does not run and is known not to, if there is one at all. */
  predicate Down(w: World, id: int) {
    id in w.db.accounts &&
    var row := w.db.accounts[id];
    row.subdomain in w.installs ==> !w.installs[row.subdomain].running && row.stoppedAt.Some?
  }

  /** The real sweep of a blocked account whose calls succeed ends with no running install at its address. */
  lemma BlockedGoesDown(w: World, now: int, id: int)
    requires id in w.db.accounts && w.db.accounts[id].status == Blocked
    ensures var row := w.db.accounts[id]; var (w', entry) := SweepBlocked(w, now, false, id, row, NoFault);
      && (row.subdomain in w'.installs <==> row.subdomain in w.installs)
      && (row.subdomain in w'.installs ==>
          w'.installs[row.subdomain] == w.installs[row.subdomain].(running := false))
      && id in w'.db.accounts
      && w'.db.accounts[id] ==
          (if row.subdomain in w.installs && row.stoppedAt.None? then row.(stoppedAt := Some(now)) else row)
      && w'.missing == w.missing
      && entry == (if row.subdomain in w.installs && w.installs[row.subdomain].running
                   then Entry(id, Stopped, None, true) else Entry(id, Kept, None, false))
  {
  }

  /** The blocked accounts listed: each whose calls succeed is down afterwards, and no other account is touched. */
  lemma {:induction false} BlockedsSettle(w: World, now: int, order: seq<int>, rows: map<int, Row>, faults: Faults)
    requires Distinct(order) && SubdomainsUnique(w.db.accounts)
    requires forall id | id in order ::
        id in rows && id in w.db.accounts && w.db.accounts[id] == rows[id] && rows[id].status == Blocked
    ensures var w' := SweepBlockeds(w, now, false, order, rows, faults).0;
      && Grounded(w, w')
      && (forall id | id in w.db.accounts && id !in order :: SameAccount(w, w', id))
      && (forall id | id in order && faults(id) == NoFault :: Down(w', id))
    decreases |order|
  {
    if order != [] {
      var id := order[0];
      var w1 := SweepBlocked(w, now, false, id, rows[id], faults(id)).0;
      BlockedTouchesItsOwn(w, now, id, rows[id], faults(id));
      forall other | other in order[1..] ensures SameAccount(w, w1, other) {
        assert other != id;
      }
      BlockedsSettle(w1, now, order[1..], rows, faults);
      var w' := SweepBlockeds(w, now, false, order, rows, faults).0;
      RestUntouched(w, w1, w', order);
      forall other | other in order && faults(other) == NoFault ensures Down(w', other) {
        if other == id {
          BlockedGoesDown(w, now, id);
          assert id !in order[1..];
          DownStays(w1, w', id);
        }
      }
    }
  }

  lemma DownStays(w: World, w': World, id: int)
    requires Down(w, id) && SameAccount(w, w', id)
    ensures Down(w', id)
  {
  }

  lemma {:induction false} ActivesQuiet(w: World, now: int, waking: set<int>, order: seq<int>, faults: Faults)
    requires forall id | id in order :: id in w.db.accounts && Settled(w, now, waking, id)
    ensures SweepActives(w, now, false, waking, order, w.db.accounts, faults).0 == w
    decreases |order|
  {
    if order != [] {
      assert SweepOne(w, now, false, waking, order[0], w.db.accounts[order[0]], faults(order[0])).0 == w by {
        assert order[0] !in w.missing ==> w.missing - {order[0]} == w.missing;
      }
      ActivesQuiet(w, now, waking, order[1..], faults);
    }
  }

  lemma {:induction false} BlockedsQuiet(w: World, now: int, order: seq<int>, faults: Faults)
    requires forall id | id in order :: id in w.db.accounts && w.db.accounts[id].subdomain !in w.installs
    ensures SweepBlockeds(w, now, false, order, w.db.accounts, faults).0 == w
    decreases |order|
  {
    if order != [] {
      BlockedsQuiet(w, now, order[1..], faults);
    }
  }

  /** After a sweep without a failing call a second one at the same instant changes nothing, whatever fails in it. */
  lemma SecondSweepChangesNothing(w: World, now: int, waking: set<int>, order: seq<int>, blocked: seq<int>,
                                  faults: Faults, order2: seq<int>, blocked2: seq<int>, faults2: Faults)
    requires SubdomainsUnique(w.db.accounts) && forall id | id in order || id in blocked :: faults(id) == NoFault
    requires Listings(w, now, false, waking, order, blocked, faults)
    requires Listings(Sweep(w, now, false, waking, order, blocked, faults).0, now, false, waking, order2, blocked2,
        faults2)
    ensures var w' := Sweep(w, now, false, waking, order, blocked, faults).0;
      Sweep(w', now, false, waking, order2, blocked2, faults2).0 == w'
  {
    ActivesSettle(w, now, waking, order, w.db.accounts, faults);
    var w1 := SweepActives(w, now, false, waking, order, w.db.accounts, faults).0;
    BlockedsSettle(w1, now, blocked, w1.db.accounts, faults);
    var w' := Sweep(w, now, false, waking, order, blocked, faults).0;
    forall id | id in order2 ensures Settled(w', now, waking, id) {
      assert IsActive(w'.db.accounts[id]) && id in w1.db.accounts && id in w.db.accounts && id in order;
      assert id !in blocked && SameAccount(w1, w', id);
    }
    ActivesQuiet(w', now, waking, order2, faults2);
    forall id | id in blocked2 ensures w'.db.accounts[id].subdomain !in w'.installs {
      assert id !in blocked ==> SameAccount(w1, w', id);
    }
    BlockedsQuiet(w', now, blocked2, faults2);
  }

  /** `isMissing`: whether the last sweep found this generation's install gone. */
  predicate IsMissing(w: World, key: Key) {
    key.githubId in w.missing && w.missing[key.githubId] == key.createdAt
  }

  /**
   * After a real sweep the active accounts known as missing are, but for those just waking or out of
   * reach, the ones without an install.
   */
  lemma MissingMeansNoInstall(w: World, now: int, waking: set<int>, order: seq<int>, blocked: seq<int>,
                              faults: Faults, id: int)
    requires SubdomainsUnique(w.db.accounts) && Listings(w, now, false, waking, order, blocked, faults)
    requires id in order && id !in waking && faults(id) == NoFault
    ensures var w' := Sweep(w, now, false, waking, order, blocked, faults).0;
      id in w'.db.accounts ==> (IsMissing(w', KeyOf(id, w'.db.accounts[id]))
          <==> w'.db.accounts[id].subdomain !in w'.installs)
  {
    ActivesSettle(w, now, waking, order, w.db.accounts, faults);
    var w1 := SweepActives(w, now, false, waking, order, w.db.accounts, faults).0;
    BlockedsSettle(w1, now, blocked, w1.db.accounts, faults);
    var w' := Sweep(w, now, false, waking, order, blocked, faults).0;
    if id in w'.db.accounts {
      assert id !in blocked && Settled(w1, now, waking, id) && SameAccount(w1, w', id);
    }
  }

  // ---------------------------------------------------------------------------
  // A sweep cut short

  function Cut(order: seq<int>, n: nat): seq<int> {
    if n < |order| then order[..n] else order
  }

  /** The sweep of the first `stopAfter` accounts: the active ones, and then blocked ones. */
  ghost function CutShort(w: World, now: int, dryRun: bool, waking: set<int>, order: seq<int>, blocked: seq<int>,
                          faults: Faults, stopAfter: nat): (World, seq<Entry>)
    requires forall id | id in order :: id in w.db.accounts
    requires forall id | id in blocked ::
      id in SweepActives(w, now, dryRun, waking, Cut(order, stopAfter), w.db.accounts, faults).0.db.accounts
  {
    var (w1, es) := SweepActives(w, now, dryRun, waking, Cut(order, stopAfter), w.db.accounts, faults);
    var left := if stopAfter < |order| then 0 else stopAfter - |order|;
    var (w2, es') := SweepBlockeds(w1, now, dryRun, Cut(blocked, left), w1.db.accounts, faults);
    (w2, es + es')
  }

  /** A stop leaves the accounts not yet swept alone. */
  lemma StopLeavesTheRest(w: World, now: int, waking: set<int>, order: seq<int>, blocked: seq<int>, faults: Faults,
                          stopAfter: nat, id: int)
    requires SubdomainsUnique(w.db.accounts) && Lists(order, w.db.accounts, IsActive)
    requires Lists(blocked, CutShort(w, now, false, waking, order, [], faults, stopAfter).0.db.accounts,
        IsBlockedUnstopped)
    requires id in w.db.accounts && id !in Cut(order + blocked, stopAfter)
    ensures SameAccount(w, CutShort(w, now, false, waking, order, blocked, faults, stopAfter).0, id)
  {
    var left := if stopAfter < |order| then 0 else stopAfter - |order|;
    var actives, blockeds := Cut(order, stopAfter), Cut(blocked, left);
    assert Cut(order + blocked, stopAfter) == actives + blockeds;
    ActivesSettle(w, now, waking, actives, w.db.accounts, faults);
    var w1 := SweepActives(w, now, false, waking, actives, w.db.accounts, faults).0;
    BlockedsSettle(w1, now, blockeds, w1.db.accounts, faults);
    assert SameAccount(w, w1, id) && id !in blockeds;
  }

  /** The report of a sweep has one entry for each account swept; a stop that comes after them all changes nothing. */
  lemma StopCutsTheReport(w: World, now: int, waking: set<int>, order: seq<int>, blocked: seq<int>, faults: Faults,
                          stopAfter: nat)
    requires Lists(order, w.db.accounts, IsActive)
    requires Lists(blocked, CutShort(w, now, false, waking, order, [], faults, stopAfter).0.db.accounts,
        IsBlockedUnstopped)
    ensures var (w', entries) := CutShort(w, now, false, waking, order, blocked, faults, stopAfter);
      && |entries| == (if stopAfter < |order| + |blocked| then stopAfter else |order| + |blocked|)
      && (stopAfter >= |order| + |blocked| ==>
            Listings(w, now, false, waking, order, blocked, faults)
            && (w', entries) == Sweep(w, now, false, waking, order, blocked, faults))
  {
    var left := if stopAfter < |order| then 0 else stopAfter - |order|;
    var actives, blockeds := Cut(order, stopAfter), Cut(blocked, left);
    var w1 := SweepActives(w, now, false, waking, actives, w.db.accounts, faults).0;
    OneEntryEach(w, now, waking, actives, w.db.accounts, faults);
    OneEntryEachBlocked(w1, now, blockeds, w1.db.accounts, faults);
  }

  lemma {:induction false} OneEntryEach(w: World, now: int, waking: set<int>, order: seq<int>, rows: map<int, Row>,
                                        faults: Faults)
    requires forall id | id in order :: id in rows
    ensures |SweepActives(w, now, false, waking, order, rows, faults).1| == |order|
    decreases |order|
  {
    if order != [] {
      OneEntryEach(SweepOne(w, now, false, waking, order[0], rows[order[0]], faults(order[0])).0, now, waking,
          order[1..], rows, faults);
    }
  }

  lemma {:induction false} OneEntryEachBlocked(w: World, now: int, order: seq<int>, rows: map<int, Row>, faults: Faults)
    requires forall id | id in order :: id in rows
    ensures |SweepBlockeds(w, now, false, order, rows, faults).1| == |order|
    decreases |order|
  {
    if order != [] {
      OneEntryEachBlocked(SweepBlocked(w, now, false, order[0], rows[order[0]], faults(order[0])).0, now, order[1..],
          rows, faults);
    }
  }

  // ---------------------------------------------------------------------------
  // The sweeper

  class IdleSweeper {
    var world: World

    constructor (world: World)
      ensures this.world == world
    {
      this.world := world;
    }

    /** The sweep, cut short once `stopAfter` accounts are swept. */
    method SweepAll(now: int, dryRun: bool, waking: set<int>, order: seq<int>, blocked: seq<int>, faults: Faults,
                    stopAfter: nat)
      returns (entries: seq<Entry>)
      requires Lists(order, world.db.accounts, IsActive)
      requires Lists(blocked, CutShort(world, now, dryRun, waking, order, [], faults, stopAfter).0.db.accounts,
          IsBlockedUnstopped)
      modifies this
      ensures (world, entries) == CutShort(old(world), now, dryRun, waking, order, blocked, faults, stopAfter)
    {
      var actives := SweepListed(now, dryRun, waking, order, world.db.accounts, faults, stopAfter);
      var left := if stopAfter < |order| then 0 else stopAfter - |order|;
      var blockeds := SweepListedBlocked(now, dryRun, blocked, world.db.accounts, faults, left);
      entries := actives + blockeds;
    }

    method SweepListed(now: int, dryRun: bool, waking: set<int>, order: seq<int>, rows: map<int, Row>, faults: Faults,
                       stopAfter: nat)
      returns (entries: seq<Entry>)
      requires forall id | id in order :: id in rows
      modifies this
      ensures (world, entries) == SweepActives(old(world), now, dryRun, waking, Cut(order, stopAfter), rows, faults)
    {
      entries := [];
      ghost var done := Cut(order, stopAfter);
      var i := 0;
      assert done[0..] == done;
      while i < |order|
        invariant 0 <= i <= |done|
        invariant var whole := SweepActives(old(world), now, dryRun, waking, done, rows, faults);
          var rest := SweepActives(world, now, dryRun, waking, done[i..], rows, faults);
          whole.0 == rest.0 && whole.1 == entries + rest.1
      {
        if i >= stopAfter {
          break;
        }
        ghost var rest := SweepActives(world, now, dryRun, waking, done[i..], rows, faults);
        assert done[i..][0] == order[i] && done[i..][1..] == done[i + 1..];
        var (w, entry) := SweepOne(world, now, dryRun, waking, order[i], rows[order[i]], faults(order[i]));
        ghost var after := SweepActives(w, now, dryRun, waking, done[i + 1..], rows, faults);
        assert rest == (after.0, [entry] + after.1);
        assert entries + ([entry] + after.1) == (entries + [entry]) + after.1;
        world, entries, i := w, entries + [entry], i + 1;
      }
      assert done[i..] == [] && entries + [] == entries;
    }

    method SweepListedBlocked(now: int, dryRun: bool, order: seq<int>, rows: map<int, Row>, faults: Faults,
                              stopAfter: nat)
      returns (entries: seq<Entry>)
      requires forall id | id in order :: id in rows
      modifies this
      ensures (world, entries) == SweepBlockeds(old(world), now, dryRun, Cut(order, stopAfter), rows, faults)
    {
      entries := [];
      ghost var done := Cut(order, stopAfter);
      var i := 0;
      assert done[0..] == done;
      while i < |order|
        invariant 0 <= i <= |done|
        invariant var whole := SweepBlockeds(old(world), now, dryRun, done, rows, faults);
          var rest := SweepBlockeds(world, now, dryRun, done[i..], rows, faults);
          whole.0 == rest.0 && whole.1 == entries + rest.1
      {
        if i >= stopAfter {
          break;
        }
        ghost var rest := SweepBlockeds(world, now, dryRun, done[i..], rows, faults);
        assert done[i..][0] == order[i] && done[i..][1..] == done[i + 1..];
        var (w, entry) := SweepBlocked(world, now, dryRun, order[i], rows[order[i]], faults(order[i]));
        ghost var after := SweepBlockeds(w, now, dryRun, done[i + 1..], rows, faults);
        assert rest == (after.0, [entry] + after.1);
        assert entries + ([entry] + after.1) == (entries + [entry]) + after.1;
        world, entries, i := w, entries + [entry], i + 1;
      }
      assert done[i..] == [] && entries + [] == entries;
    }
  }
}
