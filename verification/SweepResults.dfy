/**
 * What one whole sweep does to each account, in terms of how long its install has been unused
 * (hub/src/idle-sweeper.ts): which installs are removed, stopped, marked or flagged, and which are left alone.
 */
module SweepResults {
  import opened Ordered
  import opened Accounts
  import opened Idle
  import opened IdleSweep

  /** The stop mark an account found running is left with: none. */
  function SeenRow(row: Row, i: Install): Row {
    if i.running then row.(stoppedAt := None) else row
  }

  /** The install is due to be removed, or stopped and marked. */
  predicate IsDue(row: Row, i: Install, now: int) {
    Unused(row, i, now, 90) || (Unused(row, i, now, 60) && (i.running || row.stoppedAt.None?))
  }

  /**
   * From `w` to `w'` a sweep at `now` did to an active account what was due: without an install it is
   * flagged missing and kept; an install unused for 90 days is gone, and the account with it; one unused for
   * 60 is down and marked, unless it was already; any other is as it was, a running one without a mark.
   */
  ghost predicate Swept(w: World, w': World, now: int, id: int) {
    id in w.db.accounts &&
    var row := w.db.accounts[id];
    if row.subdomain !in w.installs then
      && id in w'.db.accounts && w'.db.accounts[id] == row && row.subdomain !in w'.installs
      && id in w'.missing && w'.missing[id] == row.createdAt
    else
      var i := w.installs[row.subdomain];
      && id !in w'.missing
      && if Unused(row, i, now, 90) then id !in w'.db.accounts && row.subdomain !in w'.installs
         else if IsDue(row, i, now) then
           && id in w'.db.accounts && w'.db.accounts[id] == row.(stoppedAt := Some(now))
           && row.subdomain in w'.installs && w'.installs[row.subdomain] == i.(running := false)
         else
           && id in w'.db.accounts && w'.db.accounts[id] == SeenRow(row, i)
           && row.subdomain in w'.installs && w'.installs[row.subdomain] == i
  }

  /** What the report says of it. */
  predicate Told(w: World, now: int, id: int, e: Entry) {
    id in w.db.accounts && e.githubId == id &&
    var row := w.db.accounts[id];
    if row.subdomain !in w.installs then e == Entry(id, Missing, None, false)
    else
      var i := w.installs[row.subdomain];
      && e.outcome == (if Unused(row, i, now, 90) then Removed else if IsDue(row, i, now) then Stopped else Kept)
      && e.applied == IsDue(row, i, now)
      && e.idleDays.Some? && Unused(row, i, now, e.idleDays.value) && !Unused(row, i, now, e.idleDays.value + 1)
  }

  lemma OneIsSwept(w: World, now: int, waking: set<int>, id: int)
    requires id in w.db.accounts && w.db.accounts[id].status == Active && id !in waking
    ensures var (w', entry) := SweepOne(w, now, false, waking, id, w.db.accounts[id], NoFault);
      Swept(w, w', now, id) && Told(w, now, id, entry)
  {
    var row := w.db.accounts[id];
    if row.subdomain in w.installs {
      var i := w.installs[row.subdomain];
      DueMeans(row, i, now);
      OneIsTold(row, i, now);
      var w1 := Seen(w, id, row, Inspect(i));
      assert w1.db.accounts[id] == SeenRow(row, i);
      assert FactsOf(w1.db.accounts[id], Inspect(i), now) == FactsOf(row, Inspect(i), now);
    }
  }

  lemma OneIsTold(row: Row, i: Install, now: int)
    ensures var days := IdleDays(FactsOf(row, Inspect(i), now));
      days.Some? && Unused(row, i, now, days.value) && !Unused(row, i, now, days.value + 1)
  {
    var f := FactsOf(row, Inspect(i), now);
    IdleDaysMean(f, 0);
    IdleDaysMean(f, IdleDays(f).value);
    assert forall days :: SinceAll(f, days * 86_400_000) <==> Unused(row, i, now, days);
  }

  /**
   * A waking account is skipped. A failing inspection leaves everything as it was; a failing stop or removal
   * leaves the install, and all it did before is drop the missing flag and the mark of a running install.
   */
  lemma FailureMeans(w: World, now: int, waking: set<int>, id: int, fault: Fault)
    requires id in w.db.accounts && w.db.accounts[id].status == Active
    ensures var row := w.db.accounts[id]; var (w', entry) := SweepOne(w, now, false, waking, id, row, fault);
      && (id in waking ==> w' == w && entry == Entry(id, Skipped, None, false))
      && (id !in waking && fault == InspectFails ==> w' == w && entry == Entry(id, Failed, None, false))
      && (id !in waking && fault == ActFails && row.subdomain in w.installs ==>
          var i := w.installs[row.subdomain];
          if IsDue(row, i, now) then
            && entry == Entry(id, Failed, None, false) && w'.installs == w.installs
            && w'.db.accounts == w.db.accounts[id := SeenRow(row, i)] && w'.missing == w.missing - {id}
          else (w', entry) == SweepOne(w, now, false, waking, id, row, NoFault))
  {
    var row := w.db.accounts[id];
    if row.subdomain in w.installs {
      var i := w.installs[row.subdomain];
      DueMeans(row, i, now);
      var w1 := Seen(w, id, row, Inspect(i));
      assert w1.db.accounts == w.db.accounts[id := SeenRow(row, i)];
      assert FactsOf(w1.db.accounts[id], Inspect(i), now) == FactsOf(row, Inspect(i), now);
    }
  }

  /** Of a blocked account too: a failing inspection, or a failing stop, leaves everything as it was and is reported. */
  lemma BlockedFailureMeans(w: World, now: int, id: int, account: Row, fault: Fault)
    ensures var (w', entry) := SweepBlocked(w, now, false, id, account, fault);
      var runs := account.subdomain in w.installs && w.installs[account.subdomain].running;
      if fault == InspectFails || (fault == ActFails && runs) then w' == w && entry == Entry(id, Failed, None, false)
      else (w', entry) == SweepBlocked(w, now, false, id, account, NoFault)
  {
  }

  /**
   * Whatever became of the row since it was listed: an install is removed, or an account, only if the row read
   * again is of the listed generation, active, and its person was not seen for 90 days; the report then says
   * removed, and what it calls kept, missing or skipped was not acted on.
   */
  lemma FreshReadDecides(w: World, now: int, waking: set<int>, id: int, account: Row, fault: Fault)
    ensures var (w', entry) := SweepOne(w, now, false, waking, id, account, fault);
      && ((account.subdomain in w.installs && account.subdomain !in w'.installs)
          || (id in w.db.accounts && id !in w'.db.accounts) ==>
            && id in w.db.accounts && w.db.accounts[id].createdAt == account.createdAt
            && w.db.accounts[id].status == Active && now - w.db.accounts[id].lastSeenAt >= 90 * 86_400_000
            && entry.outcome == Removed && entry.applied)
      && (entry.outcome in {Kept, Missing, Skipped, Failed} ==> !entry.applied && w'.installs == w.installs)
  {
  }

  // ---------------------------------------------------------------------------
  // What the sweep of other accounts leaves alone

  /** Row and missing flag of `id`, and the install at `subdomain`, are the same. */
  ghost predicate SameSlot(w: World, w': World, id: int, subdomain: string) {
    && (id in w'.db.accounts <==> id in w.db.accounts)
    && (id in w.db.accounts ==> w'.db.accounts[id] == w.db.accounts[id])
    && InstallAt(w', subdomain) == InstallAt(w, subdomain)
    && (id in w'.missing <==> id in w.missing) && (id in w.missing ==> w'.missing[id] == w.missing[id])
  }

  lemma OwnSparesSlots(w: World, w': World, own: int, ownSubdomain: string, id: int, subdomain: string)
    requires OwnOnly(w, w', own, ownSubdomain) && id != own && subdomain != ownSubdomain
    ensures SameSlot(w, w', id, subdomain)
  {
    assert id in w'.missing - {own} <==> id in w'.missing;
    assert id in w.missing - {own} <==> id in w.missing;
    assert subdomain in w'.installs <==> subdomain in w'.installs - {ownSubdomain};
    assert subdomain in w.installs <==> subdomain in w.installs - {ownSubdomain};
    assert subdomain in w.installs ==>
      (w'.installs - {ownSubdomain})[subdomain] == (w.installs - {ownSubdomain})[subdomain];
    assert id in w.missing ==> (w'.missing - {own})[id] == (w.missing - {own})[id];
  }

  lemma {:induction false} ActivesSpare(w: World, now: int, waking: set<int>, order: seq<int>, rows: map<int, Row>,
                                        faults: Faults, id: int, subdomain: string)
    requires forall o | o in order :: o in rows && rows[o].subdomain != subdomain
    requires id !in order
    ensures SameSlot(w, SweepActives(w, now, false, waking, order, rows, faults).0, id, subdomain)
    decreases |order|
  {
    if order != [] {
      var o := order[0];
      var w1 := SweepOne(w, now, false, waking, o, rows[o], faults(o)).0;
      OneIsOwn(w, now, waking, o, rows[o], faults(o));
      OwnSparesSlots(w, w1, o, rows[o].subdomain, id, subdomain);
      ActivesSpare(w1, now, waking, order[1..], rows, faults, id, subdomain);
    }
  }

  lemma BlockedIsOwn(w: World, now: int, id: int, account: Row, fault: Fault)
    ensures OwnOnly(w, SweepBlocked(w, now, false, id, account, fault).0, id, account.subdomain)
  {
  }

  lemma {:induction false} BlockedsSpare(w: World, now: int, order: seq<int>, rows: map<int, Row>, faults: Faults,
                                         id: int, subdomain: string)
    requires forall o | o in order :: o in rows && rows[o].subdomain != subdomain
    requires id !in order
    ensures SameSlot(w, SweepBlockeds(w, now, false, order, rows, faults).0, id, subdomain)
    decreases |order|
  {
    if order != [] {
      var o := order[0];
      var w1 := SweepBlocked(w, now, false, o, rows[o], faults(o)).0;
      BlockedIsOwn(w, now, o, rows[o], faults(o));
      OwnSparesSlots(w, w1, o, rows[o].subdomain, id, subdomain);
      BlockedsSpare(w1, now, order[1..], rows, faults, id, subdomain);
    }
  }

  // ---------------------------------------------------------------------------
  // The active accounts

  /** What a sweep did to an account is told by the account's own slot before and after. */
  lemma SweptThrough(w: World, w1: World, w2: World, w3: World, now: int, id: int)
    requires id in w.db.accounts && Swept(w1, w2, now, id)
    requires SameSlot(w, w1, id, w.db.accounts[id].subdomain) && SameSlot(w2, w3, id, w.db.accounts[id].subdomain)
    ensures Swept(w, w3, now, id)
  {
  }

  /** The rows listed, by address: no two share one. */
  ghost predicate Apart(order: seq<int>, rows: map<int, Row>) {
    && Distinct(order) && (forall o | o in order :: o in rows)
    && (forall o, p | o in order && p in order && rows[o].subdomain == rows[p].subdomain :: o == p)
  }

  lemma {:induction false} ActivesSwept(w: World, now: int, waking: set<int>, order: seq<int>, rows: map<int, Row>,
                                        faults: Faults, id: int)
    requires Apart(order, rows) && id in order && id !in waking && faults(id) == NoFault
    requires id in w.db.accounts && w.db.accounts[id] == rows[id] && rows[id].status == Active
    ensures Swept(w, SweepActives(w, now, false, waking, order, rows, faults).0, now, id)
    decreases |order|
  {
    var o := order[0];
    var w1 := SweepOne(w, now, false, waking, o, rows[o], faults(o)).0;
    var w' := SweepActives(w, now, false, waking, order, rows, faults).0;
    assert order == [o] + order[1..] && Apart(order[1..], rows);
    if id == o {
      OneIsSwept(w, now, waking, id);
      assert o !in order[1..];
      ActivesSpare(w1, now, waking, order[1..], rows, faults, id, rows[id].subdomain);
      SweptThrough(w, w, w1, w', now, id);
    } else {
      OneIsOwn(w, now, waking, o, rows[o], faults(o));
      assert rows[o].subdomain != rows[id].subdomain;
      OwnSparesSlots(w, w1, o, rows[o].subdomain, id, rows[id].subdomain);
      ActivesSwept(w1, now, waking, order[1..], rows, faults, id);
      SweptThrough(w, w1, w', w', now, id);
    }
  }

  lemma {:induction false} ActivesTold(w: World, now: int, waking: set<int>, order: seq<int>, rows: map<int, Row>,
                                       faults: Faults, k: nat)
    requires Apart(order, rows) && k < |order| && order[k] !in waking && faults(order[k]) == NoFault
    requires var id := order[k]; id in w.db.accounts && w.db.accounts[id] == rows[id] && rows[id].status == Active
    ensures |SweepActives(w, now, false, waking, order, rows, faults).1| == |order|
    ensures Told(w, now, order[k], SweepActives(w, now, false, waking, order, rows, faults).1[k])
    decreases |order|
  {
    var o, id := order[0], order[k];
    var w1 := SweepOne(w, now, false, waking, o, rows[o], faults(o)).0;
    assert order == [o] + order[1..] && Apart(order[1..], rows);
    OneEntryEach(w, now, waking, order, rows, faults);
    if k == 0 {
      OneIsSwept(w, now, waking, id);
    } else {
      OneIsOwn(w, now, waking, o, rows[o], faults(o));
      assert order[1..][k - 1] == id && o != id && rows[o].subdomain != rows[id].subdomain;
      OwnSparesSlots(w, w1, o, rows[o].subdomain, id, rows[id].subdomain);
      ActivesTold(w1, now, waking, order[1..], rows, faults, k - 1);
    }
  }

  /**
   * A whole real sweep does to every active account it can reach, and finds not just waking, exactly what is
   * due by its own install, and reports that.
   */
  lemma SweepDoesWhatIsDue(w: World, now: int, waking: set<int>, order: seq<int>, blocked: seq<int>, faults: Faults,
                           k: nat)
    requires SubdomainsUnique(w.db.accounts) && Listings(w, now, false, waking, order, blocked, faults)
    requires k < |order| && order[k] !in waking && faults(order[k]) == NoFault
    ensures var (w', entries) := Sweep(w, now, false, waking, order, blocked, faults);
      && Swept(w, w', now, order[k])
      && |entries| > k && Told(w, now, order[k], entries[k])
  {
    var rows, id := w.db.accounts, order[k];
    var sd := rows[id].subdomain;
    var w1 := SweepActives(w, now, false, waking, order, rows, faults).0;
    assert Apart(order, rows);
    ActivesSwept(w, now, waking, order, rows, faults, id);
    ActivesTold(w, now, waking, order, rows, faults, k);
    ActivesSettle(w, now, waking, order, rows, faults);
    forall o | o in blocked ensures o in w1.db.accounts && w1.db.accounts[o].subdomain != sd && o != id {
      assert o in rows && w1.db.accounts[o].subdomain == rows[o].subdomain && rows[o].status == Blocked;
    }
    BlockedsSpare(w1, now, blocked, w1.db.accounts, faults, id, sd);
    SweptThrough(w, w, w1, Sweep(w, now, false, waking, order, blocked, faults).0, now, id);
  }

  // ---------------------------------------------------------------------------
  // The blocked accounts

  /** From `w` to `w'` the install of a blocked account was stopped, if it ran, and is known stopped, if it is there. */
  ghost predicate PutDown(w: World, w': World, now: int, id: int) {
    id in w.db.accounts && id in w'.db.accounts &&
    var row := w.db.accounts[id];
    if row.subdomain !in w.installs then w'.db.accounts[id] == row && row.subdomain !in w'.installs
    else
      && w'.db.accounts[id] == row.(stoppedAt := Some(now))
      && row.subdomain in w'.installs && w'.installs[row.subdomain] == w.installs[row.subdomain].(running := false)
  }

  lemma OneIsPutDown(w: World, now: int, id: int)
    requires id in w.db.accounts && IsBlockedUnstopped(w.db.accounts[id])
    ensures PutDown(w, SweepBlocked(w, now, false, id, w.db.accounts[id], NoFault).0, now, id)
    ensures SameSlot(w, w, id, w.db.accounts[id].subdomain)
  {
    BlockedGoesDown(w, now, id);
  }

  lemma {:induction false} BlockedsPutDown(w: World, now: int, order: seq<int>, rows: map<int, Row>, faults: Faults,
                                           id: int)
    requires Apart(order, rows) && id in order && faults(id) == NoFault
    requires id in w.db.accounts && w.db.accounts[id] == rows[id] && IsBlockedUnstopped(rows[id])
    ensures PutDown(w, SweepBlockeds(w, now, false, order, rows, faults).0, now, id)
    decreases |order|
  {
    var o := order[0];
    var w1 := SweepBlocked(w, now, false, o, rows[o], faults(o)).0;
    assert order == [o] + order[1..] && Apart(order[1..], rows);
    var w' := SweepBlockeds(w, now, false, order, rows, faults).0;
    if id == o {
      OneIsPutDown(w, now, id);
      assert o !in order[1..];
      BlockedsSpare(w1, now, order[1..], rows, faults, id, rows[id].subdomain);
      PutDownThrough(w, w, w1, w', now, id);
    } else {
      BlockedIsOwn(w, now, o, rows[o], faults(o));
      assert rows[o].subdomain != rows[id].subdomain;
      OwnSparesSlots(w, w1, o, rows[o].subdomain, id, rows[id].subdomain);
      BlockedsPutDown(w1, now, order[1..], rows, faults, id);
      PutDownThrough(w, w1, w', w', now, id);
    }
  }

  lemma PutDownThrough(w: World, w1: World, w2: World, w3: World, now: int, id: int)
    requires id in w.db.accounts && PutDown(w1, w2, now, id)
    requires SameSlot(w, w1, id, w.db.accounts[id].subdomain) && SameSlot(w2, w3, id, w.db.accounts[id].subdomain)
    ensures PutDown(w, w3, now, id)
  {
  }

  /**
   * After a whole real sweep every blocked account without a stop mark whose calls succeed has no running
   * install: where there is one it is stopped, and the account marked.
   */
  lemma SweepPutsBlockedDown(w: World, now: int, waking: set<int>, order: seq<int>, blocked: seq<int>,
                             faults: Faults, id: int)
    requires SubdomainsUnique(w.db.accounts) && Listings(w, now, false, waking, order, blocked, faults)
    requires id in w.db.accounts && w.db.accounts[id].status == Blocked && w.db.accounts[id].stoppedAt.None?
    requires faults(id) == NoFault
    ensures var w' := Sweep(w, now, false, waking, order, blocked, faults).0; var row := w.db.accounts[id];
      && id in blocked && PutDown(w, w', now, id)
      && (row.subdomain in w'.installs ==> !w'.installs[row.subdomain].running)
  {
    var rows := w.db.accounts;
    var w1 := SweepActives(w, now, false, waking, order, rows, faults).0;
    ActivesSettle(w, now, waking, order, rows, faults);
    assert id !in order && SameAccount(w, w1, id);
    var rows1 := w1.db.accounts;
    forall o, p | o in blocked && p in blocked && rows1[o].subdomain == rows1[p].subdomain ensures o == p {
      assert rows[o].subdomain == rows[p].subdomain;
    }
    BlockedsPutDown(w1, now, blocked, rows1, faults, id);
  }

  /** And an account that is neither active nor blocked without a mark is left alone. */
  lemma SweepSparesTheRest(w: World, now: int, waking: set<int>, order: seq<int>, blocked: seq<int>, faults: Faults,
                           id: int)
    requires SubdomainsUnique(w.db.accounts) && Listings(w, now, false, waking, order, blocked, faults)
    requires id in w.db.accounts
    requires w.db.accounts[id].status == Pending
      || (w.db.accounts[id].status == Blocked && w.db.accounts[id].stoppedAt.Some?)
    ensures SameAccount(w, Sweep(w, now, false, waking, order, blocked, faults).0, id)
  {
    ActivesSettle(w, now, waking, order, w.db.accounts, faults);
    var w1 := SweepActives(w, now, false, waking, order, w.db.accounts, faults).0;
    assert SameAccount(w, w1, id);
    BlockedsSettle(w1, now, blocked, w1.db.accounts, faults);
  }
}
