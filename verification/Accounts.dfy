/**
 * The hub's accounts (hub/src/accounts-db.ts, hub/src/accounts-idle.ts): every write as the one
 * statement or transaction it is, the table that carries them out, and what any interleaving of
 * them keeps. Instants are milliseconds.
 */
module Accounts {
  import opened Ordered

  datatype Status = Pending | Active | Blocked

  datatype Row = Row(
    login: string,
    subdomain: string,
    status: Status,
    githubCreatedAt: int,
    createdAt: int,
    lastSeenAt: int,
    stoppedAt: Option<int>)

  datatype Reason = WasDeleted | WasBlocked
  datatype Tombstone = Tombstone(reason: Reason, at: int)

  /** Which generation of a GitHub id's row a write was decided on. */
  datatype Key = Key(githubId: int, createdAt: int)

  datatype Db = Db(accounts: map<int, Row>, tombstones: map<int, Tombstone>)

  datatype Signup = Signup(githubId: int, login: string, subdomain: string, githubCreatedAt: int, now: int)
  datatype Inserted = Reserved(account: Row) | AlreadyExists | CapReached | SubdomainTaken

  // ---------------------------------------------------------------------------
  // The writes

  predicate SubdomainHeld(accounts: map<int, Row>, subdomain: string) {
    exists id | id in accounts :: accounts[id].subdomain == subdomain
  }

  function PendingRow(i: Signup): Row {
    Row(i.login, i.subdomain, Pending, i.githubCreatedAt, i.now, i.now, None)
  }

  function Insert(db: Db, i: Signup, maxAccounts: nat): (Db, Inserted) {
    if i.githubId in db.accounts then (db, AlreadyExists)
    else if |db.accounts| >= maxAccounts then (db, CapReached)
    else if SubdomainHeld(db.accounts, i.subdomain) then (db, SubdomainTaken)
    else (db.(accounts := db.accounts[i.githubId := PendingRow(i)]), Reserved(PendingRow(i)))
  }

  /** Whether the row `key` names is still there, of that generation. */
  predicate Present(db: Db, key: Key) {
    key.githubId in db.accounts && db.accounts[key.githubId].createdAt == key.createdAt
  }

  function SetRow(db: Db, id: int, row: Row): Db {
    db.(accounts := db.accounts[id := row])
  }

  function DropRow(db: Db, id: int): Db {
    db.(accounts := db.accounts - {id})
  }

  function StatusTo(db: Db, key: Key, from: Status, to: Status): (Db, bool) {
    if Present(db, key) && db.accounts[key.githubId].status == from
    then (SetRow(db, key.githubId, db.accounts[key.githubId].(status := to)), true)
    else (db, false)
  }

  /** A write of `stopped_at` to an unmarked row of this generation and status. */
  function Mark(db: Db, key: Key, status: Status, at: int): (Db, bool) {
    if Present(db, key) && db.accounts[key.githubId].status == status && db.accounts[key.githubId].stoppedAt.None?
    then (SetRow(db, key.githubId, db.accounts[key.githubId].(stoppedAt := Some(at))), true)
    else (db, false)
  }

  function Unmarked(row: Row, seenAt: Option<int>): Row {
    row.(stoppedAt := None, lastSeenAt := if seenAt.Some? then seenAt.value else row.lastSeenAt)
  }

  function MarkStarted(db: Db, key: Key, seenAt: Option<int>): (Db, bool) {
    if Present(db, key) && db.accounts[key.githubId].stoppedAt.Some?
    then (SetRow(db, key.githubId, Unmarked(db.accounts[key.githubId], seenAt)), true)
    else (db, false)
  }

  function DeleteIdle(db: Db, key: Key): (Db, bool) {
    if Present(db, key) && db.accounts[key.githubId].status == Active then (DropRow(db, key.githubId), true)
    else (db, false)
  }

  function SetStatus(db: Db, id: int, status: Status): (Db, bool) {
    if id in db.accounts then (SetRow(db, id, db.accounts[id].(status := status)), true) else (db, false)
  }

  function Touch(db: Db, id: int, login: string, now: int): (Db, bool) {
    if id in db.accounts then (SetRow(db, id, db.accounts[id].(login := login, lastSeenAt := now)), true)
    else (db, false)
  }

  function DiscardPending(db: Db, id: int): (Db, bool) {
    if id in db.accounts && db.accounts[id].status == Pending then (DropRow(db, id), true) else (db, false)
  }

  function Delete(db: Db, id: int, reason: Reason, at: int): (Db, bool) {
    if id in db.accounts
    then (DropRow(db, id).(tombstones := db.tombstones[id := Tombstone(reason, at)]), true)
    else (db, false)
  }

  /** Everything that writes to the table: sign-ups and sign-ins, provisioning, the sweeper, the waker, the operator. */
  datatype Write =
    | WInsert(input: Signup)
    | WActivate(key: Key)
    | WBlock(key: Key)
    | WUnblock(githubId: int)
    | WTouch(githubId: int, login: string, now: int)
    | WMarkStopped(key: Key, at: int)
    | WMarkStoppedWhileBlocked(key: Key, at: int)
    | WMarkStarted(key: Key, seenAt: Option<int>)
    | WDeleteIdle(key: Key)
    | WDiscardPending(githubId: int)
    | WDelete(githubId: int, reason: Reason, at: int)

  function Apply(db: Db, maxAccounts: nat, w: Write): Db {
    match w
    case WInsert(input) => Insert(db, input, maxAccounts).0
    case WActivate(key) => StatusTo(db, key, Pending, Active).0
    case WBlock(key) => StatusTo(db, key, Active, Blocked).0
    case WUnblock(id) => SetStatus(db, id, Active).0
    case WTouch(id, login, now) => Touch(db, id, login, now).0
    case WMarkStopped(key, at) => Mark(db, key, Active, at).0
    case WMarkStoppedWhileBlocked(key, at) => Mark(db, key, Blocked, at).0
    case WMarkStarted(key, seenAt) => MarkStarted(db, key, seenAt).0
    case WDeleteIdle(key) => DeleteIdle(db, key).0
    case WDiscardPending(id) => DiscardPending(db, id).0
    case WDelete(id, reason, at) => Delete(db, id, reason, at).0
  }

  function Run(db: Db, maxAccounts: nat, ws: seq<Write>): Db
    decreases |ws|
  {
    if ws == [] then db else Run(Apply(db, maxAccounts, ws[0]), maxAccounts, ws[1..])
  }

  // ---------------------------------------------------------------------------
  // What every interleaving keeps

  ghost predicate SubdomainsUnique(accounts: map<int, Row>) {
    forall i, j | i in accounts && j in accounts && accounts[i].subdomain == accounts[j].subdomain :: i == j
  }

  ghost predicate Valid(db: Db, maxAccounts: nat) {
    && |db.accounts| <= maxAccounts
    && SubdomainsUnique(db.accounts)
    && PendingUnmarked(db.accounts)
  }

  predicate PendingUnmarked(accounts: map<int, Row>) {
    forall id | id in accounts && accounts[id].status == Pending :: accounts[id].stoppedAt.None?
  }

  predicate StatusMoves(from: Status, to: Status) {
    from == to || (from == Pending && to == Active) || (from == Active && to == Blocked)
        || (from == Blocked && to == Active)
  }

  function IdOf(w: Write): int {
    match w
    case WInsert(input) => input.githubId
    case WActivate(key) => key.githubId
    case WBlock(key) => key.githubId
    case WUnblock(id) => id
    case WTouch(id, _, _) => id
    case WMarkStopped(key, _) => key.githubId
    case WMarkStoppedWhileBlocked(key, _) => key.githubId
    case WMarkStarted(key, _) => key.githubId
    case WDeleteIdle(key) => key.githubId
    case WDiscardPending(id) => id
    case WDelete(id, _, _) => id
  }

  /** A later state of the same row: same generation and address, a status it may move to, unmarked while pending. */
  ghost predicate RowMoves(a: Row, b: Row) {
    && StatusMoves(a.status, b.status) && b.createdAt == a.createdAt && b.subdomain == a.subdomain
    && (b.status == Pending ==> b.stoppedAt == a.stoppedAt)
  }

  /** What a write can do to the table: nothing, or drop, move or insert the one row it names. */
  lemma WriteShape(db: Db, maxAccounts: nat, w: Write)
    requires PendingUnmarked(db.accounts)
    ensures var rows := Apply(db, maxAccounts, w).accounts; var id := IdOf(w);
      || rows == db.accounts
      || (id in db.accounts && rows == db.accounts - {id})
      || (id in db.accounts && id in rows && rows == db.accounts[id := rows[id]] && RowMoves(db.accounts[id], rows[id]))
      || (w.WInsert? && id !in db.accounts && rows == db.accounts[id := PendingRow(w.input)]
          && |db.accounts| < maxAccounts && !SubdomainHeld(db.accounts, w.input.subdomain))
  {
  }

  /** Moving, dropping or adding one row keeps the table well formed. */
  lemma RowsKept(accounts: map<int, Row>, rows: map<int, Row>, maxAccounts: nat, id: int)
    requires |accounts| <= maxAccounts && SubdomainsUnique(accounts) && PendingUnmarked(accounts)
    requires
      || rows == accounts
      || (id in accounts && rows == accounts - {id})
      || (id in accounts && id in rows && rows == accounts[id := rows[id]] && RowMoves(accounts[id], rows[id]))
      || (id !in accounts && id in rows && rows == accounts[id := rows[id]] && |accounts| < maxAccounts
          && rows[id].stoppedAt.None? && !SubdomainHeld(accounts, rows[id].subdomain))
    ensures |rows| <= maxAccounts && SubdomainsUnique(rows) && PendingUnmarked(rows)
  {
    assert (accounts - {id}).Keys == accounts.Keys - {id};
    assert id in rows ==> accounts[id := rows[id]].Keys == accounts.Keys + {id};
  }

  /** A write keeps the cap, unique subdomains and unmarked pending rows, and moves statuses one way round. */
  lemma WriteKeeps(db: Db, maxAccounts: nat, w: Write)
    requires Valid(db, maxAccounts)
    ensures Valid(Apply(db, maxAccounts, w), maxAccounts)
    ensures forall id | id in db.accounts && id in Apply(db, maxAccounts, w).accounts ::
      RowMoves(db.accounts[id], Apply(db, maxAccounts, w).accounts[id])
    ensures forall id | id !in db.accounts && id in Apply(db, maxAccounts, w).accounts ::
      w.WInsert? && Apply(db, maxAccounts, w).accounts[id] == PendingRow(w.input)
  {
    WriteShape(db, maxAccounts, w);
    RowsKept(db.accounts, Apply(db, maxAccounts, w).accounts, maxAccounts, IdOf(w));
  }

  /** Under every interleaving rows never exceed the cap, subdomains stay unique and pending rows unmarked. */
  lemma {:induction false} InterleavingKeeps(db: Db, maxAccounts: nat, ws: seq<Write>)
    requires Valid(db, maxAccounts)
    ensures Valid(Run(db, maxAccounts, ws), maxAccounts)
    decreases |ws|
  {
    if ws != [] {
      WriteKeeps(db, maxAccounts, ws[0]);
      InterleavingKeeps(Apply(db, maxAccounts, ws[0]), maxAccounts, ws[1..]);
    }
  }

  /** The writes that carry the generation they were decided on. */
  function DecidedOn(w: Write): Option<Key> {
    match w
    case WActivate(key) => Some(key)
    case WBlock(key) => Some(key)
    case WMarkStopped(key, _) => Some(key)
    case WMarkStoppedWhileBlocked(key, _) => Some(key)
    case WMarkStarted(key, _) => Some(key)
    case WDeleteIdle(key) => Some(key)
    case _ => None
  }

  /**
   * An activation, block, stop, start or idle-delete write changes nothing in a table that does not hold
   * the generation it was decided on, and never another account or a tombstone.
   */
  lemma DecidedWritesKeepToTheirGeneration(db: Db, maxAccounts: nat, w: Write)
    requires DecidedOn(w).Some?
    ensures var after := Apply(db, maxAccounts, w); var key := DecidedOn(w).value;
      && (!Present(db, key) ==> after == db)
      && after.accounts - {key.githubId} == db.accounts - {key.githubId} && after.tombstones == db.tombstones
  {
    var id := DecidedOn(w).value.githubId;
    assert Apply(db, maxAccounts, w).accounts - {id} == db.accounts - {id};
  }

  /** Only a deletion asked for by someone leaves a tombstone; a discarded sign-up or an idle removal leaves none. */
  lemma TombstonesOnlyByDeletion(db: Db, maxAccounts: nat, w: Write)
    ensures var after := Apply(db, maxAccounts, w);
      after.tombstones != db.tombstones ==>
        && w.WDelete? && w.githubId in db.accounts && w.githubId !in after.accounts
        && after.tombstones == db.tombstones[w.githubId := Tombstone(w.reason, w.at)]
  {
  }

  /** The row of exactly this generation. */
  function RowOf(db: Db, key: Key): Option<Row> {
    if key.githubId in db.accounts && db.accounts[key.githubId].createdAt == key.createdAt
    then Some(db.accounts[key.githubId]) else None
  }

  /** Of the table, only the row of `id` is different: it is `row`, or gone. */
  ghost predicate OnlyRow(db: Db, after: Db, id: int, row: Option<Row>) {
    && after.tombstones == db.tombstones
    && (forall o :: o in after.accounts <==> if o == id then row.Some? else o in db.accounts)
    && (forall o :: o in after.accounts ==> after.accounts[o] == if o == id then row.value else db.accounts[o])
  }

  /** What a write decided on a generation leaves of that generation's row, and of nothing else. */
  lemma DecidedWriteMeans(db: Db, maxAccounts: nat, w: Write)
    requires DecidedOn(w).Some? && RowOf(db, DecidedOn(w).value).Some?
    ensures var key := DecidedOn(w).value; var row := RowOf(db, key).value;
      OnlyRow(db, Apply(db, maxAccounts, w), key.githubId,
        match w
        case WActivate(_) => Some(if row.status == Pending then row.(status := Active) else row)
        case WBlock(_) => Some(if row.status == Active then row.(status := Blocked) else row)
        case WMarkStopped(_, at) =>
          Some(if row.status == Active && row.stoppedAt.None? then row.(stoppedAt := Some(at)) else row)
        case WMarkStoppedWhileBlocked(_, at) =>
          Some(if row.status == Blocked && row.stoppedAt.None? then row.(stoppedAt := Some(at)) else row)
        case WMarkStarted(_, seenAt) =>
          Some(if row.stoppedAt.None? then row
               else if seenAt.None? then row.(stoppedAt := None)
               else row.(stoppedAt := None, lastSeenAt := seenAt.value))
        case _ => if row.status == Active then None else Some(row))
  {
  }

  /** What the writes keyed by the GitHub id alone leave. */
  lemma KeyedWriteMeans(db: Db, maxAccounts: nat, id: int, login: string, now: int, reason: Reason)
    requires id in db.accounts
    ensures var row := db.accounts[id]; var gone := Apply(db, maxAccounts, WDelete(id, reason, now));
      && OnlyRow(db, Apply(db, maxAccounts, WUnblock(id)), id, Some(row.(status := Active)))
      && OnlyRow(db, Apply(db, maxAccounts, WTouch(id, login, now)), id,
            Some(row.(login := login, lastSeenAt := now)))
      && OnlyRow(db, Apply(db, maxAccounts, WDiscardPending(id)), id,
            if row.status == Pending then None else Some(row))
      && OnlyRow(db, gone.(tombstones := db.tombstones), id, None)
      && gone.tombstones == db.tombstones[id := Tombstone(reason, now)]
  {
  }

  /** A sign-up takes effect exactly for a new id, below the cap, at an address nobody has; refused in that order. */
  lemma InsertMeans(db: Db, maxAccounts: nat, input: Signup)
    ensures var (after, result) := Insert(db, input, maxAccounts);
      && (result == AlreadyExists <==> input.githubId in db.accounts)
      && (result == CapReached <==> input.githubId !in db.accounts && |db.accounts| >= maxAccounts)
      && (result == SubdomainTaken <==>
            input.githubId !in db.accounts && |db.accounts| < maxAccounts
            && exists o :: o in db.accounts && db.accounts[o].subdomain == input.subdomain)
      && (!result.Reserved? ==> after == db)
      && (result.Reserved? ==>
            && result.account == Row(input.login, input.subdomain, Pending, input.githubCreatedAt, input.now, input.now,
                None)
            && OnlyRow(db, after, input.githubId, Some(result.account)))
  {
  }

  /** A write to a row that is not there does nothing, unless it is its sign-up. */
  lemma WriteToNobody(db: Db, maxAccounts: nat, w: Write)
    requires IdOf(w) !in db.accounts && !w.WInsert?
    ensures Apply(db, maxAccounts, w) == db
  {
  }

  /**
   * A block holds: over any sequence of writes without an unblock or a deletion of the account, its row stays
   * there, blocked, of the same generation and at the same address.
   */
  lemma {:induction false} BlockHolds(db: Db, maxAccounts: nat, id: int, ws: seq<Write>)
    requires id in db.accounts && db.accounts[id].status == Blocked
    requires forall w :: w in ws ==> w != WUnblock(id) && !(w.WDelete? && w.githubId == id)
    ensures var after := Run(db, maxAccounts, ws).accounts;
      && id in after && after[id].status == Blocked
      && after[id].createdAt == db.accounts[id].createdAt && after[id].subdomain == db.accounts[id].subdomain
    decreases |ws|
  {
    if ws != [] {
      assert ws[0] in ws && forall w :: w in ws[1..] ==> w in ws;
      BlockHolds(Apply(db, maxAccounts, ws[0]), maxAccounts, id, ws[1..]);
    }
  }

  // ---------------------------------------------------------------------------
  // The table

  class AccountsDb {
    var accounts: map<int, Row>
    var tombstones: map<int, Tombstone>

    function View(): Db
      reads this
    {
      Db(accounts, tombstones)
    }

    constructor ()
      ensures View() == Db(map[], map[])
    {
      accounts, tombstones := map[], map[];
    }

    /** Reserves a seat in one transaction. */
    method InsertAccount(input: Signup, maxAccounts: nat) returns (result: Inserted)
      modifies this
      ensures (View(), result) == Insert(old(View()), input, maxAccounts)
    {
      if input.githubId in accounts {
        return AlreadyExists;
      }
      if |accounts| >= maxAccounts {
        return CapReached;
      }
      if SubdomainHeld(accounts, input.subdomain) {
        return SubdomainTaken;
      }
      accounts := accounts[input.githubId := PendingRow(input)];
      return Reserved(PendingRow(input));
    }

    method ActivatePendingAccount(key: Key) returns (changed: bool)
      modifies this
      ensures changed <==> RowOf(old(View()), key).Some? && RowOf(old(View()), key).value.status == Pending
      ensures (View(), changed) == StatusTo(old(View()), key, Pending, Active)
    {
      changed := UpdateStatus(key, Pending, Active);
    }

    method BlockActiveAccount(key: Key) returns (changed: bool)
      modifies this
      ensures changed <==> RowOf(old(View()), key).Some? && RowOf(old(View()), key).value.status == Active
      ensures (View(), changed) == StatusTo(old(View()), key, Active, Blocked)
    {
      changed := UpdateStatus(key, Active, Blocked);
    }

    method UpdateStatus(key: Key, from: Status, to: Status) returns (changed: bool)
      modifies this
      ensures (View(), changed) == StatusTo(old(View()), key, from, to)
    {
      changed := Present(View(), key) && accounts[key.githubId].status == from;
      if changed {
        accounts := accounts[key.githubId := accounts[key.githubId].(status := to)];
      }
    }

    method MarkStoppedAt(key: Key, status: Status, at: int) returns (changed: bool)
      modifies this
      ensures changed <==>
        && RowOf(old(View()), key).Some? && RowOf(old(View()), key).value.status == status
        && RowOf(old(View()), key).value.stoppedAt.None?
      ensures (View(), changed) == Mark(old(View()), key, status, at)
    {
      changed := Present(View(), key) && accounts[key.githubId].status == status
          && accounts[key.githubId].stoppedAt.None?;
      if changed {
        accounts := accounts[key.githubId := accounts[key.githubId].(stoppedAt := Some(at))];
      }
    }

    method ClearStopMark(key: Key, seenAt: Option<int>) returns (changed: bool)
      modifies this
      ensures changed <==> RowOf(old(View()), key).Some? && RowOf(old(View()), key).value.stoppedAt.Some?
      ensures (View(), changed) == MarkStarted(old(View()), key, seenAt)
    {
      changed := Present(View(), key) && accounts[key.githubId].stoppedAt.Some?;
      if changed {
        accounts := accounts[key.githubId := Unmarked(accounts[key.githubId], seenAt)];
      }
    }

    method DeleteIdleAccount(key: Key) returns (changed: bool)
      modifies this
      ensures changed <==> RowOf(old(View()), key).Some? && RowOf(old(View()), key).value.status == Active
      ensures (View(), changed) == DeleteIdle(old(View()), key)
    {
      changed := Present(View(), key) && accounts[key.githubId].status == Active;
      if changed {
        accounts := accounts - {key.githubId};
      }
    }

    /** The operator's `unblock`. */
    method SetAccountStatus(id: int, status: Status) returns (found: bool)
      modifies this
      ensures found <==> id in old(accounts)
      ensures (View(), found) == SetStatus(old(View()), id, status)
    {
      found := id in accounts;
      if found {
        accounts := accounts[id := accounts[id].(status := status)];
      }
    }

    /** A sign-in: the login of the day and the time; the address stays. */
    method TouchAccount(id: int, login: string, now: int) returns (found: bool)
      modifies this
      ensures found <==> id in old(accounts)
      ensures (View(), found) == Touch(old(View()), id, login, now)
    {
      found := id in accounts;
      if found {
        accounts := accounts[id := accounts[id].(login := login, lastSeenAt := now)];
      }
    }

    method DiscardPendingAccount(id: int) returns (changed: bool)
      modifies this
      ensures changed <==> id in old(accounts) && old(accounts)[id].status == Pending
      ensures (View(), changed) == DiscardPending(old(View()), id)
    {
      changed := id in accounts && accounts[id].status == Pending;
      if changed {
        accounts := accounts - {id};
      }
    }

    method DeleteAccount(id: int, reason: Reason, at: int) returns (deleted: bool)
      modifies this
      ensures deleted <==> id in old(accounts)
      ensures (View(), deleted) == Delete(old(View()), id, reason, at)
    {
      deleted := id in accounts;
      if deleted {
        accounts := accounts - {id};
        tombstones := tombstones[id := Tombstone(reason, at)];
      }
    }
  }
}
