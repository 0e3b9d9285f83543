/**
 * The ledger behind the bridge's retries (src/bridge/retry.ts): a value model of every
 * operation, the class that carries them out in place, and what holds over any sequence of them.
 */
module RetryBook {
  import opened Ordered
  import Decimal

  /** A JSON-RPC id. Original ids are kept as keys: `idKeyOf` is injective. */
  datatype Id = Null | Number(n: int) | Text(s: string)

  const RETRY_ID_PREFIX := "mcpcut-bridge-retry:"
  const MAX_BOOK_CALLS := 1024
  const MAX_REMEMBERED := 256

  function AttemptId(n: nat): Id {
    Text(RETRY_ID_PREFIX + Decimal.Text(n))
  }

  predicate IsBridgeId(id: Id) {
    id.Text? && RETRY_ID_PREFIX <= id.s
  }

  lemma AttemptIdInjective(m: nat, n: nat)
    requires AttemptId(m) == AttemptId(n)
    ensures m == n
  {
    assert Decimal.Text(m) == AttemptId(m).s[|RETRY_ID_PREFIX|..];
    assert Decimal.Text(n) == AttemptId(n).s[|RETRY_ID_PREFIX|..];
    Decimal.TextInjective(m, n);
  }

  /** Whether `id` is among the first `n` attempt ids handed out. */
  ghost predicate Issued(id: Id, n: nat) {
    exists k: nat :: 1 <= k <= n && id == AttemptId(k)
  }

  /**
   * `calls` maps a tracked call to the attempt out now, oldest call first; `attempts` is the way
   * back from an attempt to its call; the other two remember what was answered and cancelled.
   */
  datatype Book = Book(
    counter: nat,
    calls: OMap<Id, Option<Id>>,
    attempts: map<Id, Id>,
    answered: seq<Id>,
    cancelled: seq<Id>)

  /** What becomes of an answer: passed on as it is, dropped, or passed on under `id`. */
  datatype Route = NotOurs | Drop | DeliverAs(id: Id)

  const EMPTY_BOOK := Book(0, EmptyMap(), map[], [], [])

  function Remember(s: seq<Id>, key: Id, max: nat): seq<Id> {
    var rest := Without(s, key);
    (if |rest| >= max && rest != [] then rest[1..] else rest) + [key]
  }

  function Begin(b: Book, id: Id): Book {
    var room := if |b.calls.order| >= MAX_BOOK_CALLS then b.calls.DeleteOldest() else b.calls;
    b.(answered := Without(b.answered, id), cancelled := Without(b.cancelled, id), calls := room.Put(id, None))
  }

  function NextAttempt(b: Book, id: Id): (Book, Id) {
    var a := AttemptId(b.counter + 1);
    (b.(counter := b.counter + 1,
        calls := if id in b.calls.vals then b.calls.Put(id, Some(a)) else b.calls,
        attempts := b.attempts[a := id]),
     a)
  }

  function AttemptFailed(b: Book, id: Id): Book {
    if id in b.calls.vals && b.calls.vals[id].Some?
    then b.(attempts := b.attempts - {b.calls.vals[id].value}, calls := b.calls.Put(id, None))
    else b
  }

  function AnswerFor(b: Book, id: Id): (Book, Route) {
    if id == Null then (b, NotOurs)
    else
      var viaAttempt := id.Text? && id in b.attempts;
      var original := if viaAttempt then b.attempts[id] else id;
      var b1 := if viaAttempt then b.(attempts := b.attempts - {id}) else b;
      if original in b.answered then (b1, Drop)
      else if !viaAttempt && id !in b.calls.vals then (b1, NotOurs)
      else (b1.(answered := Remember(b.answered, original, MAX_REMEMBERED), calls := b.calls.Delete(original)),
            DeliverAs(original))
  }

  function Cancel(b: Book, id: Id): (Book, Option<Id>) {
    if id == Null || id !in b.calls.vals then (b, None)
    else (b.(cancelled := Remember(b.cancelled, id, MAX_REMEMBERED), calls := b.calls.Delete(id)), b.calls.vals[id])
  }

  function Forget(b: Book, id: Id): Book {
    b.(calls := b.calls.Delete(id))
  }

  predicate IsEmpty(b: Book) {
    b.calls.order == [] && b.attempts == map[]
  }

  /** The bounds, the disjointness of the three ledgers, and the way back of every live attempt. */
  ghost predicate Valid(b: Book) {
    && b.calls.Valid() && |b.calls.order| <= MAX_BOOK_CALLS
    && Distinct(b.answered) && |b.answered| <= MAX_REMEMBERED
    && Distinct(b.cancelled) && |b.cancelled| <= MAX_REMEMBERED
    && (forall k | k in b.calls.vals :: k !in b.answered && k !in b.cancelled)
    && (forall k | k in b.calls.vals && b.calls.vals[k].Some? :: LeadsBack(b, b.calls.vals[k].value, k))
    && (forall a | a in b.attempts :: Issued(a, b.counter))
  }

  ghost predicate LeadsBack(b: Book, attempt: Id, call: Id) {
    attempt in b.attempts && b.attempts[attempt] == call
  }

  lemma RememberProperties(s: seq<Id>, key: Id, max: nat)
    requires Distinct(s) && |s| <= max && max > 0
    ensures var r := Remember(s, key, max);
      && Distinct(r) && |r| <= max && key in r
      && (forall x :: x in r ==> x == key || x in s)
  {
    WithoutDistinct(s, key);
    WithoutElements(s, key);
    var rest := Without(s, key);
    var kept := if |rest| >= max && rest != [] then rest[1..] else rest;
    assert forall x :: x in kept ==> x in rest;
  }

  lemma FreshAttempt(b: Book)
    requires Valid(b)
    ensures AttemptId(b.counter + 1) !in b.attempts
    ensures Issued(AttemptId(b.counter + 1), b.counter + 1)
  {
    var a := AttemptId(b.counter + 1);
    if a in b.attempts {
      assert Issued(a, b.counter);
      var k: nat :| 1 <= k <= b.counter && a == AttemptId(k);
      AttemptIdInjective(k, b.counter + 1);
    }
  }

  // ---------------------------------------------------------------------------
  // What each operation does to every call

  /**
   * A begun call is tracked, newest, with no attempt out, and is neither answered nor cancelled; of the
   * others only the oldest of 1,024 tracked ones is given up, and nothing else changes.
   */
  lemma BeginMeans(b: Book, id: Id)
    requires Valid(b)
    ensures var b' := Begin(b, id); var full := |b.calls.order| == 1024;
      && id in b'.calls.vals && b'.calls.vals[id] == None && id !in b'.answered && id !in b'.cancelled
      && (id !in b.calls.vals
          ==> b'.calls.order == (if full then b.calls.order[1..] else b.calls.order) + [id])
      && (forall k :: k != id ==>
          && (k in b'.calls.vals <==> k in b.calls.vals && !(full && k == b.calls.order[0]))
          && (k in b'.calls.vals ==> b'.calls.vals[k] == b.calls.vals[k])
          && (k in b'.answered <==> k in b.answered) && (k in b'.cancelled <==> k in b.cancelled))
      && b'.attempts == b.attempts && b'.counter == b.counter
  {
    WithoutElements(b.answered, id);
    WithoutElements(b.cancelled, id);
    if b.calls.order != [] {
      WithoutAt(b.calls.order, 0);
    }
  }

  /** The next attempt has an id never used as one, which leads back to its call and no other. */
  lemma NextAttemptMeans(b: Book, id: Id)
    requires Valid(b)
    ensures var (b', a) := NextAttempt(b, id);
      && a == Text("mcpcut-bridge-retry:" + Decimal.Text(b.counter + 1)) && a !in b.attempts
      && b'.attempts == b.attempts[a := id] && b'.counter == b.counter + 1
      && (id in b.calls.vals ==> b'.calls.vals == b.calls.vals[id := Some(a)])
      && (id !in b.calls.vals ==> b'.calls.vals == b.calls.vals)
      && b'.calls.order == b.calls.order && b'.answered == b.answered && b'.cancelled == b.cancelled
  {
    FreshAttempt(b);
  }

  /** A failed attempt no longer leads back to its call, which stays tracked with no attempt out. */
  lemma AttemptFailedMeans(b: Book, id: Id)
    requires Valid(b)
    ensures var b' := AttemptFailed(b, id);
      && (forall a :: a in b'.attempts <==>
          a in b.attempts && !(id in b.calls.vals && b.calls.vals[id] == Some(a)))
      && (forall a :: a in b'.attempts ==> b'.attempts[a] == b.attempts[a])
      && (forall k :: k in b'.calls.vals <==> k in b.calls.vals)
      && (forall k :: k in b'.calls.vals ==> b'.calls.vals[k] == if k == id then None else b.calls.vals[k])
      && b'.calls.order == b.calls.order
      && b'.answered == b.answered && b'.cancelled == b.cancelled && b'.counter == b.counter
  {
  }

  /** The call an answer under `id` belongs to: the one an attempt leads back to, or `id`'s own. */
  function OwnerOf(b: Book, id: Id): Id {
    if id.Text? && id in b.attempts then b.attempts[id] else id
  }

  /**
   * An answer is dropped exactly if its call is remembered as answered. Otherwise it is handed back for its
   * call exactly if it came under an attempt or its call is tracked; the call is then answered, and no longer
   * tracked. An attempt leads back once, and no other call is touched.
   */
  lemma AnswerForMeans(b: Book, id: Id)
    requires Valid(b)
    ensures var (b', route) := AnswerFor(b, id); var owner := OwnerOf(b, id);
      && (route == Drop <==> id != Null && owner in b.answered)
      && (route.DeliverAs? <==>
          id != Null && owner !in b.answered && ((id.Text? && id in b.attempts) || id in b.calls.vals))
      && (route.DeliverAs? ==> route.id == owner && owner in b'.answered)
      && (forall k :: k in b'.calls.vals <==> k in b.calls.vals && !(route.DeliverAs? && k == owner))
      && (forall k :: k in b'.calls.vals ==> b'.calls.vals[k] == b.calls.vals[k])
      && b'.attempts == (if id.Text? then b.attempts - {id} else b.attempts)
      && (!route.DeliverAs? ==> b'.answered == b.answered)
      && b'.cancelled == b.cancelled && b'.counter == b.counter
  {
    NewestRemembered(b.answered, OwnerOf(b, id), MAX_REMEMBERED);
    if id.Text? && id !in b.attempts {
      assert b.attempts - {id} == b.attempts;
    }
  }

  /** A cancel counts exactly for a tracked call: it is remembered, gives up its tracking and names the attempt out. */
  lemma CancelMeans(b: Book, id: Id)
    requires Valid(b) && id != Null
    ensures var (b', live) := Cancel(b, id);
      && (forall k :: k in b'.calls.vals <==> k in b.calls.vals && k != id)
      && (forall k :: k in b'.calls.vals ==> b'.calls.vals[k] == b.calls.vals[k])
      && (id in b.calls.vals ==> live == b.calls.vals[id] && id in b'.cancelled && After(b'.cancelled, id) == {})
      && (id !in b.calls.vals ==> live == None && b' == b)
      && b'.attempts == b.attempts && b'.answered == b.answered && b'.counter == b.counter
  {
    NewestRemembered(b.cancelled, id, MAX_REMEMBERED);
  }

  /** What a bounded list remembers: the newest last, without duplicates, and the oldest forgotten only when full. */
  lemma RememberMeans(s: seq<Id>, key: Id, max: nat)
    requires Distinct(s) && |s| <= max && max > 0
    ensures var r := Remember(s, key, max);
      && r != [] && r[|r| - 1] == key
      && (forall x :: x in s && x != key ==> x in r || (|s| == max && key !in s && x == s[0]))
      && (key !in s ==> r == (if |s| == max then s[1..] else s) + [key])
  {
    WithoutDistinct(s, key);
    WithoutElements(s, key);
  }

  // ---------------------------------------------------------------------------
  // Any sequence of operations

  datatype Op =
    | OpBegin(id: Id)
    | OpNextAttempt(id: Id)
    | OpAttemptFailed(id: Id)
    | OpAnswer(id: Id)
    | OpCancel(id: Id)
    | OpForget(id: Id)

  function Apply(b: Book, op: Op): Book {
    match op
    case OpBegin(id) => Begin(b, id)
    case OpNextAttempt(id) => NextAttempt(b, id).0
    case OpAttemptFailed(id) => AttemptFailed(b, id)
    case OpAnswer(id) => AnswerFor(b, id).0
    case OpCancel(id) => Cancel(b, id).0
    case OpForget(id) => Forget(b, id)
  }

  /** The original id an operation hands back to deliver an answer under, if it does. */
  function HandsBack(b: Book, op: Op): set<Id> {
    if op.OpAnswer? && AnswerFor(b, op.id).1.DeliverAs? then {AnswerFor(b, op.id).1.id} else {}
  }

  function Run(b: Book, ops: seq<Op>): Book
    decreases |ops|
  {
    if ops == [] then b else Run(Apply(b, ops[0]), ops[1..])
  }

  /** Every id handed back along `ops`. */
  function HandedBack(b: Book, ops: seq<Op>): set<Id>
    decreases |ops|
  {
    if ops == [] then {} else HandsBack(b, ops[0]) + HandedBack(Apply(b, ops[0]), ops[1..])
  }

  lemma BeginValid(b: Book, id: Id)
    requires Valid(b)
    ensures Valid(Begin(b, id))
  {
    WithoutDistinct(b.answered, id);
    WithoutElements(b.answered, id);
    WithoutDistinct(b.cancelled, id);
    WithoutElements(b.cancelled, id);
    if b.calls.order != [] {
      DeleteValid(b.calls, b.calls.order[0]);
    }
    var room := if |b.calls.order| >= MAX_BOOK_CALLS then b.calls.DeleteOldest() else b.calls;
    PutValid(room, id, None);
  }

  lemma NextAttemptValid(b: Book, id: Id)
    requires Valid(b)
    ensures Valid(NextAttempt(b, id).0)
  {
    var (b', a') := NextAttempt(b, id);
    FreshAttempt(b);
    PutValid(b.calls, id, Some(a'));
    forall a | a in b'.attempts ensures Issued(a, b'.counter) {
      assert a in b.attempts ==> Issued(a, b.counter);
    }
  }

  /** Marking a call answered takes it out of the tracked ones, with the attempts that led to it. */
  lemma MarkedValid(b: Book, gone: set<Id>, original: Id)
    requires Valid(b) && forall a | a in gone && a in b.attempts :: b.attempts[a] == original
    ensures Valid(b.(attempts := b.attempts - gone, answered := Remember(b.answered, original, MAX_REMEMBERED),
                     calls := b.calls.Delete(original)))
  {
    DeleteValid(b.calls, original);
    RememberProperties(b.answered, original, MAX_REMEMBERED);
  }

  lemma AnswerForValid(b: Book, id: Id)
    requires Valid(b)
    ensures Valid(AnswerFor(b, id).0)
  {
    if id.Text? && id in b.attempts {
      if b.attempts[id] !in b.answered {
        MarkedValid(b, {id}, b.attempts[id]);
      }
    } else {
      MarkedValid(b, {}, id);
      assert b.attempts - {} == b.attempts;
    }
  }

  lemma CancelValid(b: Book, id: Id)
    requires Valid(b)
    ensures Valid(Cancel(b, id).0)
  {
    DeleteValid(b.calls, id);
    RememberProperties(b.cancelled, id, MAX_REMEMBERED);
  }

  lemma ValidStep(b: Book, op: Op)
    requires Valid(b)
    ensures Valid(Apply(b, op))
  {
    match op {
      case OpBegin(id) => BeginValid(b, id);
      case OpNextAttempt(id) => NextAttemptValid(b, id);
      case OpAttemptFailed(id) => PutValid(b.calls, id, None);
      case OpAnswer(id) => AnswerForValid(b, id);
      case OpCancel(id) => CancelValid(b, id);
      case OpForget(id) => DeleteValid(b.calls, id);
    }
  }

  /** Every operation sequence keeps the bounds, the disjointness and the ways back. */
  lemma {:induction false} RunStaysValid(b: Book, ops: seq<Op>)
    requires Valid(b)
    ensures Valid(Run(b, ops))
    decreases |ops|
  {
    if ops != [] {
      ValidStep(b, ops[0]);
      RunStaysValid(Apply(b, ops[0]), ops[1..]);
    }
  }

  /** `key` is remembered as answered, and only ids in `others` were remembered after it. */
  ghost predicate Remembered(b: Book, key: Id, others: set<Id>) {
    key in b.answered && After(b.answered, key) <= others && key !in others
  }

  lemma RememberKeepsOthers(s: seq<Id>, key: Id, other: Id, max: nat)
    requires Distinct(s) && key in s && key != other && max > 0
    requires |After(s, key) + {other}| < max
    ensures key in Remember(s, other, max)
    ensures After(Remember(s, other, max), key) <= After(s, key) + {other}
  {
    WithoutDistinct(s, other);
    WithoutElements(s, other);
    AfterWithout(s, other, key);
    var rest := Without(s, other);
    if rest != [] && rest[0] == key {
      AfterHead(rest);
      assert After(rest, key) + {other} == After(s, key) + {other};
      assert |After(rest, key) + {other}| == |rest|;
    }
    if |rest| >= max {
      assert After(rest, key) == After(rest[1..], key);
      assert rest == [rest[0]] + rest[1..];
      AfterAppend(rest[1..], other, key);
    } else {
      AfterAppend(rest, other, key);
    }
  }

  lemma RememberedStep(b: Book, op: Op, key: Id, others: set<Id>)
    requires Valid(b) && Remembered(b, key, others)
    requires op != OpBegin(key)
    requires |others + HandsBack(b, op)| < MAX_REMEMBERED
    ensures key !in HandsBack(b, op)
    ensures Remembered(Apply(b, op), key, others + HandsBack(b, op))
  {
    match op {
      case OpBegin(id) =>
        WithoutElements(b.answered, id);
        AfterWithout(b.answered, id, key);
      case OpAnswer(id) =>
        var (b', route) := AnswerFor(b, id);
        if route.DeliverAs? {
          assert route.id != key;
          SubsetSize(After(b.answered, key) + {route.id}, others + {route.id});
          RememberKeepsOthers(b.answered, key, route.id, MAX_REMEMBERED);
        }
      case _ =>
    }
  }

  lemma {:induction false} NotHandedBackAgain(b: Book, ops: seq<Op>, key: Id, others: set<Id>)
    requires Valid(b) && Remembered(b, key, others)
    requires OpBegin(key) !in ops
    requires |others + HandedBack(b, ops)| < MAX_REMEMBERED
    ensures key !in HandedBack(b, ops)
    decreases |ops|
  {
    if ops != [] {
      var here := HandsBack(b, ops[0]);
      assert OpBegin(key) != ops[0] && OpBegin(key) !in ops[1..];
      SubsetSize(others + here, others + HandedBack(b, ops));
      RememberedStep(b, ops[0], key, others);
      ValidStep(b, ops[0]);
      assert others + here + HandedBack(Apply(b, ops[0]), ops[1..]) == others + HandedBack(b, ops);
      NotHandedBackAgain(Apply(b, ops[0]), ops[1..], key, others + here);
    }
  }

  /**
   * Between two `begin`s of a call its original id is handed back at most once: after an answer was
   * routed to `key`, no later operation hands it back while fewer than 256 ids in all are handed back.
   */
  lemma HandedBackOnce(b: Book, id: Id, key: Id, ops: seq<Op>)
    requires Valid(b) && AnswerFor(b, id).1 == DeliverAs(key)
    requires OpBegin(key) !in ops
    requires |HandedBack(AnswerFor(b, id).0, ops)| < MAX_REMEMBERED
    ensures key !in HandedBack(AnswerFor(b, id).0, ops)
  {
    var b1 := AnswerFor(b, id).0;
    AnswerForValid(b, id);
    NewestRemembered(b.answered, key, MAX_REMEMBERED);
    assert {} + HandedBack(b1, ops) == HandedBack(b1, ops);
    NotHandedBackAgain(b1, ops, key, {});
  }

  lemma NewestRemembered(s: seq<Id>, key: Id, max: nat)
    ensures key in Remember(s, key, max) && After(Remember(s, key, max), key) == {}
  {
    WithoutElements(s, key);
    var rest := Without(s, key);
    var kept := if |rest| >= max && rest != [] then rest[1..] else rest;
    assert forall x :: x in kept ==> x in rest;
    AfterLast(kept, key);
  }

  lemma {:induction false} AfterLast(s: seq<Id>, key: Id)
    requires key !in s
    ensures After(s + [key], key) == {}
  {
    if s != [] {
      assert (s + [key])[1..] == s[1..] + [key];
      AfterLast(s[1..], key);
    }
  }

  // ---------------------------------------------------------------------------
  // The ledger the bridge holds

  class Ledger {
    var counter: nat
    var calls: OMap<Id, Option<Id>>
    var attempts: map<Id, Id>
    var answered: seq<Id>
    var cancelled: seq<Id>

    function View(): Book
      reads this
    {
      Book(counter, calls, attempts, answered, cancelled)
    }

    constructor ()
      ensures View() == EMPTY_BOOK
    {
      counter, calls, attempts, answered, cancelled := 0, EmptyMap(), map[], [], [];
    }

    method DoBegin(id: Id)
      modifies this
      ensures View() == Begin(old(View()), id)
    {
      answered := Without(answered, id);
      cancelled := Without(cancelled, id);
      if |calls.order| >= MAX_BOOK_CALLS {
        calls := calls.DeleteOldest();
      }
      calls := calls.Put(id, None);
    }

    method DoNextAttempt(id: Id) returns (attempt: Id)
      modifies this
      ensures (View(), attempt) == NextAttempt(old(View()), id)
    {
      counter := counter + 1;
      attempt := AttemptId(counter);
      if id in calls.vals {
        calls := calls.Put(id, Some(attempt));
      }
      attempts := attempts[attempt := id];
    }

    method DoAttemptFailed(id: Id)
      modifies this
      ensures View() == AttemptFailed(old(View()), id)
    {
      if id !in calls.vals || calls.vals[id].None? {
        return;
      }
      attempts := attempts - {calls.vals[id].value};
      calls := calls.Put(id, None);
    }

    method MarkAnswered(key: Id)
      modifies this
      ensures answered == Remember(old(answered), key, MAX_REMEMBERED) && calls == old(calls).Delete(key)
      ensures counter == old(counter) && attempts == old(attempts) && cancelled == old(cancelled)
    {
      answered := Remember(answered, key, MAX_REMEMBERED);
      calls := calls.Delete(key);
    }

    method DoAnswerFor(id: Id) returns (route: Route)
      modifies this
      ensures (View(), route) == AnswerFor(old(View()), id)
    {
      if id == Null {
        return NotOurs;
      }
      var original := id;
      var viaAttempt := id.Text? && id in attempts;
      if viaAttempt {
        original := attempts[id];
        attempts := attempts - {id};
      }
      if original in answered {
        return Drop;
      }
      if !viaAttempt && original !in calls.vals {
        return NotOurs;
      }
      MarkAnswered(original);
      return DeliverAs(original);
    }

    method DoCancel(id: Id) returns (live: Option<Id>)
      modifies this
      ensures (View(), live) == Cancel(old(View()), id)
    {
      if id == Null || id !in calls.vals {
        return None;
      }
      live := calls.vals[id];
      cancelled := Remember(cancelled, id, MAX_REMEMBERED);
      calls := calls.Delete(id);
    }

    method DoForget(id: Id)
      modifies this
      ensures View() == Forget(old(View()), id)
    {
      calls := calls.Delete(id);
    }
  }
}
