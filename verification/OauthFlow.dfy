/** The hub's open sign-in flows (hub/src/oauth-flow.ts): an expiry table kept in insertion order. */
module OauthFlow {
  import opened Ordered

  /** `digest` stands for SHA-256 of a state value. */
  datatype Options = Options(ttlMs: int, maxEntries: int, digest: string -> string)

  /** What `createOauthFlows` accepts. */
  predicate Accepted(o: Options) {
    o.ttlMs > 0 && o.maxEntries >= 1
  }

  /** Different values have different digests. */
  ghost predicate Injective(o: Options) {
    forall s, t :: o.digest(s) == o.digest(t) ==> s == t
  }

  datatype Entry = Entry(stateDigest: string, verifier: string, expiresAt: int)

  type Flows = OMap<string, Entry>

  datatype Refusal = Missing | UnknownFlow | Expired | StateMismatch

  datatype Completion = Redeemed(verifier: string) | Refused(reason: Refusal)

  /** The sweep: oldest flows go until the first that is still live. */
  function Swept(flows: Flows, now: int): Flows
    requires flows.Valid()
    decreases |flows.order|
  {
    if flows.order == [] || flows.vals[flows.order[0]].expiresAt > now then flows
    else
      DeleteValid(flows, flows.order[0]);
      Swept(flows.DeleteOldest(), now)
  }

  /** The oldest flows go until one more fits. */
  function Fitted(flows: Flows, maxEntries: int): Flows
    requires flows.Valid()
    decreases |flows.order|
  {
    if flows.order == [] || |flows.order| < maxEntries then flows
    else
      DeleteValid(flows, flows.order[0]);
      Fitted(flows.DeleteOldest(), maxEntries)
  }

  /** The table when a flow begins, before its entry. */
  function Cleared(o: Options, flows: Flows, now: int): Flows
    requires flows.Valid()
  {
    SweptKeeps(flows, now);
    Fitted(Swept(flows, now), o.maxEntries)
  }

  function Begun(o: Options, flows: Flows, now: int, id: string, state: string, verifier: string): Flows
    requires flows.Valid()
  {
    Cleared(o, flows, now).Put(id, Entry(o.digest(state), verifier, now + o.ttlMs))
  }

  /** `None` is an absent parameter; an empty one counts as absent. */
  predicate Given(s: Option<string>) {
    s.Some? && s.value != ""
  }

  function Redeem(o: Options, flows: Flows, now: int, id: Option<string>, state: Option<string>): Completion {
    if !Given(id) || !Given(state) then Refused(Missing)
    else if id.value !in flows.vals then Refused(UnknownFlow)
    else
      var entry := flows.vals[id.value];
      if now >= entry.expiresAt then Refused(Expired)
      else if o.digest(state.value) != entry.stateDigest then Refused(StateMismatch)
      else Redeemed(entry.verifier)
  }

  /** Any callback that names a known flow ends it, whatever its outcome. */
  function AfterRedeem(flows: Flows, id: Option<string>, state: Option<string>): Flows {
    if Given(id) && Given(state) && id.value in flows.vals then flows.Delete(id.value) else flows
  }

  // ---------------------------------------------------------------------------
  // Sweeping and evicting

  /** Every flow expires no later than the ones that began after it. */
  ghost predicate InExpiryOrder(flows: Flows) {
    && flows.Valid()
    && forall i, j :: 0 <= i < j < |flows.order|
        ==> flows.vals[flows.order[i]].expiresAt <= flows.vals[flows.order[j]].expiresAt
  }

  /** `part` holds some of the entries of `flows`, unchanged and in the same order. */
  ghost predicate IsPart(part: Flows, flows: Flows) {
    && flows.Valid() && part.Valid() && |part.order| <= |flows.order|
    && (forall id :: id in part.vals ==> id in flows.vals && part.vals[id] == flows.vals[id])
    && (InExpiryOrder(flows) ==> InExpiryOrder(part))
  }

  lemma OldestGone(flows: Flows)
    requires flows.Valid() && flows.order != []
    ensures flows.DeleteOldest().Valid()
    ensures flows.DeleteOldest().order == flows.order[1..]
  {
    var s := flows.order;
    DeleteValid(flows, s[0]);
    WithoutDistinct(s[1..], s[0]);
    assert Without(s, s[0]) == Without(s[1..], s[0]) == s[1..];
  }

  lemma DeletedOldest(flows: Flows)
    requires flows.Valid() && flows.order != []
    ensures IsPart(flows.DeleteOldest(), flows) && flows.DeleteOldest().order == flows.order[1..]
  {
    OldestGone(flows);
    var rest := flows.DeleteOldest();
    if InExpiryOrder(flows) {
      forall i, j | 0 <= i < j < |rest.order|
        ensures rest.vals[rest.order[i]].expiresAt <= rest.vals[rest.order[j]].expiresAt
      {
        assert rest.order[i] == flows.order[i + 1] && rest.order[j] == flows.order[j + 1];
      }
    }
  }

  lemma {:induction false} SweptKeeps(flows: Flows, now: int)
    requires flows.Valid()
    ensures IsPart(Swept(flows, now), flows)
    decreases |flows.order|
  {
    if flows.order != [] && flows.vals[flows.order[0]].expiresAt <= now {
      DeletedOldest(flows);
      SweptKeeps(flows.DeleteOldest(), now);
    }
  }

  /** The sweep takes flows from the front and leaves the rest as they stand. */
  lemma {:induction false} SweptIsTail(flows: Flows, now: int)
    requires flows.Valid()
    ensures |Swept(flows, now).order| <= |flows.order|
    ensures Swept(flows, now).order == flows.order[|flows.order| - |Swept(flows, now).order|..]
    decreases |flows.order|
  {
    if flows.order != [] && flows.vals[flows.order[0]].expiresAt <= now {
      DeletedOldest(flows);
      SweptIsTail(flows.DeleteOldest(), now);
      var k := |flows.order| - |Swept(flows, now).order|;
      assert flows.order[1..][k - 1..] == flows.order[k..];
    }
  }

  predicate IsLive(flows: Flows, id: string, now: int) {
    id in flows.vals && flows.vals[id].expiresAt > now
  }

  /** The sweep that stops at the first live flow removes exactly the expired ones. */
  lemma {:induction false} SweepRemovesExpired(flows: Flows, now: int, id: string)
    requires flows.Valid() && InExpiryOrder(flows)
    ensures id in Swept(flows, now).vals <==> IsLive(flows, id, now)
    decreases |flows.order|
  {
    if flows.order == [] {
    } else if flows.vals[flows.order[0]].expiresAt > now {
      if id in flows.vals {
        var i :| 0 <= i < |flows.order| && flows.order[i] == id;
      }
    } else {
      DeletedOldest(flows);
      SweepRemovesExpired(flows.DeleteOldest(), now, id);
    }
  }

  lemma {:induction false} FittedKeeps(flows: Flows, maxEntries: int)
    requires flows.Valid() && maxEntries >= 1
    ensures IsPart(Fitted(flows, maxEntries), flows)
    ensures |Fitted(flows, maxEntries).order| == if |flows.order| < maxEntries then |flows.order| else maxEntries - 1
    ensures |flows.order| < maxEntries ==> Fitted(flows, maxEntries) == flows
    decreases |flows.order|
  {
    if flows.order != [] && |flows.order| >= maxEntries {
      DeletedOldest(flows);
      FittedKeeps(flows.DeleteOldest(), maxEntries);
    }
  }

  /** Eviction keeps exactly the newest flows, `maxEntries` - 1 of them, in their order and unchanged. */
  lemma {:induction false} FittedExactly(flows: Flows, maxEntries: int)
    requires flows.Valid() && maxEntries >= 1
    ensures var gone := if |flows.order| < maxEntries then 0 else |flows.order| - maxEntries + 1;
      && Fitted(flows, maxEntries).order == flows.order[gone..]
      && (forall id :: id in Fitted(flows, maxEntries).vals ==>
          id in flows.vals && Fitted(flows, maxEntries).vals[id] == flows.vals[id])
    decreases |flows.order|
  {
    if flows.order != [] && |flows.order| >= maxEntries {
      DeletedOldest(flows);
      FittedExactly(flows.DeleteOldest(), maxEntries);
      var n := |flows.order| - maxEntries;
      assert flows.order[1..][n..] == flows.order[n + 1..];
    }
  }

  lemma ClearedKeeps(o: Options, flows: Flows, now: int)
    requires Accepted(o) && flows.Valid()
    ensures IsPart(Cleared(o, flows, now), flows)
    ensures |Cleared(o, flows, now).order| < o.maxEntries
  {
    SweptKeeps(flows, now);
    FittedKeeps(Swept(flows, now), o.maxEntries);
  }

  /** A new flow that expires last goes to the end of the order. */
  lemma PutKeepsOrder(flows: Flows, id: string, e: Entry)
    requires flows.Valid() && InExpiryOrder(flows) && id !in flows.vals
    requires forall other :: other in flows.vals ==> flows.vals[other].expiresAt <= e.expiresAt
    ensures flows.Put(id, e).Valid() && InExpiryOrder(flows.Put(id, e)) && |flows.Put(id, e).order| == |flows.order| + 1
  {
    PutValid(flows, id, e);
  }

  // ---------------------------------------------------------------------------
  // The table itself

  class OauthFlows {
    const options: Options
    var flows: Flows

    ghost predicate Valid()
      reads this
    {
      Accepted(options) && flows.Valid()
    }

    constructor (options: Options)
      requires Accepted(options)
      ensures Valid() && this.options == options && flows == EmptyMap()
    {
      this.options := options;
      flows := EmptyMap();
    }

    method Sweep(now: int)
      requires Valid()
      modifies this
      ensures Valid() && flows == Swept(old(flows), now)
    {
      while flows.order != [] && flows.vals[flows.order[0]].expiresAt <= now
        invariant Valid() && Swept(flows, now) == Swept(old(flows), now)
        decreases |flows.order|
      {
        DeleteValid(flows, flows.order[0]);
        flows := flows.DeleteOldest();
      }
    }

    method EvictToFit()
      requires Valid()
      modifies this
      ensures Valid() && flows == Fitted(old(flows), options.maxEntries)
    {
      while flows.order != [] && |flows.order| >= options.maxEntries
        invariant Valid() && Fitted(flows, options.maxEntries) == Fitted(old(flows), options.maxEntries)
        decreases |flows.order|
      {
        DeleteValid(flows, flows.order[0]);
        flows := flows.DeleteOldest();
      }
    }

    /** `id`, `state` and `verifier` are the random values drawn. */
    method Begin(now: int, id: string, state: string, verifier: string)
      requires Valid()
      modifies this
      ensures Valid() && flows == Begun(options, old(flows), now, id, state, verifier)
    {
      Sweep(now);
      EvictToFit();
      PutValid(flows, id, Entry(options.digest(state), verifier, now + options.ttlMs));
      flows := flows.Put(id, Entry(options.digest(state), verifier, now + options.ttlMs));
    }

    method Complete(now: int, id: Option<string>, state: Option<string>) returns (r: Completion)
      requires Valid()
      modifies this
      ensures Valid() && flows == AfterRedeem(old(flows), id, state)
      ensures r == Redeem(options, old(flows), now, id, state)
    {
      if !Given(id) || !Given(state) {
        return Refused(Missing);
      }
      if id.value !in flows.vals {
        return Refused(UnknownFlow);
      }
      var entry := flows.vals[id.value];
      DeleteValid(flows, id.value);
      flows := flows.Delete(id.value);
      if now >= entry.expiresAt {
        return Refused(Expired);
      }
      if options.digest(state.value) != entry.stateDigest {
        return Refused(StateMismatch);
      }
      r := Redeemed(entry.verifier);
    }
  }

  /** `createOauthFlows`: nothing where it throws. */
  method CreateOauthFlows(options: Options) returns (r: Option<OauthFlows>)
    ensures r.Some? <==> options.ttlMs > 0 && options.maxEntries >= 1
    ensures r.Some? ==> fresh(r.value) && r.value.Valid() && r.value.options == options && r.value.flows == EmptyMap()
  {
    if !Accepted(options) {
      return None;
    }
    var flows := new OauthFlows(options);
    r := Some(flows);
  }

  // ---------------------------------------------------------------------------
  // Runs

  datatype Call =
    | Begin(now: int, id: string, state: string, verifier: string)
    | Complete(now: int, flowId: Option<string>, given: Option<string>)

  function Next(o: Options, flows: Flows, c: Call): Flows
    requires flows.Valid()
  {
    match c
    case Begin(now, id, state, verifier) => Begun(o, flows, now, id, state, verifier)
    case Complete(_, flowId, given) => AfterRedeem(flows, flowId, given)
  }

  /** The answer of a callback. */
  function Answer(o: Options, flows: Flows, c: Call): Option<Completion> {
    match c
    case Begin(_, _, _, _) => None
    case Complete(now, flowId, given) => Some(Redeem(o, flows, now, flowId, given))
  }

  predicate Succeeds(o: Options, flows: Flows, c: Call, id: string) {
    c.Complete? && c.flowId == Some(id) && Redeem(o, flows, c.now, c.flowId, c.given).Redeemed?
  }

  /** The tables of a run: `tables[i]` is the table before call `i`. */
  ghost predicate IsRun(o: Options, calls: seq<Call>, tables: seq<Flows>) {
    && |tables| == |calls| + 1 && tables[0] == EmptyMap()
    && (forall i :: 0 <= i < |tables| ==> tables[i].Valid())
    && forall i :: 0 <= i < |calls| ==> IsStep(o, calls, tables, i)
  }

  ghost predicate IsStep(o: Options, calls: seq<Call>, tables: seq<Flows>, i: nat) {
    && |tables| == |calls| + 1 && i < |calls| && tables[i].Valid()
    && tables[i + 1] == Next(o, tables[i], calls[i])
  }

  /** The clock never runs backwards and no flow id is drawn twice. */
  predicate Orderly(calls: seq<Call>) {
    && (forall i, j :: 0 <= i < j < |calls| ==> calls[i].now <= calls[j].now)
    && forall i, j :: 0 <= i < j < |calls| && calls[i].Begin? && calls[j].Begin? ==> calls[i].id != calls[j].id
  }

  /** The entry was written by call `i`. */
  predicate BegunBy(o: Options, calls: seq<Call>, i: nat, id: string, e: Entry) {
    && i < |calls| && calls[i].Begin? && calls[i].id == id
    && e == Entry(o.digest(calls[i].state), calls[i].verifier, calls[i].now + o.ttlMs)
  }

  /** Some call before `n` wrote the entry. */
  predicate Written(o: Options, calls: seq<Call>, n: nat, id: string, e: Entry) {
    exists i: nat :: i < n && BegunBy(o, calls, i, id, e)
  }

  ghost predicate Inv(o: Options, calls: seq<Call>, n: nat, flows: Flows) {
    && InExpiryOrder(flows) && |flows.order| <= o.maxEntries
    && forall id :: id in flows.vals ==> Written(o, calls, n, id, flows.vals[id])
  }

  lemma {:induction false} RunKeeps(o: Options, calls: seq<Call>, tables: seq<Flows>, n: nat)
    requires Accepted(o) && IsRun(o, calls, tables) && Orderly(calls) && n <= |calls|
    ensures Inv(o, calls, n, tables[n])
    decreases n
  {
    if n > 0 {
      assert IsStep(o, calls, tables, n - 1);
      RunKeeps(o, calls, tables, n - 1);
      StepKeeps(o, calls, n - 1, tables[n - 1], tables[n]);
    }
  }

  lemma StepKeeps(o: Options, calls: seq<Call>, n: nat, flows: Flows, next: Flows)
    requires Accepted(o) && Orderly(calls) && n < |calls| && flows.Valid() && Inv(o, calls, n, flows)
    requires next == Next(o, flows, calls[n])
    ensures next.Valid() && Inv(o, calls, n + 1, next)
  {
    var c := calls[n];
    if c.Begin? {
      var cleared := Cleared(o, flows, c.now);
      ClearedKeeps(o, flows, c.now);
      BeginKeeps(o, calls, n, flows, cleared);
      assert next == cleared.Put(c.id, NewEntry(o, c));
    } else {
      CompleteKeeps(o, calls, n, flows, next);
    }
  }

  function NewEntry(o: Options, c: Call): Entry
    requires c.Begin?
  {
    Entry(o.digest(c.state), c.verifier, c.now + o.ttlMs)
  }

  lemma BeginKeeps(o: Options, calls: seq<Call>, n: nat, flows: Flows, cleared: Flows)
    requires Accepted(o) && Orderly(calls) && n < |calls| && calls[n].Begin? && flows.Valid() && Inv(o, calls, n, flows)
    requires IsPart(cleared, flows) && |cleared.order| < o.maxEntries
    ensures var next := cleared.Put(calls[n].id, NewEntry(o, calls[n]));
            next.Valid() && Inv(o, calls, n + 1, next)
  {
    BeginWrites(o, calls, n, flows, cleared);
    PutKeepsOrder(cleared, calls[n].id, NewEntry(o, calls[n]));
  }

  /** The flow that begins is new, expires last, and leaves every entry accounted for. */
  lemma BeginWrites(o: Options, calls: seq<Call>, n: nat, flows: Flows, cleared: Flows)
    requires Orderly(calls) && n < |calls| && calls[n].Begin? && flows.Valid() && Inv(o, calls, n, flows)
        && IsPart(cleared, flows)
    ensures var e := NewEntry(o, calls[n]);
            && Written(o, calls, n + 1, calls[n].id, e)
            && forall id :: id in cleared.vals ==>
                 id != calls[n].id && cleared.vals[id].expiresAt <= e.expiresAt
                     && Written(o, calls, n + 1, id, cleared.vals[id])
  {
    var e := NewEntry(o, calls[n]);
    assert BegunBy(o, calls, n, calls[n].id, e);
    forall id | id in cleared.vals
      ensures id != calls[n].id && cleared.vals[id].expiresAt <= e.expiresAt
          && Written(o, calls, n + 1, id, cleared.vals[id])
    {
      var i: nat :| i < n && BegunBy(o, calls, i, id, flows.vals[id]);
      assert calls[i].now <= calls[n].now;
    }
  }

  lemma CompleteKeeps(o: Options, calls: seq<Call>, n: nat, flows: Flows, next: Flows)
    requires n < |calls| && calls[n].Complete? && flows.Valid() && Inv(o, calls, n, flows)
    requires next == Next(o, flows, calls[n])
    ensures next.Valid() && Inv(o, calls, n + 1, next)
  {
    forall id | id in flows.vals ensures Written(o, calls, n + 1, id, flows.vals[id]) {
      var i: nat :| i < n && BegunBy(o, calls, i, id, flows.vals[id]);
    }
    if next != flows {
      DeleteKeepsOrder(flows, calls[n].flowId.value);
    }
  }

  /** Deleting anywhere in the table keeps the expiry order. */
  lemma DeleteKeepsOrder(flows: Flows, id: string)
    requires flows.Valid() && InExpiryOrder(flows)
    ensures flows.Delete(id).Valid() && InExpiryOrder(flows.Delete(id)) && |flows.Delete(id).order| <= |flows.order|
  {
    DeleteValid(flows, id);
    var d := flows.Delete(id);
    forall i, j | 0 <= i < j < |d.order| ensures d.vals[d.order[i]].expiresAt <= d.vals[d.order[j]].expiresAt {
      var a, b := WithoutOrder(flows.order, id, i, j);
    }
  }

  /** Positions of a list without an element come from positions of the list, in the same order. */
  lemma {:induction false} WithoutOrder(s: seq<string>, id: string, i: nat, j: nat) returns (a: nat, b: nat)
    requires i < j < |Without(s, id)|
    ensures a < b < |s| && s[a] == Without(s, id)[i] && s[b] == Without(s, id)[j]
    decreases |s|
  {
    if s[0] == id {
      a, b := WithoutOrder(s[1..], id, i, j);
      a, b := a + 1, b + 1;
    } else if i > 0 {
      a, b := WithoutOrder(s[1..], id, i - 1, j - 1);
      a, b := a + 1, b + 1;
    } else {
      a := 0;
      b := WithoutPosition(s[1..], id, j - 1);
      b := b + 1;
    }
  }

  lemma {:induction false} WithoutPosition(s: seq<string>, id: string, j: nat) returns (b: nat)
    requires j < |Without(s, id)|
    ensures b < |s| && s[b] == Without(s, id)[j]
    decreases |s|
  {
    if s[0] == id {
      b := WithoutPosition(s[1..], id, j);
      b := b + 1;
    } else if j == 0 {
      b := 0;
    } else {
      b := WithoutPosition(s[1..], id, j - 1);
      b := b + 1;
    }
  }

  /** On every run the table is in expiry order, within its bound, and a sweep takes exactly the expired flows. */
  lemma TableStaysInOrder(o: Options, calls: seq<Call>, tables: seq<Flows>, n: nat, now: int)
    requires Accepted(o) && IsRun(o, calls, tables) && Orderly(calls) && n <= |calls|
    ensures InExpiryOrder(tables[n]) && |tables[n].order| <= o.maxEntries
    ensures forall id :: id in Swept(tables[n], now).vals <==> IsLive(tables[n], id, now)
  {
    RunKeeps(o, calls, tables, n);
    forall id ensures id in Swept(tables[n], now).vals <==> IsLive(tables[n], id, now) {
      SweepRemovesExpired(tables[n], now, id);
    }
  }

  /** The callback names the flow that call `i` began, with its own state, before it expires. */
  predicate Deserved(o: Options, calls: seq<Call>, i: nat, c: Call) {
    && i < |calls| && calls[i].Begin? && c.Complete? && c.flowId == Some(calls[i].id) && c.given == Some(calls[i].state)
    && c.now < calls[i].now + o.ttlMs
  }

  /**
   * A callback with an open flow succeeds exactly with the state drawn when that flow began and before
   * it expires, and is then handed the verifier drawn with it.
   */
  lemma SuccessMeans(o: Options, calls: seq<Call>, tables: seq<Flows>, n: nat, id: string)
    requires Accepted(o) && Injective(o) && IsRun(o, calls, tables) && Orderly(calls) && n < |calls|
    requires calls[n].Complete? && calls[n].flowId == Some(id) && Given(Some(id)) && Given(calls[n].given)
    requires id in tables[n].vals
    ensures exists i: nat :: i < n && calls[i].Begin? && calls[i].id == id
                          && (Succeeds(o, tables[n], calls[n], id) <==> Deserved(o, calls, i, calls[n]))
                          && (Succeeds(o, tables[n], calls[n], id) ==>
                                Answer(o, tables[n], calls[n]) == Some(Redeemed(calls[i].verifier)))
  {
    RunKeeps(o, calls, tables, n);
    var i: nat :| i < n && BegunBy(o, calls, i, id, tables[n].vals[id]);
    assert o.digest(calls[n].given.value) == o.digest(calls[i].state) ==> calls[n].given.value == calls[i].state;
  }

  /**
   * What every callback is answered, in the order the code looks: a missing parameter, a flow that is not
   * open, an open one that has expired, another state than the flow's, and only then the verifier.
   */
  lemma AnswerMeans(o: Options, calls: seq<Call>, tables: seq<Flows>, n: nat)
    requires Accepted(o) && Injective(o) && IsRun(o, calls, tables) && Orderly(calls) && n < |calls|
    requires calls[n].Complete?
    ensures var r := Answer(o, tables[n], calls[n]).value; var c := calls[n];
      var missing := c.flowId.None? || c.flowId == Some("") || c.given.None? || c.given == Some("");
      && Answer(o, tables[n], c).Some?
      && (r == Refused(Missing) <==> missing)
      && (r == Refused(UnknownFlow) <==> !missing && c.flowId.value !in tables[n].vals)
      && (!missing && c.flowId.value in tables[n].vals ==>
            exists i: nat :: i < n && calls[i].Begin? && calls[i].id == c.flowId.value
                && (r == Refused(Expired) <==> c.now >= calls[i].now + o.ttlMs)
                && (r == Refused(StateMismatch) <==>
                      c.now < calls[i].now + o.ttlMs && c.given.value != calls[i].state)
                && (r.Redeemed? <==> c.now < calls[i].now + o.ttlMs && c.given.value == calls[i].state)
                && (r.Redeemed? ==> r.verifier == calls[i].verifier))
  {
    var c := calls[n];
    if Given(c.flowId) && Given(c.given) && c.flowId.value in tables[n].vals {
      RunKeeps(o, calls, tables, n);
      var i: nat :| i < n && BegunBy(o, calls, i, c.flowId.value, tables[n].vals[c.flowId.value]);
      assert o.digest(c.given.value) == o.digest(calls[i].state) ==> c.given.value == calls[i].state;
    }
  }

  /**
   * A begin opens its flow, newest, and leaves of the others those still live, in order; when they fill the
   * table the one that began first gives way, and no other.
   */
  lemma BeginExactly(o: Options, calls: seq<Call>, tables: seq<Flows>, n: nat)
    requires Accepted(o) && IsRun(o, calls, tables) && Orderly(calls) && n < |calls| && calls[n].Begin?
    ensures var c := calls[n]; var next := tables[n + 1]; var live := Swept(tables[n], c.now);
      && |live.order| <= o.maxEntries && (forall id :: id in live.order <==> IsLive(tables[n], id, c.now))
      && next.order == (if |live.order| == o.maxEntries then live.order[1..] else live.order) + [c.id]
      && next.vals[c.id] == Entry(o.digest(c.state), c.verifier, c.now + o.ttlMs)
      && forall id :: id in next.vals && id != c.id ==> id in tables[n].vals && next.vals[id] == tables[n].vals[id]
  {
    var c := calls[n];
    assert IsStep(o, calls, tables, n);
    RunKeeps(o, calls, tables, n);
    TableStaysInOrder(o, calls, tables, n, c.now);
    SweptKeeps(tables[n], c.now);
    var live := Swept(tables[n], c.now);
    FittedExactly(live, o.maxEntries);
    FittedKeeps(live, o.maxEntries);
    BeginWrites(o, calls, n, tables[n], Cleared(o, tables[n], c.now));
  }

  /** An open flow stays as it is until a callback names it, it expires, or the table is still full once swept. */
  lemma StaysOpen(o: Options, calls: seq<Call>, tables: seq<Flows>, n: nat, id: string)
    requires Accepted(o) && IsRun(o, calls, tables) && Orderly(calls) && n < |calls| && id in tables[n].vals
    requires calls[n].Complete? ==> calls[n].flowId != Some(id) || !Given(calls[n].flowId) || !Given(calls[n].given)
    requires calls[n].Begin? ==>
        IsLive(tables[n], id, calls[n].now) && |Swept(tables[n], calls[n].now).order| < o.maxEntries
    ensures id in tables[n + 1].vals && tables[n + 1].vals[id] == tables[n].vals[id]
  {
    assert IsStep(o, calls, tables, n);
    if calls[n].Begin? {
      RunKeeps(o, calls, tables, n);
      SweepRemovesExpired(tables[n], calls[n].now, id);
      SweptKeeps(tables[n], calls[n].now);
      FittedKeeps(Swept(tables[n], calls[n].now), o.maxEntries);
    }
  }

  /** Once gone and not begun again, a flow stays gone. */
  lemma {:induction false} StaysGone(o: Options, calls: seq<Call>, tables: seq<Flows>, m: nat, n: nat, id: string)
    requires Accepted(o) && IsRun(o, calls, tables) && m <= n <= |calls|
    requires id !in tables[m].vals
    requires forall k :: m <= k < n ==> !(calls[k].Begin? && calls[k].id == id)
    ensures id !in tables[n].vals
    decreases n - m
  {
    if m < n {
      assert IsStep(o, calls, tables, m);
      ClearedKeeps(o, tables[m], calls[m].now);
      StaysGone(o, calls, tables, m + 1, n, id);
    }
  }

  /** A callback naming a flow, whatever its outcome, is the last one that can succeed with it. */
  lemma SingleUse(o: Options, calls: seq<Call>, tables: seq<Flows>, m: nat, n: nat, id: string)
    requires Accepted(o) && IsRun(o, calls, tables) && Orderly(calls) && m < n < |calls|
    requires calls[m].Complete? && calls[m].flowId == Some(id) && Given(calls[m].given) && id in tables[m].vals
    ensures !Succeeds(o, tables[n], calls[n], id)
  {
    if Given(calls[m].flowId) {
      assert IsStep(o, calls, tables, m);
      RunKeeps(o, calls, tables, m);
      var i: nat :| i < m && BegunBy(o, calls, i, id, tables[m].vals[id]);
      StaysGone(o, calls, tables, m + 1, n, id);
    }
  }

  /** Over any run a flow id succeeds at most once. */
  lemma SucceedsOnce(o: Options, calls: seq<Call>, tables: seq<Flows>, m: nat, n: nat, id: string)
    requires Accepted(o) && IsRun(o, calls, tables) && Orderly(calls) && m < n < |calls|
    ensures !(Succeeds(o, tables[m], calls[m], id) && Succeeds(o, tables[n], calls[n], id))
  {
    if Succeeds(o, tables[m], calls[m], id) {
      SingleUse(o, calls, tables, m, n, id);
    }
  }
}
