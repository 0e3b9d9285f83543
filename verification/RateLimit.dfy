/** The sliding-window counter of the hub (hub/src/rate-limit.ts). */
module RateLimit {
  import opened Ordered

  /** The options of a counter. */
  datatype Options = Options(windowMs: int, maxKeys: int)

  type Hits = OMap<string, seq<int>>

  /** The stamps after `cutoff`. */
  function Filter(stamps: seq<int>, cutoff: int): seq<int> {
    if stamps == [] then []
    else (if stamps[0] > cutoff then [stamps[0]] else []) + Filter(stamps[1..], cutoff)
  }

  function StampsOf(hits: Hits, key: string): seq<int> {
    if key in hits.vals then hits.vals[key] else []
  }

  /** The hits of `key` inside the window that ends at `now`. */
  function Kept(o: Options, hits: Hits, key: string, now: int): seq<int> {
    Filter(StampsOf(hits, key), now - o.windowMs)
  }

  /** What reading the live hits leaves behind: a key without any is forgotten. */
  function AfterLive(o: Options, hits: Hits, key: string, now: int): Hits {
    if Kept(o, hits, key, now) == [] then hits.Delete(key) else hits
  }

  /** The least recently touched keys are forgotten until the table fits. */
  function Evicted(hits: Hits, maxKeys: int): Hits
    requires hits.Valid()
    decreases |hits.order|
  {
    if |hits.order| > maxKeys && hits.order != [] then
      DeleteValid(hits, hits.order[0]);
      Evicted(hits.DeleteOldest(), maxKeys)
    else hits
  }

  /** The table with one more hit of `key`, before eviction: read at `t`, stamped `at`. */
  function Touched(o: Options, hits: Hits, key: string, t: int, at: int): Hits {
    AfterLive(o, hits, key, t).Delete(key).Put(key, Kept(o, hits, key, t) + [at])
  }

  lemma TouchedValid(o: Options, hits: Hits, key: string, t: int, at: int)
    requires hits.Valid()
    ensures AfterLive(o, hits, key, t).Valid() && Touched(o, hits, key, t, at).Valid()
  {
    DeleteValid(hits, key);
    DeleteValid(AfterLive(o, hits, key, t), key);
    PutValid(AfterLive(o, hits, key, t).Delete(key), key, Kept(o, hits, key, t) + [at]);
  }

  function Recorded(o: Options, hits: Hits, key: string, t: int, at: int): Hits
    requires hits.Valid()
  {
    TouchedValid(o, hits, key, t, at);
    Evicted(Touched(o, hits, key, t, at), o.maxKeys)
  }

  /** One call. Each reads the clock once for every reading the code makes. */
  datatype Call =
    | Count(key: string, t: int)
    | Record(key: string, t: int, at: int)
    | TryConsume(key: string, limit: int, t0: int, t: int, at: int)

  predicate Admits(o: Options, hits: Hits, c: Call) {
    c.TryConsume? && |Kept(o, hits, c.key, c.t0)| < c.limit
  }

  function Next(o: Options, hits: Hits, c: Call): Hits
    requires hits.Valid()
  {
    match c
    case Count(key, t) => AfterLive(o, hits, key, t)
    case Record(key, t, at) => Recorded(o, hits, key, t, at)
    case TryConsume(key, limit, t0, t, at) =>
      TouchedValid(o, hits, key, t0, at);
      if Admits(o, hits, c) then Recorded(o, AfterLive(o, hits, key, t0), key, t, at) else AfterLive(o, hits, key, t0)
  }

  // ---------------------------------------------------------------------------
  // The counter itself

  class WindowCounter {
    const options: Options
    var hits: Hits

    ghost predicate Valid()
      reads this
    {
      hits.Valid()
    }

    constructor (options: Options)
      ensures Valid() && this.options == options && hits == EmptyMap()
    {
      this.options := options;
      hits := EmptyMap();
    }

    method Live(key: string, now: int) returns (kept: seq<int>)
      requires Valid()
      modifies this
      ensures Valid() && hits == AfterLive(options, old(hits), key, now)
      ensures kept == Kept(options, old(hits), key, now)
    {
      DeleteValid(hits, key);
      kept := Filter(StampsOf(hits, key), now - options.windowMs);
      if kept == [] {
        hits := hits.Delete(key);
      }
    }

    method DoCount(key: string, t: int) returns (n: nat)
      requires Valid()
      modifies this
      ensures Valid() && hits == Next(options, old(hits), Count(key, t))
      ensures n == |Kept(options, old(hits), key, t)|
    {
      var kept := Live(key, t);
      n := |kept|;
    }

    method DoRecord(key: string, t: int, at: int)
      requires Valid()
      modifies this
      ensures Valid() && hits == Next(options, old(hits), Record(key, t, at))
    {
      TouchedValid(options, hits, key, t, at);
      var kept := Live(key, t);
      hits := hits.Delete(key);
      hits := hits.Put(key, kept + [at]);
      ghost var full := hits;
      while |hits.order| > options.maxKeys && hits.order != []
        invariant Valid()
        invariant Evicted(hits, options.maxKeys) == Evicted(full, options.maxKeys)
        decreases |hits.order|
      {
        DeleteValid(hits, hits.order[0]);
        hits := hits.DeleteOldest();
      }
    }

    method DoTryConsume(key: string, limit: int, t0: int, t: int, at: int) returns (admitted: bool)
      requires Valid()
      modifies this
      ensures Valid() && hits == Next(options, old(hits), TryConsume(key, limit, t0, t, at))
      ensures admitted == Admits(options, old(hits), TryConsume(key, limit, t0, t, at))
    {
      var kept := Live(key, t0);
      if |kept| >= limit {
        return false;
      }
      DoRecord(key, t, at);
      admitted := true;
    }
  }

  /** `createWindowCounter`: nothing where it throws. */
  method CreateWindowCounter(options: Options) returns (r: Option<WindowCounter>)
    ensures r.Some? <==> options.windowMs > 0
    ensures r.Some? ==> fresh(r.value) && r.value.Valid() && r.value.options == options && r.value.hits == EmptyMap()
  {
    if options.windowMs <= 0 {
      return None;
    }
    var counter := new WindowCounter(options);
    r := Some(counter);
  }

  // ---------------------------------------------------------------------------
  // The table

  /** Eviction forgets whole keys and changes no other; the table then fits. */
  lemma {:induction false} EvictedKeeps(hits: Hits, maxKeys: int)
    requires hits.Valid()
    ensures var e := Evicted(hits, maxKeys);
            && e.Valid()
            && (maxKeys >= 0 ==> |e.order| <= maxKeys) && |e.order| <= |hits.order|
            && e.vals.Keys <= hits.vals.Keys && forall k :: k in e.vals ==> e.vals[k] == hits.vals[k]
    decreases |hits.order|
  {
    if |hits.order| > maxKeys && hits.order != [] {
      DeleteValid(hits, hits.order[0]);
      EvictedKeeps(hits.DeleteOldest(), maxKeys);
    }
  }

  /** How many keys a table must forget to fit. */
  function Excess(n: nat, maxKeys: int): nat {
    if n <= maxKeys then 0 else if maxKeys < 0 then n else n - maxKeys
  }

  /**
   * Eviction waits until the table is over its bound: then exactly its newest `maxKeys` keys stay, in their
   * order and with their hits, and the older ones go.
   */
  lemma {:induction false} EvictedExactly(hits: Hits, maxKeys: int)
    requires hits.Valid()
    ensures var e := Evicted(hits, maxKeys); var gone := Excess(|hits.order|, maxKeys);
      && (|hits.order| <= maxKeys ==> e == hits)
      && e.order == hits.order[gone..] && e.Valid()
      && (forall k :: k in e.vals ==> k in hits.vals && e.vals[k] == hits.vals[k])
    decreases |hits.order|
  {
    if |hits.order| > maxKeys && hits.order != [] {
      OldestGone(hits);
      EvictedExactly(hits.DeleteOldest(), maxKeys);
      assert hits.order[1..][Excess(|hits.order| - 1, maxKeys)..] == hits.order[Excess(|hits.order|, maxKeys)..];
    }
  }

  lemma OldestGone(hits: Hits)
    requires hits.Valid() && hits.order != []
    ensures hits.DeleteOldest().Valid() && hits.DeleteOldest().order == hits.order[1..]
    ensures forall k :: k in hits.DeleteOldest().vals ==> k in hits.vals && hits.DeleteOldest().vals[k] == hits.vals[k]
  {
    DeleteValid(hits, hits.order[0]);
    WithoutAt(hits.order, 0);
  }

  /** A call that leaves a hit behind: a record, or an admitted one. */
  predicate LeavesHit(o: Options, hits: Hits, c: Call) {
    c.Record? || Admits(o, hits, c)
  }

  /** Before eviction the key of such a call is the newest, and the other keys keep their order. */
  lemma TouchedOrder(o: Options, hits: Hits, key: string, t: int, at: int)
    requires hits.Valid()
    ensures Touched(o, hits, key, t, at).order == Without(hits.order, key) + [key]
    ensures |Without(hits.order, key)| == if key in hits.vals then |hits.order| - 1 else |hits.order|
    ensures key !in hits.vals ==> Without(hits.order, key) == hits.order
    ensures key !in Without(hits.order, key)
  {
    WithoutDistinct(hits.order, key);
    WithoutElements(hits.order, key);
    WithoutAbsent(Without(hits.order, key), key);
  }

  /** A call that leaves a hit behind, in full: its key comes last, and of what there is then the newest keys stay. */
  lemma HitMeans(o: Options, hits: Hits, c: Call)
    requires hits.Valid() && LeavesHit(o, hits, c)
    ensures var order := Without(hits.order, c.key) + [c.key];
      Next(o, hits, c).order == order[Excess(|order|, o.maxKeys)..]
  {
    AfterValid(o, hits, c);
    if c.Record? {
      TouchedValid(o, hits, c.key, c.t, c.at);
      TouchedOrder(o, hits, c.key, c.t, c.at);
      EvictedExactly(Touched(o, hits, c.key, c.t, c.at), o.maxKeys);
    } else {
      var live := AfterLive(o, hits, c.key, c.t0);
      TouchedValid(o, hits, c.key, c.t0, c.at);
      TouchedValid(o, live, c.key, c.t, c.at);
      TouchedOrder(o, hits, c.key, c.t, c.at);
      TouchedOrder(o, live, c.key, c.t, c.at);
      assert live.order == hits.order || live.order == Without(hits.order, c.key);
      WithoutAbsent(Without(hits.order, c.key), c.key);
      EvictedExactly(Touched(o, live, c.key, c.t, c.at), o.maxKeys);
    }
  }

  /** The table never holds more than `maxKeys` keys. */
  lemma AfterFits(o: Options, hits: Hits, c: Call)
    requires hits.Valid() && o.maxKeys >= 0 && |hits.order| <= o.maxKeys
    ensures Next(o, hits, c).Valid() && |Next(o, hits, c).order| <= o.maxKeys
  {
    AfterValid(o, hits, c);
    DeleteValid(hits, c.key);
    if c.Record? {
      TouchedValid(o, hits, c.key, c.t, c.at);
      EvictedKeeps(Touched(o, hits, c.key, c.t, c.at), o.maxKeys);
    } else if Admits(o, hits, c) {
      var live := AfterLive(o, hits, c.key, c.t0);
      TouchedValid(o, live, c.key, c.t, c.at);
      EvictedKeeps(Touched(o, live, c.key, c.t, c.at), o.maxKeys);
    }
  }

  lemma AfterValid(o: Options, hits: Hits, c: Call)
    requires hits.Valid()
    ensures Next(o, hits, c).Valid()
  {
    match c
    case Count(key, t) => TouchedValid(o, hits, key, t, 0);
    case Record(key, t, at) =>
      TouchedValid(o, hits, key, t, at);
      EvictedKeeps(Touched(o, hits, key, t, at), o.maxKeys);
    case TryConsume(key, limit, t0, t, at) =>
      TouchedValid(o, hits, key, t0, at);
      var live := AfterLive(o, hits, key, t0);
      TouchedValid(o, live, key, t, at);
      EvictedKeeps(Touched(o, live, key, t, at), o.maxKeys);
  }

  // ---------------------------------------------------------------------------
  // Refused calls

  /**
   * A refused call leaves the table as it was, unless it finds the key without a live hit and forgets it;
   * with a limit of at least one it never does.
   */
  lemma RefusalChangesNothing(o: Options, hits: Hits, c: Call)
    requires hits.Valid() && c.TryConsume? && !Admits(o, hits, c)
    ensures Next(o, hits, c) == hits <==> c.key !in hits.vals || Kept(o, hits, c.key, c.t0) != []
    ensures c.limit >= 1 ==> Next(o, hits, c) == hits
  {
    if c.key !in hits.vals {
      DeleteAbsent(hits, c.key);
    }
  }

  lemma DeleteAbsent(hits: Hits, key: string)
    requires hits.Valid() && key !in hits.vals
    ensures hits.Delete(key) == hits
  {
    WithoutAbsent(hits.order, key);
    assert hits.vals - {key} == hits.vals;
  }

  lemma {:induction false} WithoutAbsent(order: seq<string>, key: string)
    requires key !in order
    ensures Without(order, key) == order
  {
    if order != [] {
      WithoutAbsent(order[1..], key);
    }
  }

  /** Whatever its limit was, a refused call does not change the answer to a later call for its key. */
  lemma NextAnswerIsTheSame(o: Options, hits: Hits, c: Call, d: Call)
    requires hits.Valid() && c.TryConsume? && !Admits(o, hits, c)
    requires d.TryConsume? && d.key == c.key && c.t0 <= d.t0
    ensures AfterLive(o, hits, c.key, c.t0) == Next(o, hits, c)
    ensures Admits(o, Next(o, hits, c), d) == Admits(o, hits, d)
  {
    KeptAfterLive(o, hits, c.key, c.t0, d.t0);
  }

  /** The table after `calls`. */
  function TableAfter(o: Options, hits: Hits, calls: seq<Call>): (r: Hits)
    requires hits.Valid()
    ensures r.Valid()
    decreases |calls|
  {
    if calls == [] then hits
    else
      AfterValid(o, hits, calls[0]);
      TableAfter(o, Next(o, hits, calls[0]), calls[1..])
  }

  /**
   * A refused call never changes a later answer for its key: whatever calls follow, for whatever keys, a
   * call for this key with this limit is answered as though the refused one had not been made.
   */
  lemma RefusalNeverChangesALaterAnswer(o: Options, hits: Hits, c: Call, between: seq<Call>, d: Call)
    requires hits.Valid() && Next(o, hits, c).Valid() && c.TryConsume? && !Admits(o, hits, c)
    requires d.TryConsume? && d.key == c.key && d.limit == c.limit
    ensures Admits(o, TableAfter(o, Next(o, hits, c), between), d) == Admits(o, TableAfter(o, hits, between), d)
  {
    RefusalChangesNothing(o, hits, c);
  }

  /** The calls of a run without the refused ones. */
  function WithoutRefused(o: Options, hits: Hits, calls: seq<Call>): seq<Call>
    requires hits.Valid()
    decreases |calls|
  {
    if calls == [] then []
    else
      AfterValid(o, hits, calls[0]);
      (if calls[0].TryConsume? && !Admits(o, hits, calls[0]) then [] else [calls[0]])
      + WithoutRefused(o, Next(o, hits, calls[0]), calls[1..])
  }

  /**
   * Striking every refused call out of a run leaves the table it ends with, so every later answer for
   * every key, as it was; and the calls that remain are admitted as before.
   */
  lemma {:induction false} RefusedCallsLeaveNoTrace(o: Options, hits: Hits, calls: seq<Call>)
    requires hits.Valid()
    requires forall c :: c in calls && c.TryConsume? ==> c.limit >= 1
    ensures var taken := WithoutRefused(o, hits, calls);
      && TableAfter(o, hits, taken) == TableAfter(o, hits, calls)
      && WithoutRefused(o, hits, taken) == taken
    decreases |calls|
  {
    if calls != [] {
      var c := calls[0];
      AfterValid(o, hits, c);
      var rest := WithoutRefused(o, Next(o, hits, c), calls[1..]);
      RefusedCallsLeaveNoTrace(o, Next(o, hits, c), calls[1..]);
      if c.TryConsume? && !Admits(o, hits, c) {
        RefusalChangesNothing(o, hits, c);
        assert WithoutRefused(o, hits, calls) == rest;
      } else {
        assert WithoutRefused(o, hits, calls) == [c] + rest;
        assert ([c] + rest)[0] == c && ([c] + rest)[1..] == rest;
      }
    }
  }

  // ---------------------------------------------------------------------------
  // Whole runs

  /** The clock does not run backwards within a call. */
  predicate Timed(c: Call) {
    match c
    case Count(_, _) => true
    case Record(_, t, at) => t <= at
    case TryConsume(_, _, t0, t, at) => t0 <= t <= at
  }

  function StartOf(c: Call): int {
    if c.TryConsume? then c.t0 else c.t
  }

  function EndOf(c: Call): int {
    if c.Count? then c.t else c.at
  }

  /** The calls of a run and the tables between them: `tables[i]` is the table before call `i`. */
  datatype Run = Run(calls: seq<Call>, tables: seq<Hits>)

  ghost predicate IsRun(o: Options, run: Run) {
    && |run.tables| == |run.calls| + 1 && run.tables[0] == EmptyMap()
    && (forall i :: 0 <= i < |run.tables| ==> run.tables[i].Valid())
    && forall i :: 0 <= i < |run.calls| ==> IsStep(o, run, i)
  }

  ghost predicate IsStep(o: Options, run: Run, i: nat) {
    && |run.tables| == |run.calls| + 1 && i < |run.calls| && run.tables[i].Valid()
    && run.tables[i + 1] == Next(o, run.tables[i], run.calls[i])
  }

  /** The clock never runs backwards, and every `tryConsume` of `key` uses `limit`. */
  predicate Orderly(calls: seq<Call>, key: string, limit: int) {
    && (forall i :: 0 <= i < |calls| ==> Timed(calls[i]))
    && (forall i :: 0 < i < |calls| ==> EndOf(calls[i - 1]) <= StartOf(calls[i]))
    && forall i :: 0 <= i < |calls| && calls[i].TryConsume? && calls[i].key == key ==> calls[i].limit == limit
  }

  /** A call evicts `key`: the eviction loop finds it in the table and forgets it. */
  predicate Evicts(o: Options, hits: Hits, c: Call, key: string)
    requires hits.Valid()
  {
    (c.Record? || Admits(o, hits, c)) && (key == c.key || key in hits.vals) && key !in Next(o, hits, c).vals
  }

  /** The stamps of the calls for `key` admitted since it was last evicted, after one more call. */
  function AdmittedNext(o: Options, hits: Hits, admitted: seq<int>, c: Call, key: string): seq<int>
    requires hits.Valid()
  {
    if Evicts(o, hits, c, key) then []
    else if Admits(o, hits, c) && c.key == key then admitted + [c.at]
    else admitted
  }

  /** The stamps of the first `n` calls for `key` that were admitted since it was last evicted. */
  ghost function Admitted(o: Options, run: Run, key: string, n: nat): seq<int>
    requires IsRun(o, run) && n <= |run.calls|
  {
    if n == 0 then [] else AdmittedNext(o, run.tables[n - 1], Admitted(o, run, key, n - 1), run.calls[n - 1], key)
  }

  /** How many stamps lie after `cutoff`. */
  function CountAfter(stamps: seq<int>, cutoff: int): nat {
    |Filter(stamps, cutoff)|
  }

  lemma {:induction false} FilterConcat(a: seq<int>, b: seq<int>, cutoff: int)
    ensures Filter(a + b, cutoff) == Filter(a, cutoff) + Filter(b, cutoff)
    decreases |a|
  {
    if a == [] {
      assert a + b == b;
    } else {
      assert (a + b)[1..] == a[1..] + b;
      FilterConcat(a[1..], b, cutoff);
    }
  }

  lemma FilterAppend(a: seq<int>, at: int, cutoff: int)
    ensures Filter(a + [at], cutoff) == Filter(a, cutoff) + (if at > cutoff then [at] else [])
  {
    FilterConcat(a, [at], cutoff);
    assert Filter([at][1..], cutoff) == [];
  }

  lemma {:induction false} FilterTwice(a: seq<int>, c: int, d: int)
    requires c <= d
    ensures Filter(Filter(a, c), d) == Filter(a, d)
    ensures |Filter(a, d)| <= |Filter(a, c)| <= |a|
    decreases |a|
  {
    if a != [] {
      FilterTwice(a[1..], c, d);
      var first := if a[0] > c then [a[0]] else [];
      FilterConcat(first, Filter(a[1..], c), d);
      if a[0] > c {
        assert Filter([a[0]][1..], d) == [];
      }
    }
  }

  // ---------------------------------------------------------------------------
  // What the table knows of the admitted calls

  /** What recording a hit leaves of the stamps of `key`, unless it is evicted. */
  lemma StampsRecorded(o: Options, hits: Hits, touched: string, t: int, at: int, key: string)
    requires hits.Valid()
    requires (key == touched || key in hits.vals) ==> key in Recorded(o, hits, touched, t, at).vals
    ensures StampsOf(Recorded(o, hits, touched, t, at), key)
         == if key == touched then Kept(o, hits, key, t) + [at] else StampsOf(hits, key)
  {
    TouchedValid(o, hits, touched, t, at);
    EvictedKeeps(Touched(o, hits, touched, t, at), o.maxKeys);
  }

  predicate IsHit(o: Options, hits: Hits, c: Call, key: string) {
    c.key == key && (c.Record? || Admits(o, hits, c))
  }

  /** Reading the live hits twice keeps what the later reading keeps. */
  lemma KeptAfterLive(o: Options, hits: Hits, key: string, t0: int, t: int)
    requires t0 <= t
    ensures Kept(o, AfterLive(o, hits, key, t0), key, t) == Kept(o, hits, key, t)
  {
    if Kept(o, hits, key, t0) == [] {
      FilterTwice(StampsOf(hits, key), t0 - o.windowMs, t - o.windowMs);
      assert StampsOf(AfterLive(o, hits, key, t0), key) == [];
    }
  }

  /** What a call leaves of the stamps of `key`, unless it evicts it. */
  predicate IsLeft(o: Options, hits: Hits, next: Hits, c: Call, key: string) {
    StampsOf(next, key) ==
      if IsHit(o, hits, c, key) then Kept(o, hits, key, c.t) + [c.at]
      else if c.key == key && Kept(o, hits, key, StartOf(c)) == [] then []
      else StampsOf(hits, key)
  }

  /** What a call leaves of the stamps of `key`, when it does not evict it. */
  lemma StampsAfter(o: Options, hits: Hits, c: Call, key: string)
    requires hits.Valid() && Timed(c) && !Evicts(o, hits, c, key)
    ensures IsLeft(o, hits, Next(o, hits, c), c, key)
  {
    if c.Record? {
      StampsRecorded(o, hits, c.key, c.t, c.at, key);
    } else if Admits(o, hits, c) {
      var live := AfterLive(o, hits, c.key, c.t0);
      TouchedValid(o, hits, c.key, c.t0, c.at);
      KeptAfterLive(o, hits, c.key, c.t0, c.t);
      StampsRecorded(o, live, c.key, c.t, c.at, key);
    }
  }

  lemma CountHit(stamps: seq<int>, dropped: int, at: int, cutoff: int)
    requires dropped <= cutoff
    ensures CountAfter(Filter(stamps, dropped) + [at], cutoff) == CountAfter(stamps, cutoff)
        + (if at > cutoff then 1 else 0)
    ensures Filter(stamps, dropped) == [] ==> CountAfter(stamps, cutoff) == 0
  {
    FilterTwice(stamps, dropped, cutoff);
    FilterAppend(Filter(stamps, dropped), at, cutoff);
  }

  /** A call adds its own hit to the count inside the window, and nothing else. */
  lemma CountsStep(o: Options, hits: Hits, next: Hits, c: Call, key: string, cutoff: int)
    requires Timed(c) && cutoff >= EndOf(c) - o.windowMs && IsLeft(o, hits, next, c, key)
    ensures CountAfter(StampsOf(next, key), cutoff)
         == CountAfter(StampsOf(hits, key), cutoff) + (if IsHit(o, hits, c, key) && c.at > cutoff then 1 else 0)
  {
    assert c.key == key ==> Kept(o, hits, key, StartOf(c)) == Filter(StampsOf(hits, key), StartOf(c) - o.windowMs);
    CountsStamps(o, StampsOf(hits, key), StampsOf(next, key), c, IsHit(o, hits, c, key), c.key == key, cutoff);
  }

  /** The same of the stamps alone: `was` before the call, `now` after it. */
  lemma CountsStamps(o: Options, was: seq<int>, now: seq<int>, c: Call, hit: bool, mine: bool, cutoff: int)
    requires Timed(c) && cutoff >= EndOf(c) - o.windowMs && (hit ==> !c.Count?)
    requires now == if hit then Filter(was, c.t - o.windowMs) + [c.at]
                    else if mine && Filter(was, StartOf(c) - o.windowMs) == [] then [] else was
    ensures CountAfter(now, cutoff) == CountAfter(was, cutoff) + (if hit && c.at > cutoff then 1 else 0)
  {
    if hit {
      CountHit(was, c.t - o.windowMs, c.at, cutoff);
    } else {
      CountHit(was, StartOf(c) - o.windowMs, 0, cutoff);
    }
  }

  /** No hit of `key` was recorded outside `tryConsume` by the first `n` calls. */
  predicate NoRecords(calls: seq<Call>, key: string, n: nat) {
    forall i :: 0 <= i < n && i < |calls| ==> !(calls[i].Record? && calls[i].key == key)
  }

  /**
   * Inside the window the table holds every admitted call since the key was last evicted, and nothing
   * else when no hit was recorded directly.
   */
  lemma {:induction false} TableCounts(o: Options, run: Run, key: string, limit: int, n: nat, cutoff: int)
    requires IsRun(o, run) && Orderly(run.calls, key, limit) && n <= |run.calls|
    requires n > 0 ==> cutoff >= EndOf(run.calls[n - 1]) - o.windowMs
    ensures CountAfter(Admitted(o, run, key, n), cutoff) <= CountAfter(StampsOf(run.tables[n], key), cutoff)
    ensures NoRecords(run.calls, key, n) ==>
      CountAfter(Admitted(o, run, key, n), cutoff) == CountAfter(StampsOf(run.tables[n], key), cutoff)
    decreases n
  {
    if n > 0 {
      var hits, c := run.tables[n - 1], run.calls[n - 1];
      assert IsStep(o, run, n - 1);
      assert n > 1 ==> EndOf(run.calls[n - 2]) <= StartOf(c);
      TableCounts(o, run, key, limit, n - 1, cutoff);
      if !Evicts(o, hits, c, key) {
        StampsAfter(o, hits, c, key);
        CountsStep(o, hits, run.tables[n], c, key, cutoff);
        FilterAppend(Admitted(o, run, key, n - 1), EndOf(c), cutoff);
      }
    }
  }

  /** How many stamps lie in `from <= at < from + length`. */
  function InWindow(stamps: seq<int>, from: int, length: int): nat {
    if stamps == [] then 0
    else
      var last := stamps[|stamps| - 1];
      InWindow(stamps[..|stamps| - 1], from, length) + (if from <= last < from + length then 1 else 0)
  }

  predicate AllUpTo(stamps: seq<int>, now: int) {
    forall i :: 0 <= i < |stamps| ==> stamps[i] <= now
  }

  /** Of stamps in the past, those a cutoff keeps are those in the window that ends now. */
  lemma {:induction false} KeptIsWindow(stamps: seq<int>, now: int, length: int)
    requires AllUpTo(stamps, now)
    ensures CountAfter(stamps, now - length) == InWindow(stamps, now - length + 1, length)
    decreases |stamps|
  {
    if stamps != [] {
      var init, last := stamps[..|stamps| - 1], stamps[|stamps| - 1];
      KeptIsWindow(init, now, length);
      assert stamps == init + [last];
      FilterAppend(init, last, now - length);
    }
  }

  lemma {:induction false} AdmittedUpTo(o: Options, run: Run, key: string, limit: int, n: nat, now: int)
    requires IsRun(o, run) && Orderly(run.calls, key, limit) && n <= |run.calls|
    requires n > 0 ==> EndOf(run.calls[n - 1]) <= now
    ensures AllUpTo(Admitted(o, run, key, n), now)
    decreases n
  {
    if n > 0 {
      assert n > 1 ==> EndOf(run.calls[n - 2]) <= StartOf(run.calls[n - 1]);
      AdmittedUpTo(o, run, key, limit, n - 1, now);
    }
  }

  /**
   * `tryConsume` admits a call only while fewer than `limit` calls were admitted in the `windowMs` up to
   * it, and always then when no hit was recorded directly.
   */
  lemma AdmitsExactly(o: Options, run: Run, key: string, limit: int, n: nat)
    requires IsRun(o, run) && Orderly(run.calls, key, limit) && n < |run.calls|
    requires run.calls[n].TryConsume? && run.calls[n].key == key
    ensures var c := run.calls[n];
            var recent := InWindow(Admitted(o, run, key, n), c.t0 - o.windowMs + 1, o.windowMs);
            && (Admits(o, run.tables[n], c) ==> recent < limit)
            && (NoRecords(run.calls, key, n) && recent < limit ==> Admits(o, run.tables[n], c))
  {
    assert n > 0 ==> EndOf(run.calls[n - 1]) <= StartOf(run.calls[n]);
    TableCounts(o, run, key, limit, n, run.calls[n].t0 - o.windowMs);
    AdmittedUpTo(o, run, key, limit, n, run.calls[n].t0);
    KeptIsWindow(Admitted(o, run, key, n), run.calls[n].t0, o.windowMs);
  }

  /** Each stamp has fewer than `limit` of the earlier ones less than a window before it. */
  predicate Spaced(o: Options, stamps: seq<int>, limit: int) {
    forall i :: 0 <= i < |stamps| ==> CountAfter(stamps[..i], stamps[i] - o.windowMs) < limit
  }

  lemma SpacedAppend(o: Options, stamps: seq<int>, at: int, limit: int)
    requires Spaced(o, stamps, limit) && CountAfter(stamps, at - o.windowMs) < limit
    ensures Spaced(o, stamps + [at], limit)
  {
    var all := stamps + [at];
    forall i | 0 <= i < |all| ensures CountAfter(all[..i], all[i] - o.windowMs) < limit {
      assert all[..i] == stamps[..i];
      assert stamps[..|stamps|] == stamps;
    }
  }

  lemma SpacedNext(o: Options, hits: Hits, admitted: seq<int>, c: Call, key: string, limit: int)
    requires hits.Valid() && Spaced(o, admitted, limit)
    requires Admits(o, hits, c) && c.key == key ==> CountAfter(admitted, c.at - o.windowMs) < limit
    ensures Spaced(o, AdmittedNext(o, hits, admitted, c, key), limit)
  {
    if Admits(o, hits, c) && c.key == key {
      SpacedAppend(o, admitted, c.at, limit);
    }
  }

  /** An admitted call finds room in the window that ends at its own stamp. */
  lemma AdmittedHasRoom(o: Options, hits: Hits, admitted: seq<int>, c: Call)
    requires Admits(o, hits, c) && c.t0 <= c.at
    requires CountAfter(admitted, c.at - o.windowMs) <= CountAfter(StampsOf(hits, c.key), c.at - o.windowMs)
    ensures CountAfter(admitted, c.at - o.windowMs) < c.limit
  {
    FilterTwice(StampsOf(hits, c.key), c.t0 - o.windowMs, c.at - o.windowMs);
  }

  lemma AdmittedLeavesRoom(o: Options, run: Run, key: string, limit: int, i: nat)
    requires IsRun(o, run) && Orderly(run.calls, key, limit) && i < |run.calls|
    requires run.calls[i].key == key && Admits(o, run.tables[i], run.calls[i])
    ensures CountAfter(Admitted(o, run, key, i), run.calls[i].at - o.windowMs) < limit
  {
    var c := run.calls[i];
    assert i > 0 ==> EndOf(run.calls[i - 1]) <= StartOf(c);
    assert c.limit == limit && Timed(c);
    TableCounts(o, run, key, limit, i, c.at - o.windowMs);
    AdmittedHasRoom(o, run.tables[i], Admitted(o, run, key, i), c);
  }

  lemma SpacedStep(o: Options, run: Run, key: string, limit: int, i: nat)
    requires IsRun(o, run) && Orderly(run.calls, key, limit) && i < |run.calls|
    requires Spaced(o, Admitted(o, run, key, i), limit)
    ensures Spaced(o, Admitted(o, run, key, i + 1), limit)
  {
    if run.calls[i].key == key && Admits(o, run.tables[i], run.calls[i]) {
      AdmittedLeavesRoom(o, run, key, limit, i);
    }
    SpacedNext(o, run.tables[i], Admitted(o, run, key, i), run.calls[i], key, limit);
  }

  lemma {:induction false} AdmittedSpaced(o: Options, run: Run, key: string, limit: int, n: nat)
    requires IsRun(o, run) && Orderly(run.calls, key, limit) && n <= |run.calls|
    ensures Spaced(o, Admitted(o, run, key, n), limit)
    decreases n
  {
    if n > 0 {
      AdmittedSpaced(o, run, key, limit, n - 1);
      SpacedStep(o, run, key, limit, n - 1);
    }
  }

  lemma {:induction false} InWindowCount(stamps: seq<int>, from: int, length: int, cutoff: int)
    requires cutoff < from
    ensures InWindow(stamps, from, length) <= CountAfter(stamps, cutoff)
    decreases |stamps|
  {
    if stamps != [] {
      var init, last := stamps[..|stamps| - 1], stamps[|stamps| - 1];
      InWindowCount(init, from, length, cutoff);
      assert stamps == init + [last];
      FilterAppend(init, last, cutoff);
    }
  }

  lemma {:induction false} SpacedInWindow(o: Options, stamps: seq<int>, limit: int, from: int)
    requires Spaced(o, stamps, limit)
    ensures InWindow(stamps, from, o.windowMs) <= if limit > 0 then limit else 0
    decreases |stamps|
  {
    if stamps != [] {
      var n := |stamps| - 1;
      var init, last := stamps[..n], stamps[n];
      assert CountAfter(stamps[..n], stamps[n] - o.windowMs) < limit;
      if from <= last < from + o.windowMs {
        InWindowCount(init, from, o.windowMs, last - o.windowMs);
      } else {
        forall i | 0 <= i < |init| ensures CountAfter(init[..i], init[i] - o.windowMs) < limit {
          assert init[..i] == stamps[..i];
        }
        SpacedInWindow(o, init, limit, from);
      }
    }
  }

  /**
   * On every run, every half-open window of length `windowMs` holds at most `limit` admitted calls for a
   * key, counting from its last eviction.
   */
  lemma NeverOverTheLimit(o: Options, run: Run, key: string, limit: int, n: nat, from: int)
    requires IsRun(o, run) && Orderly(run.calls, key, limit) && n <= |run.calls|
    ensures InWindow(Admitted(o, run, key, n), from, o.windowMs) <= if limit > 0 then limit else 0
  {
    AdmittedSpaced(o, run, key, limit, n);
    SpacedInWindow(o, Admitted(o, run, key, n), limit, from);
  }

  /**
   * In a table within its bound a key is evicted exactly when a new key is recorded while the table is full,
   * and it is the one whose last hit was recorded longest ago.
   */
  lemma EvictsExactly(o: Options, hits: Hits, c: Call, key: string)
    requires hits.Valid() && 1 <= o.maxKeys && |hits.order| <= o.maxKeys
    ensures Evicts(o, hits, c, key) <==>
      LeavesHit(o, hits, c) && c.key !in hits.vals && |hits.order| == o.maxKeys && key == hits.order[0]
  {
    AfterValid(o, hits, c);
    if LeavesHit(o, hits, c) {
      HitMeans(o, hits, c);
      TouchedOrder(o, hits, c.key, 0, 0);
      LeastRecentGoes(hits.order, o.maxKeys, c.key, key);
      var next := Next(o, hits, c);
      assert key in next.vals <==> key in next.order;
    }
  }

  /** The same of the keys in their order. */
  lemma LeastRecentGoes(order: seq<string>, maxKeys: int, touched: string, key: string)
    requires Distinct(order) && 1 <= maxKeys && |order| <= maxKeys
    ensures var all := Without(order, touched) + [touched];
      (key == touched || key in order) && key !in all[Excess(|all|, maxKeys)..] <==>
        touched !in order && |order| == maxKeys && key == order[0]
  {
    WithoutDistinct(order, touched);
    WithoutElements(order, touched);
    var all := Without(order, touched) + [touched];
    if |all| <= maxKeys {
      assert all[Excess(|all|, maxKeys)..] == all;
    } else {
      assert all == order + [touched] && all[1..] == order[1..] + [touched];
      assert order == [order[0]] + order[1..];
    }
  }

  /** The keys the first `n` calls are about. */
  function KeysOf(calls: seq<Call>, n: nat): set<string> {
    set i | 0 <= i < n && i < |calls| :: calls[i].key
  }

  /** A table holds keys of the calls made so far. */
  lemma {:induction false} TableKeys(o: Options, run: Run, n: nat)
    requires IsRun(o, run) && n <= |run.calls|
    ensures forall k :: k in run.tables[n].vals ==> k in KeysOf(run.calls, n)
    decreases n
  {
    if n > 0 {
      var hits, c := run.tables[n - 1], run.calls[n - 1];
      assert IsStep(o, run, n - 1);
      TableKeys(o, run, n - 1);
      NextKeys(o, hits, c);
      assert KeysOf(run.calls, n) == KeysOf(run.calls, n - 1) + {c.key} by {
        assert c.key in KeysOf(run.calls, n);
      }
    }
  }

  lemma NextKeys(o: Options, hits: Hits, c: Call)
    requires hits.Valid()
    ensures forall k :: k in Next(o, hits, c).vals ==> k in hits.vals || k == c.key
  {
    if c.Record? {
      TouchedValid(o, hits, c.key, c.t, c.at);
      EvictedKeeps(Touched(o, hits, c.key, c.t, c.at), o.maxKeys);
    } else if Admits(o, hits, c) {
      var live := AfterLive(o, hits, c.key, c.t0);
      TouchedValid(o, hits, c.key, c.t0, c.at);
      TouchedValid(o, live, c.key, c.t, c.at);
      EvictedKeeps(Touched(o, live, c.key, c.t, c.at), o.maxKeys);
    }
  }

  /** On a run about at most `maxKeys` keys no key is ever evicted. */
  lemma FewKeysAreNeverEvicted(o: Options, run: Run, n: nat, key: string)
    requires IsRun(o, run) && n < |run.calls| && |KeysOf(run.calls, |run.calls|)| <= o.maxKeys
    ensures !Evicts(o, run.tables[n], run.calls[n], key)
  {
    var hits, c := run.tables[n], run.calls[n];
    var keys := KeysOf(run.calls, |run.calls|);
    assert c.key in keys;
    SubsetSize({c.key}, keys);
    TableFits(o, run, n);
    EvictsExactly(o, hits, c, key);
    TableKeys(o, run, n);
    if c.key !in hits.vals {
      DistinctSize(hits.order);
      assert Elements(hits.order) + {c.key} <= keys by {
        assert KeysOf(run.calls, n) <= keys;
      }
      SubsetSize(Elements(hits.order) + {c.key}, keys);
      assert |Elements(hits.order) + {c.key}| == |hits.order| + 1;
    }
  }

  /** The stamps of all of the first `n` calls for `key` that were admitted. */
  ghost function AllAdmitted(o: Options, run: Run, key: string, n: nat): seq<int>
    requires IsRun(o, run) && n <= |run.calls|
  {
    if n == 0 then []
    else
      AllAdmitted(o, run, key, n - 1)
      + if Admits(o, run.tables[n - 1], run.calls[n - 1]) && run.calls[n - 1].key == key then [run.calls[n - 1].at]
        else []
  }

  lemma {:induction false} NoneForgotten(o: Options, run: Run, key: string, n: nat)
    requires IsRun(o, run) && n <= |run.calls|
    requires forall i :: 0 <= i < n ==> !Evicts(o, run.tables[i], run.calls[i], key)
    ensures Admitted(o, run, key, n) == AllAdmitted(o, run, key, n)
    decreases n
  {
    if n > 0 {
      NoneForgotten(o, run, key, n - 1);
    }
  }

  /**
   * On every run about at most `maxKeys` keys, every half-open window of length `windowMs` holds at most
   * `limit` of all the calls admitted for a key, from the first on; and a call is admitted exactly when
   * fewer than `limit` of them were, in the window up to it, if no hit was recorded directly.
   */
  lemma LimitHoldsThroughout(o: Options, run: Run, key: string, limit: int, n: nat, from: int)
    requires IsRun(o, run) && Orderly(run.calls, key, limit) && n <= |run.calls|
    requires |KeysOf(run.calls, |run.calls|)| <= o.maxKeys
    ensures InWindow(AllAdmitted(o, run, key, n), from, o.windowMs) <= if limit > 0 then limit else 0
    ensures n < |run.calls| && run.calls[n].TryConsume? && run.calls[n].key == key && NoRecords(run.calls, key, n) ==>
      (Admits(o, run.tables[n], run.calls[n]) <==>
        InWindow(AllAdmitted(o, run, key, n), run.calls[n].t0 - o.windowMs + 1, o.windowMs) < limit)
  {
    forall i | 0 <= i < n ensures !Evicts(o, run.tables[i], run.calls[i], key) {
      FewKeysAreNeverEvicted(o, run, i, key);
    }
    NoneForgotten(o, run, key, n);
    NeverOverTheLimit(o, run, key, limit, n, from);
    if n < |run.calls| && run.calls[n].TryConsume? && run.calls[n].key == key {
      AdmitsExactly(o, run, key, limit, n);
    }
  }

  /** On every run the table stays within its bound. */
  lemma {:induction false} TableFits(o: Options, run: Run, n: nat)
    requires o.maxKeys >= 0 && IsRun(o, run) && n <= |run.calls|
    ensures |run.tables[n].order| <= o.maxKeys
    decreases n
  {
    if n > 0 {
      assert IsStep(o, run, n - 1);
      TableFits(o, run, n - 1);
      AfterFits(o, run.tables[n - 1], run.calls[n - 1]);
    }
  }
}
