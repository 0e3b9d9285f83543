/** Sorted, duplicate-free lists of text: `[...new Set(names)].sort(compareAsText)` (src/agents/effective.ts). */
module SortedNames {
  /** Order by character code, never by locale. */
  predicate Less(a: string, b: string) {
    b != "" && (a == "" || a[0] < b[0] || (a[0] == b[0] && Less(a[1..], b[1..])))
  }

  lemma {:induction false} LessTotal(a: string, b: string)
    ensures a == b || Less(a, b) || Less(b, a)
    ensures !(Less(a, b) && Less(b, a)) && (a == b ==> !Less(a, b))
    decreases |a|
  {
    if a != "" && b != "" {
      LessTotal(a[1..], b[1..]);
      assert a == [a[0]] + a[1..] && b == [b[0]] + b[1..];
    }
  }

  lemma {:induction false} LessTransitive(a: string, b: string, c: string)
    requires Less(a, b) && Less(b, c)
    ensures Less(a, c)
    decreases |a|
  {
    if a != "" && a[0] == b[0] == c[0] {
      LessTransitive(a[1..], b[1..], c[1..]);
    }
  }

  /** The order is decided at the first place where the texts differ; a text comes before its continuations. */
  lemma {:induction false} LessMeans(a: string, b: string)
    ensures Less(a, b) <==>
      exists k :: 0 <= k <= |a| && IsFirstDifference(a, b, k)
    decreases |a|
  {
    if a == "" {
      assert b != "" ==> IsFirstDifference(a, b, 0);
    } else if b != "" {
      LessMeans(a[1..], b[1..]);
      if a[0] == b[0] {
        if k :| 0 <= k <= |a[1..]| && IsFirstDifference(a[1..], b[1..], k) {
          assert a[..k + 1] == [a[0]] + a[1..][..k] && b[..k + 1] == [b[0]] + b[1..][..k];
          assert IsFirstDifference(a, b, k + 1);
        }
        if k :| 0 <= k <= |a| && IsFirstDifference(a, b, k) {
          assert k > 0;
          assert a[1..][..k - 1] == a[..k][1..] && b[1..][..k - 1] == b[..k][1..];
          assert IsFirstDifference(a[1..], b[1..], k - 1);
        }
      } else {
        assert a[0] < b[0] ==> IsFirstDifference(a, b, 0);
        forall k | 1 <= k <= |a| && k <= |b| ensures a[..k] != b[..k] {
          assert a[..k][0] == a[0] && b[..k][0] == b[0];
        }
      }
    }
  }

  /** The texts agree before place `k`, where `a` ends or has the smaller character code. */
  predicate IsFirstDifference(a: string, b: string, k: nat) {
    && k <= |a| && k < |b| && a[..k] == b[..k]
    && (k == |a| || a[k] < b[k])
  }

  predicate Sorted(s: seq<string>) {
    forall i, j :: 0 <= i < j < |s| ==> Less(s[i], s[j])
  }

  function Insert(s: seq<string>, x: string): seq<string> {
    if s == [] then [x]
    else if x == s[0] then s
    else if Less(x, s[0]) then [x] + s
    else [s[0]] + Insert(s[1..], x)
  }

  /** The names, sorted and deduplicated. */
  function SortNames(names: seq<string>): seq<string> {
    if names == [] then [] else Insert(SortNames(names[1..]), names[0])
  }

  lemma {:induction false} InsertSorted(s: seq<string>, x: string)
    requires Sorted(s)
    ensures Sorted(Insert(s, x))
    ensures forall y :: y in Insert(s, x) <==> y == x || y in s
    decreases |s|
  {
    if s != [] {
      assert s == [s[0]] + s[1..];
      LessTotal(x, s[0]);
      InsertSorted(s[1..], x);
      if Less(x, s[0]) {
        forall j | 0 < j < |s| ensures Less(x, s[j]) {
          LessTransitive(x, s[0], s[j]);
        }
      } else if x != s[0] {
        var r := Insert(s[1..], x);
        forall j | 0 <= j < |r| ensures Less(s[0], r[j]) {
          assert r[j] in r;
        }
      }
    }
  }

  lemma {:induction false} SortNamesSorted(names: seq<string>)
    ensures Sorted(SortNames(names))
    ensures forall y :: y in SortNames(names) <==> y in names
    decreases |names|
  {
    if names != [] {
      SortNamesSorted(names[1..]);
      InsertSorted(SortNames(names[1..]), names[0]);
      assert names == [names[0]] + names[1..];
    }
  }

  /** A sorted list is determined by its elements. */
  lemma {:induction false} SortedUnique(s: seq<string>, t: seq<string>)
    requires Sorted(s) && Sorted(t)
    requires forall y :: y in s <==> y in t
    ensures s == t
    decreases |s|
  {
    if s == [] {
      assert forall i :: 0 <= i < |t| ==> t[i] in t;
    } else {
      assert s[0] in s && s[0] in t;
      assert t[0] in t && t[0] in s;
      assert t[0] == s[0] || Less(s[0], t[0]);
      assert s[0] == t[0] || Less(t[0], s[0]);
      LessTotal(s[0], t[0]);
      SortedRest(s);
      SortedRest(t);
      SortedUnique(s[1..], t[1..]);
      assert s == [s[0]] + s[1..] && t == [t[0]] + t[1..];
    }
  }

  lemma SortedRest(s: seq<string>)
    requires Sorted(s) && s != []
    ensures Sorted(s[1..])
    ensures forall y :: y in s[1..] <==> y in s && y != s[0]
  {
    assert s == [s[0]] + s[1..];
    LessTotal(s[0], s[0]);
    forall y | y in s[1..] ensures y != s[0] {
      var i :| 0 <= i < |s[1..]| && s[1..][i] == y;
      assert Less(s[0], s[i + 1]);
    }
  }
}
