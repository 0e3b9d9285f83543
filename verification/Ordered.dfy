/** Insertion-ordered collections: what a JavaScript `Set` or `Map` keeps, as values. */
module Ordered {

  datatype Option<+T> = None | Some(value: T)

  ghost predicate Distinct<K>(s: seq<K>) {
    forall i, j :: 0 <= i < j < |s| ==> s[i] != s[j]
  }

  /** `s` without `k`: `Set.prototype.delete`. */
  function Without<K(==)>(s: seq<K>, k: K): seq<K> {
    if s == [] then []
    else if s[0] == k then Without(s[1..], k)
    else [s[0]] + Without(s[1..], k)
  }

  /** The elements that entered after `k`. */
  ghost function After<K>(s: seq<K>, k: K): set<K> {
    if s == [] then {}
    else if s[0] == k then Elements(s[1..])
    else After(s[1..], k)
  }

  ghost function Elements<K>(s: seq<K>): set<K> {
    set x | x in s
  }

  lemma {:induction false} WithoutElements<K>(s: seq<K>, k: K)
    ensures forall x :: x in Without(s, k) <==> x in s && x != k
  {
    if s != [] {
      WithoutElements(s[1..], k);
      assert s == [s[0]] + s[1..];
    }
  }

  lemma {:induction false} WithoutDistinct<K>(s: seq<K>, k: K)
    requires Distinct(s)
    ensures Distinct(Without(s, k))
    ensures |Without(s, k)| == if k in s then |s| - 1 else |s|
    ensures k !in s ==> Without(s, k) == s
  {
    if s != [] {
      var r := Without(s[1..], k);
      WithoutDistinct(s[1..], k);
      WithoutElements(s[1..], k);
      assert s == [s[0]] + s[1..];
      assert s[0] !in s[1..] && s[0] !in r;
      assert forall i :: 0 <= i < |r| ==> r[i] in r;
    }
  }

  /** Leaving out the element at place `i` closes the gap and keeps the order of the rest. */
  lemma {:induction false} WithoutAt<K>(s: seq<K>, i: nat)
    requires Distinct(s) && i < |s|
    ensures Without(s, s[i]) == s[..i] + s[i + 1..]
  {
    if i == 0 {
      WithoutDistinct(s[1..], s[0]);
    } else {
      assert s[1..][i - 1] == s[i] && Distinct(s[1..]);
      WithoutAt(s[1..], i - 1);
      assert s[..i] == [s[0]] + s[1..][..i - 1];
      assert s[1..][i..] == s[i + 1..];
    }
  }

  lemma {:induction false} AfterWithout<K>(s: seq<K>, j: K, k: K)
    requires j != k
    ensures After(Without(s, j), k) == After(s, k) - {j}
  {
    if s != [] {
      AfterWithout(s[1..], j, k);
      WithoutElements(s[1..], j);
      if s[0] == k {
        assert Without(s, j)[1..] == Without(s[1..], j);
        assert Elements(Without(s[1..], j)) == Elements(s[1..]) - {j};
      } else if s[0] != j {
        assert Without(s, j)[1..] == Without(s[1..], j);
      }
    }
  }

  lemma {:induction false} AfterAppend<K>(s: seq<K>, j: K, k: K)
    requires k in s
    ensures After(s + [j], k) == After(s, k) + {j}
  {
    assert (s + [j])[1..] == s[1..] + [j];
    if s[0] != k {
      AfterAppend(s[1..], j, k);
    }
  }

  /** A first element has every other one after it. */
  lemma AfterHead<K>(s: seq<K>)
    requires Distinct(s) && s != []
    ensures After(s, s[0]) == Elements(s) - {s[0]}
    ensures |After(s, s[0])| == |s| - 1
  {
    DistinctSize(s[1..]);
    assert s == [s[0]] + s[1..];
  }

  lemma {:induction false} DistinctSize<K>(s: seq<K>)
    requires Distinct(s)
    ensures |Elements(s)| == |s|
  {
    if s != [] {
      DistinctSize(s[1..]);
      assert s == [s[0]] + s[1..];
      assert Elements(s) == {s[0]} + Elements(s[1..]);
    }
  }

  lemma SubsetSize<K>(a: set<K>, b: set<K>)
    requires a <= b
    ensures |a| <= |b|
  {
    assert b == a + (b - a);
  }

  /** An insertion-ordered map: `order` lists the keys, oldest first. */
  datatype OMap<K, V> = OMap(order: seq<K>, vals: map<K, V>)
  {
    ghost predicate Valid() {
      && Distinct(order)
      && (forall x :: x in order ==> x in vals)
      && (forall x :: x in vals ==> x in order)
    }

    /** `Map.prototype.set`: a key already present keeps its place. */
    function Put(k: K, v: V): OMap<K, V> {
      OMap(if k in vals then order else order + [k], vals[k := v])
    }

    function Delete(k: K): OMap<K, V> {
      OMap(Without(order, k), vals - {k})
    }

    /** Deletes the oldest key, if there is one. */
    function DeleteOldest(): OMap<K, V> {
      if order == [] then this else Delete(order[0])
    }
  }

  lemma PutValid<K, V>(m: OMap<K, V>, k: K, v: V)
    requires m.Valid()
    ensures m.Put(k, v).Valid()
    ensures |m.Put(k, v).order| == if k in m.vals then |m.order| else |m.order| + 1
  {
  }

  lemma DeleteValid<K, V>(m: OMap<K, V>, k: K)
    requires m.Valid()
    ensures m.Delete(k).Valid()
    ensures |m.Delete(k).order| == if k in m.vals then |m.order| - 1 else |m.order|
  {
    WithoutDistinct(m.order, k);
    WithoutElements(m.order, k);
    var d := m.Delete(k);
    assert Distinct(d.order);
    assert forall x :: x in d.order ==> x in d.vals;
    assert forall x :: x in d.vals ==> x in d.order;
    assert d.Valid();
  }

  function EmptyMap<K, V>(): OMap<K, V> {
    OMap([], map[])
  }
}
