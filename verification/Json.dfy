/** JSON documents with ordered keys, and replacing the value at an address (a list of keys). */
module Json {
  import opened Ordered

  datatype Json = Null | Bool(b: bool) | Num(literal: string) | Str(text: string) | Arr(items: seq<Json>)
      | Obj(fields: Fields)

  type Fields = seq<(string, Json)>

  type Address = seq<string>

  predicate DistinctKeys(fields: Fields) {
    forall i, j :: 0 <= i < j < |fields| ==> fields[i].0 != fields[j].0
  }

  /** No object of the document repeats a key, as in every parsed document. */
  predicate WellFormed(doc: Json) {
    match doc
    case Arr(items) => forall i :: 0 <= i < |items| ==> WellFormed(items[i])
    case Obj(fields) => DistinctKeys(fields) && forall i :: 0 <= i < |fields| ==> WellFormed(fields[i].1)
    case _ => true
  }

  function Keys(fields: Fields): (keys: seq<string>)
    ensures |keys| == |fields| && forall i :: 0 <= i < |fields| ==> keys[i] == fields[i].0
  {
    if fields == [] then [] else [fields[0].0] + Keys(fields[1..])
  }

  function Find(fields: Fields, key: string): Option<Json> {
    if fields == [] then None
    else if fields[0].0 == key then Some(fields[0].1)
    else Find(fields[1..], key)
  }

  /** The value under `key` replaced where it stands, or appended when the key is new. */
  function Put(fields: Fields, key: string, v: Json): Fields {
    if fields == [] then [(key, v)]
    else if fields[0].0 == key then [(key, v)] + fields[1..]
    else [fields[0]] + Put(fields[1..], key, v)
  }

  /** The value at an address, if every key on the way exists. */
  function At(doc: Json, a: Address): Option<Json>
    decreases |a|
  {
    if a == [] then Some(doc)
    else if doc.Obj? && Find(doc.fields, a[0]).Some? then At(Find(doc.fields, a[0]).value, a[1..])
    else None
  }

  /** The document with the value at an existing address replaced. */
  function Update(doc: Json, a: Address, v: Json): Json
    decreases |a|
  {
    if a == [] then v
    else if doc.Obj? && Find(doc.fields, a[0]).Some? then
      Obj(Put(doc.fields, a[0], Update(Find(doc.fields, a[0]).value, a[1..], v)))
    else doc
  }

  /** Neither address lies at or below the other. */
  predicate Apart(a: Address, b: Address) {
    !(a <= b) && !(b <= a)
  }

  // ---------------------------------------------------------------------------
  // Fields

  /** A key is found exactly if some field has it; in a parsed object, with the value of that field. */
  lemma {:induction false} FindMeans(fields: Fields, key: string, v: Json)
    ensures Find(fields, key).None? <==> forall i :: 0 <= i < |fields| ==> fields[i].0 != key
    ensures DistinctKeys(fields) ==> (Find(fields, key) == Some(v) <==> (key, v) in fields)
    decreases |fields|
  {
    if fields != [] {
      FindMeans(fields[1..], key, v);
      assert fields == [fields[0]] + fields[1..];
      assert forall i :: 0 < i < |fields| ==> fields[i] == fields[1..][i - 1];
      assert DistinctKeys(fields) ==> forall i :: 0 < i < |fields| ==> fields[i].0 != fields[0].0;
    }
  }

  lemma {:induction false} FindPut(fields: Fields, key: string, v: Json, other: string)
    ensures Find(Put(fields, key, v), other) == if other == key then Some(v) else Find(fields, other)
    decreases |fields|
  {
    if fields != [] {
      FindPut(fields[1..], key, v, other);
    }
  }

  lemma {:induction false} PutKeys(fields: Fields, key: string, v: Json)
    ensures Keys(Put(fields, key, v)) == if Find(fields, key).Some? then Keys(fields) else Keys(fields) + [key]
    decreases |fields|
  {
    if fields != [] && fields[0].0 != key {
      PutKeys(fields[1..], key, v);
    }
  }

  lemma {:induction false} PutFound(fields: Fields, key: string)
    requires Find(fields, key).Some?
    ensures Put(fields, key, Find(fields, key).value) == fields
    decreases |fields|
  {
    if fields[0].0 != key {
      PutFound(fields[1..], key);
    }
  }

  lemma {:induction false} PutTwice(fields: Fields, key: string, v: Json, w: Json)
    ensures Put(Put(fields, key, v), key, w) == Put(fields, key, w)
    decreases |fields|
  {
    if fields != [] && fields[0].0 != key {
      PutTwice(fields[1..], key, v, w);
    }
  }

  lemma {:induction false} PutCommutes(fields: Fields, k: string, v: Json, l: string, w: Json)
    requires k != l && Find(fields, k).Some? && Find(fields, l).Some?
    ensures Put(Put(fields, k, v), l, w) == Put(Put(fields, l, w), k, v)
    decreases |fields|
  {
    var tail := fields[1..];
    if fields[0].0 == k {
      assert Put(fields, k, v)[1..] == tail;
    } else if fields[0].0 == l {
      assert Put(fields, l, w)[1..] == tail;
    } else {
      PutCommutes(tail, k, v, l, w);
      assert Put(fields, k, v)[1..] == Put(tail, k, v);
      assert Put(fields, l, w)[1..] == Put(tail, l, w);
    }
  }

  /** With distinct keys, looking a key up finds its one field. */
  lemma {:induction false} FindField(fields: Fields, i: nat)
    requires DistinctKeys(fields) && i < |fields|
    ensures Find(fields, fields[i].0) == Some(fields[i].1)
    decreases |fields|
  {
    if i > 0 {
      assert fields[0].0 != fields[i].0;
      FindField(fields[1..], i - 1);
    }
  }

  lemma {:induction false} FieldFound(fields: Fields, key: string) returns (i: nat)
    requires Find(fields, key).Some?
    ensures i < |fields| && fields[i] == (key, Find(fields, key).value)
    decreases |fields|
  {
    if fields[0].0 == key {
      i := 0;
    } else {
      var j := FieldFound(fields[1..], key);
      i := j + 1;
    }
  }

  lemma {:induction false} NotFound(fields: Fields, key: string)
    requires Find(fields, key).None?
    ensures key !in Keys(fields)
    decreases |fields|
  {
    if fields != [] {
      NotFound(fields[1..], key);
    }
  }

  lemma PutDistinct(fields: Fields, key: string, v: Json)
    requires DistinctKeys(fields)
    ensures DistinctKeys(Put(fields, key, v))
  {
    PutKeys(fields, key, v);
    if Find(fields, key).None? {
      NotFound(fields, key);
    }
    var r := Put(fields, key, v);
    forall i, j | 0 <= i < j < |r| ensures r[i].0 != r[j].0 {
      assert Keys(r)[i] == r[i].0 && Keys(r)[j] == r[j].0;
      assert j < |fields| ==> Keys(fields)[i] == fields[i].0 && Keys(fields)[j] == fields[j].0;
      assert i < |fields| ==> Keys(fields)[i] in Keys(fields);
    }
  }

  lemma {:induction false} PutValues(fields: Fields, key: string, v: Json, i: nat)
    requires i < |Put(fields, key, v)|
    ensures Put(fields, key, v)[i] == (key, v) || (i < |fields| && Put(fields, key, v)[i] == fields[i])
    decreases |fields|
  {
    if i > 0 && fields[0].0 != key {
      PutValues(fields[1..], key, v, i - 1);
    }
  }

  lemma PutWellFormed(fields: Fields, key: string, v: Json)
    requires WellFormed(Obj(fields)) && WellFormed(v)
    ensures WellFormed(Obj(Put(fields, key, v)))
  {
    PutDistinct(fields, key, v);
    forall i | 0 <= i < |Put(fields, key, v)| ensures WellFormed(Put(fields, key, v)[i].1) {
      PutValues(fields, key, v, i);
    }
  }

  // ---------------------------------------------------------------------------
  // Addresses

  lemma {:induction false} AtUpdate(doc: Json, a: Address, v: Json)
    requires At(doc, a).Some?
    ensures At(Update(doc, a, v), a) == Some(v)
    decreases |a|
  {
    if a != [] {
      var child := Find(doc.fields, a[0]).value;
      AtUpdate(child, a[1..], v);
      FindPut(doc.fields, a[0], Update(child, a[1..], v), a[0]);
    }
  }

  lemma {:induction false} AtUpdateApart(doc: Json, a: Address, v: Json, b: Address)
    requires Apart(a, b)
    ensures At(Update(doc, a, v), b) == At(doc, b)
    decreases |a|
  {
    if doc.Obj? && Find(doc.fields, a[0]).Some? {
      var child := Find(doc.fields, a[0]).value;
      FindPut(doc.fields, a[0], Update(child, a[1..], v), b[0]);
      if a[0] == b[0] {
        AtUpdateApart(child, a[1..], v, b[1..]);
      }
    }
  }

  lemma {:induction false} UpdateFound(doc: Json, a: Address)
    requires At(doc, a).Some?
    ensures Update(doc, a, At(doc, a).value) == doc
    decreases |a|
  {
    if a != [] {
      UpdateFound(Find(doc.fields, a[0]).value, a[1..]);
      PutFound(doc.fields, a[0]);
    }
  }

  lemma {:induction false} UpdateTwice(doc: Json, a: Address, v: Json, w: Json)
    requires At(doc, a).Some?
    ensures Update(Update(doc, a, v), a, w) == Update(doc, a, w)
    decreases |a|
  {
    if a != [] {
      var child := Find(doc.fields, a[0]).value;
      var once := Update(child, a[1..], v);
      UpdateTwice(child, a[1..], v, w);
      FindPut(doc.fields, a[0], once, a[0]);
      PutTwice(doc.fields, a[0], once, Update(once, a[1..], w));
    }
  }

  lemma {:induction false} UpdateCommutes(doc: Json, a: Address, v: Json, b: Address, w: Json)
    requires Apart(a, b) && At(doc, a).Some? && At(doc, b).Some?
    ensures Update(Update(doc, a, v), b, w) == Update(Update(doc, b, w), a, v)
    decreases |a|
  {
    var ca, cb := Find(doc.fields, a[0]).value, Find(doc.fields, b[0]).value;
    var ua, ub := Update(ca, a[1..], v), Update(cb, b[1..], w);
    FindPut(doc.fields, a[0], ua, b[0]);
    FindPut(doc.fields, b[0], ub, a[0]);
    if a[0] == b[0] {
      UpdateCommutes(ca, a[1..], v, b[1..], w);
      var both := Update(ua, b[1..], w);
      PutTwice(doc.fields, a[0], ua, both);
      PutTwice(doc.fields, a[0], ub, both);
    } else {
      PutCommutes(doc.fields, a[0], ua, b[0], ub);
    }
  }

  /** Below an address, the value there alone decides. */
  lemma {:induction false} AtConcat(doc: Json, a: Address, b: Address)
    ensures At(doc, a + b) == if At(doc, a).Some? then At(At(doc, a).value, b) else None
    decreases |a|
  {
    if a == [] {
      assert a + b == b;
    } else {
      assert (a + b)[0] == a[0] && (a + b)[1..] == a[1..] + b;
      if doc.Obj? && Find(doc.fields, a[0]).Some? {
        AtConcat(Find(doc.fields, a[0]).value, a[1..], b);
      }
    }
  }

  lemma {:induction false} UpdateConcat(doc: Json, a: Address, b: Address, v: Json)
    requires At(doc, a).Some?
    ensures Update(doc, a + b, v) == Update(doc, a, Update(At(doc, a).value, b, v))
    decreases |a|
  {
    if a == [] {
      assert a + b == b;
    } else {
      assert (a + b)[0] == a[0] && (a + b)[1..] == a[1..] + b;
      UpdateConcat(Find(doc.fields, a[0]).value, a[1..], b, v);
    }
  }

  lemma {:induction false} WellFormedAt(doc: Json, a: Address)
    requires WellFormed(doc) && At(doc, a).Some?
    ensures WellFormed(At(doc, a).value)
    decreases |a|
  {
    if a != [] {
      var i := FieldFound(doc.fields, a[0]);
      assert doc.fields[i].1 == Find(doc.fields, a[0]).value;
      WellFormedAt(Find(doc.fields, a[0]).value, a[1..]);
    }
  }

  lemma {:induction false} UpdateWellFormed(doc: Json, a: Address, v: Json)
    requires WellFormed(doc) && WellFormed(v)
    ensures WellFormed(Update(doc, a, v))
    decreases |a|
  {
    if a != [] && doc.Obj? && Find(doc.fields, a[0]).Some? {
      var i := FieldFound(doc.fields, a[0]);
      assert doc.fields[i].1 == Find(doc.fields, a[0]).value;
      UpdateWellFormed(Find(doc.fields, a[0]).value, a[1..], v);
      PutWellFormed(doc.fields, a[0], Update(Find(doc.fields, a[0]).value, a[1..], v));
    }
  }

  /** The same kind of value, with the same keys in the same order if it is an object, and equal otherwise. */
  predicate SameShape(x: Option<Json>, y: Option<Json>) {
    if x.Some? && x.value.Obj? && y.Some? && y.value.Obj? then Keys(x.value.fields) == Keys(y.value.fields) else x == y
  }

  /** An update leaves the shape of everything that is not at or below its address. */
  lemma {:induction false} UpdateShape(doc: Json, a: Address, v: Json, b: Address)
    requires !(a <= b) && At(doc, a).Some?
    ensures SameShape(At(Update(doc, a, v), b), At(doc, b))
    decreases |a|
  {
    var child := Find(doc.fields, a[0]).value;
    var once := Update(child, a[1..], v);
    if b == [] {
      PutKeys(doc.fields, a[0], once);
    } else {
      FindPut(doc.fields, a[0], once, b[0]);
      if b[0] == a[0] {
        assert a == [a[0]] + a[1..] && b == [b[0]] + b[1..];
        UpdateShape(child, a[1..], v, b[1..]);
      }
    }
  }

  // ---------------------------------------------------------------------------
  // Several replacements

  datatype Edit = Edit(at: Address, value: Json)

  function ApplyEdits(doc: Json, edits: seq<Edit>): Json
    decreases |edits|
  {
    if edits == [] then doc else ApplyEdits(Update(doc, edits[0].at, edits[0].value), edits[1..])
  }

  /** The edited addresses exist and are pairwise apart. */
  predicate Independent(doc: Json, edits: seq<Edit>) {
    && (forall i :: 0 <= i < |edits| ==> At(doc, edits[i].at).Some?)
    && forall i, j :: 0 <= i < j < |edits| ==> Apart(edits[i].at, edits[j].at)
  }

  lemma IndependentRest(doc: Json, edits: seq<Edit>)
    requires Independent(doc, edits) && edits != []
    ensures Independent(Update(doc, edits[0].at, edits[0].value), edits[1..])
    ensures forall i :: 0 < i < |edits| ==>
      At(Update(doc, edits[0].at, edits[0].value), edits[i].at) == At(doc, edits[i].at)
  {
    forall i | 0 < i < |edits|
      ensures At(Update(doc, edits[0].at, edits[0].value), edits[i].at) == At(doc, edits[i].at)
    {
      AtUpdateApart(doc, edits[0].at, edits[0].value, edits[i].at);
    }
  }

  lemma {:induction false} AtEditsApart(doc: Json, edits: seq<Edit>, b: Address)
    requires Independent(doc, edits)
    requires forall i :: 0 <= i < |edits| ==> Apart(edits[i].at, b)
    ensures At(ApplyEdits(doc, edits), b) == At(doc, b)
    decreases |edits|
  {
    if edits != [] {
      IndependentRest(doc, edits);
      AtEditsApart(Update(doc, edits[0].at, edits[0].value), edits[1..], b);
      AtUpdateApart(doc, edits[0].at, edits[0].value, b);
    }
  }

  /** Every edit is found where it was made. */
  lemma {:induction false} AtEdit(doc: Json, edits: seq<Edit>, i: nat)
    requires Independent(doc, edits) && i < |edits|
    ensures At(ApplyEdits(doc, edits), edits[i].at) == Some(edits[i].value)
    decreases |edits|
  {
    IndependentRest(doc, edits);
    var next := Update(doc, edits[0].at, edits[0].value);
    if i > 0 {
      AtEdit(next, edits[1..], i - 1);
    } else {
      AtEditsApart(next, edits[1..], edits[0].at);
      AtUpdate(doc, edits[0].at, edits[0].value);
    }
  }

  lemma {:induction false} EditsShape(doc: Json, edits: seq<Edit>, b: Address)
    requires Independent(doc, edits)
    requires forall i :: 0 <= i < |edits| ==> !(edits[i].at <= b)
    ensures SameShape(At(ApplyEdits(doc, edits), b), At(doc, b))
    decreases |edits|
  {
    if edits != [] {
      IndependentRest(doc, edits);
      EditsShape(Update(doc, edits[0].at, edits[0].value), edits[1..], b);
      UpdateShape(doc, edits[0].at, edits[0].value, b);
    }
  }

  lemma {:induction false} EditsConcat(doc: Json, first: seq<Edit>, second: seq<Edit>)
    ensures ApplyEdits(doc, first + second) == ApplyEdits(ApplyEdits(doc, first), second)
    decreases |first|
  {
    if first == [] {
      assert first + second == second;
    } else {
      assert (first + second)[1..] == first[1..] + second;
      EditsConcat(Update(doc, first[0].at, first[0].value), first[1..], second);
    }
  }

  lemma {:induction false} EditsWellFormed(doc: Json, edits: seq<Edit>)
    requires WellFormed(doc) && forall i :: 0 <= i < |edits| ==> WellFormed(edits[i].value)
    ensures WellFormed(ApplyEdits(doc, edits))
    decreases |edits|
  {
    if edits != [] {
      UpdateWellFormed(doc, edits[0].at, edits[0].value);
      EditsWellFormed(Update(doc, edits[0].at, edits[0].value), edits[1..]);
    }
  }

  lemma {:induction false} UpdatePastEdits(doc: Json, a: Address, v: Json, edits: seq<Edit>)
    requires Independent(doc, [Edit(a, v)] + edits)
    ensures ApplyEdits(Update(doc, a, v), edits) == Update(ApplyEdits(doc, edits), a, v)
    decreases |edits|
  {
    if edits != [] {
      var all := [Edit(a, v)] + edits;
      var e := edits[0];
      assert all[0] == Edit(a, v) && all[1] == e && forall i :: 0 <= i < |edits| ==> all[i + 1] == edits[i];
      UpdateCommutes(doc, a, v, e.at, e.value);
      var rest := [Edit(a, v)] + edits[1..];
      forall i | 0 <= i < |rest|
        ensures At(Update(doc, e.at, e.value), rest[i].at).Some? && (i > 0 ==> rest[i] == all[i + 1])
      {
        AtUpdateApart(doc, e.at, e.value, rest[i].at);
      }
      UpdatePastEdits(Update(doc, e.at, e.value), a, v, edits[1..]);
    }
  }

  /** Putting back, at every edited address, what was there gives the document back. */
  lemma {:induction false} EditsUndone(doc: Json, edits: seq<Edit>, back: seq<Edit>)
    requires Independent(doc, edits) && |back| == |edits|
    requires forall i :: 0 <= i < |edits| ==> back[i].at == edits[i].at && At(doc, edits[i].at) == Some(back[i].value)
    ensures ApplyEdits(ApplyEdits(doc, edits), back) == doc
    decreases |edits|
  {
    if edits != [] {
      var a, v := edits[0].at, edits[0].value;
      var next := Update(doc, a, v);
      IndependentRest(doc, edits);
      EditsUndone(next, edits[1..], back[1..]);
      var done := ApplyEdits(next, edits[1..]);
      forall i | 0 <= i < |back| ensures At(done, back[i].at).Some? {
        if i > 0 {
          AtEdit(next, edits[1..], i - 1);
        } else {
          AtEditsApart(next, edits[1..], a);
          AtUpdate(doc, a, v);
        }
      }
      assert back == [Edit(a, back[0].value)] + back[1..];
      UpdatePastEdits(done, a, back[0].value, back[1..]);
      UpdateTwice(doc, a, v, back[0].value);
      UpdateFound(doc, a);
    }
  }
}
