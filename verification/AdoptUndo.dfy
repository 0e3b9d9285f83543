/** Undo is the inverse of adopt, adopt is idempotent, and undo spares what changed since. */
module AdoptUndo {
  import opened Ordered
  import opened Json
  import opened AdoptEntry
  import opened Adopt

  /** The locations of a file: distinct, and none inside another. */
  predicate PathsApart(paths: seq<Address>) {
    forall i, j :: 0 <= i < j < |paths| ==> Apart(paths[i], paths[j])
  }

  // ---------------------------------------------------------------------------
  // The rows to wrap

  /** A row describes the entry at its address. */
  ghost predicate RowOk(host: Host, doc: Json, launcher: Launcher, row: Row) {
    match At(doc, row.path + [row.name])
    case Some(Obj(entry)) =>
      Judge(host, row.name, Obj(entry), launcher) == Wrap(row.next) && row.before == CommandLineOf(host, entry)
    case _ => false
  }

  lemma {:induction false} WrapRowsFrom(host: Host, path: Address, servers: Fields, launcher: Launcher, i: nat)
    returns (j: nat)
    requires i < |WrapRows(host, path, servers, launcher)|
    ensures j < |servers|
    ensures RowsOfServer(host, path, servers[j].0, servers[j].1, launcher)
        == [WrapRows(host, path, servers, launcher)[i]]
    decreases |servers|
  {
    var first := RowsOfServer(host, path, servers[0].0, servers[0].1, launcher);
    if i < |first| {
      j := 0;
    } else {
      var k := WrapRowsFrom(host, path, servers[1..], launcher, i - |first|);
      j := k + 1;
    }
  }

  predicate NamesDistinct(rows: seq<Row>) {
    forall i, j :: 0 <= i < j < |rows| ==> rows[i].name != rows[j].name
  }

  lemma {:induction false} WrapRowsDistinct(host: Host, path: Address, servers: Fields, launcher: Launcher)
    requires DistinctKeys(servers)
    ensures NamesDistinct(WrapRows(host, path, servers, launcher))
    decreases |servers|
  {
    if servers != [] {
      WrapRowsDistinct(host, path, servers[1..], launcher);
      var rest := WrapRows(host, path, servers[1..], launcher);
      forall j | 0 <= j < |rest| ensures rest[j].name != servers[0].0 {
        var k := WrapRowsFrom(host, path, servers[1..], launcher, j);
      }
      var first := RowsOfServer(host, path, servers[0].0, servers[0].1, launcher);
      var rows := WrapRows(host, path, servers, launcher);
      assert |first| <= 1 && rows == first + rest;
      forall i, j | 0 <= i < j < |rows| ensures rows[i].name != rows[j].name {
        assert rows[j] == rest[j - |first|];
        if i < |first| {
          assert rows[i] == first[i] && first[i].name == servers[0].0;
          assert rest[j - |first|].name != servers[0].0;
        } else {
          assert rows[i] == rest[i - |first|];
          assert rest[i - |first|].name != rest[j - |first|].name;
        }
      }
    }
  }

  lemma {:induction false} WrapRowsComplete(host: Host, path: Address, servers: Fields, launcher: Launcher, j: nat)
    requires j < |servers| && Judge(host, servers[j].0, servers[j].1, launcher).Wrap?
    ensures exists i ::
        && 0 <= i < |WrapRows(host, path, servers, launcher)|
        && WrapRows(host, path, servers, launcher)[i].name == servers[j].0
    decreases |servers|
  {
    var rows := WrapRows(host, path, servers, launcher);
    var first := RowsOfServer(host, path, servers[0].0, servers[0].1, launcher);
    if j == 0 {
      assert rows[0].name == servers[0].0;
    } else {
      WrapRowsComplete(host, path, servers[1..], launcher, j - 1);
      var rest := WrapRows(host, path, servers[1..], launcher);
      var i :| 0 <= i < |rest| && rest[i].name == servers[j].0;
      assert rows[|first| + i] == rest[i];
    }
  }

  lemma RowsAtOk(host: Host, doc: Json, path: Address, launcher: Launcher)
    requires WellFormed(doc) && ServersAt(doc, path).Some?
    ensures RowsFound(doc, path, RowsAt(host, doc, path, launcher))
    ensures forall row :: row in RowsAt(host, doc, path, launcher) ==>
        row.path == path && RowOk(host, doc, launcher, row)
  {
    var servers := ServersAt(doc, path).value;
    WellFormedAt(doc, path);
    WrapRowsDistinct(host, path, servers, launcher);
    var rows := RowsAt(host, doc, path, launcher);
    forall i | 0 <= i < |rows|
      ensures rows[i].path == path && Find(servers, rows[i].name).Some? && RowOk(host, doc, launcher, rows[i])
    {
      var j := WrapRowsFrom(host, path, servers, launcher, i);
      FindField(servers, j);
      AtServer(doc, path, rows[i].name);
    }
  }

  lemma {:induction false} RowsOfOk(host: Host, doc: Json, paths: seq<Address>, launcher: Launcher)
    requires WellFormed(doc)
    ensures forall row :: row in RowsOf(host, doc, paths, launcher) ==>
        row.path in paths && RowOk(host, doc, launcher, row)
    decreases |paths|
  {
    if paths != [] {
      RowsOfOk(host, doc, paths[1..], launcher);
      assert paths == [paths[0]] + paths[1..];
      if ServersAt(doc, paths[0]).Some? {
        RowsAtOk(host, doc, paths[0], launcher);
      }
    }
  }

  predicate RowsApart(rows: seq<Row>) {
    forall i, j :: 0 <= i < j < |rows| ==> Apart(rows[i].path + [rows[i].name], rows[j].path + [rows[j].name])
  }

  lemma ApartServers(a: Address, x: string, b: Address, y: string)
    requires Apart(a, b) || (a == b && x != y)
    ensures Apart(a + [x], b + [y])
    ensures Apart(a, b) ==> Apart(a + [x], b)
  {
    if a == b {
      assert (a + [x])[|a|] == x && (b + [y])[|b|] == y;
    } else {
      assert a <= a + [x] && b <= b + [y];
    }
  }

  lemma {:induction false} RowsOfApart(host: Host, doc: Json, paths: seq<Address>, launcher: Launcher)
    requires WellFormed(doc) && PathsApart(paths)
    ensures RowsApart(RowsOf(host, doc, paths, launcher))
    decreases |paths|
  {
    if paths != [] {
      RowsOfApart(host, doc, paths[1..], launcher);
      RowsOfOk(host, doc, paths[1..], launcher);
      var first, rest := RowsAt(host, doc, paths[0], launcher), RowsOf(host, doc, paths[1..], launcher);
      if ServersAt(doc, paths[0]).Some? {
        RowsAtOk(host, doc, paths[0], launcher);
      }
      forall i, j | 0 <= i < j < |first|
        ensures Apart(first[i].path + [first[i].name], first[j].path + [first[j].name])
      {
        ApartServers(paths[0], first[i].name, paths[0], first[j].name);
      }
      forall i, j | 0 <= i < |first| && 0 <= j < |rest|
        ensures Apart(first[i].path + [first[i].name], rest[j].path + [rest[j].name])
      {
        assert rest[j] in rest && first[i] in first;
        var k :| 0 <= k < |paths[1..]| && paths[1..][k] == rest[j].path;
        assert Apart(paths[0], paths[k + 1]);
        ApartServers(paths[0], first[i].name, rest[j].path, rest[j].name);
      }
    }
  }

  lemma RowsIndependent(host: Host, doc: Json, paths: seq<Address>, launcher: Launcher)
    requires WellFormed(doc) && PathsApart(paths)
    ensures Independent(doc, EditsOf(RowsOf(host, doc, paths, launcher)))
    ensures forall row :: row in RowsOf(host, doc, paths, launcher) ==> WellFormed(Obj(row.next))
  {
    RowsOfApart(host, doc, paths, launcher);
    RowsOfOk(host, doc, paths, launcher);
    var rows := RowsOf(host, doc, paths, launcher);
    forall row | row in rows ensures WellFormed(Obj(row.next)) {
      NextWellFormed(host, doc, launcher, row);
    }
    assert forall i :: 0 <= i < |rows| ==> rows[i] in rows;
  }

  lemma NextWellFormed(host: Host, doc: Json, launcher: Launcher, row: Row)
    requires WellFormed(doc) && RowOk(host, doc, launcher, row)
    ensures WellFormed(Obj(row.next))
  {
    var entry := At(doc, row.path + [row.name]).value.fields;
    WellFormedAt(doc, row.path + [row.name]);
    var args := StrList(WrapArgs(host, row.name, entry, launcher));
    PutWellFormed(entry, "command", Str(launcher.command));
    PutWellFormed(Put(entry, "command", Str(launcher.command)), "args", args);
  }

  lemma EditsOfConcat(a: seq<Row>, b: seq<Row>)
    ensures EditsOf(a + b) == EditsOf(a) + EditsOf(b)
  {
    forall i | 0 <= i < |a| + |b| ensures EditsOf(a + b)[i] == (EditsOf(a) + EditsOf(b))[i] {
      assert (a + b)[i] == if i < |a| then a[i] else b[i - |a|];
    }
  }

  /** Adopt is one edit for every row, at addresses apart. */
  lemma {:induction false} AdoptAsEdits(host: Host, doc: Json, scanned: Json, paths: seq<Address>, launcher: Launcher)
    requires WellFormed(doc) && WellFormed(scanned) && PathsApart(paths)
    requires forall i :: 0 <= i < |paths| ==> At(doc, paths[i]) == At(scanned, paths[i])
    ensures AdoptFrom(host, doc, scanned, paths, launcher)
        == ApplyEdits(doc, EditsOf(RowsOf(host, scanned, paths, launcher)))
    decreases |paths|
  {
    if paths != [] {
      var path := paths[0];
      var rows := RowsAt(host, scanned, path, launcher);
      var next := doc;
      if rows != [] {
        AdoptOneLocation(host, doc, scanned, path, launcher);
        next := ApplyEdits(doc, EditsOf(rows));
        forall i | 0 < i < |paths| ensures At(next, paths[i]) == At(doc, paths[i]) {
          assert Apart(paths[0], paths[i]);
          forall k | 0 <= k < |rows| ensures Apart(EditsOf(rows)[k].at, paths[i]) {
            ApartServers(path, rows[k].name, paths[i], "");
          }
          AtEditsApart(doc, EditsOf(rows), paths[i]);
        }
      }
      AdoptAsEdits(host, next, scanned, paths[1..], launcher);
      EditsOfConcat(rows, RowsOf(host, scanned, paths[1..], launcher));
      EditsConcat(doc, EditsOf(rows), EditsOf(RowsOf(host, scanned, paths[1..], launcher)));
    }
  }

  lemma AdoptOneLocation(host: Host, doc: Json, scanned: Json, path: Address, launcher: Launcher)
    requires WellFormed(doc) && WellFormed(scanned) && At(doc, path) == At(scanned, path)
    requires RowsAt(host, scanned, path, launcher) != []
    ensures var rows := RowsAt(host, scanned, path, launcher);
            && WithEntries(doc, path, Replacements(rows)) == ApplyEdits(doc, EditsOf(rows))
            && Independent(doc, EditsOf(rows))
            && (forall k :: 0 <= k < |rows| ==> rows[k].path == path)
            && WellFormed(ApplyEdits(doc, EditsOf(rows)))
  {
    var rows := RowsAt(host, scanned, path, launcher);
    RowsAtOk(host, scanned, path, launcher);
    forall k | 0 <= k < |rows|
      ensures rows[k].path == path && WellFormed(Obj(rows[k].next)) && At(doc, path + [rows[k].name]).Some?
    {
      assert rows[k] in rows;
      NextWellFormed(host, scanned, launcher, rows[k]);
      AtServer(doc, path, rows[k].name);
    }
    forall i, j | 0 <= i < j < |rows| ensures Apart(path + [rows[i].name], path + [rows[j].name]) {
      ApartServers(path, rows[i].name, path, rows[j].name);
    }
    WithEntriesAsEdits(doc, path, rows);
    EditsWellFormed(doc, EditsOf(rows));
  }

  // ---------------------------------------------------------------------------
  // Undo as edits

  predicate ChangesApart(changes: seq<Change>) {
    forall i, j :: 0 <= i < j < |changes| ==> Apart(AddressOf(changes[i]), AddressOf(changes[j]))
  }

  function UndoEdit(host: Host, found: Json, c: Change): seq<Edit> {
    match EntryAt(host, found, c)
    case Some(entry) => [Edit(AddressOf(c), Obj(Restored(entry, c.before)))]
    case None => []
  }

  function UndoEdits(host: Host, found: Json, changes: seq<Change>): seq<Edit> {
    if changes == [] then [] else UndoEdit(host, found, changes[0]) + UndoEdits(host, found, changes[1..])
  }

  lemma {:induction false} RestoredKeys(entry: Fields, before: CommandLine)
    ensures forall k :: k in Keys(Restored(entry, before)) ==> k in Keys(entry)
    ensures before.args.Some? ==> Keys(Restored(entry, before)) == Keys(entry)
    ensures before.args.None? ==> Keys(Restored(entry, before)) == Without(Keys(entry), "args")
    decreases |entry|
  {
    if entry != [] {
      RestoredKeys(entry[1..], before);
      var first, rest := RestoredField(entry[0], before), Restored(entry[1..], before);
      if first == [] {
        assert Restored(entry, before) == rest;
      } else {
        assert Restored(entry, before)[1..] == rest;
      }
    }
  }

  /** With distinct keys, what is restored of the rest does not repeat the first key. */
  lemma FirstKeyOnce(entry: Fields, before: CommandLine)
    requires DistinctKeys(entry) && entry != []
    ensures entry[0].0 !in Keys(Restored(entry[1..], before))
  {
    RestoredKeys(entry[1..], before);
    assert forall j :: 0 <= j < |entry[1..]| ==> Keys(entry[1..])[j] == entry[j + 1].0;
  }

  lemma {:induction false} RestoredDistinct(entry: Fields, before: CommandLine)
    requires DistinctKeys(entry)
    ensures DistinctKeys(Restored(entry, before))
    decreases |entry|
  {
    if entry != [] {
      RestoredDistinct(entry[1..], before);
      FirstKeyOnce(entry, before);
    }
  }

  lemma {:induction false} RestoredValues(entry: Fields, before: CommandLine, i: nat)
    requires i < |Restored(entry, before)| && forall j :: 0 <= j < |entry| ==> WellFormed(entry[j].1)
    ensures WellFormed(Restored(entry, before)[i].1)
    decreases |entry|
  {
    var first := RestoredField(entry[0], before);
    if i >= |first| {
      RestoredValues(entry[1..], before, i - |first|);
    }
  }

  lemma RestoredWellFormed(entry: Fields, before: CommandLine)
    requires WellFormed(Obj(entry))
    ensures WellFormed(Obj(Restored(entry, before)))
  {
    RestoredDistinct(entry, before);
    forall i | 0 <= i < |Restored(entry, before)| ensures WellFormed(Restored(entry, before)[i].1) {
      RestoredValues(entry, before, i);
    }
  }

  lemma EntryAtFound(host: Host, doc: Json, c: Change)
    ensures EntryAt(host, doc, c).Some? <==>
            match At(doc, AddressOf(c))
            case Some(Obj(entry)) => SameCommandLine(CommandLineOf(host, entry), c.after)
            case _ => false
    ensures EntryAt(host, doc, c).Some? ==> At(doc, AddressOf(c)) == Some(Obj(EntryAt(host, doc, c).value))
  {
    AtServer(doc, c.path, c.name);
  }

  lemma WriteOne(doc: Json, path: Address, name: string, fields: Fields)
    requires WellFormed(doc) && At(doc, path + [name]).Some? && WellFormed(Obj(fields))
    ensures WithEntries(doc, path, map[name := Obj(fields)]) == Update(doc, path + [name], Obj(fields))
  {
    AtServer(doc, path, name);
    var row := Row(path, name, CommandLine("", None), fields);
    assert Replacements([row]) == map[name := Obj(fields)];
    assert [row][1..] == [];
    WithEntriesAsEdits(doc, path, [row]);
    var edits := EditsOf([row]);
    assert edits[1..] == [];
  }

  lemma {:induction false} UndoEditsFrom(host: Host, found: Json, changes: seq<Change>, i: nat) returns (j: nat)
    requires i < |UndoEdits(host, found, changes)|
    ensures j < |changes| && UndoEdit(host, found, changes[j]) == [UndoEdits(host, found, changes)[i]]
    decreases |changes|
  {
    var first := UndoEdit(host, found, changes[0]);
    if i < |first| {
      j := 0;
    } else {
      var l := UndoEditsFrom(host, found, changes[1..], i - |first|);
      j := l + 1;
    }
  }

  lemma {:induction false} UndoEditsTo(host: Host, found: Json, changes: seq<Change>, j: nat) returns (i: nat)
    requires j < |changes| && UndoEdit(host, found, changes[j]) != []
    ensures i < |UndoEdits(host, found, changes)|
    ensures UndoEdit(host, found, changes[j]) == [UndoEdits(host, found, changes)[i]]
    decreases |changes|
  {
    var first := UndoEdit(host, found, changes[0]);
    if j == 0 {
      i := 0;
    } else {
      var l := UndoEditsTo(host, found, changes[1..], j - 1);
      i := |first| + l;
    }
  }

  lemma {:induction false} UndoEditsIndependent(host: Host, found: Json, changes: seq<Change>)
    requires ChangesApart(changes)
    ensures Independent(found, UndoEdits(host, found, changes))
    decreases |changes|
  {
    if changes != [] {
      UndoEditsIndependent(host, found, changes[1..]);
      EntryAtFound(host, found, changes[0]);
      var rest := UndoEdits(host, found, changes[1..]);
      forall i | 0 <= i < |rest| ensures Apart(AddressOf(changes[0]), rest[i].at) {
        var j := UndoEditsFrom(host, found, changes[1..], i);
        assert changes[1..][j] == changes[j + 1];
      }
    }
  }

  /** Undo is one edit for every entry that still holds what adopt wrote. */
  lemma {:induction false} UndoAsEdits(host: Host, doc: Json, found: Json, changes: seq<Change>)
    requires WellFormed(doc) && WellFormed(found) && ChangesApart(changes)
    requires forall i :: 0 <= i < |changes| ==> At(doc, AddressOf(changes[i])) == At(found, AddressOf(changes[i]))
    ensures UndoFrom(host, doc, found, changes) == ApplyEdits(doc, UndoEdits(host, found, changes))
    decreases |changes|
  {
    if changes != [] {
      var c := changes[0];
      var entry := EntryAt(host, found, c);
      if entry.Some? {
        EntryAtFound(host, found, c);
        WellFormedAt(found, AddressOf(c));
        var v := Restored(entry.value, c.before);
        RestoredWellFormed(entry.value, c.before);
        WriteOne(doc, c.path, c.name, v);
        UpdateWellFormed(doc, AddressOf(c), Obj(v));
        var next := Update(doc, AddressOf(c), Obj(v));
        forall i | 0 < i < |changes| ensures At(next, AddressOf(changes[i])) == At(doc, AddressOf(changes[i])) {
          AtUpdateApart(doc, AddressOf(c), Obj(v), AddressOf(changes[i]));
        }
        UndoAsEdits(host, next, found, changes[1..]);
        assert UndoEdits(host, found, changes)[1..] == UndoEdits(host, found, changes[1..]);
      } else {
        UndoAsEdits(host, doc, found, changes[1..]);
        assert UndoEdits(host, found, changes) == UndoEdits(host, found, changes[1..]);
      }
    }
  }

  // ---------------------------------------------------------------------------
  // The record adopt writes

  lemma {:induction false} ChangesOfRows(host: Host, rows: seq<Row>)
    ensures |ChangesOf(host, rows)| == |rows|
    ensures forall i :: 0 <= i < |rows| ==> ChangesOf(host, rows)[i] == ChangeOf(host, rows[i])
    decreases |rows|
  {
    if rows != [] {
      ChangesOfRows(host, rows[1..]);
    }
  }

  /** The lines of a record adopt writes are at addresses apart. */
  lemma RecordApart(host: Host, doc: Json, paths: seq<Address>, launcher: Launcher)
    requires WellFormed(doc) && PathsApart(paths)
    ensures ChangesApart(ChangesOf(host, RowsOf(host, doc, paths, launcher)))
  {
    ChangesOfRows(host, RowsOf(host, doc, paths, launcher));
    RowsOfApart(host, doc, paths, launcher);
  }

  /** When every line of the record still matches, undo edits every one of them. */
  lemma {:induction false} AllUndone(host: Host, found: Json, changes: seq<Change>)
    requires forall i :: 0 <= i < |changes| ==> EntryAt(host, found, changes[i]).Some?
    ensures |UndoEdits(host, found, changes)| == |changes|
    ensures forall i :: 0 <= i < |changes| ==>
      UndoEdits(host, found, changes)[i]
      == Edit(AddressOf(changes[i]), Obj(Restored(EntryAt(host, found, changes[i]).value, changes[i].before)))
    decreases |changes|
  {
    if changes != [] {
      AllUndone(host, found, changes[1..]);
    }
  }

  /** An entry undo would not give back: its `args` is null. */
  predicate HasNullArgs(doc: Json, row: Row) {
    match At(doc, row.path + [row.name])
    case Some(Obj(entry)) => Find(entry, "args") == Some(Null)
    case _ => false
  }

  /** What undo writes right after adopt. */
  lemma UndoneAtOnce(host: Host, doc: Json, paths: seq<Address>, launcher: Launcher)
    returns (edits: seq<Edit>, back: seq<Edit>)
    requires WellFormed(doc) && PathsApart(paths)
    ensures var rows := RowsOf(host, doc, paths, launcher);
            && edits == EditsOf(rows) && Independent(doc, edits) && |back| == |rows|
            && (forall i ::
                0 <= i < |rows| ==> back[i] == Edit(edits[i].at, Obj(Restored(rows[i].next, rows[i].before))))
            && Independent(Adopted(host, doc, paths, launcher), back)
            && Undone(host, Adopted(host, doc, paths, launcher), ChangesOf(host, rows))
                == ApplyEdits(ApplyEdits(doc, edits), back)
  {
    var rows := RowsOf(host, doc, paths, launcher);
    var adopted := Adopted(host, doc, paths, launcher);
    var changes := ChangesOf(host, rows);
    edits := EditsOf(rows);
    AdoptAsEdits(host, doc, doc, paths, launcher);
    RowsIndependent(host, doc, paths, launcher);
    RecordApart(host, doc, paths, launcher);
    ChangesOfRows(host, rows);
    assert forall i :: 0 <= i < |rows| ==> rows[i] in rows;
    EditsWellFormed(doc, edits);
    forall i | 0 <= i < |changes| ensures EntryAt(host, adopted, changes[i]) == Some(rows[i].next) {
      AtEdit(doc, edits, i);
      EntryAtFound(host, adopted, changes[i]);
    }
    AllUndone(host, adopted, changes);
    back := UndoEdits(host, adopted, changes);
    UndoAsEdits(host, adopted, adopted, changes);
    UndoEditsIndependent(host, adopted, changes);
  }

  lemma RowRoundTrip(host: Host, doc: Json, launcher: Launcher, row: Row)
    requires TextIsText(host) && WellFormed(doc) && RowOk(host, doc, launcher, row)
    ensures At(doc, row.path + [row.name]) == Some(Obj(Restored(row.next, row.before))) <==> !HasNullArgs(doc, row)
  {
    var entry := At(doc, row.path + [row.name]).value;
    WellFormedAt(doc, row.path + [row.name]);
    EntryRoundTrip(host, row.name, entry, launcher);
  }

  /** No wrapped entry spells out a null `args`. */
  predicate NoNullArgs(doc: Json, rows: seq<Row>) {
    forall i :: 0 <= i < |rows| ==> !HasNullArgs(doc, rows[i])
  }

  /**
   * Adopt and then undo give the very same document back, key order included, if and only if no
   * wrapped entry spells out a null `args`.
   */
  lemma RoundTrip(host: Host, doc: Json, paths: seq<Address>, launcher: Launcher)
    requires TextIsText(host) && WellFormed(doc) && PathsApart(paths)
    ensures Undone(host, Adopted(host, doc, paths, launcher), ChangesOf(host, RowsOf(host, doc, paths, launcher)))
        == doc
       <==> NoNullArgs(doc, RowsOf(host, doc, paths, launcher))
  {
    var rows := RowsOf(host, doc, paths, launcher);
    var edits, back := UndoneAtOnce(host, doc, paths, launcher);
    AdoptAsEdits(host, doc, doc, paths, launcher);
    forall i | 0 <= i < |rows| ensures At(doc, edits[i].at) == Some(back[i].value) <==> !HasNullArgs(doc, rows[i]) {
      RowsOfOk(host, doc, paths, launcher);
      assert rows[i] in rows;
      RowRoundTrip(host, doc, launcher, rows[i]);
    }
    BackIsUndone(doc, edits, back);
  }

  /** The edits back give the document exactly when each puts back what was there. */
  lemma BackIsUndone(doc: Json, edits: seq<Edit>, back: seq<Edit>)
    requires Independent(doc, edits) && Independent(ApplyEdits(doc, edits), back) && |back| == |edits|
    requires forall i :: 0 <= i < |edits| ==> back[i].at == edits[i].at
    ensures ApplyEdits(ApplyEdits(doc, edits), back) == doc
       <==> forall i :: 0 <= i < |edits| ==> At(doc, edits[i].at) == Some(back[i].value)
  {
    if forall i :: 0 <= i < |edits| ==> At(doc, edits[i].at) == Some(back[i].value) {
      EditsUndone(doc, edits, back);
    } else {
      var i :| 0 <= i < |edits| && At(doc, edits[i].at) != Some(back[i].value);
      AtEdit(ApplyEdits(doc, edits), back, i);
    }
  }

  const NULL_ARGS_ENTRY: Fields := [("command", Str("node")), ("args", Null)]
  const NULL_ARGS_SERVERS: Fields := [("s", Obj(NULL_ARGS_ENTRY))]
  const NULL_ARGS_DOC := Obj([("mcpServers", Obj(NULL_ARGS_SERVERS))])

  lemma NullArgsEntryWraps(host: Host, launcher: Launcher)
    requires !host.windows && host.lower("node") == "node"
    ensures Judge(host, "s", Obj(NULL_ARGS_ENTRY), launcher).Wrap?
    ensures Find(NULL_ARGS_ENTRY, "args") == Some(Null)
  {
    var entry := NULL_ARGS_ENTRY;
    assert entry[1..] == [("args", Null)];
    assert Find(entry[1..], "args") == Some(Null);
    assert |entry[1..][1..]| == 0;
    assert !IsRemote(entry);
    assert !IsBlank("node") by {
      assert !IsSpace("node"[0]);
    }
    assert BaseName("node") == "node" && !HasExtension("node", ["cmd", "bat", "exe", "com"]);
    assert DeclaredArgs(entry) == Some([]);
  }

  /** The smallest document undo does not give back. */
  lemma NullArgsAreLost(host: Host, launcher: Launcher)
    requires TextIsText(host) && !host.windows && host.lower("node") == "node"
    ensures Undone(host, Adopted(host, NULL_ARGS_DOC, [["mcpServers"]], launcher),
                   ChangesOf(host, RowsOf(host, NULL_ARGS_DOC, [["mcpServers"]], launcher))) != NULL_ARGS_DOC
  {
    var path: Address := ["mcpServers"];
    NullArgsEntryWraps(host, launcher);
    assert |path[1..]| == 0;
    assert ServersAt(NULL_ARGS_DOC, path) == Some(NULL_ARGS_SERVERS);
    AtServer(NULL_ARGS_DOC, path, "s");
    assert WrapRows(host, path, NULL_ARGS_SERVERS[1..], launcher) == [];
    var row := RowsOfServer(host, path, "s", Obj(NULL_ARGS_ENTRY), launcher)[0];
    assert WrapRows(host, path, NULL_ARGS_SERVERS, launcher)[0] == row;
    assert RowsOf(host, NULL_ARGS_DOC, [path], launcher)[0] == row;
    assert HasNullArgs(NULL_ARGS_DOC, row);
    assert WellFormed(NULL_ARGS_DOC) by {
      assert WellFormed(Obj(NULL_ARGS_ENTRY));
      assert WellFormed(Obj(NULL_ARGS_SERVERS));
    }
    RoundTrip(host, NULL_ARGS_DOC, [path], launcher);
  }

  // ---------------------------------------------------------------------------
  // What adopt writes

  /** Every server that can be wrapped is, at every location of the file, and its record holds. */
  lemma AdoptWrapsEveryServer(host: Host, doc: Json, paths: seq<Address>, launcher: Launcher, path: Address,
                              name: string)
    requires WellFormed(doc) && PathsApart(paths) && path in paths
    requires At(doc, path + [name]).Some? && Judge(host, name, At(doc, path + [name]).value, launcher).Wrap?
    ensures At(Adopted(host, doc, paths, launcher), path + [name])
         == Some(Obj(Judge(host, name, At(doc, path + [name]).value, launcher).next))
    ensures exists c :: c in ChangesOf(host, RowsOf(host, doc, paths, launcher)) && c.path + [c.name] == path + [name]
  {
    var rows := RowsOf(host, doc, paths, launcher);
    AdoptAsEdits(host, doc, doc, paths, launcher);
    RowsIndependent(host, doc, paths, launcher);
    RowsOfOk(host, doc, paths, launcher);
    RowFor(host, doc, paths, launcher, path, name);
    var i :| 0 <= i < |rows| && EditsOf(rows)[i].at == path + [name];
    AtEdit(doc, EditsOf(rows), i);
    assert rows[i] in rows && EditsOf(rows)[i].at[|path|] == rows[i].name;
    ChangesOfRows(host, rows);
    var c := ChangesOf(host, rows)[i];
    assert c in ChangesOf(host, rows) && c.path + [c.name] == path + [name];
  }

  /** Everything that is not at or below a server it wraps keeps its shape. */
  lemma AdoptSparesTheRest(host: Host, doc: Json, paths: seq<Address>, launcher: Launcher, b: Address)
    requires WellFormed(doc) && PathsApart(paths)
    requires forall path: Address, name: string ::
      IsWrapped(host, doc, paths, launcher, path, name) ==> !(path + [name] <= b)
    ensures SameShape(At(Adopted(host, doc, paths, launcher), b), At(doc, b))
  {
    var rows := RowsOf(host, doc, paths, launcher);
    AdoptAsEdits(host, doc, doc, paths, launcher);
    RowsIndependent(host, doc, paths, launcher);
    RowsOfOk(host, doc, paths, launcher);
    forall i | 0 <= i < |rows| ensures !(EditsOf(rows)[i].at <= b) {
      assert rows[i] in rows;
      assert IsWrapped(host, doc, paths, launcher, rows[i].path, rows[i].name);
    }
    EditsShape(doc, EditsOf(rows), b);
  }

  /** A server adopt can wrap, at one of the locations. */
  predicate IsWrapped(host: Host, doc: Json, paths: seq<Address>, launcher: Launcher, path: Address, name: string) {
    && path in paths && At(doc, path + [name]).Some?
    && Judge(host, name, At(doc, path + [name]).value, launcher).Wrap?
  }

  // ---------------------------------------------------------------------------
  // Adopting twice

  /** After adopt, a second run with any launcher finds nothing to wrap. */
  lemma AdoptedOnce(host: Host, doc: Json, paths: seq<Address>, version: string, again: Launcher)
    requires WellFormed(doc) && PathsApart(paths) && version != "" && NoSpaces(version)
    ensures RowsOf(host, Adopted(host, doc, paths, LauncherOf(host, version)), paths, again) == []
  {
    var launcher := LauncherOf(host, version);
    var adopted := Adopted(host, doc, paths, launcher);
    var left := RowsOf(host, adopted, paths, again);
    AdoptAsEdits(host, doc, doc, paths, launcher);
    RowsIndependent(host, doc, paths, launcher);
    var rows := RowsOf(host, doc, paths, launcher);
    assert forall i :: 0 <= i < |rows| ==> rows[i] in rows;
    EditsWellFormed(doc, EditsOf(rows));
    RowsOfOk(host, adopted, paths, again);
    if left != [] {
      assert left[0] in left;
      NotWrappedAgain(host, doc, paths, version, again, left[0]);
    }
  }

  lemma NotWrappedAgain(host: Host, doc: Json, paths: seq<Address>, version: string, again: Launcher, row: Row)
    requires WellFormed(doc) && PathsApart(paths) && version != "" && NoSpaces(version) && row.path in paths
    ensures !RowOk(host, Adopted(host, doc, paths, LauncherOf(host, version)), again, row)
  {
    var launcher := LauncherOf(host, version);
    var rows := RowsOf(host, doc, paths, launcher);
    var adopted := Adopted(host, doc, paths, launcher);
    var a := row.path + [row.name];
    AdoptAsEdits(host, doc, doc, paths, launcher);
    RowsIndependent(host, doc, paths, launcher);
    RowsOfOk(host, doc, paths, launcher);
    if i :| 0 <= i < |rows| && EditsOf(rows)[i].at == a {
      assert rows[i] in rows;
      AtEdit(doc, EditsOf(rows), i);
      assert a[|a| - 1] == rows[i].name == row.name;
      var entry := At(doc, a).value.fields;
      WrappedIsAlready(host, row.name, entry, version, again);
    } else if RowOk(host, adopted, again, row) {
      forall i | 0 <= i < |rows| ensures Apart(EditsOf(rows)[i].at, a) {
        assert rows[i] in rows;
        SamePathOrApart(paths, rows[i], row);
      }
      AtEditsApart(doc, EditsOf(rows), a);
      var entry := At(doc, a).value;
      JudgedAlike(host, row.name, entry, launcher, again);
      RowFor(host, doc, paths, launcher, row.path, row.name);
      assert false;
    }
  }

  lemma SamePathOrApart(paths: seq<Address>, x: Row, y: Row)
    requires PathsApart(paths) && x.path in paths && y.path in paths
    requires x.path + [x.name] != y.path + [y.name]
    ensures Apart(x.path + [x.name], y.path + [y.name])
  {
    var i :| 0 <= i < |paths| && paths[i] == x.path;
    var j :| 0 <= j < |paths| && paths[j] == y.path;
    if i < j {
      assert Apart(paths[i], paths[j]);
    } else if j < i {
      assert Apart(paths[j], paths[i]);
    }
    ApartServers(x.path, x.name, y.path, y.name);
  }

  /** Whether an entry can be wrapped does not depend on the launcher. */
  lemma JudgedAlike(host: Host, name: string, entry: Json, a: Launcher, b: Launcher)
    ensures Judge(host, name, entry, a).Wrap? <==> Judge(host, name, entry, b).Wrap?
  {
  }

  lemma RowHere(host: Host, doc: Json, path: Address, launcher: Launcher, name: string) returns (i: nat)
    requires WellFormed(doc) && At(doc, path + [name]).Some?
    requires Judge(host, name, At(doc, path + [name]).value, launcher).Wrap?
    ensures var rows := RowsAt(host, doc, path, launcher);
      i < |rows| && rows[i].path == path && rows[i].name == name
  {
    AtServer(doc, path, name);
    var servers := ServersAt(doc, path).value;
    var j := FieldFound(servers, name);
    WrapRowsComplete(host, path, servers, launcher, j);
    var rows := RowsAt(host, doc, path, launcher);
    i :| 0 <= i < |rows| && rows[i].name == name;
    RowsAtOk(host, doc, path, launcher);
    assert rows[i] in rows;
  }

  /** Every server that can be wrapped has its row. */
  lemma {:induction false} RowFor(host: Host, doc: Json, paths: seq<Address>, launcher: Launcher, path: Address,
                                  name: string)
    requires WellFormed(doc) && path in paths && At(doc, path + [name]).Some?
    requires Judge(host, name, At(doc, path + [name]).value, launcher).Wrap?
    ensures exists i :: 0 <= i < |RowsOf(host, doc, paths, launcher)|
                     && EditsOf(RowsOf(host, doc, paths, launcher))[i].at == path + [name]
    decreases |paths|
  {
    var rows := RowsOf(host, doc, paths, launcher);
    var first := RowsAt(host, doc, paths[0], launcher);
    if paths[0] == path {
      var i := RowHere(host, doc, path, launcher, name);
      assert rows[i] == first[i];
      assert EditsOf(rows)[i].at == path + [name];
    } else {
      RowFor(host, doc, paths[1..], launcher, path, name);
      var rest := RowsOf(host, doc, paths[1..], launcher);
      var i :| 0 <= i < |rest| && EditsOf(rest)[i].at == path + [name];
      assert rows[|first| + i] == rest[i];
      assert EditsOf(rows)[|first| + i].at == path + [name];
    }
  }

  // ---------------------------------------------------------------------------
  // Undo on a later document

  /** The items of a list of arguments read as these texts, one by one; anything else is no arguments. */
  predicate ReadAs(host: Host, args: Option<Json>, texts: seq<string>) {
    if args.Some? && args.value.Arr? then
      && |args.value.items| == |texts|
      && forall i :: 0 <= i < |texts| ==> host.toText(Some(args.value.items[i])) == texts[i]
    else texts == []
  }

  /** The change still holds: its entry has the command text and the argument texts adopt wrote. */
  predicate Holds(host: Host, doc: Json, c: Change) {
    match At(doc, c.path + [c.name])
    case Some(Obj(entry)) =>
      && host.toText(Find(entry, "command")) == c.after.command
      && ReadAs(host, Find(entry, "args"), if c.after.args.Some? then c.after.args.value else [])
    case _ => false
  }

  /** In any document, undo takes an entry for its own exactly while the change holds there. */
  lemma HeldExactly(host: Host, doc: Json, c: Change)
    ensures EntryAt(host, doc, c).Some? <==> Holds(host, doc, c)
    ensures Holds(host, doc, c) ==> At(doc, c.path + [c.name]) == Some(Obj(EntryAt(host, doc, c).value))
  {
    EntryAtFound(host, doc, c);
    match At(doc, AddressOf(c))
    case Some(Obj(entry)) => SameTexts(host, entry, c.after);
    case _ =>
  }

  lemma SameTexts(host: Host, entry: Fields, after: CommandLine)
    ensures SameCommandLine(CommandLineOf(host, entry), after) <==>
      && host.toText(Find(entry, "command")) == after.command
      && ReadAs(host, Find(entry, "args"), if after.args.Some? then after.args.value else [])
  {
    var texts := ArgsOf(CommandLineOf(host, entry));
    match Find(entry, "args")
    case Some(Arr(items)) =>
      assert |texts| == |items| && forall i :: 0 <= i < |items| ==> texts[i] == host.toText(Some(items[i]));
    case _ =>
  }

  /**
   * A restored entry: the keys it has now, in their order, less `args` where none was recorded; the recorded
   * `command` and `args` under theirs, and the other values as they stand.
   */
  ghost predicate IsRestored(now: Fields, undone: Fields, before: CommandLine) {
    && Keys(undone) == (if before.args.Some? then Keys(now) else Without(Keys(now), "args"))
    && (Find(now, "command").Some? ==> Find(undone, "command") == Some(Str(before.command)))
    && (Find(now, "args").Some? ==>
          Find(undone, "args") == if before.args.Some? then Some(StrList(before.args.value)) else None)
    && (forall key :: key != "command" && key != "args" ==> Find(undone, key) == Find(now, key))
  }

  lemma IsRestoredBy(entry: Fields, before: CommandLine)
    ensures IsRestored(entry, Restored(entry, before), before)
  {
    RestoredKeys(entry, before);
    RestoredMeans(entry, before, "command");
    RestoredMeans(entry, before, "args");
    forall key | key != "command" && key != "args" ensures Find(Restored(entry, before), key) == Find(entry, key) {
      RestoredElsewhere(entry, before, key);
    }
  }

  lemma UndoRestoresHeld(host: Host, doc: Json, changes: seq<Change>, j: nat)
    requires WellFormed(doc) && ChangesApart(changes) && j < |changes| && EntryAt(host, doc, changes[j]).Some?
    ensures At(doc, AddressOf(changes[j])) == Some(Obj(EntryAt(host, doc, changes[j]).value))
    ensures At(Undone(host, doc, changes), AddressOf(changes[j]))
         == Some(Obj(Restored(EntryAt(host, doc, changes[j]).value, changes[j].before)))
  {
    UndoAsEdits(host, doc, doc, changes);
    UndoEditsIndependent(host, doc, changes);
    EntryAtFound(host, doc, changes[j]);
    var i := UndoEditsTo(host, doc, changes, j);
    AtEdit(doc, UndoEdits(host, doc, changes), i);
  }

  /** An entry whose command text or argument texts are no longer those adopt wrote is left exactly as it is. */
  lemma UndoLeavesChanged(host: Host, doc: Json, changes: seq<Change>, j: nat)
    requires WellFormed(doc) && ChangesApart(changes) && j < |changes| && !Holds(host, doc, changes[j])
    ensures At(Undone(host, doc, changes), AddressOf(changes[j])) == At(doc, AddressOf(changes[j]))
  {
    HeldExactly(host, doc, changes[j]);
    UndoAsEdits(host, doc, doc, changes);
    UndoEditsIndependent(host, doc, changes);
    var edits := UndoEdits(host, doc, changes);
    forall i | 0 <= i < |edits| ensures Apart(edits[i].at, AddressOf(changes[j])) {
      var k := UndoEditsFrom(host, doc, changes, i);
      if k < j {
        assert Apart(AddressOf(changes[k]), AddressOf(changes[j]));
      } else {
        assert Apart(AddressOf(changes[j]), AddressOf(changes[k]));
      }
    }
    AtEditsApart(doc, edits, AddressOf(changes[j]));
  }

  /**
   * From any later document, an entry that still holds what adopt wrote gets its command line back and
   * nothing else.
   */
  lemma UndoRestores(host: Host, doc: Json, changes: seq<Change>, j: nat)
    requires WellFormed(doc) && ChangesApart(changes) && j < |changes| && Holds(host, doc, changes[j])
    ensures var now := At(doc, AddressOf(changes[j]));
            var undone := At(Undone(host, doc, changes), AddressOf(changes[j]));
            && now.Some? && now.value.Obj? && undone.Some? && undone.value.Obj?
            && IsRestored(now.value.fields, undone.value.fields, changes[j].before)
  {
    HeldExactly(host, doc, changes[j]);
    UndoRestoresHeld(host, doc, changes, j);
    IsRestoredBy(EntryAt(host, doc, changes[j]).value, changes[j].before);
  }

  /** Everything that is not at or below an entry undo restores keeps its shape: values, keys and their order. */
  lemma UndoSparesTheRest(host: Host, doc: Json, changes: seq<Change>, b: Address)
    requires WellFormed(doc) && ChangesApart(changes)
    requires forall j :: 0 <= j < |changes| && Holds(host, doc, changes[j]) ==> !(AddressOf(changes[j]) <= b)
    ensures SameShape(At(Undone(host, doc, changes), b), At(doc, b))
  {
    UndoAsEdits(host, doc, doc, changes);
    UndoEditsIndependent(host, doc, changes);
    var edits := UndoEdits(host, doc, changes);
    forall i | 0 <= i < |edits| ensures !(edits[i].at <= b) {
      var k := UndoEditsFrom(host, doc, changes, i);
      HeldExactly(host, doc, changes[k]);
    }
    EditsShape(doc, edits, b);
  }
}
