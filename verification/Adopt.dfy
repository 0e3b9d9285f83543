/**
 * Adopting the servers of a config document and undoing it (src/adopt/plan.ts, src/adopt/apply.ts,
 * src/adopt/undo.ts): a rewrite of a JSON document and its inverse.
 */
module Adopt {
  import opened Ordered
  import opened Json
  import opened AdoptEntry

  /** A server to wrap: where it is, what it becomes, and its command line before. */
  datatype Row = Row(path: Address, name: string, before: CommandLine, next: Fields)

  /** One line of the undo record. */
  datatype Change = Change(path: Address, name: string, before: CommandLine, after: CommandLine)

  function AddressOf(c: Change): Address { c.path + [c.name] }

  function ServersAt(doc: Json, path: Address): Option<Fields> {
    match At(doc, path)
    case Some(Obj(fields)) => Some(fields)
    case _ => None
  }

  /** The walk of `serversAt`. */
  method WalkToServers(doc: Json, path: Address) returns (servers: Option<Fields>)
    ensures servers == ServersAt(doc, path)
  {
    var current := Some(doc);
    for i := 0 to |path|
      invariant current.Some? ==> At(doc, path) == At(current.value, path[i..])
      invariant current.None? ==> At(doc, path) == None && i > 0
    {
      if current.None? || !current.value.Obj? {
        assert current.Some? ==> At(current.value, path[i..]) == None;
        return None;
      }
      assert path[i..][1..] == path[i + 1..];
      current := Find(current.value.fields, path[i]);
    }
    assert path[|path|..] == [];
    servers := match current case Some(Obj(fields)) => Some(fields) case _ => None;
  }

  /** `planServers`, the rows to wrap. */
  function WrapRows(host: Host, path: Address, servers: Fields, launcher: Launcher): seq<Row> {
    if servers == [] then []
    else RowsOfServer(host, path, servers[0].0, servers[0].1, launcher) + WrapRows(host, path, servers[1..], launcher)
  }

  function RowsOfServer(host: Host, path: Address, name: string, entry: Json, launcher: Launcher): seq<Row> {
    match Judge(host, name, entry, launcher)
    case Wrap(next) => [Row(path, name, CommandLineOf(host, entry.fields), next)]
    case _ => []
  }

  function RowsAt(host: Host, doc: Json, path: Address, launcher: Launcher): seq<Row> {
    match ServersAt(doc, path)
    case Some(servers) => WrapRows(host, path, servers, launcher)
    case None => []
  }

  /** The rows of all the locations of a file. */
  function RowsOf(host: Host, doc: Json, paths: seq<Address>, launcher: Launcher): seq<Row> {
    if paths == [] then [] else RowsAt(host, doc, paths[0], launcher) + RowsOf(host, doc, paths[1..], launcher)
  }

  function Replacements(rows: seq<Row>): map<string, Json> {
    if rows == [] then map[] else map[rows[0].name := Obj(rows[0].next)] + Replacements(rows[1..])
  }

  function ChangeOf(host: Host, row: Row): Change {
    Change(row.path, row.name, row.before, CommandLineOf(host, row.next))
  }

  /** `changesOf`: the undo record. */
  function ChangesOf(host: Host, rows: seq<Row>): seq<Change> {
    if rows == [] then [] else [ChangeOf(host, rows[0])] + ChangesOf(host, rows[1..])
  }

  function FieldsOf(doc: Json): Fields {
    if doc.Obj? then doc.fields else []
  }

  function Replaced(servers: Fields, entries: map<string, Json>): Fields {
    if servers == [] then []
    else
      [(servers[0].0, if servers[0].0 in entries then entries[servers[0].0] else servers[0].1)]
      + Replaced(servers[1..], entries)
  }

  /** `withEntries`: the servers at `path` that `entries` names get its values. */
  function WithEntries(doc: Json, path: Address, entries: map<string, Json>): Json
    decreases |path|
  {
    if path == [] then Obj(Replaced(FieldsOf(doc), entries))
    else
      var child := Find(FieldsOf(doc), path[0]);
      Obj(Put(FieldsOf(doc), path[0], WithEntries(if child.Some? then child.value else Null, path[1..], entries)))
  }

  /** The new document: every location with something to wrap is rewritten, as it was scanned. */
  function AdoptFrom(host: Host, doc: Json, scanned: Json, paths: seq<Address>, launcher: Launcher): Json
    decreases |paths|
  {
    if paths == [] then doc
    else
      var rows := RowsAt(host, scanned, paths[0], launcher);
      var next := if rows == [] then doc else WithEntries(doc, paths[0], Replacements(rows));
      AdoptFrom(host, next, scanned, paths[1..], launcher)
  }

  function Adopted(host: Host, doc: Json, paths: seq<Address>, launcher: Launcher): Json {
    AdoptFrom(host, doc, doc, paths, launcher)
  }

  /** `entryAt`: the entry of a change, while it still holds the command line adopt wrote. */
  function EntryAt(host: Host, doc: Json, c: Change): Option<Fields> {
    match ServersAt(doc, c.path)
    case None => None
    case Some(servers) =>
      match Find(servers, c.name)
      case Some(Obj(entry)) => if SameCommandLine(CommandLineOf(host, entry), c.after) then Some(entry) else None
      case _ => None
  }

  /** The restoring writes, folded over `doc` while the entries are those of `found`. */
  function UndoFrom(host: Host, doc: Json, found: Json, changes: seq<Change>): Json
    decreases |changes|
  {
    if changes == [] then doc
    else
      var c := changes[0];
      var entry := EntryAt(host, found, c);
      var next := if entry.None? then doc
          else WithEntries(doc, c.path, map[c.name := Obj(Restored(entry.value, c.before))]);
      UndoFrom(host, next, found, changes[1..])
  }

  /** What `undoFile` writes. */
  function Undone(host: Host, doc: Json, changes: seq<Change>): Json {
    UndoFrom(host, doc, doc, changes)
  }

  // ---------------------------------------------------------------------------
  // Rewrites as edits

  lemma {:induction false} ReplacedNone(servers: Fields, entries: map<string, Json>)
    requires forall i :: 0 <= i < |servers| ==> servers[i].0 !in entries
    ensures Replaced(servers, entries) == servers
    decreases |servers|
  {
    if servers != [] {
      ReplacedNone(servers[1..], entries);
    }
  }

  /** Replacing one more server is a `Put`. */
  lemma {:induction false} ReplacedMore(servers: Fields, name: string, v: Json, more: map<string, Json>)
    requires DistinctKeys(servers) && Find(servers, name).Some? && name !in more
    ensures Replaced(servers, map[name := v] + more) == Put(Replaced(servers, more), name, v)
    decreases |servers|
  {
    if servers[0].0 == name {
      forall i | 0 < i < |servers| ensures servers[i].0 != name {
      }
      ReplacedSame(servers[1..], map[name := v] + more, more);
    } else {
      ReplacedMore(servers[1..], name, v, more);
      assert Put(Replaced(servers, more), name, v)[1..] == Put(Replaced(servers[1..], more), name, v);
    }
  }

  lemma {:induction false} ReplacedSame(servers: Fields, a: map<string, Json>, b: map<string, Json>)
    requires forall i :: 0 <= i < |servers| ==> (servers[i].0 in a <==> servers[i].0 in b)
    requires forall i :: 0 <= i < |servers| && servers[i].0 in a ==> a[servers[i].0] == b[servers[i].0]
    ensures Replaced(servers, a) == Replaced(servers, b)
    decreases |servers|
  {
    if servers != [] {
      ReplacedSame(servers[1..], a, b);
    }
  }

  lemma {:induction false} WithEntriesUpdates(doc: Json, path: Address, entries: map<string, Json>)
    requires ServersAt(doc, path).Some?
    ensures WithEntries(doc, path, entries) == Update(doc, path, Obj(Replaced(ServersAt(doc, path).value, entries)))
    decreases |path|
  {
    if path != [] {
      WithEntriesUpdates(Find(doc.fields, path[0]).value, path[1..], entries);
    }
  }

  function EditOf(row: Row): Edit { Edit(row.path + [row.name], Obj(row.next)) }

  function EditsOf(rows: seq<Row>): (edits: seq<Edit>)
    ensures |edits| == |rows| && forall i :: 0 <= i < |rows| ==> edits[i] == EditOf(rows[i])
  {
    if rows == [] then [] else [EditOf(rows[0])] + EditsOf(rows[1..])
  }

  /** The rows are servers found at `path`, each once. */
  predicate RowsFound(doc: Json, path: Address, rows: seq<Row>) {
    && ServersAt(doc, path).Some?
    && (forall i :: 0 <= i < |rows| ==> rows[i].path == path && Find(ServersAt(doc, path).value, rows[i].name).Some?)
    && forall i, j :: 0 <= i < j < |rows| ==> rows[i].name != rows[j].name
  }

  lemma AtServer(doc: Json, path: Address, name: string)
    ensures At(doc, path + [name])
         == match ServersAt(doc, path) case Some(servers) => Find(servers, name) case None => None
  {
    AtConcat(doc, path, [name]);
    if At(doc, path).Some? {
      assert [name][1..] == [];
    }
  }

  lemma ServerUpdate(doc: Json, path: Address, name: string, v: Json)
    requires At(doc, path + [name]).Some?
    ensures ServersAt(doc, path).Some?
    ensures Update(doc, path + [name], v) == Update(doc, path, Obj(Put(ServersAt(doc, path).value, name, v)))
    ensures ServersAt(Update(doc, path + [name], v), path) == Some(Put(ServersAt(doc, path).value, name, v))
  {
    AtServer(doc, path, name);
    UpdateConcat(doc, path, [name], v);
    assert [name][1..] == [];
    AtUpdate(doc, path, Obj(Put(ServersAt(doc, path).value, name, v)));
  }

  lemma {:induction false} ReplacementNames(rows: seq<Row>, name: string)
    ensures name in Replacements(rows) <==> exists i :: 0 <= i < |rows| && rows[i].name == name
    decreases |rows|
  {
    if rows != [] {
      ReplacementNames(rows[1..], name);
      assert forall i :: 0 < i < |rows| ==> rows[i] == rows[1..][i - 1];
    }
  }

  /** Replacing one server and then some others is replacing them together. */
  lemma OneMoreEntry(doc: Json, path: Address, name: string, v: Json, more: map<string, Json>)
    requires ServersAt(doc, path).Some? && DistinctKeys(ServersAt(doc, path).value)
    requires Find(ServersAt(doc, path).value, name).Some? && name !in more
    ensures var servers := ServersAt(doc, path).value; var servers' := Put(servers, name, v);
      Update(Update(doc, path, Obj(servers')), path, Obj(Replaced(servers', more)))
      == Update(doc, path, Obj(Replaced(servers, map[name := v] + more)))
  {
    var servers := ServersAt(doc, path).value;
    var servers' := Put(servers, name, v);
    ReplacedMore(servers, name, v, more);
    ReplacedPut(servers, name, v, more);
    UpdateTwice(doc, path, Obj(servers'), Obj(Replaced(servers', more)));
  }

  /** Writing all the replacements of a location at once is the edits one after the other. */
  lemma {:induction false} WithEntriesAsEdits(doc: Json, path: Address, rows: seq<Row>)
    requires WellFormed(doc) && RowsFound(doc, path, rows)
    requires forall i :: 0 <= i < |rows| ==> WellFormed(Obj(rows[i].next))
    ensures WithEntries(doc, path, Replacements(rows)) == ApplyEdits(doc, EditsOf(rows))
    decreases |rows|
  {
    var servers := ServersAt(doc, path).value;
    WithEntriesUpdates(doc, path, Replacements(rows));
    if rows == [] {
      ReplacedNone(servers, map[]);
      UpdateFound(doc, path);
    } else {
      var name, v, rest := rows[0].name, Obj(rows[0].next), rows[1..];
      AtServer(doc, path, name);
      ServerUpdate(doc, path, name, v);
      var next := Update(doc, path + [name], v);
      UpdateWellFormed(doc, path + [name], v);
      var servers' := Put(servers, name, v);
      forall i | 0 <= i < |rest| ensures Find(servers', rest[i].name).Some? {
        FindPut(servers, name, v, rest[i].name);
        assert rest[i] == rows[i + 1];
      }
      WithEntriesAsEdits(next, path, rest);
      WithEntriesUpdates(next, path, Replacements(rest));
      ReplacementNames(rest, name);
      WellFormedAt(doc, path);
      OneMoreEntry(doc, path, name, v, Replacements(rest));
      assert EditsOf(rows)[0] == Edit(path + [name], v) && EditsOf(rows)[1..] == EditsOf(rest);
    }
  }

  lemma {:induction false} ReplacedPut(servers: Fields, name: string, v: Json, entries: map<string, Json>)
    requires Find(servers, name).Some? && name !in entries
    ensures Replaced(Put(servers, name, v), entries) == Put(Replaced(servers, entries), name, v)
    decreases |servers|
  {
    if servers[0].0 == name {
      assert Put(servers, name, v)[1..] == servers[1..];
    } else {
      ReplacedPut(servers[1..], name, v, entries);
      assert Put(servers, name, v)[1..] == Put(servers[1..], name, v);
    }
  }
}
