/** A whole run over several files: the grouping by file and the shared undo record. */
module AdoptRun {
  import opened Ordered
  import opened Json
  import opened AdoptEntry
  import opened Adopt
  import opened AdoptUndo

  datatype Location = Location(file: string, path: Address)

  datatype FileChange = FileChange(file: string, change: Change)

  predicate HasWork(host: Host, files: map<string, Json>, l: Location, launcher: Launcher) {
    l.file in files && RowsAt(host, files[l.file], l.path, launcher) != []
  }

  /** The locations of one file with something to wrap, in order. */
  function PathsOf(host: Host, files: map<string, Json>, locations: seq<Location>, launcher: Launcher,
                   file: string): seq<Address> {
    if locations == [] then []
    else
      var init := PathsOf(host, files, locations[..|locations| - 1], launcher, file);
      var l := locations[|locations| - 1];
      if l.file == file && HasWork(host, files, l, launcher) then init + [l.path] else init
  }

  /** `byFile`: one entry for each file with something to wrap. */
  method ByFile(host: Host, files: map<string, Json>, locations: seq<Location>, launcher: Launcher)
    returns (groups: OMap<string, seq<Address>>)
    ensures groups.Valid()
    ensures forall file :: file in groups.vals <==> PathsOf(host, files, locations, launcher, file) != []
    ensures forall file :: file in groups.vals ==> groups.vals[file] == PathsOf(host, files, locations, launcher, file)
  {
    groups := EmptyMap();
    for i := 0 to |locations|
      invariant groups.Valid()
      invariant forall file :: file in groups.vals <==> PathsOf(host, files, locations[..i], launcher, file) != []
      invariant forall file ::
          file in groups.vals ==> groups.vals[file] == PathsOf(host, files, locations[..i], launcher, file)
    {
      var l := locations[i];
      assert locations[..i + 1][..i] == locations[..i];
      if HasWork(host, files, l, launcher) {
        var group := if l.file in groups.vals then groups.vals[l.file] else [];
        PutValid(groups, l.file, group + [l.path]);
        groups := groups.Put(l.file, group + [l.path]);
      }
    }
    assert locations[..|locations|] == locations;
  }

  function RowsOfFile(host: Host, files: map<string, Json>, locations: seq<Location>, launcher: Launcher,
                      file: string): seq<Row>
    requires file in files
  {
    RowsOf(host, files[file], PathsOf(host, files, locations, launcher, file), launcher)
  }

  function AfterRun(host: Host, files: map<string, Json>, locations: seq<Location>,
                    launcher: Launcher): map<string, Json> {
    map file | file in files :: Adopted(host, files[file], PathsOf(host, files, locations, launcher, file), launcher)
  }

  function Tagged(file: string, changes: seq<Change>): seq<FileChange> {
    seq(|changes|, i requires 0 <= i < |changes| => FileChange(file, changes[i]))
  }

  /** The undo record of a run that wrote the files of `order`. */
  function Record(host: Host, files: map<string, Json>, locations: seq<Location>, launcher: Launcher,
                  order: seq<string>): seq<FileChange>
    requires forall i :: 0 <= i < |order| ==> order[i] in files
  {
    if order == [] then []
    else
      Tagged(order[0], ChangesOf(host, RowsOfFile(host, files, locations, launcher, order[0])))
      + Record(host, files, locations, launcher, order[1..])
  }

  /** The lines of the record for one file. */
  function LinesOf(record: seq<FileChange>, file: string): seq<Change> {
    if record == [] then []
    else (if record[0].file == file then [record[0].change] else []) + LinesOf(record[1..], file)
  }

  function UndoRun(host: Host, files: map<string, Json>, record: seq<FileChange>): map<string, Json> {
    map file | file in files :: Undone(host, files[file], LinesOf(record, file))
  }

  lemma {:induction false} LinesConcat(a: seq<FileChange>, b: seq<FileChange>, file: string)
    ensures LinesOf(a + b, file) == LinesOf(a, file) + LinesOf(b, file)
    decreases |a|
  {
    if a == [] {
      assert a + b == b;
    } else {
      assert (a + b)[1..] == a[1..] + b;
      LinesConcat(a[1..], b, file);
    }
  }

  lemma {:induction false} LinesTagged(tag: string, changes: seq<Change>, file: string)
    ensures LinesOf(Tagged(tag, changes), file) == if tag == file then changes else []
    decreases |changes|
  {
    if changes != [] {
      assert Tagged(tag, changes)[1..] == Tagged(tag, changes[1..]);
      LinesTagged(tag, changes[1..], file);
    }
  }

  /** Filtering the record by a file gives that file's changes. */
  lemma {:induction false} LinesOfRecord(host: Host, files: map<string, Json>, locations: seq<Location>,
                                         launcher: Launcher, order: seq<string>, file: string)
    requires Distinct(order) && file in files && forall i :: 0 <= i < |order| ==> order[i] in files
    ensures LinesOf(Record(host, files, locations, launcher, order), file)
         == if file in order then ChangesOf(host, RowsOfFile(host, files, locations, launcher, file)) else []
    decreases |order|
  {
    if order != [] {
      var changes := ChangesOf(host, RowsOfFile(host, files, locations, launcher, order[0]));
      LinesConcat(Tagged(order[0], changes), Record(host, files, locations, launcher, order[1..]), file);
      LinesTagged(order[0], changes, file);
      LinesOfRecord(host, files, locations, launcher, order[1..], file);
      assert order == [order[0]] + order[1..];
      assert order[0] !in order[1..];
    }
  }

  /** Undoing a whole run gives every file back exactly, unless a wrapped entry spells out a null `args`. */
  lemma RunRoundTrip(host: Host, files: map<string, Json>, locations: seq<Location>, launcher: Launcher,
                     order: seq<string>)
    requires TextIsText(host)
    requires forall file :: file in files ==>
      WellFormed(files[file]) && PathsApart(PathsOf(host, files, locations, launcher, file))
    requires Distinct(order)
    requires forall i :: 0 <= i < |order| ==> order[i] in files
    requires forall file :: file in files && PathsOf(host, files, locations, launcher, file) != [] ==> file in order
    ensures UndoRun(host, AfterRun(host, files, locations, launcher), Record(host, files, locations, launcher, order))
        == files
       <==> forall file :: file in files ==> NoNullArgs(files[file], RowsOfFile(host, files, locations, launcher, file))
  {
    var record := Record(host, files, locations, launcher, order);
    var undone := UndoRun(host, AfterRun(host, files, locations, launcher), record);
    forall file | file in files
      ensures undone[file] == files[file]
          <==> NoNullArgs(files[file], RowsOfFile(host, files, locations, launcher, file))
    {
      LinesOfRecord(host, files, locations, launcher, order, file);
      RoundTrip(host, files[file], PathsOf(host, files, locations, launcher, file), launcher);
    }
    assert undone == files <==> forall file :: file in files ==> undone[file] == files[file];
  }
}
