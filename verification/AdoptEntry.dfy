/**
 * A single entry of a config's server list: the verdict on it and its rewritten form (src/adopt/entry.ts),
 * and the way back (src/adopt/undo.ts).
 */
module AdoptEntry {
  import opened Ordered
  import opened Json

  /** The host: its platform, `String.prototype.toLowerCase`, and `String` on a value that may be missing. */
  datatype Host = Host(windows: bool, lower: string -> string, toText: Option<Json> -> string)

  /** `String` leaves a string as it is. */
  ghost predicate TextIsText(host: Host) {
    forall s :: host.toText(Some(Str(s))) == s
  }

  datatype Launcher = Launcher(command: string, args: seq<string>)

  datatype Verdict = Wrap(next: Fields) | Already | Remote | Unreadable | CmdUnsafe

  datatype CommandLine = CommandLine(command: string, args: Option<seq<string>>)

  const CLI_NAME := "mcpcut"
  const REMOTE_TYPES := ["http", "sse", "streamable-http", "streamableHttp"]
  const SHIM_NAMES := ["npx", "npm", "pnpm", "pnpx", "yarn", "bunx"]

  /** White space and line ends, as `trim` and `\s` read them. */
  predicate IsSpace(c: char) {
    var n := c as int;
    9 <= n <= 13 || n in [0x20, 0xA0, 0x1680, 0x2028, 0x2029, 0x202F, 0x205F, 0x3000, 0xFEFF] || 0x2000 <= n <= 0x200A
  }

  predicate IsBlank(s: string) {
    forall i :: 0 <= i < |s| ==> IsSpace(s[i])
  }

  predicate NoSpaces(s: string) {
    forall i :: 0 <= i < |s| ==> !IsSpace(s[i])
  }

  /** A character the Windows shell would not pass through as it is. */
  predicate HasCmdSyntax(s: string) {
    exists i :: 0 <= i < |s| && s[i] in "&|^<>%!\"\r\n"
  }

  /** The part after the last `/` or `\`. */
  function BaseName(s: string): string {
    if '/' in s || '\\' in s then BaseName(s[1..]) else s
  }

  function AsciiLower(s: string): string {
    seq(|s|, i requires 0 <= i < |s| => if 'A' <= s[i] <= 'Z' then s[i] + (32 as char) else s[i])
  }

  predicate HasExtension(s: string, extensions: seq<string>) {
    |s| >= 4 && s[|s| - 4] == '.' && AsciiLower(s[|s| - 3..]) in extensions
  }

  function CommandName(host: Host, command: string): string {
    var base := BaseName(command);
    host.lower(if HasExtension(base, ["cmd", "bat", "exe", "com"]) then base[..|base| - 4] else base)
  }

  /** `mcpcut`, or `mcpcut@` and a version. */
  predicate IsPackageArg(arg: string) {
    arg == CLI_NAME || (CLI_NAME + "@" < arg && NoSpaces(arg[|CLI_NAME| + 1..]))
  }

  predicate StartsMcpcut(host: Host, command: string, args: seq<string>) {
    CommandName(host, command) == CLI_NAME || exists i :: 0 <= i < |args| && IsPackageArg(args[i])
  }

  predicate NeedsWindowsShell(host: Host, command: string) {
    var name := CommandName(host, command);
    name != "cmd" && (name in SHIM_NAMES || HasExtension(command, ["cmd", "bat"]))
  }

  /** What follows the `--`: the command and its arguments, behind the shell where Windows needs one. */
  function InnerCommand(host: Host, command: string, args: seq<string>): seq<string> {
    (if host.windows && NeedsWindowsShell(host, command) then ["cmd", "/c"] else []) + [command] + args
  }

  function LauncherOf(host: Host, version: string): Launcher {
    var package := CLI_NAME + "@" + version;
    if host.windows then Launcher("cmd", ["/c", "npx", "-y", package]) else Launcher("npx", ["-y", package])
  }

  function StrList(texts: seq<string>): Json {
    Arr(seq(|texts|, i requires 0 <= i < |texts| => Str(texts[i])))
  }

  function Texts(items: seq<Json>): seq<string>
    requires forall i :: 0 <= i < |items| ==> items[i].Str?
  {
    seq(|items|, i requires 0 <= i < |items| => items[i].text)
  }

  predicate IsStringList(v: Json) {
    v.Arr? && forall i :: 0 <= i < |v.items| ==> v.items[i].Str?
  }

  /** The arguments as the entry declares them: an absent or null `args` is no arguments. */
  function DeclaredArgs(entry: Fields): Option<seq<string>> {
    var v := Find(entry, "args");
    if v.None? || v.value.Null? then Some([])
    else if IsStringList(v.value) then Some(Texts(v.value.items))
    else None
  }

  predicate IsRemote(entry: Fields) {
    || IsText(entry, "url")
    || IsText(entry, "serverUrl")
    || (IsText(entry, "type") && Find(entry, "type").value.text in REMOTE_TYPES)
  }

  predicate IsText(entry: Fields, key: string) {
    Find(entry, key).Some? && Find(entry, key).value.Str?
  }

  predicate HasUnsafePart(name: string, command: string, args: seq<string>) {
    HasCmdSyntax(name) || HasCmdSyntax(command) || exists i :: 0 <= i < |args| && HasCmdSyntax(args[i])
  }

  /** `adoptEntry` */
  function Judge(host: Host, name: string, entry: Json, launcher: Launcher): Verdict {
    if !entry.Obj? then Unreadable
    else if IsRemote(entry.fields) then Remote
    else if !IsText(entry.fields, "command") || IsBlank(Find(entry.fields, "command").value.text)
        || DeclaredArgs(entry.fields).None? then
      Unreadable
    else
      var command := Find(entry.fields, "command").value.text;
      var args := DeclaredArgs(entry.fields).value;
      if StartsMcpcut(host, command, args) then Already
      else if host.windows && HasUnsafePart(name, command, args) then CmdUnsafe
      else
        var line := launcher.args + ["wrap", "--server", name, "--"] + InnerCommand(host, command, args);
        Wrap(Put(Put(entry.fields, "command", Str(launcher.command)), "args", StrList(line)))
  }

  /** `commandLineOf` */
  function CommandLineOf(host: Host, entry: Fields): CommandLine {
    CommandLine(
      host.toText(Find(entry, "command")),
      match Find(entry, "args")
      case Some(Arr(items)) => Some(seq(|items|, i requires 0 <= i < |items| => host.toText(Some(items[i]))))
      case _ => None)
  }

  function ArgsOf(line: CommandLine): seq<string> {
    if line.args.Some? then line.args.value else []
  }

  predicate SameCommandLine(a: CommandLine, b: CommandLine) {
    a.command == b.command && ArgsOf(a) == ArgsOf(b)
  }

  /** `restored`: `command` and `args` rewritten in their places, `args` dropped if `before` has none. */
  function Restored(entry: Fields, before: CommandLine): Fields {
    if entry == [] then [] else RestoredField(entry[0], before) + Restored(entry[1..], before)
  }

  function RestoredField(field: (string, Json), before: CommandLine): Fields {
    if field.0 == "args" then
      (if before.args.Some? then [("args", StrList(before.args.value))] else [])
    else if field.0 == "command" then [("command", Str(before.command))]
    else [field]
  }

  // ---------------------------------------------------------------------------
  // What is wrapped, and into what

  /** The arguments `wrap` is started with. */
  function WrapArgs(host: Host, name: string, entry: Fields, launcher: Launcher): seq<string>
    requires Judge(host, name, Obj(entry), launcher).Wrap?
  {
    launcher.args + ["wrap", "--server", name, "--"]
        + InnerCommand(host, Find(entry, "command").value.text, DeclaredArgs(entry).value)
  }

  /** A stdio server: an object with a command, string arguments if any, and nothing that makes it remote. */
  predicate IsStdio(entry: Json) {
    && entry.Obj? && !IsRemote(entry.fields)
    && IsText(entry.fields, "command") && !IsBlank(Find(entry.fields, "command").value.text)
    && (Find(entry.fields, "args").None? || Find(entry.fields, "args").value.Null?
        || IsStringList(Find(entry.fields, "args").value))
  }

  /** The command line of a stdio server. */
  function OwnLine(entry: Fields): seq<string>
    requires IsStdio(Obj(entry))
  {
    var args := Find(entry, "args");
    [Find(entry, "command").value.text] + (if args.Some? && args.value.Arr? then Texts(args.value.items) else [])
  }

  /** Neither the name of mcpcut nor its package, and on Windows no `cmd` syntax. */
  predicate IsWrappable(host: Host, name: string, line: seq<string>) {
    && line != []
    && CommandName(host, line[0]) != CLI_NAME && (forall i :: 1 <= i < |line| ==> !IsPackageArg(line[i]))
    && (host.windows ==> !HasCmdSyntax(name) && forall i :: 0 <= i < |line| ==> !HasCmdSyntax(line[i]))
  }

  /** An entry is wrapped exactly when it is a stdio server with a wrappable command line. */
  lemma WrapMeans(host: Host, name: string, entry: Json, launcher: Launcher)
    ensures Judge(host, name, entry, launcher).Wrap? <==>
        IsStdio(entry) && IsWrappable(host, name, OwnLine(entry.fields))
  {
    if IsStdio(entry) {
      LineIsWrappable(host, name, Find(entry.fields, "command").value.text, DeclaredArgs(entry.fields).value);
    }
  }

  /** The other verdicts: what makes an entry remote, unreadable, adopted already or unsafe for `cmd`. */
  lemma VerdictMeans(host: Host, name: string, entry: Json, launcher: Launcher)
    ensures var v := Judge(host, name, entry, launcher);
      && (v == Remote <==> entry.Obj? && IsRemote(entry.fields))
      && (v == Unreadable <==> !(entry.Obj? && IsRemote(entry.fields)) && !IsStdio(entry))
      && (IsStdio(entry) ==>
            var line := OwnLine(entry.fields);
            && (v == Already <==> StartsItself(host, line))
            && (v == CmdUnsafe <==> !StartsItself(host, line) && !IsWrappable(host, name, line)))
  {
    if IsStdio(entry) {
      LineIsWrappable(host, name, Find(entry.fields, "command").value.text, DeclaredArgs(entry.fields).value);
      LineStartsItself(host, Find(entry.fields, "command").value.text, DeclaredArgs(entry.fields).value);
    }
  }

  /** A command line that starts mcpcut: by its command, or by a package among its arguments. */
  predicate StartsItself(host: Host, line: seq<string>)
    requires line != []
  {
    CommandName(host, line[0]) == "mcpcut" || exists i :: 1 <= i < |line| && IsPackageArg(line[i])
  }

  lemma LineStartsItself(host: Host, command: string, args: seq<string>)
    ensures StartsItself(host, [command] + args) <==> StartsMcpcut(host, command, args)
  {
    var line := [command] + args;
    assert forall i :: 1 <= i < |line| ==> line[i] == args[i - 1];
    assert forall i :: 0 <= i < |args| ==> args[i] == line[i + 1];
  }

  /** What makes an entry remote: a text under either key for a URL, or one of four types. */
  lemma RemoteMeans(entry: Fields)
    ensures IsRemote(entry) <==>
      || (Find(entry, "url").Some? && Find(entry, "url").value.Str?)
      || (Find(entry, "serverUrl").Some? && Find(entry, "serverUrl").value.Str?)
      || Find(entry, "type") in [Some(Str("http")), Some(Str("sse")), Some(Str("streamable-http")),
          Some(Str("streamableHttp"))]
  {
    var t := Find(entry, "type");
    assert t.Some? && t.value.Str? ==> (t.value.text in REMOTE_TYPES <==>
      t.value.text == "http" || t.value.text == "sse" || t.value.text == "streamable-http"
          || t.value.text == "streamableHttp");
  }

  /** White space and line ends by code point: the control ones, the blanks of every width, and the byte order mark. */
  lemma SpaceMeans(c: char)
    ensures IsSpace(c) <==> c as int in {
      9, 10, 11, 12, 13, 32, 160, 5760, 8192, 8193, 8194, 8195, 8196, 8197, 8198, 8199, 8200, 8201, 8202,
      8232, 8233, 8239, 8287, 12288, 65279}
  {
  }

  /** The package is named bare, or with a version without white space. */
  lemma PackageArgMeans(arg: string)
    ensures IsPackageArg(arg) <==>
      arg == "mcpcut" || exists version: string :: version != "" && NoSpaces(version) && arg == "mcpcut@" + version
  {
    if IsPackageArg(arg) && arg != "mcpcut" {
      assert arg == "mcpcut@" + arg[7..];
    }
    forall version: string | version != "" && NoSpaces(version) && arg == "mcpcut@" + version
      ensures IsPackageArg(arg)
    {
      assert arg[7..] == version && CLI_NAME + "@" == "mcpcut@";
    }
  }

  /** What the Windows shell reads as its own. */
  lemma CmdSyntaxMeans(s: string)
    ensures HasCmdSyntax(s) <==>
      exists i :: 0 <= i < |s| && s[i] in {'&', '|', '^', '<', '>', '%', '!', '"', '\r', '\n'}
  {
    forall i | 0 <= i < |s|
      ensures s[i] in "&|^<>%!\"\r\n" <==> s[i] in {'&', '|', '^', '<', '>', '%', '!', '"', '\r', '\n'}
    {
      CmdSyntaxChar(s[i]);
    }
  }

  lemma CmdSyntaxChar(c: char)
    ensures c in "&|^<>%!\"\r\n" <==> c in {'&', '|', '^', '<', '>', '%', '!', '"', '\r', '\n'}
  {
    var t := "&|^<>%!\"\r\n";
    assert t[0] == '&' && t[1] == '|' && t[2] == '^' && t[3] == '<' && t[4] == '>';
    assert t[5] == '%' && t[6] == '!' && t[7] == '"' && t[8] == '\r' && t[9] == '\n';
  }

  lemma {:induction false} BaseNameOf(directory: string, base: string)
    requires directory == "" || directory[|directory| - 1] in {'/', '\\'}
    requires '/' !in base && '\\' !in base
    ensures BaseName(directory + base) == base
    decreases |directory|
  {
    var s := directory + base;
    if directory == "" {
      assert s == base;
    } else {
      assert s[|directory| - 1] == directory[|directory| - 1];
      assert s[1..] == directory[1..] + base;
      BaseNameOf(directory[1..], base);
    }
  }

  /** `s` is `word`, in capitals, small letters or both. */
  predicate AnyCase(s: string, word: string) {
    |s| == |word| && forall i :: 0 <= i < |s| ==> s[i] == word[i] || s[i] as int == word[i] as int - 32
  }

  lemma AnyCaseMeans(s: string, word: string)
    requires forall i :: 0 <= i < |word| ==> 'a' <= word[i] <= 'z'
    ensures AsciiLower(s) == word <==> AnyCase(s, word)
  {
    var lower := AsciiLower(s);
    if AnyCase(s, word) {
      assert forall i :: 0 <= i < |s| ==> lower[i] == word[i];
    } else if |s| == |word| {
      var i :| 0 <= i < |s| && !(s[i] == word[i] || s[i] as int == word[i] as int - 32);
      assert lower[i] != word[i];
    }
  }

  /** The extension of a Windows program or script. */
  predicate NamesProgram(extension: string) {
    AnyCase(extension, "cmd") || AnyCase(extension, "bat") || AnyCase(extension, "exe") || AnyCase(extension, "com")
  }

  /** A command is known by its file name, in lower case, less the extension of a Windows program. */
  lemma CommandNameMeans(host: Host, directory: string, base: string, extension: string)
    requires directory == "" || directory[|directory| - 1] in {'/', '\\'}
    requires '/' !in base && '\\' !in base && '/' !in extension && '\\' !in extension
    ensures '.' !in base ==> CommandName(host, directory + base) == host.lower(base)
    ensures NamesProgram(extension) ==> CommandName(host, directory + (base + "." + extension)) == host.lower(base)
  {
    BaseNameOf(directory, base);
    if NamesProgram(extension) {
      var whole := base + "." + extension;
      BaseNameOf(directory, whole);
      ProgramExtension(base, extension);
    }
    if '.' !in base {
      NoExtension(base);
    }
  }

  lemma NoExtension(base: string)
    requires '.' !in base
    ensures !HasExtension(base, ["cmd", "bat", "exe", "com"])
  {
  }

  lemma ProgramExtension(base: string, extension: string)
    requires NamesProgram(extension)
    ensures var whole := base + "." + extension;
      HasExtension(whole, ["cmd", "bat", "exe", "com"]) && whole[..|whole| - 4] == base
  {
    ExtensionName(extension);
    var whole := base + "." + extension;
    assert whole[|whole| - 4] == '.' && whole[|whole| - 3..] == extension;
  }

  lemma ExtensionName(extension: string)
    requires NamesProgram(extension)
    ensures |extension| == 3 && AsciiLower(extension) in ["cmd", "bat", "exe", "com"]
  {
    AnyCaseMeans(extension, "cmd");
    AnyCaseMeans(extension, "bat");
    AnyCaseMeans(extension, "exe");
    AnyCaseMeans(extension, "com");
  }

  /** Which commands Windows starts through `cmd /c`: the six shims by name, and scripts by extension. */
  lemma WindowsShellMeans(host: Host, command: string)
    ensures NeedsWindowsShell(host, command) <==>
      && CommandName(host, command) != "cmd"
      && (|| CommandName(host, command) in {"npx", "npm", "pnpm", "pnpx", "yarn", "bunx"}
          || (|command| >= 4 && command[|command| - 4] == '.'
              && (AnyCase(command[|command| - 3..], "cmd") || AnyCase(command[|command| - 3..], "bat"))))
  {
    if |command| >= 4 {
      AnyCaseMeans(command[|command| - 3..], "cmd");
      AnyCaseMeans(command[|command| - 3..], "bat");
    }
    var name := CommandName(host, command);
    assert name in SHIM_NAMES <==> name in {"npx", "npm", "pnpm", "pnpx", "yarn", "bunx"};
  }

  lemma LineIsWrappable(host: Host, name: string, command: string, args: seq<string>)
    ensures IsWrappable(host, name, [command] + args)
       <==> !StartsMcpcut(host, command, args) && !(host.windows && HasUnsafePart(name, command, args))
  {
    var line := [command] + args;
    assert forall i :: 1 <= i < |line| ==> line[i] == args[i - 1];
    assert forall i :: 0 <= i < |args| ==> args[i] == line[i + 1];
  }

  /**
   * The wrapped line ends in the server's own command line, after the launcher, the server's name and,
   * for a Windows shim, `cmd /c`.
   */
  lemma WrappedLine(host: Host, name: string, entry: Fields, launcher: Launcher)
    requires Judge(host, name, Obj(entry), launcher).Wrap?
    ensures IsStdio(Obj(entry))
    ensures WrapArgs(host, name, entry, launcher)
         == launcher.args + ["wrap", "--server", name, "--"]
            + (if host.windows && NeedsWindowsShell(host, OwnLine(entry)[0]) then ["cmd", "/c"] else [])
            + OwnLine(entry)
  {
    WrapMeans(host, name, Obj(entry), launcher);
    var own := Find(entry, "command").value.text;
    var shell := if host.windows && NeedsWindowsShell(host, own) then ["cmd", "/c"] else [];
    var wrap := launcher.args + ["wrap", "--server", name, "--"];
    Regrouped(wrap, shell, [own], DeclaredArgs(entry).value);
  }

  lemma Regrouped(a: seq<string>, b: seq<string>, c: seq<string>, d: seq<string>)
    ensures a + (b + c + d) == a + b + (c + d)
  {
  }

  // ---------------------------------------------------------------------------
  // One entry there and back

  /** Restoring forgets what `command` and `args` held. */
  lemma {:induction false} RestoredPut(entry: Fields, key: string, v: Json, before: CommandLine)
    requires key == "command" || key == "args"
    ensures Restored(Put(entry, key, v), before)
         == Restored(entry, before) + (if Find(entry, key).Some? then [] else RestoredField((key, v), before))
    decreases |entry|
  {
    if entry == [] {
      assert Put(entry, key, v) == [(key, v)];
      assert Restored([(key, v)], before) == RestoredField((key, v), before) + Restored([], before);
    } else if entry[0].0 == key {
      assert Put(entry, key, v)[1..] == entry[1..];
    } else {
      RestoredPut(entry[1..], key, v, before);
      assert Put(entry, key, v)[1..] == Put(entry[1..], key, v);
    }
  }

  /** An entry restored to its own command line is itself. */
  lemma {:induction false} RestoredSelf(entry: Fields, before: CommandLine)
    requires forall i :: 0 <= i < |entry| ==> RestoredField(entry[i], before) == [entry[i]]
    ensures Restored(entry, before) == entry
    decreases |entry|
  {
    if entry != [] {
      RestoredSelf(entry[1..], before);
    }
  }

  /** What an entry is restored to, key by key. */
  lemma {:induction false} RestoredMeans(entry: Fields, before: CommandLine, key: string)
    ensures Find(Restored(entry, before), key) ==
      if Find(entry, key).None? then None
      else if key == "command" then Some(Str(before.command))
      else if key == "args" then (if before.args.Some? then Some(StrList(before.args.value)) else None)
      else Find(entry, key)
    decreases |entry|
  {
    if entry != [] {
      RestoredMeans(entry[1..], before, key);
      RestoredLosesArgs(entry, before);
      assert RestoredField(entry[0], before) == [] ==> Restored(entry, before) == Restored(entry[1..], before);
      assert RestoredField(entry[0], before) != [] ==> Restored(entry, before)[1..] == Restored(entry[1..], before);
    }
  }

  lemma {:induction false} RestoredLosesArgs(entry: Fields, before: CommandLine)
    ensures before.args.None? ==> Find(Restored(entry, before), "args").None?
    decreases |entry|
  {
    if entry != [] {
      RestoredLosesArgs(entry[1..], before);
      assert RestoredField(entry[0], before) == [] ==> Restored(entry, before) == Restored(entry[1..], before);
      assert RestoredField(entry[0], before) != [] ==> Restored(entry, before)[1..] == Restored(entry[1..], before);
    }
  }

  /** Restoring leaves every other key as it is. */
  lemma {:induction false} RestoredElsewhere(entry: Fields, before: CommandLine, key: string)
    requires key != "command" && key != "args"
    ensures Find(Restored(entry, before), key) == Find(entry, key)
    decreases |entry|
  {
    if entry != [] {
      RestoredElsewhere(entry[1..], before, key);
      assert RestoredField(entry[0], before) == [] ==> Restored(entry, before) == Restored(entry[1..], before);
      assert RestoredField(entry[0], before) != [] ==> Restored(entry, before)[1..] == Restored(entry[1..], before);
    }
  }

  /** The record kept of a wrapped entry names its command and, when `args` is a list, its arguments. */
  lemma WrappedCommandLine(host: Host, name: string, entry: Json, launcher: Launcher)
    requires TextIsText(host) && Judge(host, name, entry, launcher).Wrap?
    ensures Str(CommandLineOf(host, entry.fields).command) == Find(entry.fields, "command").value
    ensures match Find(entry.fields, "args")
            case Some(Arr(items)) => CommandLineOf(host, entry.fields).args.Some?
                                     && StrList(CommandLineOf(host, entry.fields).args.value) == Arr(items)
            case _ => CommandLineOf(host, entry.fields).args.None?
  {
    match Find(entry.fields, "args")
    case Some(Arr(items)) =>
      var texts := CommandLineOf(host, entry.fields).args.value;
      assert forall i :: 0 <= i < |items| ==> texts[i] == host.toText(Some(Str(items[i].text)));
      assert texts == Texts(items);
      assert StrList(texts).items == items;
    case _ =>
  }

  /**
   * Undoing a wrap gives the entry back, key order included, exactly when its `args` was not null: a
   * null `args` is read as no arguments, and undo then drops the key.
   */
  lemma EntryRoundTrip(host: Host, name: string, entry: Json, launcher: Launcher)
    requires TextIsText(host) && WellFormed(entry)
    requires Judge(host, name, entry, launcher).Wrap?
    ensures Restored(Judge(host, name, entry, launcher).next, CommandLineOf(host, entry.fields)) == entry.fields
       <==> Find(entry.fields, "args") != Some(Null)
  {
    var f := entry.fields;
    var before := CommandLineOf(host, f);
    var next := Judge(host, name, entry, launcher).next;
    WrappedCommandLine(host, name, entry, launcher);
    var c := Str(launcher.command);
    var line := launcher.args + ["wrap", "--server", name, "--"]
        + InnerCommand(host, Find(f, "command").value.text, DeclaredArgs(f).value);
    assert next == Put(Put(f, "command", c), "args", StrList(line));
    RestoredPut(Put(f, "command", c), "args", StrList(line), before);
    RestoredPut(f, "command", c, before);
    FindPut(f, "command", c, "args");
    if Find(f, "args") == Some(Null) {
      RestoredLosesArgs(next, before);
    } else {
      forall i | 0 <= i < |f| ensures RestoredField(f[i], before) == [f[i]] {
        FindField(f, i);
      }
      RestoredSelf(f, before);
    }
  }

  lemma FieldOfWrapped(host: Host, name: string, entry: Fields, launcher: Launcher, key: string)
    requires Judge(host, name, Obj(entry), launcher).Wrap?
    ensures Find(Judge(host, name, Obj(entry), launcher).next, key)
         == if key == "args" then Some(StrList(WrapArgs(host, name, entry, launcher)))
            else if key == "command" then Some(Str(launcher.command))
            else Find(entry, key)
  {
    FindPut(entry, "command", Str(launcher.command), key);
    FindPut(Put(entry, "command", Str(launcher.command)), "args", StrList(WrapArgs(host, name, entry, launcher)), key);
  }

  /** A launcher of a versioned package passes that package on. */
  lemma LauncherNamesPackage(host: Host, version: string, rest: seq<string>, command: string)
    requires version != "" && NoSpaces(version)
    ensures StartsMcpcut(host, command, LauncherOf(host, version).args + rest)
  {
    var args := LauncherOf(host, version).args + rest;
    var package := CLI_NAME + "@" + version;
    var k := if host.windows then 3 else 1;
    assert args[k] == LauncherOf(host, version).args[k] == package;
    assert package[|CLI_NAME| + 1..] == version;
    assert IsPackageArg(args[k]);
  }

  lemma WrappedIsLocal(host: Host, name: string, entry: Fields, launcher: Launcher)
    requires Judge(host, name, Obj(entry), launcher).Wrap?
    ensures !IsRemote(Judge(host, name, Obj(entry), launcher).next)
  {
    FieldOfWrapped(host, name, entry, launcher, "url");
    FieldOfWrapped(host, name, entry, launcher, "serverUrl");
    FieldOfWrapped(host, name, entry, launcher, "type");
  }

  /** What a wrapped entry declares. */
  lemma WrappedDeclares(host: Host, name: string, entry: Fields, launcher: Launcher)
    requires Judge(host, name, Obj(entry), launcher).Wrap?
    ensures var next := Judge(host, name, Obj(entry), launcher).next;
            && Find(next, "command") == Some(Str(launcher.command))
            && DeclaredArgs(next) == Some(WrapArgs(host, name, entry, launcher))
  {
    var args := WrapArgs(host, name, entry, launcher);
    FieldOfWrapped(host, name, entry, launcher, "command");
    FieldOfWrapped(host, name, entry, launcher, "args");
    assert Texts(StrList(args).items) == args;
  }

  /** A wrapped entry is never wrapped again, whatever launcher the second run uses. */
  lemma WrappedIsAlready(host: Host, name: string, entry: Fields, version: string, again: Launcher)
    requires version != "" && NoSpaces(version)
    requires Judge(host, name, Obj(entry), LauncherOf(host, version)).Wrap?
    ensures Judge(host, name, Obj(Judge(host, name, Obj(entry), LauncherOf(host, version)).next), again) == Already
  {
    var launcher := LauncherOf(host, version);
    WrappedIsLocal(host, name, entry, launcher);
    WrappedDeclares(host, name, entry, launcher);
    assert !IsBlank(launcher.command) by {
      assert !IsSpace(launcher.command[0]);
    }
    var rest := ["wrap", "--server", name, "--"]
        + InnerCommand(host, Find(entry, "command").value.text, DeclaredArgs(entry).value);
    assert WrapArgs(host, name, entry, launcher) == launcher.args + rest;
    LauncherNamesPackage(host, version, rest, launcher.command);
  }
}
