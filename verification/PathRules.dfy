/** Folder rules of grants (src/agents/effective.ts, src/files/rights.ts): their union, and the rights they give. */
module PathRules {
  import opened Ordered
  import opened SortedNames

  datatype Op = Read | Write | Edit | Delete

  /** The folder a cut-out was granted for, by device and inode. */
  datatype Identity = Identity(dev: string, ino: string)

  datatype Rule = Rule(path: string, ops: seq<Op>, identity: Option<Identity>)

  /** What a stored rule is held to: no NUL in its path, a number for its inode. */
  predicate RuleOk(r: Rule) {
    '\0' !in r.path && (r.identity.Some? ==> r.identity.value.ino != "")
  }

  predicate RulesOk(rules: seq<Rule>) {
    forall r :: r in rules ==> RuleOk(r)
  }

  // ---------------------------------------------------------------------------
  // The union

  /** The operations in the fixed order. */
  function InOrder(ops: seq<Op>): seq<Op> {
    (if Read in ops then [Read] else []) + (if Write in ops then [Write] else [])
    + (if Edit in ops then [Edit] else []) + (if Delete in ops then [Delete] else [])
  }

  function Normalized(r: Rule): Rule {
    r.(ops := InOrder(r.ops))
  }

  function OpText(op: Op): string {
    match op case Read => "read" case Write => "write" case Edit => "edit" case Delete => "delete"
  }

  function JoinOps(ops: seq<Op>): string {
    if ops == [] then "" else OpText(ops[0]) + MoreOps(ops[1..])
  }

  function MoreOps(ops: seq<Op>): string {
    if ops == [] then "" else "," + OpText(ops[0]) + MoreOps(ops[1..])
  }

  function InoOf(r: Rule): string {
    if r.identity.Some? then r.identity.value.ino else ""
  }

  function KeyOf(r: Rule): string {
    r.path + "\0" + JoinOps(r.ops) + "\0" + InoOf(r)
  }

  /** `new Map(rules.map((rule) => [keyOf(rule), rule]))` over the normalized rules: the last of a key stays. */
  function Keyed(rules: seq<Rule>): map<string, Rule> {
    if rules == [] then map[]
    else map[KeyOf(Normalized(rules[0])) := Normalized(rules[0])] + Keyed(rules[1..])
  }

  function KeysOf(rules: seq<Rule>): seq<string> {
    if rules == [] then [] else [KeyOf(Normalized(rules[0]))] + KeysOf(rules[1..])
  }

  function Picked(m: map<string, Rule>, keys: seq<string>): (rules: seq<Rule>)
    requires forall k :: k in keys ==> k in m
  {
    if keys == [] then [] else [m[keys[0]]] + Picked(m, keys[1..])
  }

  /** The union of folder rules: one of each key, in the order of the keys. */
  function MergedRules(rules: seq<Rule>): seq<Rule> {
    KeysAreKeyed(rules);
    Picked(Keyed(rules), SortNames(KeysOf(rules)))
  }

  lemma {:induction false} KeyedElements(rules: seq<Rule>)
    ensures forall k :: k in Keyed(rules) <==> k in KeysOf(rules)
    ensures forall k ::
        k in Keyed(rules) ==> KeyOf(Keyed(rules)[k]) == k && exists r :: r in rules && Normalized(r) == Keyed(rules)[k]
    ensures forall r :: r in rules ==> KeyOf(Normalized(r)) in Keyed(rules)
    decreases |rules|
  {
    if rules != [] {
      KeyedElements(rules[1..]);
      assert rules == [rules[0]] + rules[1..];
    }
  }

  lemma KeysAreKeyed(rules: seq<Rule>)
    ensures forall k :: k in SortNames(KeysOf(rules)) <==> k in Keyed(rules)
    ensures Sorted(SortNames(KeysOf(rules)))
  {
    KeyedElements(rules);
    SortNamesSorted(KeysOf(rules));
  }

  lemma Override(a: map<string, Rule>, b: map<string, Rule>, c: map<string, Rule>)
    ensures a + (b + c) == a + b + c
  {
  }

  /** A later list overrides an earlier one. */
  lemma {:induction false} KeyedConcat(a: seq<Rule>, b: seq<Rule>)
    ensures Keyed(a + b) == Keyed(a) + Keyed(b)
    decreases |a|
  {
    if a == [] {
      assert a + b == b;
    } else {
      assert (a + b)[1..] == a[1..] + b;
      KeyedConcat(a[1..], b);
      Override(map[KeyOf(Normalized(a[0])) := Normalized(a[0])], Keyed(a[1..]), Keyed(b));
    }
  }

  lemma {:induction false} PickedElements(m: map<string, Rule>, keys: seq<string>)
    requires forall k :: k in keys ==> k in m
    ensures |Picked(m, keys)| == |keys| && forall i :: 0 <= i < |keys| ==> Picked(m, keys)[i] == m[keys[i]]
    decreases |keys|
  {
    if keys != [] {
      PickedElements(m, keys[1..]);
    }
  }

  /** The union holds the rules that were kept of each key, and no other. */
  lemma MergedElements(rules: seq<Rule>, r: Rule)
    ensures r in MergedRules(rules) <==> KeyOf(r) in Keyed(rules) && Keyed(rules)[KeyOf(r)] == r
  {
    KeysAreKeyed(rules);
    KeyedElements(rules);
    PickedIn(Keyed(rules), SortNames(KeysOf(rules)), r);
  }

  lemma PickedIn(m: map<string, Rule>, keys: seq<string>, r: Rule)
    requires forall k :: k in keys <==> k in m
    requires forall k :: k in m ==> KeyOf(m[k]) == k
    ensures r in Picked(m, keys) <==> KeyOf(r) in m && m[KeyOf(r)] == r
  {
    PickedElements(m, keys);
    if r in Picked(m, keys) {
      var i :| 0 <= i < |keys| && Picked(m, keys)[i] == r;
      assert keys[i] in m;
    }
    if KeyOf(r) in m && m[KeyOf(r)] == r {
      var i :| 0 <= i < |keys| && keys[i] == KeyOf(r);
      assert Picked(m, keys)[i] == r;
    }
  }

  /** Of two rules of one key the later stays. */
  lemma MergedPair(a: Rule, b: Rule)
    requires a.ops == b.ops == [] && KeyOf(a) == KeyOf(b)
    ensures MergedRules([a, b]) == [b]
  {
    var k := KeyOf(a);
    assert Normalized(a) == a && Normalized(b) == b;
    assert [a, b][1..] == [b] && [b][1..] == [];
    assert Keyed([b][1..]) == map[] && KeysOf([b][1..]) == [];
    assert Keyed([b]) == map[k := b] + Keyed([b][1..]) && KeysOf([b]) == [k] + KeysOf([b][1..]);
    assert Keyed([a, b]) == map[k := a] + Keyed([a, b][1..]) && KeysOf([a, b]) == [k] + KeysOf([a, b][1..]);
    assert Keyed([a, b]) == map[k := b] && KeysOf([a, b]) == [k, k];
    assert [k, k][1..] == [k] && [k][1..] == [];
    assert SortNames([k][1..]) == [];
    assert SortNames([k]) == [k];
    assert SortNames([k, k]) == SortedNames.Insert(SortNames([k, k][1..]), k) == [k];
    assert MergedRules([a, b]) == [b] by {
      assert Picked(Keyed([a, b]), [k]) == [b] + Picked(Keyed([a, b]), [k][1..]);
    }
  }

  /** The union depends on what is kept of each key only, */
  lemma MergedByKeyed(a: seq<Rule>, b: seq<Rule>)
    requires Keyed(a) == Keyed(b)
    ensures MergedRules(a) == MergedRules(b)
  {
    KeysAreKeyed(a);
    KeysAreKeyed(b);
    SortedUnique(SortNames(KeysOf(a)), SortNames(KeysOf(b)));
  }

  /** and tells it. */
  lemma SameMergedSameKeyed(a: seq<Rule>, b: seq<Rule>, k: string)
    requires MergedRules(a) == MergedRules(b) && k in Keyed(a) && k in Keyed(b)
    ensures Keyed(a)[k] == Keyed(b)[k]
  {
    KeyedElements(a);
    MergedElements(a, Keyed(a)[k]);
    MergedElements(b, Keyed(a)[k]);
  }

  // ---------------------------------------------------------------------------
  // A key tells path, operations and inode

  lemma {:induction false} BeforeNul(a: string, b: string, x: string, y: string)
    requires a + "\0" + x == b + "\0" + y && '\0' !in a && '\0' !in b
    ensures a == b && x == y
    decreases |a|
  {
    var s, t := a + "\0" + x, b + "\0" + y;
    if a == "" || b == "" {
      assert s[0] == t[0];
      assert s[1..] == x && t[1..] == y;
    } else {
      assert s[0] == a[0] && t[0] == b[0];
      assert s[1..] == a[1..] + "\0" + x && t[1..] == b[1..] + "\0" + y;
      BeforeNul(a[1..], b[1..], x, y);
      assert a == [a[0]] + a[1..] && b == [b[0]] + b[1..];
    }
  }

  lemma {:induction false} NoNulInMore(ops: seq<Op>)
    ensures '\0' !in MoreOps(ops)
    decreases |ops|
  {
    if ops != [] {
      NoNulInMore(ops[1..]);
    }
  }

  lemma NoNulInOps(ops: seq<Op>)
    ensures '\0' !in JoinOps(ops)
  {
    if ops != [] {
      NoNulInMore(ops[1..]);
    }
  }

  /** No name of an operation begins another. */
  lemma OpTextPrefix(a: Op, b: Op, x: string, y: string)
    requires OpText(a) + x == OpText(b) + y
    ensures a == b && x == y
  {
    var s, t := OpText(a) + x, OpText(b) + y;
    assert s[0] == OpText(a)[0] && t[0] == OpText(b)[0];
    assert s[|OpText(a)|..] == x && t[|OpText(b)|..] == y;
  }

  lemma AfterComma(ops: seq<Op>)
    requires ops != []
    ensures |MoreOps(ops)| > 0 && MoreOps(ops)[1..] == OpText(ops[0]) + MoreOps(ops[1..])
  {
    var text, more := OpText(ops[0]), MoreOps(ops[1..]);
    assert "," + text + more == "," + (text + more);
  }

  lemma {:induction false} MoreOpsInjective(a: seq<Op>, b: seq<Op>)
    requires MoreOps(a) == MoreOps(b)
    ensures a == b
    decreases |a|
  {
    assert a == [] <==> MoreOps(a) == "";
    assert b == [] <==> MoreOps(b) == "";
    if a != [] && b != [] {
      var x, y := MoreOps(a[1..]), MoreOps(b[1..]);
      AfterComma(a);
      AfterComma(b);
      OpTextPrefix(a[0], b[0], x, y);
      MoreOpsInjective(a[1..], b[1..]);
      assert a == [a[0]] + a[1..] && b == [b[0]] + b[1..];
    }
  }

  lemma JoinOpsInjective(a: seq<Op>, b: seq<Op>)
    requires JoinOps(a) == JoinOps(b)
    ensures a == b
  {
    if a != [] && b != [] {
      OpTextPrefix(a[0], b[0], MoreOps(a[1..]), MoreOps(b[1..]));
      MoreOpsInjective(a[1..], b[1..]);
      assert a == [a[0]] + a[1..] && b == [b[0]] + b[1..];
    }
  }

  lemma KeyParts(r: Rule)
    ensures KeyOf(r) == r.path + "\0" + (JoinOps(r.ops) + "\0" + InoOf(r))
  {
  }

  /** Rules of one key differ in the device of their folder at most. */
  lemma KeyTells(a: Rule, b: Rule)
    requires RuleOk(a) && RuleOk(b) && KeyOf(a) == KeyOf(b)
    ensures a.path == b.path && a.ops == b.ops && InoOf(a) == InoOf(b) && (a.identity.Some? <==> b.identity.Some?)
  {
    KeyParts(a);
    KeyParts(b);
    BeforeNul(a.path, b.path, JoinOps(a.ops) + "\0" + InoOf(a), JoinOps(b.ops) + "\0" + InoOf(b));
    NoNulInOps(a.ops);
    NoNulInOps(b.ops);
    BeforeNul(JoinOps(a.ops), JoinOps(b.ops), InoOf(a), InoOf(b));
    JoinOpsInjective(a.ops, b.ops);
  }

  // ---------------------------------------------------------------------------
  // The rights

  /**
   * What the disk says of a rule for one target: whether its folder is a problem, which its path and its
   * inode decide, and otherwise how deep above the target it lies, if it does.
   */
  datatype Disk = Disk(problem: (string, Option<string>) -> bool, depth: string -> Option<nat>)

  function Inode(r: Rule): Option<string> {
    if r.identity.Some? then Some(r.identity.value.ino) else None
  }

  /** No rule contains the target deeper than this one. */
  ghost predicate Deepest(disk: Disk, rules: seq<Rule>, r: Rule) {
    && disk.depth(r.path).Some?
    && forall s :: s in rules && disk.depth(s.path).Some? ==> disk.depth(s.path).value <= disk.depth(r.path).value
  }

  /** `prepareRules`, then `opsAt`: one problem closes everything, the deepest rules decide, an empty one wins. */
  ghost predicate Allowed(disk: Disk, rules: seq<Rule>, op: Op) {
    && (forall r :: r in rules ==>
          !disk.problem(r.path, if r.identity.Some? then Some(r.identity.value.ino) else None))
    && (forall r :: r in rules && Deepest(disk, rules, r) ==> r.ops != [])
    && exists r :: r in rules && Deepest(disk, rules, r) && op in r.ops
  }

  /** The same rule but for the order of its operations and the device of its folder. */
  predicate Alike(a: Rule, b: Rule) {
    a.path == b.path && InOrder(a.ops) == InOrder(b.ops) && Inode(a) == Inode(b)
  }

  lemma AlikeOps(a: Rule, b: Rule)
    requires Alike(a, b)
    ensures forall op :: op in a.ops <==> op in b.ops
    ensures a.ops == [] <==> b.ops == []
  {
    forall op ensures (op in a.ops <==> op in InOrder(a.ops)) && (op in b.ops <==> op in InOrder(b.ops)) {
      InOrderElements(a.ops, op);
      InOrderElements(b.ops, op);
    }
    assert a.ops != [] ==> a.ops[0] in b.ops;
    assert b.ops != [] ==> b.ops[0] in a.ops;
  }

  lemma InOrderElements(ops: seq<Op>, op: Op)
    ensures op in InOrder(ops) <==> op in ops
  {
  }

  ghost predicate HasAlike(rules: seq<Rule>, r: Rule) {
    exists s :: s in rules && Alike(r, s)
  }

  ghost predicate AllAlike(a: seq<Rule>, b: seq<Rule>) {
    forall r :: r in a ==> HasAlike(b, r)
  }

  lemma DeepestAlike(disk: Disk, a: seq<Rule>, b: seq<Rule>, r: Rule, s: Rule)
    requires Deepest(disk, a, r) && Alike(r, s) && AllAlike(b, a)
    ensures Deepest(disk, b, s)
  {
    forall t | t in b && disk.depth(t.path).Some? ensures disk.depth(t.path).value <= disk.depth(s.path).value {
      assert HasAlike(a, t);
    }
  }

  /** A rule of the one list closes or narrows as its like in the other does, */
  lemma AlikeOpen(disk: Disk, a: seq<Rule>, b: seq<Rule>, op: Op, s: Rule)
    requires AllAlike(a, b) && AllAlike(b, a) && Allowed(disk, a, op) && s in b
    ensures !disk.problem(s.path, Inode(s)) && (Deepest(disk, b, s) ==> s.ops != [])
  {
    assert HasAlike(a, s);
    var r :| r in a && Alike(s, r);
    AlikeOps(s, r);
    if Deepest(disk, b, s) {
      DeepestAlike(disk, b, a, s, r);
    }
  }

  /** so lists that hold the same rules but for that give the same rights. */
  lemma AlikeAllowed(disk: Disk, a: seq<Rule>, b: seq<Rule>, op: Op)
    requires AllAlike(a, b) && AllAlike(b, a) && Allowed(disk, a, op)
    ensures Allowed(disk, b, op)
  {
    forall s | s in b ensures !disk.problem(s.path, Inode(s)) && (Deepest(disk, b, s) ==> s.ops != []) {
      AlikeOpen(disk, a, b, op, s);
    }
    var s := AlikeGrants(disk, a, b, op);
  }

  lemma AlikeGrants(disk: Disk, a: seq<Rule>, b: seq<Rule>, op: Op) returns (s: Rule)
    requires AllAlike(a, b) && AllAlike(b, a) && Allowed(disk, a, op)
    ensures s in b && Deepest(disk, b, s) && op in s.ops
  {
    var r :| r in a && Deepest(disk, a, r) && op in r.ops;
    assert HasAlike(b, r);
    s :| s in b && Alike(r, s);
    AlikeOps(r, s);
    DeepestAlike(disk, a, b, r, s);
  }

  /** Every rule is alike to the one the union keeps of its key. */
  lemma KeptIsAlike(rules: seq<Rule>, r: Rule)
    requires RulesOk(rules) && r in rules
    ensures HasAlike(MergedRules(rules), r)
  {
    KeyedElements(rules);
    var s := Keyed(rules)[KeyOf(Normalized(r))];
    var t :| t in rules && Normalized(t) == s;
    MergedElements(rules, s);
    KeyTells(Normalized(r), s);
    InOrderTwice(t.ops);
    assert Alike(r, s);
  }

  lemma MergedIsAlike(rules: seq<Rule>, s: Rule)
    requires s in MergedRules(rules)
    ensures HasAlike(rules, s)
  {
    KeyedElements(rules);
    MergedElements(rules, s);
    var t :| t in rules && Normalized(t) == s;
    InOrderTwice(t.ops);
    assert Alike(s, t);
  }

  lemma InOrderTwice(ops: seq<Op>)
    ensures InOrder(InOrder(ops)) == InOrder(ops)
  {
    forall op ensures op in InOrder(ops) <==> op in ops {
      InOrderElements(ops, op);
    }
    SameInOrder(InOrder(ops), ops);
  }

  lemma SameInOrder(a: seq<Op>, b: seq<Op>)
    requires forall op :: op in a <==> op in b
    ensures InOrder(a) == InOrder(b)
  {
  }

  /** The union gives exactly the rights of the rules it was made of. */
  lemma MergedKeepsRights(disk: Disk, rules: seq<Rule>, op: Op)
    requires RulesOk(rules)
    ensures Allowed(disk, MergedRules(rules), op) <==> Allowed(disk, rules, op)
  {
    var merged := MergedRules(rules);
    forall r | r in rules ensures HasAlike(merged, r) {
      KeptIsAlike(rules, r);
    }
    forall s | s in merged ensures HasAlike(rules, s) {
      MergedIsAlike(rules, s);
    }
    assert AllAlike(rules, merged) && AllAlike(merged, rules);
    if Allowed(disk, rules, op) {
      AlikeAllowed(disk, rules, merged, op);
    }
    if Allowed(disk, merged, op) {
      AlikeAllowed(disk, merged, rules, op);
    }
  }

  /** A rule that contains the target: how deep, and what it allows. */
  datatype Match = Match(depth: nat, ops: seq<Op>)

  function Matches(disk: Disk, rules: seq<Rule>): seq<Match> {
    if rules == [] then []
    else
      var depth := disk.depth(rules[0].path);
      (if depth.Some? then [Match(depth.value, rules[0].ops)] else []) + Matches(disk, rules[1..])
  }

  function MaxDepth(matches: seq<Match>): nat
    requires matches != []
  {
    if |matches| == 1 then matches[0].depth
    else
      var rest := MaxDepth(matches[1..]);
      if matches[0].depth < rest then rest else matches[0].depth
  }

  function Tied(matches: seq<Match>, depth: nat): seq<Match> {
    if matches == [] then []
    else (if matches[0].depth == depth then [matches[0]] else []) + Tied(matches[1..], depth)
  }

  function OpsOf(matches: seq<Match>): seq<Op> {
    if matches == [] then [] else matches[0].ops + OpsOf(matches[1..])
  }

  /** `opsAt` */
  function OpsAt(disk: Disk, rules: seq<Rule>): seq<Op> {
    var matches := Matches(disk, rules);
    if matches == [] then []
    else
      var tied := Tied(matches, MaxDepth(matches));
      if exists m :: m in tied && m.ops == [] then [] else InOrder(OpsOf(tied))
  }

  /** `prepareRules` and then `opsAt`: nothing once a rule's folder is a problem. */
  function FileOps(disk: Disk, rules: seq<Rule>): seq<Op> {
    if exists r :: r in rules && disk.problem(r.path, Inode(r)) then [] else OpsAt(disk, rules)
  }

  lemma {:induction false} MatchesMean(disk: Disk, rules: seq<Rule>, m: Match)
    ensures m in Matches(disk, rules) <==>
      exists r :: r in rules && disk.depth(r.path) == Some(m.depth) && r.ops == m.ops
    decreases |rules|
  {
    if rules != [] {
      MatchesMean(disk, rules[1..], m);
      assert rules == [rules[0]] + rules[1..];
    }
  }

  lemma {:induction false} MaxDepthMeans(matches: seq<Match>)
    requires matches != []
    ensures forall m :: m in matches ==> m.depth <= MaxDepth(matches)
    ensures exists m :: m in matches && m.depth == MaxDepth(matches)
    decreases |matches|
  {
    assert matches == [matches[0]] + matches[1..];
    if |matches| > 1 {
      MaxDepthMeans(matches[1..]);
      var m :| m in matches[1..] && m.depth == MaxDepth(matches[1..]);
      assert m in matches;
    }
    assert matches[0] in matches;
  }

  lemma {:induction false} TiedMeans(matches: seq<Match>, depth: nat, m: Match)
    ensures m in Tied(matches, depth) <==> m in matches && m.depth == depth
    decreases |matches|
  {
    if matches != [] {
      TiedMeans(matches[1..], depth, m);
      assert matches == [matches[0]] + matches[1..];
    }
  }

  lemma {:induction false} OpsOfMean(matches: seq<Match>, op: Op)
    ensures op in OpsOf(matches) <==> exists m :: m in matches && op in m.ops
    decreases |matches|
  {
    if matches != [] {
      OpsOfMean(matches[1..], op);
      assert matches == [matches[0]] + matches[1..];
    }
  }

  /** The tied matches are those of the deepest rules. */
  lemma TiedAreDeepest(disk: Disk, rules: seq<Rule>, r: Rule)
    requires r in rules
    ensures var matches := Matches(disk, rules);
      Deepest(disk, rules, r) <==>
        matches != [] && disk.depth(r.path).Some? && disk.depth(r.path).value == MaxDepth(matches)
  {
    var matches := Matches(disk, rules);
    if disk.depth(r.path).Some? {
      MatchesMean(disk, rules, Match(disk.depth(r.path).value, r.ops));
      MaxDepthMeans(matches);
      forall s | s in rules && disk.depth(s.path).Some? ensures disk.depth(s.path).value <= MaxDepth(matches) {
        MatchesMean(disk, rules, Match(disk.depth(s.path).value, s.ops));
      }
      var m :| m in matches && m.depth == MaxDepth(matches);
      MatchesMean(disk, rules, m);
    }
  }

  /** The tied matches, rule by rule. */
  lemma TiedRules(disk: Disk, rules: seq<Rule>, m: Match)
    requires Matches(disk, rules) != []
    ensures var matches := Matches(disk, rules);
      m in Tied(matches, MaxDepth(matches)) <==>
        exists r :: r in rules && Deepest(disk, rules, r) && disk.depth(r.path) == Some(m.depth) && r.ops == m.ops
  {
    var matches := Matches(disk, rules);
    TiedMeans(matches, MaxDepth(matches), m);
    MatchesMean(disk, rules, m);
    forall r | r in rules
      ensures Deepest(disk, rules, r) <==> disk.depth(r.path).Some? && disk.depth(r.path).value == MaxDepth(matches)
    {
      TiedAreDeepest(disk, rules, r);
    }
  }

  /** The operations computed are exactly those the rules allow. */
  lemma FileOpsMean(disk: Disk, rules: seq<Rule>, op: Op)
    ensures op in FileOps(disk, rules) <==> Allowed(disk, rules, op)
  {
    OpsAtMean(disk, rules, op);
  }

  lemma OpsAtMean(disk: Disk, rules: seq<Rule>, op: Op)
    ensures op in OpsAt(disk, rules) <==>
      && (forall r :: r in rules && Deepest(disk, rules, r) ==> r.ops != [])
      && exists r :: r in rules && Deepest(disk, rules, r) && op in r.ops
  {
    var matches := Matches(disk, rules);
    if matches == [] {
      forall r | r in rules ensures !Deepest(disk, rules, r) {
        TiedAreDeepest(disk, rules, r);
      }
    } else {
      var tied := Tied(matches, MaxDepth(matches));
      InOrderElements(OpsOf(tied), op);
      OpsOfMean(tied, op);
      forall r | r in rules && Deepest(disk, rules, r) ensures Match(disk.depth(r.path).value, r.ops) in tied {
        TiedRules(disk, rules, Match(disk.depth(r.path).value, r.ops));
      }
      forall m | m in tied ensures exists r :: r in rules && Deepest(disk, rules, r) && r.ops == m.ops {
        TiedRules(disk, rules, m);
      }
    }
  }

  /** And under the union of the rules they are the same list. */
  lemma MergedKeepsFileOps(disk: Disk, rules: seq<Rule>)
    requires RulesOk(rules)
    ensures FileOps(disk, MergedRules(rules)) == FileOps(disk, rules)
  {
    var a, b := FileOps(disk, MergedRules(rules)), FileOps(disk, rules);
    forall op ensures op in a <==> op in b {
      FileOpsMean(disk, MergedRules(rules), op);
      FileOpsMean(disk, rules, op);
      MergedKeepsRights(disk, rules, op);
    }
    FileOpsInOrder(disk, MergedRules(rules));
    FileOpsInOrder(disk, rules);
    SameInOrder(a, b);
  }

  lemma FileOpsInOrder(disk: Disk, rules: seq<Rule>)
    ensures InOrder(FileOps(disk, rules)) == FileOps(disk, rules)
  {
    var matches := Matches(disk, rules);
    if matches != [] {
      InOrderTwice(OpsOf(Tied(matches, MaxDepth(matches))));
    }
  }

  // ---------------------------------------------------------------------------
  // The order of the union

  function Rank(op: Op): nat {
    match op case Read => 0 case Write => 1 case Edit => 2 case Delete => 3
  }

  /** Operations are listed once each, as read, write, edit, delete. */
  lemma InOrderMeans(ops: seq<Op>)
    ensures var listed := InOrder(ops);
      && (forall i, j :: 0 <= i < j < |listed| ==> Rank(listed[i]) < Rank(listed[j]))
      && (forall op :: op in listed <==> op in ops)
  {
    forall op ensures op in InOrder(ops) <==> op in ops {
      InOrderElements(ops, op);
    }
  }

  /** The union is sorted by key, each key once, and each rule's operations are in order. */
  lemma MergedInOrder(rules: seq<Rule>)
    ensures var merged := MergedRules(rules);
      && (forall i, j :: 0 <= i < j < |merged| ==> Less(KeyOf(merged[i]), KeyOf(merged[j])))
      && (forall r :: r in merged ==> InOrder(r.ops) == r.ops)
  {
    KeysAreKeyed(rules);
    KeyedElements(rules);
    var keys, merged := SortNames(KeysOf(rules)), MergedRules(rules);
    PickedElements(Keyed(rules), keys);
    forall r | r in merged ensures InOrder(r.ops) == r.ops {
      MergedElements(rules, r);
      var t :| t in rules && Normalized(t) == r;
      InOrderTwice(t.ops);
    }
    forall i | 0 <= i < |merged| ensures KeyOf(merged[i]) == keys[i] {
      assert keys[i] in keys;
    }
  }
}
