/**
 * What an agent may use (src/agents/effective.ts, src/agents/scope.ts, src/policy/match.ts): its own
 * grants widened by its groups', and the scope derived from them.
 */
module Grants {
  import opened Ordered
  import opened PathRules
  import opened ResourceMatch
  import opened SortedNames

  /** `'*'`, or the listed patterns. */
  datatype Patterns = All | Listed(names: seq<string>)

  datatype Grant = Grant(tools: Patterns, resources: Option<Patterns>, prompts: Option<Patterns>,
      paths: Option<seq<Rule>>)

  datatype Agent = Agent(name: string, revokedAt: Option<string>, grants: map<string, Grant>)

  datatype Group = Group(name: string, members: seq<string>, grants: map<string, Grant>)

  datatype Field = Tools | Resources | Prompts

  function FieldOf(g: Grant, f: Field): Option<Patterns> {
    match f
    case Tools => Some(g.tools)
    case Resources => g.resources
    case Prompts => g.prompts
  }

  // ---------------------------------------------------------------------------
  // Merging

  /** `y` is listed by one of `values`. */
  predicate ListedIn(values: seq<Patterns>, y: string) {
    exists i :: 0 <= i < |values| && values[i].Listed? && y in values[i].names
  }

  function NamesOf(values: seq<Patterns>): seq<string> {
    if values == [] then []
    else (if values[0].Listed? then values[0].names else []) + NamesOf(values[1..])
  }

  /** `unionValues`: `'*'` absorbs, otherwise the names sorted and deduplicated. */
  function Union(values: seq<Patterns>): Patterns {
    if All in values then All else Listed(SortNames(NamesOf(values)))
  }

  lemma {:induction false} NamesOfListed(values: seq<Patterns>, y: string)
    ensures y in NamesOf(values) <==> ListedIn(values, y)
    decreases |values|
  {
    if values != [] {
      NamesOfListed(values[1..], y);
      assert values == [values[0]] + values[1..];
      if ListedIn(values[1..], y) {
        var i :| 0 <= i < |values[1..]| && values[1..][i].Listed? && y in values[1..][i].names;
        assert values[i + 1].Listed? && y in values[i + 1].names;
      }
      if ListedIn(values, y) {
        var i :| 0 <= i < |values| && values[i].Listed? && y in values[i].names;
        assert i > 0 ==> values[1..][i - 1] == values[i];
      }
    }
  }

  method UnionValues(values: seq<Patterns>) returns (r: Patterns)
    ensures r == Union(values)
  {
    var names: seq<string> := [];
    for i := 0 to |values|
      invariant All !in values[..i]
      invariant forall y :: y in names <==> ListedIn(values[..i], y)
    {
      assert values[..i + 1] == values[..i] + [values[i]];
      if values[i] == All {
        assert values[i] in values;
        return All;
      }
      ghost var before := names;
      for j := 0 to |values[i].names|
        invariant forall y :: y in names <==> y in before || y in values[i].names[..j]
      {
        var x := values[i].names[j];
        assert values[i].names[..j + 1] == values[i].names[..j] + [x];
        if x !in names {
          names := names + [x];
        }
      }
      assert values[i].names[..|values[i].names|] == values[i].names;
      forall y ensures y in names <==> ListedIn(values[..i + 1], y) {
        ListedInAppend(values[..i], values[i], y);
      }
    }
    assert values[..|values|] == values;
    SortNamesSorted(names);
    SortNamesSorted(NamesOf(values));
    forall y ensures y in SortNames(names) <==> y in SortNames(NamesOf(values)) {
      NamesOfListed(values, y);
    }
    SortedUnique(SortNames(names), SortNames(NamesOf(values)));
    r := Listed(SortNames(names));
  }

  lemma ListedInAppend(values: seq<Patterns>, v: Patterns, y: string)
    ensures ListedIn(values + [v], y) <==> ListedIn(values, y) || (v.Listed? && y in v.names)
  {
    var all := values + [v];
    if ListedIn(values, y) {
      var i :| 0 <= i < |values| && values[i].Listed? && y in values[i].names;
      assert all[i] == values[i];
    }
    if v.Listed? && y in v.names {
      assert all[|values|] == v;
    }
  }

  /** The values of a field that are declared. */
  function Declared(grants: seq<Grant>, f: Field): seq<Patterns> {
    if grants == [] then []
    else
      var v := FieldOf(grants[0], f);
      (if v.Some? then [v.value] else []) + Declared(grants[1..], f)
  }

  function UnionOptional(grants: seq<Grant>, f: Field): Option<Patterns> {
    var declared := Declared(grants, f);
    if declared == [] then None else Some(Union(declared))
  }

  /** The folder rules of the grants, in order. */
  function AllPaths(grants: seq<Grant>): seq<Rule> {
    if grants == [] then [] else PathsOf(grants[0]) + AllPaths(grants[1..])
  }

  function PathsOf(g: Grant): seq<Rule> {
    if g.paths.Some? then g.paths.value else []
  }

  predicate DeclaresPaths(grants: seq<Grant>) {
    exists i :: 0 <= i < |grants| && grants[i].paths.Some?
  }

  /** `unionPaths` */
  function UnionPaths(grants: seq<Grant>): Option<seq<Rule>> {
    if DeclaresPaths(grants) then Some(MergedRules(AllPaths(grants))) else None
  }

  function MergeGrants(grants: seq<Grant>): Grant {
    Grant(Union(Declared(grants, Tools)), UnionOptional(grants, Resources), UnionOptional(grants, Prompts),
        UnionPaths(grants))
  }

  /** The grants for `server` of the groups `agent` is a member of, in input order. */
  function GroupGrants(agent: string, groups: seq<Group>, server: string): seq<Grant> {
    if groups == [] then []
    else
      (if agent in groups[0].members && server in groups[0].grants then [groups[0].grants[server]] else [])
      + GroupGrants(agent, groups[1..], server)
  }

  /** The names of the groups behind those grants. */
  function Contributors(agent: string, groups: seq<Group>, server: string): seq<string> {
    if groups == [] then []
    else
      (if agent in groups[0].members && server in groups[0].grants then [groups[0].name] else [])
      + Contributors(agent, groups[1..], server)
  }

  /** The servers the agent's groups grant. */
  function GroupServers(agent: string, groups: seq<Group>): set<string> {
    set i, server | 0 <= i < |groups| && agent in groups[i].members && server in groups[i].grants :: server
  }

  /** `effectiveGrantsOf`: per server the personal grant, or else the groups' merged. */
  function EffectiveGrants(agent: Agent, groups: seq<Group>): map<string, Grant> {
    map server | server in agent.grants.Keys + GroupServers(agent.name, groups) ::
      if server in agent.grants then agent.grants[server] else MergeGrants(GroupGrants(agent.name, groups, server))
  }

  /** Where a server's grant came from. */
  datatype Source = OwnGrant(shadowedGroups: seq<string>) | FromGroups(groups: seq<string>)

  function Sources(agent: Agent, groups: seq<Group>): map<string, Source> {
    map server | server in agent.grants.Keys + GroupServers(agent.name, groups) ::
      var names := Contributors(agent.name, groups, server);
      if server in agent.grants then OwnGrant(names) else FromGroups(names)
  }

  lemma {:induction false} GrantsAppend(agent: string, groups: seq<Group>, last: Group, server: string)
    ensures GroupGrants(agent, groups + [last], server)
         == GroupGrants(agent, groups, server)
             + (if agent in last.members && server in last.grants then [last.grants[server]] else [])
    decreases |groups|
  {
    var all := groups + [last];
    if groups == [] {
      assert all[1..] == [];
    } else {
      GrantsAppend(agent, groups[1..], last, server);
      var more := if agent in last.members && server in last.grants then [last.grants[server]] else [];
      var first := if agent in groups[0].members && server in groups[0].grants then [groups[0].grants[server]] else [];
      assert all[0] == groups[0] && all[1..] == groups[1..] + [last];
      assert first + (GroupGrants(agent, groups[1..], server) + more)
          == first + GroupGrants(agent, groups[1..], server) + more;
    }
  }

  lemma {:induction false} ContributorsAppend(agent: string, groups: seq<Group>, last: Group, server: string)
    ensures Contributors(agent, groups + [last], server)
         == Contributors(agent, groups, server)
             + (if agent in last.members && server in last.grants then [last.name] else [])
    decreases |groups|
  {
    var all := groups + [last];
    if groups == [] {
      assert all[1..] == [];
    } else {
      assert all[1..] == groups[1..] + [last];
      ContributorsAppend(agent, groups[1..], last, server);
    }
  }

  lemma GroupGrantsAppend(agent: string, groups: seq<Group>, last: Group, server: string)
    ensures GroupGrants(agent, groups + [last], server)
         == GroupGrants(agent, groups, server)
             + (if agent in last.members && server in last.grants then [last.grants[server]] else [])
    ensures Contributors(agent, groups + [last], server)
         == Contributors(agent, groups, server)
             + (if agent in last.members && server in last.grants then [last.name] else [])
  {
    GrantsAppend(agent, groups, last, server);
    ContributorsAppend(agent, groups, last, server);
  }

  /** A server no member group grants has no group grants to merge. */
  lemma {:induction false} NoGroupGrants(agent: string, groups: seq<Group>, server: string)
    requires server !in GroupServers(agent, groups)
    ensures GroupGrants(agent, groups, server) == [] && Contributors(agent, groups, server) == []
    decreases |groups|
  {
    if groups != [] {
      assert groups == [groups[0]] + groups[1..];
      forall i | 0 <= i < |groups[1..]| && agent in groups[1..][i].members ensures server !in groups[1..][i].grants {
        assert groups[i + 1] == groups[1..][i];
      }
      NoGroupGrants(agent, groups[1..], server);
    }
  }

  /** What the walk over the groups gathers for one server. */
  datatype Contribution = Contribution(groups: seq<string>, grants: seq<Grant>)
  {
    function Plus(c: Contribution): Contribution {
      Contribution(groups + c.groups, grants + c.grants)
    }
  }

  const NOTHING := Contribution([], [])

  function ContributionOf(agent: string, groups: seq<Group>, server: string): Contribution {
    Contribution(Contributors(agent, groups, server), GroupGrants(agent, groups, server))
  }

  /** What `byServer` holds once `groups` have been walked. */
  ghost predicate Collected(byServer: map<string, Contribution>, agent: string, groups: seq<Group>) {
    && byServer.Keys == GroupServers(agent, groups)
    && forall server :: server in byServer ==> byServer[server] == ContributionOf(agent, groups, server)
  }

  lemma CollectedSkip(byServer: map<string, Contribution>, agent: string, groups: seq<Group>, last: Group)
    requires Collected(byServer, agent, groups) && agent !in last.members
    ensures Collected(byServer, agent, groups + [last])
  {
    ServersAppend(agent, groups, last);
    forall server | server in byServer ensures byServer[server] == ContributionOf(agent, groups + [last], server) {
      GroupGrantsAppend(agent, groups, last, server);
    }
  }

  lemma ServersAppend(agent: string, groups: seq<Group>, last: Group)
    ensures GroupServers(agent, groups + [last]) == GroupServers(agent, groups)
        + (if agent in last.members then last.grants.Keys else {})
  {
    var all := groups + [last];
    forall server | server in GroupServers(agent, groups) ensures server in GroupServers(agent, all) {
      var i :| 0 <= i < |groups| && agent in groups[i].members && server in groups[i].grants;
      assert agent in all[i].members && server in all[i].grants;
    }
    forall server | agent in last.members && server in last.grants ensures server in GroupServers(agent, all) {
      assert agent in all[|groups|].members && server in all[|groups|].grants;
    }
  }

  /** The group's grants added to `before`, each under its server. */
  ghost predicate Appended(before: map<string, Contribution>, name: string, grants: map<string, Grant>,
                           after: map<string, Contribution>) {
    && after.Keys == before.Keys + grants.Keys
    && forall server :: server in after ==> after[server] == EntryOf(before, server).Plus(Single(name, grants, server))
  }

  function EntryOf(byServer: map<string, Contribution>, server: string): Contribution {
    if server in byServer then byServer[server] else NOTHING
  }

  function Single(name: string, grants: map<string, Grant>, server: string): Contribution {
    if server in grants then Contribution([name], [grants[server]]) else NOTHING
  }

  lemma CollectedNext(before: map<string, Contribution>, agent: string, groups: seq<Group>, last: Group,
                      after: map<string, Contribution>)
    requires Collected(before, agent, groups) && agent in last.members
    requires Appended(before, last.name, last.grants, after)
    ensures Collected(after, agent, groups + [last])
  {
    ServersAppend(agent, groups, last);
    forall server | server in after ensures after[server] == ContributionOf(agent, groups + [last], server) {
      GroupGrantsAppend(agent, groups, last, server);
      if server !in before {
        NoGroupGrants(agent, groups, server);
      }
    }
  }

  lemma AppendedOneMore(before: map<string, Contribution>, name: string, grants: map<string, Grant>, server: string,
                        grant: Grant, after: map<string, Contribution>)
    requires Appended(before, name, grants, after) && server !in grants
    ensures Appended(before, name, grants[server := grant],
        after[server := EntryOf(after, server).Plus(Contribution([name], [grant]))])
  {
    assert server in before ==> after[server] == before[server].Plus(NOTHING) == before[server];
    var after' := after[server := EntryOf(after, server).Plus(Contribution([name], [grant]))];
    assert after'.Keys == before.Keys + grants[server := grant].Keys;
  }

  lemma AppendedOneOfMore(before: map<string, Contribution>, name: string, grants: map<string, Grant>,
                          left: set<string>, server: string, after: map<string, Contribution>)
    requires Appended(before, name, grants - left, after) && server in left && left <= grants.Keys
    ensures Appended(before, name, grants - (left - {server}),
        after[server := EntryOf(after, server).Plus(Contribution([name], [grants[server]]))])
  {
    AppendedOneMore(before, name, grants - left, server, grants[server], after);
    assert (grants - left)[server := grants[server]] == grants - (left - {server});
  }

  method AppendGrants(before: map<string, Contribution>, name: string, grants: map<string, Grant>)
    returns (after: map<string, Contribution>)
    ensures Appended(before, name, grants, after)
  {
    after := before;
    var left := grants.Keys;
    while left != {}
      invariant left <= grants.Keys
      invariant Appended(before, name, grants - left, after)
      decreases |left|
    {
      var server :| server in left;
      AppendedOneOfMore(before, name, grants, left, server, after);
      after := after[server := EntryOf(after, server).Plus(Contribution([name], [grants[server]]))];
      left := left - {server};
    }
    assert grants - {} == grants;
  }

  method CollectGroupGrants(agent: string, groups: seq<Group>) returns (byServer: map<string, Contribution>)
    ensures Collected(byServer, agent, groups)
  {
    byServer := map[];
    for i := 0 to |groups|
      invariant Collected(byServer, agent, groups[..i])
    {
      assert groups[..i + 1] == groups[..i] + [groups[i]];
      if agent in groups[i].members {
        ghost var before := byServer;
        byServer := AppendGrants(byServer, groups[i].name, groups[i].grants);
        CollectedNext(before, agent, groups[..i], groups[i], byServer);
      } else {
        CollectedSkip(byServer, agent, groups[..i], groups[i]);
      }
    }
    assert groups[..|groups|] == groups;
  }

  /** The merged group grants of the servers the agent has no personal grant for, and the groups behind them. */
  method InheritedGrants(personal: set<string>, byServer: map<string, Contribution>)
    returns (inherited: map<string, Grant>, sources: map<string, Source>)
    ensures inherited == map server | server in byServer && server !in personal :: MergeGrants(byServer[server].grants)
    ensures sources == map server | server in byServer && server !in personal :: FromGroups(byServer[server].groups)
  {
    inherited, sources := map[], map[];
    var left := byServer.Keys;
    while left != {}
      invariant left <= byServer.Keys
      invariant inherited.Keys == sources.Keys == byServer.Keys - left - personal
      invariant forall server :: server in inherited ==> inherited[server] == MergeGrants(byServer[server].grants)
      invariant forall server :: server in sources ==> sources[server] == FromGroups(byServer[server].groups)
      decreases |left|
    {
      var server :| server in left;
      left := left - {server};
      if server !in personal {
        inherited := inherited[server := MergeGrants(byServer[server].grants)];
        sources := sources[server := FromGroups(byServer[server].groups)];
      }
    }
  }

  /** The personal grants, with the groups each of them shadows. */
  method OwnSources(personal: set<string>, byServer: map<string, Contribution>) returns (sources: map<string, Source>)
    ensures sources == map server | server in personal :: OwnGrant(EntryOf(byServer, server).groups)
  {
    sources := map[];
    var left := personal;
    while left != {}
      invariant left <= personal && sources.Keys == personal - left
      invariant forall server :: server in sources ==> sources[server] == OwnGrant(EntryOf(byServer, server).groups)
      decreases |left|
    {
      var server :| server in left;
      left := left - {server};
      sources := sources[server := OwnGrant(EntryOf(byServer, server).groups)];
    }
  }

  method EffectiveGrantsOf(agent: Agent, groups: seq<Group>)
    returns (grants: map<string, Grant>, sources: map<string, Source>)
    ensures grants == EffectiveGrants(agent, groups)
    ensures sources == Sources(agent, groups)
  {
    var byServer := CollectGroupGrants(agent.name, groups);
    var own := OwnSources(agent.grants.Keys, byServer);
    var inherited, fromGroups := InheritedGrants(agent.grants.Keys, byServer);
    grants, sources := agent.grants + inherited, own + fromGroups;
    EffectiveByServer(agent, groups, byServer);
    SourcesByServer(agent, groups, byServer);
  }

  lemma EffectiveByServer(agent: Agent, groups: seq<Group>, byServer: map<string, Contribution>)
    requires Collected(byServer, agent.name, groups)
    ensures EffectiveGrants(agent, groups)
         == agent.grants + map server | server in byServer && server !in agent.grants.Keys ::
             MergeGrants(byServer[server].grants)
  {
  }

  lemma SourcesByServer(agent: Agent, groups: seq<Group>, byServer: map<string, Contribution>)
    requires Collected(byServer, agent.name, groups)
    ensures Sources(agent, groups)
         == (map server | server in agent.grants.Keys :: OwnGrant(EntryOf(byServer, server).groups))
            + (map server | server in byServer && server !in agent.grants.Keys :: FromGroups(byServer[server].groups))
  {
    forall server | server in agent.grants && server !in byServer
      ensures Contributors(agent.name, groups, server) == []
    {
      NoGroupGrants(agent.name, groups, server);
    }
  }

  function Materialize(agent: Agent, groups: seq<Group>): Agent {
    agent.(grants := EffectiveGrants(agent, groups))
  }

  // ---------------------------------------------------------------------------
  // The scope

  /** Whether a rule list covers a name: it lists it, or lists a prefix of it ending in `*`. */
  predicate NamesCover(names: seq<string>, subject: string) {
    subject in names || exists i :: 0 <= i < |names| && GlobCovers(names[i], subject)
  }

  predicate GlobCovers(pattern: string, subject: string) {
    EndsWith(pattern, '*') && pattern[..|pattern| - 1] <= subject
  }

  /** `matchToolRule`: the name itself if it is listed, otherwise a longest prefix that covers it. */
  method MatchToolRule(names: seq<string>, subject: string) returns (best: Option<string>)
    ensures best.Some? <==> NamesCover(names, subject)
    ensures subject in names ==> best == Some(subject)
    ensures best.Some? && subject !in names ==>
      && best.value in names && GlobCovers(best.value, subject)
      && forall n | n in names && GlobCovers(n, subject) :: |n| <= |best.value|
  {
    if subject in names {
      return Some(subject);
    }
    best := None;
    for i := 0 to |names|
      invariant best.None? ==> forall k :: 0 <= k < i ==> !GlobCovers(names[k], subject)
      invariant best.Some? ==>
        && best.value in names && GlobCovers(best.value, subject)
        && forall k :: 0 <= k < i && GlobCovers(names[k], subject) ==> |names[k]| <= |best.value|
    {
      if GlobCovers(names[i], subject) && (best.None? || |names[i]| > |best.value|) {
        best := Some(names[i]);
      }
    }
  }

  datatype Rules = AllRules | NoRules | RuleList(names: seq<string>)

  function ResolveRules(agent: Agent, server: string, f: Field): Rules {
    if agent.revokedAt.Some? || server !in agent.grants then NoRules
    else
      match FieldOf(agent.grants[server], f)
      case None => NoRules
      case Some(All) => AllRules
      case Some(Listed(names)) => if names == [] then NoRules else RuleList(names)
  }

  /** `agentScope`: whether the agent may use `subject` of `server`. */
  predicate IsGranted(pf: Platform, agent: Agent, server: string, f: Field, subject: string) {
    match ResolveRules(agent, server, f)
    case AllRules => true
    case NoRules => false
    case RuleList(names) => if f == Resources then UriGranted(pf, names, subject) else NamesCover(names, subject)
  }

  // ---------------------------------------------------------------------------
  // Merging preserves meaning

  /** What a list of patterns covers. */
  predicate PatternsCover(pf: Platform, p: Patterns, f: Field, subject: string) {
    match p
    case All => true
    case Listed(names) => if f == Resources then UriGranted(pf, names, subject) else NamesCover(names, subject)
  }

  /** What a grant covers; an absent field covers nothing. */
  predicate GrantCovers(pf: Platform, g: Grant, f: Field, subject: string) {
    FieldOf(g, f).Some? && PatternsCover(pf, FieldOf(g, f).value, f, subject)
  }

  /** Some group of the agent's has a grant for `server` that covers `subject`. */
  predicate SomeGroupCovers(pf: Platform, agent: string, groups: seq<Group>, server: string, f: Field,
                            subject: string) {
    exists i :: 0 <= i < |groups| && GroupCovers(pf, agent, groups[i], server, f, subject)
  }

  predicate GroupCovers(pf: Platform, agent: string, g: Group, server: string, f: Field, subject: string) {
    agent in g.members && server in g.grants && GrantCovers(pf, g.grants[server], f, subject)
  }

  predicate SomePatternsCover(pf: Platform, values: seq<Patterns>, f: Field, subject: string) {
    exists i :: 0 <= i < |values| && PatternsCover(pf, values[i], f, subject)
  }

  predicate SomeGrantCovers(pf: Platform, grants: seq<Grant>, f: Field, subject: string) {
    exists i :: 0 <= i < |grants| && GrantCovers(pf, grants[i], f, subject)
  }

  /** Whether one listed pattern covers a subject. */
  predicate OneCovers(pf: Platform, name: string, f: Field, subject: string) {
    if f == Resources then PatternMatches(pf, name, subject) else name == subject || GlobCovers(name, subject)
  }

  lemma ListCovers(pf: Platform, names: seq<string>, f: Field, subject: string)
    ensures PatternsCover(pf, Listed(names), f, subject) <==> exists n :: n in names && OneCovers(pf, n, f, subject)
  {
    if PatternsCover(pf, Listed(names), f, subject) {
      if f == Resources {
        var i :| 0 <= i < |names| && PatternMatches(pf, names[i], subject);
        assert names[i] in names && OneCovers(pf, names[i], f, subject);
      } else if subject !in names {
        var i :| 0 <= i < |names| && GlobCovers(names[i], subject);
        assert names[i] in names && OneCovers(pf, names[i], f, subject);
      } else {
        assert OneCovers(pf, subject, f, subject);
      }
    }
    if n :| n in names && OneCovers(pf, n, f, subject) {
      var i :| 0 <= i < |names| && names[i] == n;
      assert f == Resources ==> PatternMatches(pf, names[i], subject);
      assert f != Resources && n != subject ==> GlobCovers(names[i], subject);
    }
  }

  /** A union covers exactly what one of its values covers. */
  lemma UnionCovers(pf: Platform, values: seq<Patterns>, f: Field, subject: string)
    ensures PatternsCover(pf, Union(values), f, subject)
       <==> SomePatternsCover(pf, values, f, subject)
  {
    if All in values {
      var i :| 0 <= i < |values| && values[i] == All;
      assert PatternsCover(pf, values[i], f, subject);
    } else {
      var names := SortNames(NamesOf(values));
      SortNamesSorted(NamesOf(values));
      ListCovers(pf, names, f, subject);
      if PatternsCover(pf, Union(values), f, subject) {
        var n :| n in names && OneCovers(pf, n, f, subject);
        NamesOfListed(values, n);
        var i :| 0 <= i < |values| && values[i].Listed? && n in values[i].names;
        ListCovers(pf, values[i].names, f, subject);
      }
      if i :| 0 <= i < |values| && PatternsCover(pf, values[i], f, subject) {
        assert values[i] in values;
        ListCovers(pf, values[i].names, f, subject);
        var n :| n in values[i].names && OneCovers(pf, n, f, subject);
        NamesOfListed(values, n);
      }
    }
  }

  lemma PatternsConcat(pf: Platform, a: seq<Patterns>, b: seq<Patterns>, f: Field, subject: string)
    ensures SomePatternsCover(pf, a + b, f, subject) <==>
        SomePatternsCover(pf, a, f, subject) || SomePatternsCover(pf, b, f, subject)
  {
    var all := a + b;
    if i :| 0 <= i < |all| && PatternsCover(pf, all[i], f, subject) {
      assert all[i] == if i < |a| then a[i] else b[i - |a|];
    }
    if i :| 0 <= i < |a| && PatternsCover(pf, a[i], f, subject) {
      assert all[i] == a[i];
    }
    if i :| 0 <= i < |b| && PatternsCover(pf, b[i], f, subject) {
      assert all[|a| + i] == b[i];
    }
  }

  lemma GrantsConcat(pf: Platform, a: seq<Grant>, b: seq<Grant>, f: Field, subject: string)
    ensures SomeGrantCovers(pf, a + b, f, subject) <==>
        SomeGrantCovers(pf, a, f, subject) || SomeGrantCovers(pf, b, f, subject)
  {
    var all := a + b;
    if i :| 0 <= i < |all| && GrantCovers(pf, all[i], f, subject) {
      assert all[i] == if i < |a| then a[i] else b[i - |a|];
    }
    if i :| 0 <= i < |a| && GrantCovers(pf, a[i], f, subject) {
      assert all[i] == a[i];
    }
    if i :| 0 <= i < |b| && GrantCovers(pf, b[i], f, subject) {
      assert all[|a| + i] == b[i];
    }
  }

  lemma OneGrant(pf: Platform, g: Grant, f: Field, subject: string)
    ensures SomeGrantCovers(pf, [g], f, subject) <==> GrantCovers(pf, g, f, subject)
    ensures SomePatternsCover(pf, Declared([g], f), f, subject) <==> GrantCovers(pf, g, f, subject)
  {
    assert [g][0] == g;
    assert Declared([g][1..], f) == [];
    var declared := Declared([g], f);
    if FieldOf(g, f).Some? {
      assert declared == [FieldOf(g, f).value];
      assert PatternsCover(pf, declared[0], f, subject) <==> GrantCovers(pf, g, f, subject);
    } else {
      assert declared == [];
    }
  }

  lemma {:induction false} DeclaredCovers(pf: Platform, grants: seq<Grant>, f: Field, subject: string)
    ensures SomePatternsCover(pf, Declared(grants, f), f, subject)
       <==> SomeGrantCovers(pf, grants, f, subject)
    decreases |grants|
  {
    if grants != [] {
      var first, rest := [grants[0]], grants[1..];
      DeclaredCovers(pf, rest, f, subject);
      OneGrant(pf, grants[0], f, subject);
      assert grants == first + rest;
      GrantsConcat(pf, first, rest, f, subject);
      assert Declared(first[1..], f) == [];
      assert Declared(grants, f) == Declared(first, f) + Declared(rest, f);
      PatternsConcat(pf, Declared(first, f), Declared(rest, f), f, subject);
    }
  }

  /** A field no grant declares stays absent from the merged one, and one that some grant declares is there. */
  lemma AbsentStaysAbsent(grants: seq<Grant>)
    ensures MergeGrants(grants).resources.Some? <==> exists g :: g in grants && g.resources.Some?
    ensures MergeGrants(grants).prompts.Some? <==> exists g :: g in grants && g.prompts.Some?
    ensures MergeGrants(grants).paths.Some? <==> exists g :: g in grants && g.paths.Some?
  {
    DeclaredSome(grants, Resources);
    DeclaredSome(grants, Prompts);
    if g :| g in grants && g.paths.Some? {
      var i :| 0 <= i < |grants| && grants[i] == g;
      assert grants[i].paths.Some?;
    }
  }

  lemma {:induction false} DeclaredSome(grants: seq<Grant>, f: Field)
    ensures Declared(grants, f) != [] <==> exists g :: g in grants && FieldOf(g, f).Some?
    decreases |grants|
  {
    if grants != [] {
      DeclaredSome(grants[1..], f);
      assert grants == [grants[0]] + grants[1..];
    }
  }

  /** A merged grant covers exactly what one of the merged grants covers. */
  lemma MergeCovers(pf: Platform, grants: seq<Grant>, f: Field, subject: string)
    ensures GrantCovers(pf, MergeGrants(grants), f, subject) <==> SomeGrantCovers(pf, grants, f, subject)
  {
    DeclaredCovers(pf, grants, f, subject);
    UnionCovers(pf, Declared(grants, f), f, subject);
    if f == Tools && Declared(grants, f) == [] {
      assert Union([]) == Listed([]);
    }
  }

  lemma {:induction false} GroupGrantsCover(pf: Platform, agent: string, groups: seq<Group>, server: string, f: Field,
                                            subject: string)
    ensures SomeGrantCovers(pf, GroupGrants(agent, groups, server), f, subject)
       <==> SomeGroupCovers(pf, agent, groups, server, f, subject)
    decreases |groups|
  {
    if groups != [] {
      GroupGrantsCover(pf, agent, groups[1..], server, f, subject);
      FirstGroupCovers(pf, agent, groups, server, f, subject);
      if agent in groups[0].members && server in groups[0].grants {
        OneGrant(pf, groups[0].grants[server], f, subject);
        GrantsConcat(pf, [groups[0].grants[server]], GroupGrants(agent, groups[1..], server), f, subject);
      } else {
        assert GroupGrants(agent, groups, server) == GroupGrants(agent, groups[1..], server);
      }
    }
  }

  lemma FirstGroupCovers(pf: Platform, agent: string, groups: seq<Group>, server: string, f: Field, subject: string)
    requires groups != []
    ensures SomeGroupCovers(pf, agent, groups, server, f, subject)
       <==>
           || GroupCovers(pf, agent, groups[0], server, f, subject)
           || SomeGroupCovers(pf, agent, groups[1..], server, f, subject)
  {
    if SomeGroupCovers(pf, agent, groups[1..], server, f, subject) {
      var i :| 0 <= i < |groups[1..]| && GroupCovers(pf, agent, groups[1..][i], server, f, subject);
      assert groups[1..][i] == groups[i + 1];
    }
    if SomeGroupCovers(pf, agent, groups, server, f, subject) {
      var i :| 0 <= i < |groups| && GroupCovers(pf, agent, groups[i], server, f, subject);
      assert i > 0 ==> groups[1..][i - 1] == groups[i];
    }
  }

  /**
   * The scope of a materialized agent grants exactly: nothing once revoked; what the personal grant
   * for the server covers, when there is one; otherwise what some member group's grant covers.
   */
  lemma MergingPreservesMeaning(pf: Platform, agent: Agent, groups: seq<Group>, server: string, f: Field,
                                subject: string)
    ensures IsGranted(pf, Materialize(agent, groups), server, f, subject)
       <==> agent.revokedAt.None?
            && (if server in agent.grants then GrantCovers(pf, agent.grants[server], f, subject)
                else SomeGroupCovers(pf, agent.name, groups, server, f, subject))
  {
    if SomeGroupCovers(pf, agent.name, groups, server, f, subject) {
      var i :| 0 <= i < |groups| && GroupCovers(pf, agent.name, groups[i], server, f, subject);
      assert server in GroupServers(agent.name, groups);
    }
    if server in EffectiveGrants(agent, groups) {
      ScopeCovers(pf, Materialize(agent, groups), server, f, subject);
      if server !in agent.grants {
        MergeCovers(pf, GroupGrants(agent.name, groups, server), f, subject);
        GroupGrantsCover(pf, agent.name, groups, server, f, subject);
      }
    }
  }

  /** A tool or prompt falls under a list of names: it is one of them, or begins with what one has before its star. */
  predicate Falls(p: Patterns, subject: string) {
    p == All || exists n :: n in p.names && (n == subject || (n != "" && n[|n| - 1] == '*' && n[..|n| - 1] <= subject))
  }

  /** What one grant allows, field by field. */
  predicate Allows(pf: Platform, g: Grant, f: Field, subject: string) {
    match f
    case Tools => Falls(g.tools, subject)
    case Prompts => g.prompts.Some? && Falls(g.prompts.value, subject)
    case Resources =>
      && g.resources.Some?
      && (g.resources.value == All || exists n :: n in g.resources.value.names && PatternMatches(pf, n, subject))
  }

  lemma AllowsIsCovers(pf: Platform, g: Grant, f: Field, subject: string)
    ensures GrantCovers(pf, g, f, subject) <==> Allows(pf, g, f, subject)
  {
    var p := FieldOf(g, f);
    if p.Some? && p.value.Listed? {
      ListCovers(pf, p.value.names, f, subject);
    }
  }

  /**
   * An agent may use a tool, prompt or resource of a server, its groups taken in, exactly if it is not revoked
   * and its own grant for the server allows it, or, where it has none, that of one of the groups it is in.
   */
  lemma GrantedExactly(pf: Platform, agent: Agent, groups: seq<Group>, server: string, f: Field, subject: string)
    ensures IsGranted(pf, Materialize(agent, groups), server, f, subject) <==>
      && agent.revokedAt.None?
      && if server in agent.grants then Allows(pf, agent.grants[server], f, subject)
         else exists group :: group in groups && agent.name in group.members && server in group.grants
                && Allows(pf, group.grants[server], f, subject)
  {
    MergingPreservesMeaning(pf, agent, groups, server, f, subject);
    if server in agent.grants {
      AllowsIsCovers(pf, agent.grants[server], f, subject);
    } else {
      forall group | group in groups && server in group.grants
        ensures GrantCovers(pf, group.grants[server], f, subject) <==> Allows(pf, group.grants[server], f, subject)
      {
        AllowsIsCovers(pf, group.grants[server], f, subject);
      }
      if SomeGroupCovers(pf, agent.name, groups, server, f, subject) {
        var i :| 0 <= i < |groups| && GroupCovers(pf, agent.name, groups[i], server, f, subject);
        assert groups[i] in groups;
      }
      if group :|
        && group in groups && agent.name in group.members && server in group.grants
        && Allows(pf, group.grants[server], f, subject)
      {
        var i :| 0 <= i < |groups| && groups[i] == group;
        assert GroupCovers(pf, agent.name, groups[i], server, f, subject);
      }
    }
  }

  /** Sorted and without duplicates, a union lists what one of its values lists, and nothing is wider than all. */
  lemma UnionMeans(values: seq<Patterns>)
    ensures Union(values) == All <==> All in values
    ensures Union(values).Listed? ==>
      && Sorted(Union(values).names)
      && forall y :: y in Union(values).names <==> exists p :: p in values && p.Listed? && y in p.names
  {
    SortNamesSorted(NamesOf(values));
    forall y ensures ListedIn(values, y) <==> exists p :: p in values && p.Listed? && y in p.names {
      if p :| p in values && p.Listed? && y in p.names {
        var i :| 0 <= i < |values| && values[i] == p;
        assert values[i].Listed? && y in values[i].names;
      }
    }
    forall y ensures y in NamesOf(values) <==> ListedIn(values, y) {
      NamesOfListed(values, y);
    }
  }

  lemma ScopeCovers(pf: Platform, agent: Agent, server: string, f: Field, subject: string)
    requires server in agent.grants
    ensures IsGranted(pf, agent, server, f, subject) <==>
        agent.revokedAt.None? && GrantCovers(pf, agent.grants[server], f, subject)
  {
  }

  // ---------------------------------------------------------------------------
  // Order and repetition of groups

  ghost predicate SameElements<T>(a: seq<T>, b: seq<T>) {
    (forall x :: x in a ==> x in b) && (forall x :: x in b ==> x in a)
  }

  lemma UnionBySet(a: seq<Patterns>, b: seq<Patterns>)
    requires SameElements(a, b)
    ensures Union(a) == Union(b)
  {
    SortNamesSorted(NamesOf(a));
    SortNamesSorted(NamesOf(b));
    forall y ensures y in SortNames(NamesOf(a)) <==> y in SortNames(NamesOf(b)) {
      NamesOfListed(a, y);
      NamesOfListed(b, y);
      if ListedIn(a, y) {
        ListedBySet(a, b, y);
      }
      if ListedIn(b, y) {
        ListedBySet(b, a, y);
      }
    }
    SortedUnique(SortNames(NamesOf(a)), SortNames(NamesOf(b)));
  }

  lemma ListedBySet(a: seq<Patterns>, b: seq<Patterns>, y: string)
    requires SameElements(a, b) && ListedIn(a, y)
    ensures ListedIn(b, y)
  {
    var i :| 0 <= i < |a| && a[i].Listed? && y in a[i].names;
    assert a[i] in b;
  }

  lemma {:induction false} DeclaredElements(grants: seq<Grant>, f: Field, p: Patterns)
    ensures p in Declared(grants, f) <==> exists g :: g in grants && FieldOf(g, f) == Some(p)
    decreases |grants|
  {
    if grants != [] {
      DeclaredElements(grants[1..], f, p);
      assert grants == [grants[0]] + grants[1..];
    }
  }

  lemma {:induction false} GroupGrantElements(agent: string, groups: seq<Group>, server: string, g: Grant)
    ensures g in GroupGrants(agent, groups, server)
       <==> exists group ::
           group in groups && agent in group.members && server in group.grants && group.grants[server] == g
    decreases |groups|
  {
    if groups != [] {
      GroupGrantElements(agent, groups[1..], server, g);
      assert groups == [groups[0]] + groups[1..];
    }
  }

  /** The patterns of a merged grant do not depend on the order of the grants. */
  lemma MergeBySet(a: seq<Grant>, b: seq<Grant>)
    requires SameElements(a, b)
    ensures MergeGrants(a).(paths := None) == MergeGrants(b).(paths := None)
  {
    forall f: Field ensures SameElements(Declared(a, f), Declared(b, f)) {
      forall p ensures p in Declared(a, f) <==> p in Declared(b, f) {
        DeclaredElements(a, f, p);
        DeclaredElements(b, f, p);
      }
    }
    assert forall f ::
        && (Declared(a, f) != [] ==> Declared(a, f)[0] in Declared(a, f))
        && (Declared(b, f) != [] ==> Declared(b, f)[0] in Declared(b, f));
    assert Declared(a, Resources) == [] <==> Declared(b, Resources) == [];
    assert Declared(a, Prompts) == [] <==> Declared(b, Prompts) == [];
    UnionBySet(Declared(a, Tools), Declared(b, Tools));
    UnionBySet(Declared(a, Resources), Declared(b, Resources));
    UnionBySet(Declared(a, Prompts), Declared(b, Prompts));
  }

  /** Grants whose folder rules of one key are the same rule. */
  ghost predicate PathsAgree(grants: seq<Grant>) {
    forall g, h, k :: g in grants && h in grants && k in Keyed(PathsOf(g)) && k in Keyed(PathsOf(h))
      ==> Keyed(PathsOf(g))[k] == Keyed(PathsOf(h))[k]
  }

  /** The rule kept of a key is one that some grant's own rules keep. */
  lemma {:induction false} KeyedOfGrants(grants: seq<Grant>, k: string)
    ensures k in Keyed(AllPaths(grants)) <==> exists g :: g in grants && k in Keyed(PathsOf(g))
    ensures k in Keyed(AllPaths(grants)) ==>
      exists g :: g in grants && k in Keyed(PathsOf(g)) && Keyed(AllPaths(grants))[k] == Keyed(PathsOf(g))[k]
    decreases |grants|
  {
    if grants != [] {
      var rest := grants[1..];
      KeyedOfGrants(rest, k);
      KeyedConcat(PathsOf(grants[0]), AllPaths(rest));
      assert grants == [grants[0]] + rest;
      if k in Keyed(AllPaths(rest)) {
        var g :| g in rest && k in Keyed(PathsOf(g)) && Keyed(AllPaths(rest))[k] == Keyed(PathsOf(g))[k];
        assert g in grants;
      } else if k in Keyed(PathsOf(grants[0])) {
        assert grants[0] in grants;
      }
    }
  }

  lemma {:induction false} AllPathsAppend(grants: seq<Grant>, g: Grant)
    ensures AllPaths(grants + [g]) == AllPaths(grants) + PathsOf(g)
    decreases |grants|
  {
    if grants == [] {
      assert [g][1..] == [] && [] + [g] == [g];
    } else {
      assert (grants + [g])[1..] == grants[1..] + [g];
      AllPathsAppend(grants[1..], g);
    }
  }

  /** Grants that agree on their folder rules merge the same in every order. */
  lemma PathsBySet(a: seq<Grant>, b: seq<Grant>)
    requires SameElements(a, b) && PathsAgree(a)
    ensures UnionPaths(a) == UnionPaths(b)
  {
    forall k ensures k in Keyed(AllPaths(a)) <==> k in Keyed(AllPaths(b)) {
      KeyedOfGrants(a, k);
      KeyedOfGrants(b, k);
    }
    forall k | k in Keyed(AllPaths(a)) ensures Keyed(AllPaths(a))[k] == Keyed(AllPaths(b))[k] {
      KeyedOfGrants(a, k);
      KeyedOfGrants(b, k);
      var g :| g in a && k in Keyed(PathsOf(g)) && Keyed(AllPaths(a))[k] == Keyed(PathsOf(g))[k];
      var h :| h in b && k in Keyed(PathsOf(h)) && Keyed(AllPaths(b))[k] == Keyed(PathsOf(h))[k];
      assert h in a;
    }
    assert Keyed(AllPaths(a)) == Keyed(AllPaths(b));
    MergedByKeyed(AllPaths(a), AllPaths(b));
    if DeclaresPaths(a) {
      DeclaresBySet(a, b);
    }
    if DeclaresPaths(b) {
      DeclaresBySet(b, a);
    }
  }

  lemma DeclaresBySet(a: seq<Grant>, b: seq<Grant>)
    requires SameElements(a, b) && DeclaresPaths(a)
    ensures DeclaresPaths(b)
  {
    var i :| 0 <= i < |a| && a[i].paths.Some?;
    assert a[i] in b;
    var j :| 0 <= j < |b| && b[j] == a[i];
    assert b[j].paths.Some?;
  }

  ghost predicate SameInEveryOrder(agent: Agent, groups: seq<Group>) {
    forall groups': seq<Group> :: SameElements(groups, groups')
        ==> EffectiveGrants(agent, groups') == EffectiveGrants(agent, groups)
  }

  ghost predicate InheritedAgree(agent: Agent, groups: seq<Group>) {
    forall server :: server in GroupServers(agent.name, groups) && server !in agent.grants
      ==> PathsAgree(GroupGrants(agent.name, groups, server))
  }

  /**
   * The effective grants do not depend on the order or the repetition of the groups exactly when the groups
   * agree on the folder rules of every key, the device of a cut-out included, for each inherited server.
   */
  lemma GroupOrderDoesNotMatter(agent: Agent, groups: seq<Group>)
    ensures SameInEveryOrder(agent, groups) <==> InheritedAgree(agent, groups)
  {
    if InheritedAgree(agent, groups) {
      forall groups': seq<Group> | SameElements(groups, groups')
        ensures EffectiveGrants(agent, groups') == EffectiveGrants(agent, groups)
      {
        ReorderedIsSame(agent, groups, groups');
      }
    }
    if SameInEveryOrder(agent, groups) {
      forall server | server in GroupServers(agent.name, groups) && server !in agent.grants
        ensures PathsAgree(GroupGrants(agent.name, groups, server))
      {
        forall g, h, k | g in GroupGrants(agent.name, groups, server) && h in GroupGrants(agent.name, groups, server)
                         && k in Keyed(PathsOf(g)) && k in Keyed(PathsOf(h))
          ensures Keyed(PathsOf(g))[k] == Keyed(PathsOf(h))[k]
        {
          LastGrantDecides(agent, groups, server, g, k);
          LastGrantDecides(agent, groups, server, h, k);
        }
      }
    }
  }

  /** Whatever the folder rules: the patterns of every effective grant are the same in every order. */
  lemma ReorderedPatterns(agent: Agent, groups: seq<Group>, groups': seq<Group>)
    requires SameElements(groups, groups')
    ensures EffectiveGrants(agent, groups').Keys == EffectiveGrants(agent, groups).Keys
    ensures forall server :: server in EffectiveGrants(agent, groups) ==>
      EffectiveGrants(agent, groups')[server].(paths := None) == EffectiveGrants(agent, groups)[server].(paths := None)
  {
    ServersBySet(agent.name, groups, groups');
    ServersBySet(agent.name, groups', groups);
    forall server ensures MergeGrants(GroupGrants(agent.name, groups', server)).(paths := None)
                       == MergeGrants(GroupGrants(agent.name, groups, server)).(paths := None)
    {
      GroupGrantsBySet(agent.name, groups, groups', server);
      MergeBySet(GroupGrants(agent.name, groups', server), GroupGrants(agent.name, groups, server));
    }
  }

  lemma GroupGrantsBySet(agent: string, groups: seq<Group>, groups': seq<Group>, server: string)
    requires SameElements(groups, groups')
    ensures SameElements(GroupGrants(agent, groups, server), GroupGrants(agent, groups', server))
  {
    forall g ensures g in GroupGrants(agent, groups, server) <==> g in GroupGrants(agent, groups', server) {
      GroupGrantElements(agent, groups, server, g);
      GroupGrantElements(agent, groups', server, g);
    }
  }

  lemma ReorderedIsSame(agent: Agent, groups: seq<Group>, groups': seq<Group>)
    requires SameElements(groups, groups') && InheritedAgree(agent, groups)
    ensures EffectiveGrants(agent, groups') == EffectiveGrants(agent, groups)
  {
    ReorderedPatterns(agent, groups, groups');
    forall server | server in EffectiveGrants(agent, groups)
      ensures EffectiveGrants(agent, groups')[server] == EffectiveGrants(agent, groups)[server]
    {
      if server !in agent.grants {
        GroupGrantsBySet(agent.name, groups, groups', server);
        PathsBySet(GroupGrants(agent.name, groups, server), GroupGrants(agent.name, groups', server));
      }
    }
  }

  /** Put last, the group of grant `g` decides the rule of key `k`; when no order matters, it always does. */
  lemma LastGrantDecides(agent: Agent, groups: seq<Group>, server: string, g: Grant, k: string)
    requires SameInEveryOrder(agent, groups) && server in GroupServers(agent.name, groups) && server !in agent.grants
    requires g in GroupGrants(agent.name, groups, server) && k in Keyed(PathsOf(g))
    ensures var rules := AllPaths(GroupGrants(agent.name, groups, server));
      k in Keyed(rules) && Keyed(rules)[k] == Keyed(PathsOf(g))[k]
  {
    GroupGrantElements(agent.name, groups, server, g);
    var group :| group in groups && agent.name in group.members && server in group.grants && group.grants[server] == g;
    var a := GroupGrants(agent.name, groups, server);
    RepeatedGroup(agent, groups, server, group);
    LastPathsKept(a, g, k);
  }

  lemma RepeatedGroup(agent: Agent, groups: seq<Group>, server: string, group: Group)
    requires SameInEveryOrder(agent, groups) && server !in agent.grants
    requires group in groups && agent.name in group.members && server in group.grants
    ensures var a := GroupGrants(agent.name, groups, server); UnionPaths(a + [group.grants[server]]) == UnionPaths(a)
  {
    var groups' := groups + [group];
    assert SameElements(groups, groups');
    GroupGrantsAppend(agent.name, groups, group, server);
    InheritedPaths(agent, groups, server, group);
    InheritedPaths(agent, groups', server, group);
    assert EffectiveGrants(agent, groups') == EffectiveGrants(agent, groups);
  }

  lemma InheritedPaths(agent: Agent, groups: seq<Group>, server: string, group: Group)
    requires server !in agent.grants && group in groups && agent.name in group.members && server in group.grants
    ensures server in EffectiveGrants(agent, groups)
    ensures EffectiveGrants(agent, groups)[server].paths == UnionPaths(GroupGrants(agent.name, groups, server))
  {
    var i :| 0 <= i < |groups| && groups[i] == group;
    assert server in GroupServers(agent.name, groups);
  }

  lemma LastPathsKept(a: seq<Grant>, g: Grant, k: string)
    requires g in a && k in Keyed(PathsOf(g)) && UnionPaths(a + [g]) == UnionPaths(a)
    ensures k in Keyed(AllPaths(a)) && Keyed(AllPaths(a))[k] == Keyed(PathsOf(g))[k]
  {
    var b := a + [g];
    KeyedOfGrants(a, k);
    AllPathsAppend(a, g);
    KeyedConcat(AllPaths(a), PathsOf(g));
    assert b[|b| - 1] == g && g.paths.Some?;
    assert DeclaresPaths(b) && DeclaresPaths(a);
    SameMergedSameKeyed(AllPaths(a), AllPaths(b), k);
  }

  /** Of two cut-outs of one path and inode but of different devices, the group listed last decides which stays. */
  lemma LastCutOutStays(agent: Agent, g1: Group, g2: Group, server: string, a: Rule, b: Rule)
    requires agent.name in g1.members && agent.name in g2.members && server !in agent.grants
    requires server in g1.grants && g1.grants[server].paths == Some([a])
    requires server in g2.grants && g2.grants[server].paths == Some([b])
    requires a.ops == b.ops == [] && a.path == b.path && a.identity.Some? && b.identity.Some?
    requires a.identity.value.ino == b.identity.value.ino && a.identity.value.dev != b.identity.value.dev
    ensures server in EffectiveGrants(agent, [g1, g2]) && EffectiveGrants(agent, [g1, g2])[server].paths == Some([b])
    ensures !SameInEveryOrder(agent, [g1, g2])
  {
    LastOfTwo(agent, g1, g2, server, a, b);
    LastOfTwo(agent, g2, g1, server, b, a);
    assert [a][0] != [b][0];
    if SameInEveryOrder(agent, [g1, g2]) {
      Swapped(agent, g1, g2);
      assert false;
    }
  }

  lemma Swapped(agent: Agent, g1: Group, g2: Group)
    requires SameInEveryOrder(agent, [g1, g2])
    ensures EffectiveGrants(agent, [g2, g1]) == EffectiveGrants(agent, [g1, g2])
  {
    assert SameElements([g1, g2], [g2, g1]);
  }

  lemma LastOfTwo(agent: Agent, g1: Group, g2: Group, server: string, a: Rule, b: Rule)
    requires agent.name in g1.members && agent.name in g2.members && server !in agent.grants
    requires server in g1.grants && g1.grants[server].paths == Some([a])
    requires server in g2.grants && g2.grants[server].paths == Some([b])
    requires a.ops == b.ops == [] && KeyOf(a) == KeyOf(b)
    ensures server in EffectiveGrants(agent, [g1, g2]) && EffectiveGrants(agent, [g1, g2])[server].paths == Some([b])
  {
    var groups, grants := [g1, g2], [g1.grants[server], g2.grants[server]];
    assert groups[1..] == [g2] && groups[1..][1..] == [];
    assert GroupGrants(agent.name, [g2], server) == [g2.grants[server]];
    assert GroupGrants(agent.name, groups, server) == grants;
    assert agent.name in groups[0].members && server in groups[0].grants;
    assert grants[0].paths.Some? && grants[1..] == [g2.grants[server]] && grants[1..][1..] == [];
    assert AllPaths(grants[1..]) == [b] && AllPaths(grants) == [a, b];
    MergedPair(a, b);
  }

  /** A name is a source of a server exactly when a group of that name has the agent and grants the server. */
  lemma {:induction false} ContributorsMean(agent: string, groups: seq<Group>, server: string, name: string)
    ensures name in Contributors(agent, groups, server)
       <==> exists group :: group in groups && agent in group.members && server in group.grants && group.name == name
    decreases |groups|
  {
    if groups != [] {
      ContributorsMean(agent, groups[1..], server, name);
      assert groups == [groups[0]] + groups[1..];
    }
  }

  /**
   * Every effective grant has its source: the agent's own, or else groups, of which there is at least one;
   * and the groups named are those that grant the server, in either case.
   */
  lemma SourcesExplain(agent: Agent, groups: seq<Group>, server: string, name: string)
    ensures Sources(agent, groups).Keys == EffectiveGrants(agent, groups).Keys
    ensures server in Sources(agent, groups) ==>
      var source := Sources(agent, groups)[server];
      && (source.OwnGrant? <==> server in agent.grants)
      && (source.FromGroups? ==> source.groups != [])
      && (name in (if source.OwnGrant? then source.shadowedGroups else source.groups)
          <==> exists group ::
              group in groups && agent.name in group.members && server in group.grants && group.name == name)
  {
    ContributorsMean(agent.name, groups, server, name);
    if server in GroupServers(agent.name, groups) {
      var i :| 0 <= i < |groups| && agent.name in groups[i].members && server in groups[i].grants;
      ContributorsMean(agent.name, groups, server, groups[i].name);
      assert groups[i] in groups;
    }
  }

  /** File rights under an inherited grant are those of all the groups' folder rules taken together. */
  lemma InheritedRights(agent: Agent, groups: seq<Group>, server: string, disk: Disk, op: Op)
    requires server in GroupServers(agent.name, groups) && server !in agent.grants
    requires RulesOk(AllPaths(GroupGrants(agent.name, groups, server)))
    ensures Allowed(disk, PathsOf(EffectiveGrants(agent, groups)[server]), op)
       <==> Allowed(disk, AllPaths(GroupGrants(agent.name, groups, server)), op)
  {
    var grants := GroupGrants(agent.name, groups, server);
    if DeclaresPaths(grants) {
      MergedKeepsRights(disk, AllPaths(grants), op);
    } else {
      NoPaths(grants);
    }
  }

  lemma {:induction false} NoPaths(grants: seq<Grant>)
    requires !DeclaresPaths(grants)
    ensures AllPaths(grants) == []
    decreases |grants|
  {
    if grants != [] {
      assert grants[0].paths.None?;
      assert forall i :: 0 <= i < |grants[1..]| ==> grants[1..][i] == grants[i + 1];
      NoPaths(grants[1..]);
    }
  }

  lemma ServersBySet(agent: string, groups: seq<Group>, groups': seq<Group>)
    requires SameElements(groups, groups')
    ensures GroupServers(agent, groups) <= GroupServers(agent, groups')
  {
    forall server | server in GroupServers(agent, groups) ensures server in GroupServers(agent, groups') {
      var i :| 0 <= i < |groups| && agent in groups[i].members && server in groups[i].grants;
      assert groups[i] in groups';
      var j :| 0 <= j < |groups'| && groups'[j] == groups[i];
      assert agent in groups'[j].members && server in groups'[j].grants;
    }
  }

  /** Without a group that grants a server the agent lacks, the record stays as it is. */
  lemma NothingInherited(agent: Agent, groups: seq<Group>)
    requires GroupServers(agent.name, groups) <= agent.grants.Keys
    ensures Materialize(agent, groups) == agent
  {
  }
}
