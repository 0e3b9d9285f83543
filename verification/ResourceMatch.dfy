/**
 * How a resource URI is compared with a pattern (src/agents/resource-match.ts): the strings the
 * code compares, and the path segments they stand for.
 */
module ResourceMatch {
  import opened Ordered

  /** The parts the WHATWG `URL` parser returns. */
  datatype Url = Url(protocol: string, host: string, pathname: string, search: string, hash: string)

  /** The URL parser and `decodeURIComponent`; `None` where they throw. */
  datatype Platform = Platform(parse: string -> Option<Url>, decode: string -> Option<string>)

  // ---------------------------------------------------------------------------
  // Paths

  /** `path.split('/')`. */
  function Split(s: string): (parts: seq<string>)
    ensures parts != []
    ensures forall i :: 0 <= i < |parts| ==> '/' !in parts[i]
  {
    if s == "" then [""]
    else
      var rest := Split(s[1..]);
      if s[0] == '/' then [""] + rest else [[s[0]] + rest[0]] + rest[1..]
  }

  /** `parts.join('/')`. */
  function Join(parts: seq<string>): string
    requires parts != []
  {
    if |parts| == 1 then parts[0] else parts[0] + "/" + Join(parts[1..])
  }

  /** A decoded segment `decodePathOnce` refuses. */
  predicate Refused(segment: string) {
    segment == "." || segment == ".." || '/' in segment || '\\' in segment
  }

  function DecodeSegments(pf: Platform, segments: seq<string>): (r: Option<seq<string>>)
    ensures r.Some? ==> |r.value| == |segments|
    ensures r.Some? ==> forall i :: 0 <= i < |r.value| ==>
        pf.decode(segments[i]) == Some(r.value[i]) && !Refused(r.value[i])
  {
    if segments == [] then Some([])
    else
      var first := pf.decode(segments[0]);
      if first.None? || Refused(first.value) then None
      else
        var rest := DecodeSegments(pf, segments[1..]);
        if rest.None? then None else Some([first.value] + rest.value)
  }

  /** A URI taken apart: `opaque` when there is neither a host nor a leading slash. */
  datatype Parts = Parts(protocol: string, host: string, isOpaque: bool, segments: seq<string>, search: string,
      hash: string)

  predicate IsOpaque(u: Url) {
    u.host == "" && !("/" <= u.pathname)
  }

  function PartsOf(pf: Platform, raw: string): Option<Parts> {
    var url := pf.parse(raw);
    if url.None? then None
    else
      var segments := DecodeSegments(pf, Split(url.value.pathname));
      if segments.None? then None
      else Some(Parts(url.value.protocol, url.value.host, IsOpaque(url.value), segments.value, url.value.search,
          url.value.hash))
  }

  function Head(p: Parts): string {
    if p.isOpaque then p.protocol else p.protocol + "//" + p.host
  }

  /** `normalizeResourceUri`. */
  function Normalize(pf: Platform, raw: string): Option<string> {
    var p := PartsOf(pf, raw);
    if p.None? || p.value.segments == [] then None
    else Some(Head(p.value) + Join(p.value.segments) + p.value.search + p.value.hash)
  }

  /** What is left to decode, behind what is decoded already. */
  function Onward(decoded: seq<string>, rest: Option<seq<string>>): Option<seq<string>> {
    if rest.Some? then Some(decoded + rest.value) else None
  }

  lemma DecodeOne(pf: Platform, segments: seq<string>, decoded: seq<string>)
    requires segments != []
    ensures Onward(decoded, DecodeSegments(pf, segments)) ==
            var one := pf.decode(segments[0]);
            if one.None? || Refused(one.value) then None
            else Onward(decoded + [one.value], DecodeSegments(pf, segments[1..]))
  {
    var one, rest := pf.decode(segments[0]), DecodeSegments(pf, segments[1..]);
    if one.Some? && rest.Some? {
      assert decoded + ([one.value] + rest.value) == (decoded + [one.value]) + rest.value;
    }
  }

  /** `decodePathOnce`, as the loop that pushes one decoded segment after another. */
  method DecodePathOnce(pf: Platform, pathname: string) returns (path: Option<string>)
    ensures path == var d := DecodeSegments(pf, Split(pathname)); if d.Some? then Some(Join(d.value)) else None
  {
    var segments := Split(pathname);
    var decoded: seq<string> := [];
    assert segments[0..] == segments;
    assert forall rest: seq<string> :: decoded + rest == rest;
    for i := 0 to |segments|
      invariant |decoded| == i
      invariant DecodeSegments(pf, segments) == Onward(decoded, DecodeSegments(pf, segments[i..]))
    {
      assert segments[i..][1..] == segments[i + 1..];
      DecodeOne(pf, segments[i..], decoded);
      var one := pf.decode(segments[i]);
      if one.None? || Refused(one.value) {
        return None;
      }
      decoded := decoded + [one.value];
    }
    assert segments[|segments|..] == [] && decoded + [] == decoded;
    path := Some(Join(decoded));
  }

  // ---------------------------------------------------------------------------
  // Patterns

  datatype Compiled = Exact(value: string) | Prefix(exact: string, withSlash: string)

  predicate EndsWith(s: string, c: char) {
    s != "" && s[|s| - 1] == c
  }

  function CompilePattern(pf: Platform, pattern: string): Option<Compiled> {
    if !EndsWith(pattern, '*') then
      var value := Normalize(pf, pattern);
      if value.None? then None else Some(Exact(value.value))
    else
      var base := Normalize(pf, pattern[..|pattern| - 1]);
      if base.None? then None
      else
        var exact := if EndsWith(base.value, '/') then base.value[..|base.value| - 1] else base.value;
        Some(Prefix(exact, exact + "/"))
  }

  predicate CompiledMatches(c: Compiled, uri: string) {
    match c
    case Exact(value) => uri == value
    case Prefix(exact, withSlash) => uri == exact || withSlash <= uri
  }

  predicate PatternMatches(pf: Platform, pattern: string, uri: string) {
    && Normalize(pf, uri).Some? && CompilePattern(pf, pattern).Some?
    && CompiledMatches(CompilePattern(pf, pattern).value, Normalize(pf, uri).value)
  }

  /** `resourceUriMatcher`: granted by some pattern of the list. */
  predicate UriGranted(pf: Platform, patterns: seq<string>, uri: string) {
    exists i :: 0 <= i < |patterns| && PatternMatches(pf, patterns[i], uri)
  }

  // ---------------------------------------------------------------------------
  // What the platform is relied on for

  predicate NoneOf(s: string, cs: set<char>) {
    forall i :: 0 <= i < |s| ==> s[i] !in cs
  }

  /** The shape of a parsed URL: where each delimiter may stand. */
  predicate UrlOk(u: Url) {
    && EndsWith(u.protocol, ':') && NoneOf(u.protocol[..|u.protocol| - 1], {':', '/', '?', '#'})
    && NoneOf(u.host, {'/', '?', '#'})
    && (u.host != "" ==> u.pathname == "" || "/" <= u.pathname)
    && (u.search == "" || u.search[0] == '?')
    && (u.hash == "" || u.hash[0] == '#')
  }

  ghost predicate PlatformOk(pf: Platform) {
    && (forall raw :: pf.parse(raw).Some? ==> UrlOk(pf.parse(raw).value))
    && pf.decode("") == Some("")
    && (forall s :: pf.decode(s) == Some("") ==> s == "")
  }

  // ---------------------------------------------------------------------------
  // Strings and segments

  /** The tail of a URI after its path: its query and fragment. */
  predicate IsTail(tail: string) {
    tail == "" || tail[0] in {'?', '#'}
  }

  predicate Plain(segments: seq<string>) {
    forall i :: 0 <= i < |segments| ==> '/' !in segments[i]
  }

  predicate NoQuery(segments: seq<string>) {
    forall i :: 0 <= i < |segments| ==> NoneOf(segments[i], {'?', '#'})
  }

  /** Two texts cut at their first `c` are a prefix of each other only piece by piece. */
  lemma FirstCut(a: string, b: string, a': string, b': string, c: char)
    requires c !in a && c !in a'
    ensures a + [c] + b <= a' + [c] + b' <==> a == a' && b <= b'
    ensures a + [c] + b == a' + [c] + b' <==> a == a' && b == b'
  {
    var l, r := a + [c] + b, a' + [c] + b';
    assert l[|a|] == c && r[|a'|] == c;
    assert l[|a| + 1..] == b && r[|a'| + 1..] == b';
    assert l[..|a|] == a && r[..|a'|] == a';
    if |a| < |a'| {
      assert r[|a|] == a'[|a|];
    } else if |a'| < |a| {
      assert l[|a'|] == a[|a'|];
    } else if l <= r {
      assert forall i :: 0 <= i < |a| ==> a[i] == l[i] && a'[i] == r[i];
      assert forall i :: 0 <= i < |b| ==> b[i] == l[|a| + 1 + i] && b'[i] == r[|a| + 1 + i];
    }
  }

  /** Text without `c`, `?` and `#`, then `c`, cannot begin text without `c` followed by a tail. */
  lemma TailHasNoCut(d: string, rest: string, s: string, tail: string, c: char)
    requires NoneOf(d, {'?', '#'}) && c !in s && c !in {'?', '#'} && IsTail(tail)
    ensures !(d + [c] + rest <= s + tail)
  {
    var l, r := d + [c] + rest, s + tail;
    assert l[|d|] == c;
    if |d| < |s| {
      assert r[|d|] == s[|d|];
    } else if tail != "" {
      assert r[|s|] == tail[0];
      assert l[|s|] == if |s| < |d| then d[|s|] else c;
    }
  }

  /** A joined prefix and a slash begin a joined path exactly when its segments are a proper prefix. */
  lemma {:induction false} SegmentPrefix(d: seq<string>, u: seq<string>, tail: string)
    requires d != [] && u != [] && Plain(d) && Plain(u) && NoQuery(d) && IsTail(tail)
    ensures Join(d) + "/" <= Join(u) + tail <==> d < u
    decreases |d|
  {
    if |d| == 1 {
      assert Join(d) + "/" == d[0] + "/" + "";
    } else {
      assert Join(d) + "/" == d[0] + "/" + (Join(d[1..]) + "/");
    }
    var rest := if |d| == 1 then "" else Join(d[1..]) + "/";
    if |u| == 1 {
      TailHasNoCut(d[0], rest, u[0], tail, '/');
    } else {
      assert Join(u) + tail == u[0] + "/" + (Join(u[1..]) + tail);
      FirstCut(d[0], rest, u[0], Join(u[1..]) + tail, '/');
      assert u == [u[0]] + u[1..] && d == [d[0]] + d[1..];
      if |d| > 1 {
        SegmentPrefix(d[1..], u[1..], tail);
      }
    }
  }

  /** Joined paths are equal exactly when their segments are and nothing follows. */
  lemma {:induction false} SegmentEqual(d: seq<string>, u: seq<string>, tail: string)
    requires d != [] && u != [] && Plain(d) && Plain(u) && NoQuery(d) && IsTail(tail)
    ensures Join(d) == Join(u) + tail <==> d == u && tail == ""
    decreases |d|
  {
    if |d| == 1 && |u| == 1 {
      assert d == [d[0]] && u == [u[0]];
      if tail != "" {
        assert (u[0] + tail)[|u[0]|] == tail[0];
      } else {
        assert u[0] + tail == u[0];
      }
    } else if |d| == 1 {
      assert (Join(u) + tail)[|u[0]|] == '/';
      assert '/' in Join(u) + tail;
    } else if |u| == 1 {
      assert Join(d) == d[0] + "/" + Join(d[1..]);
      TailHasNoCut(d[0], Join(d[1..]), u[0], tail, '/');
    } else {
      assert Join(u) + tail == u[0] + "/" + (Join(u[1..]) + tail);
      FirstCut(d[0], Join(d[1..]), u[0], Join(u[1..]) + tail, '/');
      SegmentEqual(d[1..], u[1..], tail);
      assert u == [u[0]] + u[1..] && d == [d[0]] + d[1..];
    }
  }

  lemma {:induction false} JoinEnd(parts: seq<string>)
    requires parts != [] && Plain(parts)
    ensures EndsWith(Join(parts), '/') <==> |parts| >= 2 && parts[|parts| - 1] == ""
    ensures |parts| >= 2 && parts[|parts| - 1] == "" ==> Join(parts) == Join(parts[..|parts| - 1]) + "/"
    decreases |parts|
  {
    if |parts| == 2 {
      assert Join(parts) == parts[0] + "/" + parts[1];
      assert parts[1] != "" ==> Join(parts)[|Join(parts)| - 1] == parts[1][|parts[1]| - 1];
    } else if |parts| > 2 {
      JoinEnd(parts[1..]);
      assert Join(parts) == parts[0] + "/" + Join(parts[1..]);
      assert parts[1..][..|parts| - 2] == parts[..|parts| - 1][1..];
    }
  }

  /** The shape of a URI taken apart. */
  ghost predicate PartsOk(p: Parts) {
    && EndsWith(p.protocol, ':') && NoneOf(p.protocol[..|p.protocol| - 1], {':', '/', '?', '#'})
    && NoneOf(p.host, {'/', '?', '#'})
    && p.segments != [] && Plain(p.segments) && IsTail(p.search + p.hash)
    && (if p.isOpaque then p.host == "" && (p.segments == [""] || p.segments[0] != "")
        else p.segments[0] == "" && (p.host == "" ==> |p.segments| >= 2))
  }

  lemma PartsShape(pf: Platform, raw: string)
    requires PlatformOk(pf) && PartsOf(pf, raw).Some?
    ensures PartsOk(PartsOf(pf, raw).value)
  {
    var u := pf.parse(raw).value;
    var p := PartsOf(pf, raw).value;
    assert u.search + u.hash == "" || (u.search + u.hash)[0] == (if u.search == "" then u.hash[0] else u.search[0]);
    assert pf.decode(Split(u.pathname)[0]) == Some(p.segments[0]);
  }

  /** What follows the protocol in the canonical text. */
  function AfterProtocol(p: Parts): string
    requires p.segments != []
  {
    (if p.isOpaque then "" else "//" + p.host) + Join(p.segments) + p.search + p.hash
  }

  /** The pattern's segments, less one trailing empty one. */
  function Trimmed(segments: seq<string>): seq<string> {
    if |segments| >= 2 && segments[|segments| - 1] == "" then segments[..|segments| - 1] else segments
  }

  /** A pattern that lists descendants: no query or fragment, no `?` or `#` in a segment, no empty opaque path. */
  ghost predicate Listable(p: Parts) {
    p.search == "" && p.hash == "" && NoQuery(p.segments) && !(p.isOpaque && p.segments == [""])
  }

  /** Segment by segment: the same place, and the pattern's segments a proper prefix, or all there is. */
  predicate SegmentMatches(p: Parts, u: Parts) {
    && u.protocol == p.protocol && u.host == p.host && u.isOpaque == p.isOpaque
    && (|| Trimmed(p.segments) < u.segments
        || (Trimmed(p.segments) == u.segments && u.search == "" && u.hash == ""))
  }

  /** The text of a base without query and fragment ends in a slash exactly when its last segment is empty. */
  lemma BaseText(p: Parts)
    requires PartsOk(p)
    ensures var text := Head(p) + Join(p.segments); var trimmed := Head(p) + Join(Trimmed(p.segments));
      if EndsWith(text, '/') then text[..|text| - 1] == trimmed else text == trimmed
  {
    var text := Head(p) + Join(p.segments);
    JoinEnd(p.segments);
    if Join(p.segments) != "" {
      assert text[|text| - 1] == Join(p.segments)[|Join(p.segments)| - 1];
    } else {
      assert text == Head(p);
    }
    if Trimmed(p.segments) != p.segments {
      assert text == Head(p) + Join(Trimmed(p.segments)) + "/";
      assert text[..|text| - 1] == Head(p) + Join(Trimmed(p.segments));
    }
  }

  /** What a trailing-`*` pattern with base `p` compiles to. */
  lemma CompiledPrefix(pf: Platform, base: string)
    requires PlatformOk(pf) && PartsOf(pf, base).Some?
    ensures var p := PartsOf(pf, base).value;
      p.search == "" && p.hash == "" ==>
        var exact := Head(p) + Join(Trimmed(p.segments));
        CompilePattern(pf, base + "*") == Some(Prefix(exact, exact + "/"))
  {
    var p := PartsOf(pf, base).value;
    PartsShape(pf, base);
    BaseText(p);
    assert (base + "*")[..|base|] == base;
    if p.search == "" && p.hash == "" {
      var text := Head(p) + Join(p.segments);
      assert text + p.search + p.hash == text;
      assert Normalize(pf, base) == Some(text);
    }
  }

  /** The canonical text, with the protocol cut off at its colon. */
  lemma ProtocolCut(p: Parts, path: string, u: Parts, rest: string)
    requires PartsOk(p) && PartsOk(u)
    ensures p.protocol + path <= u.protocol + rest <==> p.protocol == u.protocol && path <= rest
    ensures p.protocol + path == u.protocol + rest <==> p.protocol == u.protocol && path == rest
  {
    var scheme, scheme' := p.protocol[..|p.protocol| - 1], u.protocol[..|u.protocol| - 1];
    assert p.protocol == scheme + ":" && u.protocol == scheme' + ":";
    assert p.protocol + path == scheme + ":" + path && u.protocol + rest == scheme' + ":" + rest;
    FirstCut(scheme, path, scheme', rest, ':');
  }

  /** The texts agree up to the path exactly when protocol, kind of path and host do. */
  lemma TextMatches(p: Parts, u: Parts, d: seq<string>)
    requires PartsOk(p) && PartsOk(u) && Listable(p)
    requires d != [] && Plain(d) && NoQuery(d) && d[0] == p.segments[0] && (p.isOpaque ==> d[0] != "")
    ensures var text := Head(u) + Join(u.segments) + u.search + u.hash; var exact := Head(p) + Join(d);
      && (exact + "/" <= text <==>
          u.protocol == p.protocol && u.host == p.host && u.isOpaque == p.isOpaque && d < u.segments)
      && (exact == text <==> u.protocol == p.protocol && u.host == p.host && u.isOpaque == p.isOpaque
                             && d == u.segments && u.search == "" && u.hash == "")
  {
    var mine, theirs := AfterProtocolOf(p, d), AfterProtocol(u);
    PatternText(p, d);
    UriText(u);
    ProtocolCut(p, mine + "/", u, theirs);
    ProtocolCut(p, mine, u, theirs);
    RestMatches(p, u, d);
  }

  lemma PatternText(p: Parts, d: seq<string>)
    requires d != []
    ensures Head(p) + Join(d) == p.protocol + AfterProtocolOf(p, d)
    ensures Head(p) + Join(d) + "/" == p.protocol + (AfterProtocolOf(p, d) + "/")
  {
    assert Head(p) + Join(d) == p.protocol + AfterProtocolOf(p, d);
  }

  lemma UriText(u: Parts)
    requires u.segments != []
    ensures Head(u) + Join(u.segments) + u.search + u.hash == u.protocol + AfterProtocol(u)
  {
    if u.isOpaque {
      assert AfterProtocol(u) == Join(u.segments) + u.search + u.hash;
    }
  }

  /** The same for what follows the protocols. */
  lemma RestMatches(p: Parts, u: Parts, d: seq<string>)
    requires PartsOk(p) && PartsOk(u)
    requires d != [] && Plain(d) && NoQuery(d) && d[0] == p.segments[0] && (p.isOpaque ==> d[0] != "")
    ensures var mine, theirs := AfterProtocolOf(p, d), AfterProtocol(u);
      && (mine + "/" <= theirs <==> u.host == p.host && u.isOpaque == p.isOpaque && d < u.segments)
      && (mine == theirs <==>
          u.host == p.host && u.isOpaque == p.isOpaque && d == u.segments && u.search + u.hash == "")
  {
    var tail := u.search + u.hash;
    var mine, theirs := AfterProtocolOf(p, d), AfterProtocol(u);
    assert theirs == (if u.isOpaque then "" else "//" + u.host) + (Join(u.segments) + tail);
    if p.isOpaque && u.isOpaque {
      SegmentPrefix(d, u.segments, tail);
      SegmentEqual(d, u.segments, tail);
      assert mine == Join(d) && theirs == Join(u.segments) + tail;
    } else if p.isOpaque || u.isOpaque {
      KindsDiffer(p, u, d);
    } else {
      HostsMatch(p, u, d, tail);
    }
  }

  /** An opaque path and a rooted one never agree. */
  lemma KindsDiffer(p: Parts, u: Parts, d: seq<string>)
    requires PartsOk(p) && PartsOk(u) && p.isOpaque != u.isOpaque
    requires d != [] && Plain(d) && (p.isOpaque ==> d[0] != "")
    ensures !(AfterProtocolOf(p, d) + "/" <= AfterProtocol(u)) && AfterProtocolOf(p, d) != AfterProtocol(u)
  {
    if p.isOpaque {
      OpaqueStart(d, "");
      assert AfterProtocolOf(p, d) == Join(d) + "";
      assert AfterProtocol(u)[0] == '/';
    } else {
      assert AfterProtocolOf(p, d)[0] == '/';
      OpaqueStart(u.segments, u.search + u.hash);
      assert AfterProtocol(u) == Join(u.segments) + (u.search + u.hash);
    }
  }

  function AfterProtocolOf(p: Parts, d: seq<string>): string
    requires d != []
  {
    (if p.isOpaque then "" else "//" + p.host) + Join(d)
  }

  /** An opaque path never starts with a slash. */
  lemma OpaqueStart(segments: seq<string>, tail: string)
    requires segments != [] && Plain(segments) && (segments[0] != "" || segments == [""]) && IsTail(tail)
    ensures Join(segments) + tail == "" <==> segments == [""] && tail == ""
    ensures Join(segments) + tail != "" ==> (Join(segments) + tail)[0] != '/'
  {
    assert segments[0] != "" ==> Join(segments)[0] == segments[0][0];
  }

  lemma HostSegments(host: string, d: seq<string>, host': string, u: seq<string>)
    requires d != [] && u != [] && d[0] == u[0] == ""
    ensures [host] + d[1..] < [host'] + u[1..] <==> host == host' && d < u
    ensures [host] + d[1..] == [host'] + u[1..] <==> host == host' && d == u
  {
    var a, b := [host] + d[1..], [host'] + u[1..];
    assert d == [""] + d[1..] && u == [""] + u[1..];
    HeadTail(host, d[1..], host', u[1..]);
    if |d| < |u| {
      assert b[..|a|] == [host'] + u[1..|d|] && u[..|d|] == [""] + u[1..|d|];
      HeadTail(host, d[1..], host', u[1..|d|]);
      HeadTail("", d[1..], "", u[1..|d|]);
      assert a < b <==> a == b[..|a|];
      assert d < u <==> d == u[..|d|];
    }
  }

  lemma HeadTail(x: string, s: seq<string>, y: string, t: seq<string>)
    ensures [x] + s == [y] + t <==> x == y && s == t
  {
    assert ([x] + s)[1..] == s && ([y] + t)[1..] == t && ([x] + s)[0] == x && ([y] + t)[0] == y;
  }

  /** Two hierarchical texts after their protocols. */
  lemma HostsMatch(p: Parts, u: Parts, d: seq<string>, tail: string)
    requires PartsOk(p) && PartsOk(u) && !p.isOpaque && !u.isOpaque
    requires d != [] && Plain(d) && NoQuery(d) && d[0] == "" && IsTail(tail)
    ensures var mine := "//" + p.host + Join(d); var theirs := "//" + u.host + (Join(u.segments) + tail);
      && (mine + "/" <= theirs <==> u.host == p.host && d < u.segments)
      && (mine == theirs <==> u.host == p.host && d == u.segments && tail == "")
  {
    var mine, theirs := [p.host] + d[1..], [u.host] + u.segments[1..];
    HostText(p.host, d, "");
    HostText(u.host, u.segments, tail);
    HostSegments(p.host, d, u.host, u.segments);
    SegmentPrefix(mine, theirs, tail);
    SegmentEqual(mine, theirs, tail);
    UnderSlashes(Join(mine) + "/", Join(theirs) + tail);
    UnderSlashes(Join(mine), Join(theirs) + tail);
  }

  lemma HostText(host: string, d: seq<string>, tail: string)
    requires d != [] && d[0] == ""
    ensures "//" + host + (Join(d) + tail) == "//" + (Join([host] + d[1..]) + tail)
    ensures "//" + host + Join(d) == "//" + Join([host] + d[1..])
    ensures "//" + host + Join(d) + "/" == "//" + (Join([host] + d[1..]) + "/")
  {
    var joined := Join([host] + d[1..]);
    assert "//" + host + (Join(d) + tail) == "//" + ((host + Join(d)) + tail);
    assert "//" + host + Join(d) == "//" + (host + Join(d));
    assert "//" + joined + "/" == "//" + (joined + "/");
  }

  lemma UnderSlashes(a: string, b: string)
    ensures "//" + a <= "//" + b <==> a <= b
    ensures "//" + a == "//" + b <==> a == b
  {
    assert ("//" + a)[2..] == a && ("//" + b)[2..] == b;
    if "//" + a <= "//" + b {
      assert forall i :: 0 <= i < |a| ==> a[i] == ("//" + a)[i + 2] && b[i] == ("//" + b)[i + 2];
    }
  }

  /**
   * String matching is segment matching: a URI falls under a trailing-`*` pattern exactly when it
   * normalizes, scheme, host and kind of path agree, and the pattern's decoded segments (less one
   * trailing empty one) are a proper prefix of its own, or all of them with no query or fragment.
   */
  lemma PrefixPatternMatchesSegments(pf: Platform, base: string, uri: string)
    requires PlatformOk(pf) && PartsOf(pf, base).Some? && Listable(PartsOf(pf, base).value)
    ensures PatternMatches(pf, base + "*", uri)
       <==> PartsOf(pf, uri).Some? && SegmentMatches(PartsOf(pf, base).value, PartsOf(pf, uri).value)
  {
    var p := PartsOf(pf, base).value;
    PartsShape(pf, base);
    CompiledPrefix(pf, base);
    if PartsOf(pf, uri).Some? {
      PartsShape(pf, uri);
      var d := Trimmed(p.segments);
      TextMatches(p, PartsOf(pf, uri).value, d);
    }
  }

  /**
   * A base without query and fragment whose path is opaque and empty (`scheme:*`) covers every
   * hierarchical URI of its scheme, and of the opaque ones only itself.
   */
  lemma EmptyOpaquePatternMatches(pf: Platform, base: string, uri: string)
    requires PlatformOk(pf) && PartsOf(pf, base).Some?
    requires var p := PartsOf(pf, base).value; p.isOpaque && p.segments == [""] && p.search == "" && p.hash == ""
    ensures PatternMatches(pf, base + "*", uri)
       <==> PartsOf(pf, uri).Some?
            && var u := PartsOf(pf, uri).value;
               u.protocol == PartsOf(pf, base).value.protocol
               && (u.isOpaque ==> u.segments == [""] && u.search == "" && u.hash == "")
  {
    var p := PartsOf(pf, base).value;
    PartsShape(pf, base);
    CompiledPrefix(pf, base);
    if PartsOf(pf, uri).Some? {
      PartsShape(pf, uri);
      var u := PartsOf(pf, uri).value;
      UriText(u);
      assert Trimmed(p.segments) == [""] && Head(p) + Join(p.segments) == p.protocol + "";
      EmptyOpaqueText(p, u);
    }
  }

  lemma EmptyOpaqueText(p: Parts, u: Parts)
    requires PartsOk(p) && PartsOk(u)
    ensures p.protocol + "/" <= u.protocol + AfterProtocol(u) <==> p.protocol == u.protocol && !u.isOpaque
    ensures p.protocol + "" == u.protocol + AfterProtocol(u)
       <==> p.protocol == u.protocol && u.isOpaque && u.segments == [""] && u.search == "" && u.hash == ""
  {
    ProtocolCut(p, "/", u, AfterProtocol(u));
    ProtocolCut(p, "", u, AfterProtocol(u));
    RestStart(u);
  }

  lemma RestStart(u: Parts)
    requires PartsOk(u)
    ensures "/" <= AfterProtocol(u) <==> !u.isOpaque
    ensures AfterProtocol(u) == "" <==> u.isOpaque && u.segments == [""] && u.search == "" && u.hash == ""
  {
    if u.isOpaque {
      OpaqueStart(u.segments, u.search + u.hash);
      assert AfterProtocol(u) == Join(u.segments) + (u.search + u.hash);
    } else {
      assert AfterProtocol(u)[0] == '/';
    }
  }

  /** Splitting a joined path at its slashes gives the segments back. */
  lemma {:induction false} SplitJoin(parts: seq<string>)
    requires parts != [] && Plain(parts)
    ensures Split(Join(parts)) == parts
    decreases |parts|
  {
    if |parts| == 1 {
      SplitPlain(parts[0], "");
      assert parts[0] + "" == parts[0];
      assert Split("") == [""];
    } else {
      var tail := "/" + Join(parts[1..]);
      SplitJoin(parts[1..]);
      assert Join(parts) == parts[0] + tail;
      assert tail[1..] == Join(parts[1..]);
      assert Split(tail) == [""] + parts[1..];
      SplitPlain(parts[0], tail);
      assert parts[0] + "" == parts[0];
    }
  }

  lemma {:induction false} SplitPlain(s: string, rest: string)
    requires '/' !in s
    ensures Split(s + rest) == [s + Split(rest)[0]] + Split(rest)[1..]
    decreases |s|
  {
    if s == "" {
      assert s + rest == rest && s + Split(rest)[0] == Split(rest)[0];
      assert Split(rest) == [Split(rest)[0]] + Split(rest)[1..];
    } else {
      SplitPlain(s[1..], rest);
      assert (s + rest)[1..] == s[1..] + rest && (s + rest)[0] == s[0];
      assert [s[0]] + (s[1..] + Split(rest)[0]) == s + Split(rest)[0];
      assert Split(s[1..] + rest)[0] == s[1..] + Split(rest)[0] && Split(s[1..] + rest)[1..] == Split(rest)[1..];
    }
  }

  /** And joining the pieces of a split path gives the path back. */
  lemma {:induction false} JoinSplit(s: string)
    ensures Join(Split(s)) == s
    ensures "/" <= s ==> |Split(s)| >= 2 && Split(s)[0] == ""
    ensures s != "" && s[0] != '/' ==> Split(s)[0] != ""
  {
    if s != "" {
      var rest := Split(s[1..]);
      JoinSplit(s[1..]);
      if s[0] == '/' {
        assert ([""] + rest)[1..] == rest;
        assert "" + "/" + Join(rest) == s;
      } else {
        var parts := [[s[0]] + rest[0]] + rest[1..];
        assert parts[1..] == rest[1..];
        if |rest| == 1 {
          assert Join(parts) == [s[0]] + rest[0];
        } else {
          assert Join(rest) == rest[0] + "/" + Join(rest[1..]);
          assert Join(parts) == [s[0]] + rest[0] + "/" + Join(rest[1..]);
        }
      }
    }
  }

  // ---------------------------------------------------------------------------
  // What is normalized, and what a pattern grants

  /** A piece of a path that decodes to something that is no dot segment and holds no separator. */
  predicate DecodesSafely(pf: Platform, piece: string) {
    && pf.decode(piece).Some?
    && var one := pf.decode(piece).value; one != "." && one != ".." && '/' !in one && '\\' !in one
  }

  lemma {:induction false} DecodesExactly(pf: Platform, segments: seq<string>)
    ensures DecodeSegments(pf, segments).Some? <==>
      forall i :: 0 <= i < |segments| ==> DecodesSafely(pf, segments[i])
  {
    if segments != [] {
      DecodesExactly(pf, segments[1..]);
      assert forall i :: 0 < i < |segments| ==> segments[i] == segments[1..][i - 1];
      assert forall i :: 0 <= i < |segments| - 1 ==> segments[1..][i] == segments[i + 1];
    }
  }

  /** A URI is normalized exactly if it parses and every piece of its path decodes safely, once. */
  lemma NormalizesExactly(pf: Platform, raw: string)
    ensures Normalize(pf, raw).Some? <==>
      pf.parse(raw).Some? && forall piece :: piece in Split(pf.parse(raw).value.pathname) ==> DecodesSafely(pf, piece)
  {
    if pf.parse(raw).Some? {
      DecodesExactly(pf, Split(pf.parse(raw).value.pathname));
    }
  }

  /** Its canonical text: the parts in order, the path decoded piece by piece, the host left out of opaque URIs. */
  lemma CanonicalText(pf: Platform, raw: string)
    requires Normalize(pf, raw).Some?
    ensures PartsOf(pf, raw).Some? && pf.parse(raw).Some?
    ensures var u := pf.parse(raw).value; var path := PartsOf(pf, raw).value.segments;
      && |path| == |Split(u.pathname)|
      && (forall i :: 0 <= i < |path| ==> Some(path[i]) == pf.decode(Split(u.pathname)[i]))
      && Normalize(pf, raw) == Some(
          (if u.host == "" && (u.pathname == "" || u.pathname[0] != '/') then u.protocol
           else u.protocol + "//" + u.host) + Join(path) + u.search + u.hash)
  {
  }

  /** A pattern without a trailing `*` grants exactly the URIs with its own canonical text. */
  lemma ExactPatternMeans(pf: Platform, pattern: string, uri: string)
    requires pattern == "" || pattern[|pattern| - 1] != '*'
    ensures PatternMatches(pf, pattern, uri) <==>
      Normalize(pf, uri).Some? && Normalize(pf, pattern) == Normalize(pf, uri)
  {
  }

  /** A list of patterns grants what one of its patterns grants, and an empty one nothing. */
  lemma GrantedByOne(pf: Platform, patterns: seq<string>, pattern: string, uri: string)
    ensures !UriGranted(pf, [], uri)
    ensures UriGranted(pf, patterns + [pattern], uri)
       <==> UriGranted(pf, patterns, uri) || PatternMatches(pf, pattern, uri)
  {
    var all := patterns + [pattern];
    assert all[|patterns|] == pattern;
    assert forall i :: 0 <= i < |patterns| ==> all[i] == patterns[i];
  }

  /** The canonical text of a URI granted by a list of patterns has no dot segment and no backslash in its path. */
  lemma GrantedHasNoDotSegment(pf: Platform, patterns: seq<string>, uri: string)
    requires UriGranted(pf, patterns, uri)
    ensures PartsOf(pf, uri).Some?
    ensures var u := PartsOf(pf, uri).value;
            && u.segments != []
            && Normalize(pf, uri) == Some(Head(u) + Join(u.segments) + u.search + u.hash)
            && "." !in Split(Join(u.segments)) && ".." !in Split(Join(u.segments))
            && forall i :: 0 <= i < |u.segments| ==> '\\' !in u.segments[i]
  {
    var u := PartsOf(pf, uri).value;
    SplitJoin(u.segments);
  }
}
