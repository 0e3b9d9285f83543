/**
 * For which trailing-`*` patterns the comparison of strings (src/agents/resource-match.ts) is a
 * comparison of path segments, and what goes wrong with the others.
 */
module ResourceAgreement {
  import opened Ordered
  import opened ResourceMatch

  /** The canonical text. */
  function TextOf(u: Parts): string
    requires u.segments != []
  {
    Head(u) + Join(u.segments) + u.search + u.hash
  }

  /** The text a trailing-`*` pattern compares with: that of its base, less one final slash. */
  function ExactOf(p: Parts): string
    requires p.segments != []
  {
    LessSlash(TextOf(p))
  }

  function LessSlash(text: string): string {
    if EndsWith(text, '/') then text[..|text| - 1] else text
  }

  /** The comparison of strings. */
  predicate StringMatches(p: Parts, u: Parts)
    requires p.segments != [] && u.segments != []
  {
    TextOf(u) == ExactOf(p) || ExactOf(p) + "/" <= TextOf(u)
  }

  /**
   * A trailing-`*` pattern grants a URI exactly if both normalize and the comparison of strings on the parts
   * of both says so.
   */
  lemma PatternIsStringMatch(pf: Platform, base: string, uri: string)
    ensures PartsOf(pf, base).Some? ==> PartsOf(pf, base).value.segments != []
    ensures PartsOf(pf, uri).Some? ==> PartsOf(pf, uri).value.segments != []
    ensures PatternMatches(pf, base + "*", uri)
       <==> PartsOf(pf, base).Some? && PartsOf(pf, uri).Some?
            && StringMatches(PartsOf(pf, base).value, PartsOf(pf, uri).value)
  {
    assert (base + "*")[..|base|] == base;
  }

  lemma ListableAgrees(p: Parts, u: Parts)
    requires PartsOk(p) && PartsOk(u) && Listable(p)
    ensures StringMatches(p, u) <==> SegmentMatches(p, u)
  {
    var d := Trimmed(p.segments);
    ExactText(p);
    TextMatches(p, u, d);
  }

  // ---------------------------------------------------------------------------
  // The bases that do not agree

  /** A base with a query or fragment: the same place without it matches by segments and not by string. */
  lemma QueryDisagrees(p: Parts) returns (u: Parts)
    requires PartsOk(p) && p.search + p.hash != ""
    ensures PartsOk(u) && !StringMatches(p, u) && SegmentMatches(p, u)
  {
    u := p.(search := "", hash := "");
    var text, tail := TextOf(p), p.search + p.hash;
    assert text == TextOf(u) + tail;
    assert text[|text| - 1] == tail[|tail| - 1];
    assert |ExactOf(p)| > |TextOf(u)|;
  }

  /** And unless its path ends in an empty segment, a URI with that query matches by string and not by segments. */
  lemma QueryExceeds(p: Parts) returns (u: Parts)
    requires PartsOk(p) && p.search + p.hash != "" && Trimmed(p.segments) == p.segments
    ensures PartsOk(u) && StringMatches(p, u) && !SegmentMatches(p, u)
    ensures TextOf(u) == ExactOf(p) && (!EndsWith(TextOf(p), '/') ==> TextOf(u) == TextOf(p))
  {
    var rest := ExactRest(p);
    u := CutParts(p, p.segments, rest);
    OtherTail(p, rest);
  }

  lemma OtherTail(p: Parts, rest: string)
    requires PartsOk(p) && rest != "" && IsTail(rest)
    ensures var u := CutParts(p, p.segments, rest);
      PartsOk(u) && u.segments == p.segments && u.search + u.hash == rest
          && TextOf(u) == Head(p) + Join(p.segments) + rest
  {
    CutPartsText(p, p.segments, rest);
    Grouped(Head(p), Join(p.segments), rest);
  }

  lemma Grouped(a: string, b: string, c: string)
    ensures a + (b + c) == a + b + c
  {
  }

  lemma LessSlashOf(a: string, b: string)
    requires b != ""
    ensures LessSlash(a + b) == a + LessSlash(b)
  {
    assert (a + b)[|a + b| - 1] == b[|b| - 1];
  }

  /** The text of a base, cut where its last segment that is not empty ends. */
  lemma TextSplit(p: Parts)
    requires PartsOk(p)
    ensures var slash := if Trimmed(p.segments) == p.segments then "" else "/";
      TextOf(p) == Head(p) + Join(Trimmed(p.segments)) + (slash + (p.search + p.hash))
  {
    JoinEnd(p.segments);
    var trimmed := Trimmed(p.segments);
    var slash := if trimmed == p.segments then "" else "/";
    assert Join(p.segments) == Join(trimmed) + slash;
    assert Head(p) + Join(trimmed) + (slash + (p.search + p.hash))
        == Head(p) + (Join(trimmed) + slash) + p.search + p.hash;
  }

  /** What follows the path of a base, less one final slash of the whole. */
  lemma ExactRest(p: Parts) returns (rest: string)
    requires PartsOk(p)
    ensures ExactOf(p) == Head(p) + Join(Trimmed(p.segments)) + rest
    ensures p.search + p.hash == "" ==> rest == ""
    ensures p.search + p.hash != "" && Trimmed(p.segments) == p.segments ==> rest != "" && IsTail(rest)
    ensures p.search + p.hash != "" && Trimmed(p.segments) != p.segments ==> rest != "" && rest[0] == '/'
  {
    var tail := p.search + p.hash;
    if tail == "" {
      rest := "";
      ExactText(p);
    } else {
      TextSplit(p);
      var slash := if Trimmed(p.segments) == p.segments then "" else "/";
      LessSlashOf(Head(p) + Join(Trimmed(p.segments)), slash + tail);
      rest := LessSlash(slash + tail);
      assert (slash + tail)[|slash|] == tail[0];
    }
  }

  /** Where decoded segments hold a `?` or `#`, the text before the first of them is a path of its own. */
  lemma {:induction false} CutAtQuery(d: seq<string>) returns (segments: seq<string>, tail: string)
    requires d != [] && Plain(d) && !NoQuery(d)
    ensures segments != [] && |segments| <= |d| && Plain(segments)
    ensures tail != "" && IsTail(tail) && Join(segments) + tail == Join(d)
    ensures |segments| == 1 ==> segments[0] < d[0]
    ensures |segments| > 1 ==> segments[0] == d[0]
    decreases |d|
  {
    if NoneOf(d[0], {'?', '#'}) {
      assert !NoQuery(d[1..]) by {
        var i :| 0 <= i < |d| && !NoneOf(d[i], {'?', '#'});
        assert d[1..][i - 1] == d[i];
      }
      var rest;
      rest, tail := CutAtQuery(d[1..]);
      segments := [d[0]] + rest;
      assert segments[1..] == rest;
      assert d[0] + "/" + Join(rest) + tail == d[0] + "/" + (Join(rest) + tail);
    } else {
      var k := FirstQuery(d[0]);
      segments := [d[0][..k]];
      tail := d[0][k..] + (if |d| == 1 then "" else "/" + Join(d[1..]));
      assert d[0] == d[0][..k] + d[0][k..];
      if |d| > 1 {
        assert Join(d) == d[0] + "/" + Join(d[1..]);
        assert Join(segments) + tail == d[0][..k] + d[0][k..] + "/" + Join(d[1..]);
      } else {
        assert Join(segments) + tail == d[0][..k] + d[0][k..];
      }
    }
  }

  lemma {:induction false} FirstQuery(s: string) returns (k: nat)
    requires !NoneOf(s, {'?', '#'})
    ensures k < |s| && s[k] in {'?', '#'} && NoneOf(s[..k], {'?', '#'})
    decreases |s|
  {
    if s[0] in {'?', '#'} {
      k := 0;
    } else {
      assert !NoneOf(s[1..], {'?', '#'}) by {
        var i :| 0 <= i < |s| && s[i] in {'?', '#'};
        assert s[1..][i - 1] == s[i];
      }
      var j := FirstQuery(s[1..]);
      k := j + 1;
      assert s[..k] == [s[0]] + s[1..][..j];
    }
  }

  /** The same place, with the path cut short and the rest of it a real query or fragment. */
  function CutParts(p: Parts, segments: seq<string>, tail: string): Parts {
    if tail != "" && tail[0] == '?' then p.(segments := segments, search := tail, hash := "")
    else p.(segments := segments, search := "", hash := tail)
  }

  lemma CutPartsOk(p: Parts, segments: seq<string>, tail: string)
    requires PartsOk(p) && segments != [] && Plain(segments) && IsTail(tail)
    requires |segments| == 1 ==> segments[0] < p.segments[0]
    requires |segments| > 1 ==> segments[0] == p.segments[0]
    requires p.isOpaque ==> p.segments[0] != ""
    ensures PartsOk(CutParts(p, segments, tail))
  {
    var u := CutParts(p, segments, tail);
    assert u.search + u.hash == tail;
    if p.isOpaque && |segments| == 1 && segments[0] == "" {
      assert segments == [""];
    }
  }

  lemma CutPartsText(p: Parts, segments: seq<string>, tail: string)
    requires segments != []
    ensures TextOf(CutParts(p, segments, tail)) == Head(p) + (Join(segments) + tail)
  {
    var u := CutParts(p, segments, tail);
    assert Head(u) == Head(p);
    assert Head(p) + Join(segments) + u.search + u.hash == Head(p) + (Join(segments) + (u.search + u.hash));
    assert u.search + u.hash == tail;
  }

  lemma ExactText(p: Parts)
    requires PartsOk(p) && p.search == p.hash == ""
    ensures ExactOf(p) == Head(p) + Join(Trimmed(p.segments))
  {
    BaseText(p);
    assert TextOf(p) == Head(p) + Join(p.segments);
  }

  /** A base whose decoded segments hold a `?` or `#`: a shorter path with a real query or fragment spells the same. */
  lemma DecodedQueryDisagrees(p: Parts) returns (u: Parts)
    requires PartsOk(p) && !NoQuery(p.segments)
    ensures PartsOk(u) && StringMatches(p, u) && !SegmentMatches(p, u)
    ensures TextOf(u) == ExactOf(p) && u.search + u.hash != ""
  {
    var d := Trimmed(p.segments);
    TrimmedQuery(p.segments);
    var rest := ExactRest(p);
    var segments, tail := CutAtQuery(d);
    u := CutParts(p, segments, tail + rest);
    CutPartsOk(p, segments, tail + rest);
    CutPartsText(p, segments, tail + rest);
    CutTogether(Head(p), segments, tail, d, rest);
    assert u.search + u.hash == tail + rest;
    assert u.segments == segments && |segments| <= |d|;
  }

  lemma CutTogether(head: string, segments: seq<string>, tail: string, d: seq<string>, rest: string)
    requires segments != [] && d != [] && Join(segments) + tail == Join(d)
    ensures head + (Join(segments) + (tail + rest)) == head + Join(d) + rest
  {
    assert Join(segments) + (tail + rest) == Join(segments) + tail + rest;
  }

  lemma TrimmedQuery(segments: seq<string>)
    requires segments != [] && Plain(segments) && !NoQuery(segments)
    ensures var d := Trimmed(segments); d != [] && Plain(d) && !NoQuery(d) && d[0] == segments[0]
  {
    var i :| 0 <= i < |segments| && !NoneOf(segments[i], {'?', '#'});
    assert Trimmed(segments)[i] == segments[i];
    assert NoneOf("", {'?', '#'});
  }

  /**
   * A base whose path is opaque and empty: the root of any host of its scheme matches by string and
   * not by segments.
   */
  lemma EmptyOpaqueDisagrees(p: Parts, host: string) returns (u: Parts)
    requires PartsOk(p) && p.search == p.hash == "" && p.isOpaque && p.segments == [""] && NoneOf(host, {'/', '?', '#'})
    ensures PartsOk(u) && StringMatches(p, u) && !SegmentMatches(p, u)
    ensures u == Parts(p.protocol, host, false, ["", ""], "", "")
  {
    u := Parts(p.protocol, host, false, ["", ""], "", "");
    UriText(u);
    EmptyOpaqueText(p, u);
    assert TextOf(p) == p.protocol + "" == p.protocol;
    assert ExactOf(p) == p.protocol;
  }

  /** The two comparisons agree on every URI. */
  ghost predicate Agrees(p: Parts)
    requires PartsOk(p)
  {
    forall u :: PartsOk(u) ==> (StringMatches(p, u) <==> SegmentMatches(p, u))
  }

  /**
   * String matching is segment matching for a base if and only if it has no query or fragment, no
   * decoded `?` or `#` in a segment, and is not an opaque path that is empty.
   */
  lemma AgreesExactlyWhenListable(p: Parts)
    requires PartsOk(p)
    ensures Agrees(p) <==> Listable(p)
  {
    if Listable(p) {
      forall u | PartsOk(u) ensures StringMatches(p, u) <==> SegmentMatches(p, u) {
        ListableAgrees(p, u);
      }
    } else if p.search + p.hash != "" {
      var u := QueryDisagrees(p);
    } else if !NoQuery(p.segments) {
      var u := DecodedQueryDisagrees(p);
    } else {
      var u := EmptyOpaqueDisagrees(p, "");
    }
  }

  /** No URI is granted by string that is not granted by segments. */
  ghost predicate StaysWithin(p: Parts)
    requires PartsOk(p)
  {
    forall u :: PartsOk(u) && StringMatches(p, u) ==> SegmentMatches(p, u)
  }

  /** A query behind an empty last segment does no harm: what is granted lies below the path all the same. */
  lemma QueryBelowSlash(p: Parts, u: Parts)
    requires PartsOk(p) && PartsOk(u) && NoQuery(p.segments) && Trimmed(p.segments) != p.segments
    requires p.search + p.hash != "" && StringMatches(p, u)
    ensures SegmentMatches(p, u)
  {
    var base := p.(search := "", hash := "");
    var rest := ExactRest(p);
    ExactText(base);
    assert Head(base) == Head(p);
    BelowSlash(ExactOf(base), rest, TextOf(u));
    ListableAgrees(base, u);
  }

  lemma BelowSlash(head: string, rest: string, text: string)
    requires rest != "" && rest[0] == '/' && (text == head + rest || head + rest + "/" <= text)
    ensures head + "/" <= text
  {
    assert (head + rest)[|head|] == '/';
  }

  /**
   * A trailing-`*` pattern grants nothing beyond its path segments if and only if no segment holds a
   * decoded `?` or `#`, and, with a query or fragment, its path ends in an empty segment, or without one
   * it is not an opaque path that is empty.
   */
  lemma StaysWithinExactly(p: Parts)
    requires PartsOk(p)
    ensures StaysWithin(p) <==>
      && NoQuery(p.segments)
      && (if p.search + p.hash != "" then Trimmed(p.segments) != p.segments else !(p.isOpaque && p.segments == [""]))
  {
    if !NoQuery(p.segments) {
      var u := DecodedQueryDisagrees(p);
    } else if p.search + p.hash != "" {
      if Trimmed(p.segments) == p.segments {
        var u := QueryExceeds(p);
      } else {
        forall u | PartsOk(u) && StringMatches(p, u) ensures SegmentMatches(p, u) {
          QueryBelowSlash(p, u);
        }
      }
    } else if p.isOpaque && p.segments == [""] {
      var u := EmptyOpaqueDisagrees(p, "");
    } else {
      forall u | PartsOk(u) && StringMatches(p, u) ensures SegmentMatches(p, u) {
        ListableAgrees(p, u);
      }
    }
  }

  // ---------------------------------------------------------------------------
  // Patterns without a trailing `*`

  /** The same place part by part, with the same query and fragment. */
  predicate SameParts(p: Parts, u: Parts) {
    && u.protocol == p.protocol && u.host == p.host && u.isOpaque == p.isOpaque
    && u.segments == p.segments && u.search + u.hash == p.search + p.hash
  }

  /** The two comparisons of a whole URI agree on every URI. */
  ghost predicate EqualAgrees(p: Parts)
    requires PartsOk(p)
  {
    forall u :: PartsOk(u) ==> (TextOf(u) == TextOf(p) <==> SameParts(p, u))
  }

  /** A text of one URI only: nothing decoded to `?` or `#`, no query or fragment behind a path that could hold it. */
  predicate SpeltOnce(p: Parts) {
    && NoQuery(p.segments)
    && (p.search + p.hash == "" || (!p.isOpaque && p.segments == [""]))
  }

  lemma SpeltOnceAgrees(p: Parts, u: Parts)
    requires PartsOk(p) && PartsOk(u) && SpeltOnce(p)
    ensures TextOf(u) == TextOf(p) <==> SameParts(p, u)
  {
    UriText(u);
    UriText(p);
    if p.search + p.hash != "" {
      ProtocolCut(p, AfterProtocol(p), u, AfterProtocol(u));
      BareHost(p, u);
    } else if p.isOpaque && p.segments == [""] {
      EmptyOpaqueText(p, u);
      assert AfterProtocol(p) == "";
    } else {
      assert TextOf(p) == Head(p) + Join(p.segments);
      TextMatches(p, u, p.segments);
    }
  }

  /** A host without a path, and what follows it. */
  lemma BareHost(p: Parts, u: Parts)
    requires PartsOk(p) && PartsOk(u) && !p.isOpaque && p.segments == [""]
    ensures AfterProtocol(p) == AfterProtocol(u) <==>
      u.host == p.host && !u.isOpaque && u.segments == [""] && u.search + u.hash == p.search + p.hash
  {
    var tail, tail' := p.search + p.hash, u.search + u.hash;
    assert AfterProtocol(p) == "//" + (p.host + tail);
    if u.isOpaque {
      RestStart(u);
      RestStart(p);
    } else {
      var rest := Join(u.segments) + tail';
      assert AfterProtocol(u) == "//" + (u.host + rest);
      UnderSlashes(p.host + tail, u.host + rest);
      assert |u.segments| > 1 ==> rest[0] == '/';
      assert u.segments == [""] <==> rest == tail' by {
        assert |u.segments| == 1 ==> u.segments == [""];
        assert u.segments == [""] ==> "" + tail' == rest;
      }
      HostEnds(p.host, tail, u.host, rest);
    }
  }

  /** A host ends where the first slash, `?` or `#` stands. */
  lemma HostEnds(host: string, rest: string, host': string, rest': string)
    requires NoneOf(host, {'/', '?', '#'}) && (rest == "" || rest[0] in {'/', '?', '#'})
    requires NoneOf(host', {'/', '?', '#'}) && (rest' == "" || rest'[0] in {'/', '?', '#'})
    ensures host + rest == host' + rest' <==> host == host' && rest == rest'
  {
    var a, b := host + rest, host' + rest';
    assert a[..|host|] == host && b[..|host'|] == host';
    assert a[|host|..] == rest && b[|host'|..] == rest';
    if |host| < |host'| {
      LongerHost(host, rest, host', rest');
    } else if |host'| < |host| {
      LongerHost(host', rest', host, rest);
    }
  }

  lemma LongerHost(host: string, rest: string, host': string, rest': string)
    requires NoneOf(host', {'/', '?', '#'}) && (rest == "" || rest[0] in {'/', '?', '#'}) && |host| < |host'|
    ensures host + rest != host' + rest'
  {
    assert (host' + rest')[|host|] == host'[|host|];
    assert rest != "" ==> (host + rest)[|host|] == rest[0];
  }

  /** A query or fragment behind a path: a longer path that decodes to it spells the same. */
  lemma QuerySpeltAsPath(p: Parts) returns (u: Parts)
    requires PartsOk(p) && p.search + p.hash != "" && !(!p.isOpaque && p.segments == [""])
    ensures PartsOk(u) && TextOf(u) == TextOf(p) && u.search + u.hash == ""
  {
    var tail := p.search + p.hash;
    var path := Join(p.segments) + tail;
    JoinSplit(path);
    u := p.(segments := Split(path), search := "", hash := "");
    assert Head(u) == Head(p);
    assert TextOf(u) == Head(p) + (Join(p.segments) + tail);
    Grouped(Head(p), Join(p.segments), tail);
    assert TextOf(p) == Head(p) + Join(p.segments) + tail;
    if p.isOpaque {
      OpaqueStart(p.segments, tail);
    } else {
      assert Join(p.segments) == "" + "/" + Join(p.segments[1..]);
    }
  }

  /** A decoded `?` or `#`: a shorter path with a real query or fragment spells the same. */
  lemma DecodedQuerySpeltAsQuery(p: Parts) returns (u: Parts)
    requires PartsOk(p) && !NoQuery(p.segments)
    ensures PartsOk(u) && TextOf(u) == TextOf(p) && u.segments != p.segments
  {
    var rest := p.search + p.hash;
    var segments, tail := CutAtQuery(p.segments);
    assert p.isOpaque ==> p.segments[0] != "" by {
      assert NoneOf("", {'?', '#'});
    }
    u := CutParts(p, segments, tail + rest);
    CutPartsOk(p, segments, tail + rest);
    CutPartsText(p, segments, tail + rest);
    CutTogether(Head(p), segments, tail, p.segments, rest);
    assert TextOf(p) == Head(p) + Join(p.segments) + rest;
  }

  /**
   * Comparing canonical texts is comparing parts for a base if and only if no segment holds a decoded `?` or
   * `#`, and it has no query or fragment, or nothing but a host before it.
   */
  lemma EqualAgreesExactly(p: Parts)
    requires PartsOk(p)
    ensures EqualAgrees(p) <==>
      && NoQuery(p.segments)
      && (p.search + p.hash == "" || (!p.isOpaque && p.segments == [""]))
  {
    if !NoQuery(p.segments) {
      var u := DecodedQuerySpeltAsQuery(p);
    } else if !SpeltOnce(p) {
      var u := QuerySpeltAsPath(p);
    } else {
      forall u | PartsOk(u) ensures TextOf(u) == TextOf(p) <==> SameParts(p, u) {
        SpeltOnceAgrees(p, u);
      }
    }
  }

  /** Such a pattern without a trailing `*` grants exactly the URIs with its own parts. */
  lemma ExactPatternMatchesParts(pf: Platform, pattern: string, uri: string)
    requires PlatformOk(pf) && (pattern == "" || pattern[|pattern| - 1] != '*')
    requires PartsOf(pf, pattern).Some? && SpeltOnce(PartsOf(pf, pattern).value)
    ensures PatternMatches(pf, pattern, uri)
       <==> PartsOf(pf, uri).Some? && SameParts(PartsOf(pf, pattern).value, PartsOf(pf, uri).value)
  {
    ExactPatternMeans(pf, pattern, uri);
    PartsShape(pf, pattern);
    if PartsOf(pf, uri).Some? {
      PartsShape(pf, uri);
      SpeltOnceAgrees(PartsOf(pf, pattern).value, PartsOf(pf, uri).value);
    }
  }

  // ---------------------------------------------------------------------------
  // One pattern of each kind

  /** A path of one name. */
  lemma RootedPath(pf: Platform, name: string, decoded: string)
    requires '/' !in name && pf.decode("") == Some("") && pf.decode(name) == Some(decoded) && !Refused(decoded)
    ensures DecodeSegments(pf, Split("/" + name)) == Some(["", decoded])
  {
    SplitPlain(name, "");
    assert name + "" == name && Split(name) == [name];
    assert ("/" + name)[1..] == name && Split("/" + name) == ["", name];
    assert DecodeSegments(pf, [name][1..]) == Some([]);
    assert DecodeSegments(pf, [name]) == Some([decoded]) by {
      assert [decoded] + [] == [decoded];
    }
    assert ["", name][1..] == [name] && !Refused("");
    assert [""] + [decoded] == ["", decoded];
  }

  /** A URI with a host and a path of one name. */
  lemma RootedParts(pf: Platform, raw: string, protocol: string, host: string, name: string, decoded: string,
                    search: string)
    requires pf.parse(raw) == Some(Url(protocol, host, "/" + name, search, "")) && host != "" && '/' !in name
    requires pf.decode("") == Some("") && pf.decode(name) == Some(decoded) && !Refused(decoded)
    ensures PartsOf(pf, raw) == Some(Parts(protocol, host, false, ["", decoded], search, ""))
    ensures TextOf(PartsOf(pf, raw).value) == protocol + "//" + host + "/" + decoded + search
  {
    RootedPath(pf, name, decoded);
    assert ["", decoded][1..] == [decoded];
    assert Join(["", decoded]) == "" + "/" + decoded;
    assert protocol + "//" + host + ("" + "/" + decoded) + search + ""
        == protocol + "//" + host + "/" + decoded + search;
  }

  /** `foo://a/%3F*` grants `foo://a/?/secret`, on every platform that takes the two apart as written. */
  lemma DecodedQueryInstance(pf: Platform)
    requires pf.parse("foo://a/%3F") == Some(Url("foo:", "a", "/%3F", "", ""))
    requires pf.parse("foo://a/?/secret") == Some(Url("foo:", "a", "/", "?/secret", ""))
    requires pf.decode("") == Some("") && pf.decode("%3F") == Some("?")
    ensures PartsOf(pf, "foo://a/%3F").Some? && PartsOf(pf, "foo://a/?/secret").Some?
    ensures PatternMatches(pf, "foo://a/%3F" + "*", "foo://a/?/secret")
    ensures !SegmentMatches(PartsOf(pf, "foo://a/%3F").value, PartsOf(pf, "foo://a/?/secret").value)
  {
    DecodedQueryParts(pf);
    PatternIsStringMatch(pf, "foo://a/%3F", "foo://a/?/secret");
    var p, u := PartsOf(pf, "foo://a/%3F").value, PartsOf(pf, "foo://a/?/secret").value;
    LongerText(p, u, "foo:" + "//" + "a" + "/", "?", "/secret");
    assert Trimmed(p.segments)[1] == "?" && u.segments[1] == "";
  }

  /** A text that goes on after a slash. */
  lemma LongerText(p: Parts, u: Parts, head: string, middle: string, tail: string)
    requires p.segments != [] && u.segments != [] && TextOf(p) == head + middle && TextOf(u) == head + (middle + tail)
    requires middle != "" && middle[|middle| - 1] != '/' && tail != "" && tail[0] == '/'
    ensures StringMatches(p, u)
  {
    SameBeginning(head, middle, tail);
  }

  lemma DecodedQueryParts(pf: Platform)
    requires pf.parse("foo://a/%3F") == Some(Url("foo:", "a", "/%3F", "", ""))
    requires pf.parse("foo://a/?/secret") == Some(Url("foo:", "a", "/", "?/secret", ""))
    requires pf.decode("") == Some("") && pf.decode("%3F") == Some("?")
    ensures PartsOf(pf, "foo://a/%3F") == Some(Parts("foo:", "a", false, ["", "?"], "", ""))
    ensures PartsOf(pf, "foo://a/?/secret") == Some(Parts("foo:", "a", false, ["", ""], "?/secret", ""))
    ensures TextOf(PartsOf(pf, "foo://a/%3F").value) == "foo:" + "//" + "a" + "/" + "?"
    ensures TextOf(PartsOf(pf, "foo://a/?/secret").value) == "foo:" + "//" + "a" + "/" + ("?" + "/secret")
  {
    assert "/" + "%3F" == "/%3F" && "/" + "" == "/";
    RootedParts(pf, "foo://a/%3F", "foo:", "a", "%3F", "?", "");
    RootedParts(pf, "foo://a/?/secret", "foo:", "a", "", "", "?/secret");
    var start := "foo:" + "//" + "a" + "/";
    assert start + "?" + "" == start + "?";
    assert start + "" + "?/secret" == start + ("?" + "/secret");
  }

  lemma SameBeginning(head: string, middle: string, tail: string)
    requires middle != "" && middle[|middle| - 1] != '/' && tail != "" && tail[0] == '/'
    ensures !EndsWith(head + middle, '/') && head + middle + "/" <= head + (middle + tail)
  {
    assert (head + middle)[|head + middle| - 1] == middle[|middle| - 1];
    assert head + (middle + tail) == head + middle + "/" + tail[1..];
  }

  lemma BareScheme(pf: Platform, raw: string, scheme: string)
    requires pf.parse(raw) == Some(Url(scheme + ":", "", "", "", "")) && pf.decode("") == Some("")
    requires NoneOf(scheme, {':', '/', '?', '#'})
    ensures PartsOf(pf, raw) == Some(Parts(scheme + ":", "", true, [""], "", "")) && PartsOk(PartsOf(pf, raw).value)
  {
    assert Split("") == [""] && !Refused("") && [""] + [] == [""];
    assert DecodeSegments(pf, [""][1..]) == Some([]);
    assert DecodeSegments(pf, [""]) == Some([""]);
    assert !("/" <= "");
    assert (scheme + ":")[|scheme|] == ':' && (scheme + ":")[..|scheme|] == scheme;
  }

  /** `foo:*` grants `foo://a/`. */
  lemma EmptyOpaqueInstance(pf: Platform)
    requires pf.parse("foo:") == Some(Url("foo:", "", "", "", ""))
    requires pf.parse("foo://a/") == Some(Url("foo:", "a", "/", "", ""))
    requires pf.decode("") == Some("")
    ensures PartsOf(pf, "foo:").Some? && PartsOf(pf, "foo://a/").Some?
    ensures PatternMatches(pf, "foo:" + "*", "foo://a/")
    ensures !SegmentMatches(PartsOf(pf, "foo:").value, PartsOf(pf, "foo://a/").value)
  {
    assert "/" + "" == "/" && "foo" + ":" == "foo:";
    BareScheme(pf, "foo:", "foo");
    RootedParts(pf, "foo://a/", "foo:", "a", "", "", "");
    PatternIsStringMatch(pf, "foo:", "foo://a/");
    var u := EmptyOpaqueDisagrees(PartsOf(pf, "foo:").value, "a");
  }

  /** `foo://a/b?q*` grants `foo://a/b?q` itself and not `foo://a/b`, against the segments of both. */
  lemma QueryInstance(pf: Platform)
    requires pf.parse("foo://a/b?q") == Some(Url("foo:", "a", "/b", "?q", ""))
    requires pf.parse("foo://a/b") == Some(Url("foo:", "a", "/b", "", ""))
    requires pf.decode("") == Some("") && pf.decode("b") == Some("b")
    ensures PartsOf(pf, "foo://a/b?q").Some? && PartsOf(pf, "foo://a/b").Some?
    ensures PatternMatches(pf, "foo://a/b?q" + "*", "foo://a/b?q")
    ensures !SegmentMatches(PartsOf(pf, "foo://a/b?q").value, PartsOf(pf, "foo://a/b?q").value)
    ensures !PatternMatches(pf, "foo://a/b?q" + "*", "foo://a/b")
    ensures SegmentMatches(PartsOf(pf, "foo://a/b?q").value, PartsOf(pf, "foo://a/b").value)
  {
    assert "/" + "b" == "/b";
    RootedParts(pf, "foo://a/b?q", "foo:", "a", "b", "b", "?q");
    RootedParts(pf, "foo://a/b", "foo:", "a", "b", "b", "");
    var p, u := PartsOf(pf, "foo://a/b?q").value, PartsOf(pf, "foo://a/b").value;
    assert TextOf(p)[|TextOf(p)| - 1] == 'q';
    assert |TextOf(p)| == 11 && |TextOf(u)| == 9;
    assert Trimmed(p.segments) == ["", "b"];
    PatternIsStringMatch(pf, "foo://a/b?q", "foo://a/b?q");
    PatternIsStringMatch(pf, "foo://a/b?q", "foo://a/b");
  }
}
