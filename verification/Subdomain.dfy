/** From a login to a subdomain of the hub (hub/src/subdomain.ts). */
module Subdomain {
  import opened Ordered
  import Decimal

  const MAX_LABEL_LENGTH := 63
  const MAX_SUFFIX := 200
  const FALLBACK := "user"

  const RESERVED := {
    "www", "mcp", "api", "hub", "admin", "app", "mail", "smtp", "status", "docs", "blog", "auth", "account", "cdn",
    "static", "assets", "dev", "test", "staging", "ns1", "ns2", "login", "signin", "signup", "oauth", "sso", "secure",
    "security", "support", "help", "billing", "pay", "console", "dashboard", "git", "ftp", "imap", "pop", "webmail",
    "mta-sts", "autoconfig", "autodiscover"
  }

  predicate IsAlphanumeric(c: char) {
    'a' <= c <= 'z' || '0' <= c <= '9'
  }

  predicate IsLabelChar(c: char) {
    IsAlphanumeric(c) || c == '-'
  }

  /** A DNS label, section 2.1 of RFC 1123: 1 to 63 letters, digits and hyphens, no hyphen at either end. */
  predicate IsLabel(s: string) {
    && 1 <= |s| <= MAX_LABEL_LENGTH
    && (forall i :: 0 <= i < |s| ==> IsLabelChar(s[i]))
    && IsAlphanumeric(s[0]) && IsAlphanumeric(s[|s| - 1])
  }

  predicate IsAssignable(s: string) {
    IsLabel(s) && s !in RESERVED
  }

  /** A label by its character codes: small letters, digits and hyphens, 1 to 63 of them, no hyphen first or last. */
  lemma LabelMeans(s: string)
    ensures IsLabel(s) <==>
      && 1 <= |s| <= 63 && s[0] != '-' && s[|s| - 1] != '-'
      && forall i :: 0 <= i < |s| ==> 97 <= s[i] as int <= 122 || 48 <= s[i] as int <= 57 || s[i] as int == 45
  {
    assert forall c: char :: IsLabelChar(c) <==> 97 <= c as int <= 122 || 48 <= c as int <= 57 || c as int == 45;
  }

  // ---------------------------------------------------------------------------
  // Folding

  /** Every character outside the label alphabet becomes a hyphen. */
  function Hyphenated(s: string): string {
    seq(|s|, i requires 0 <= i < |s| => if IsLabelChar(s[i]) then s[i] else '-')
  }

  /** Runs of hyphens become one. */
  function Collapsed(s: string): string {
    if |s| < 2 then s
    else if s[0] == '-' && s[1] == '-' then Collapsed(s[1..])
    else [s[0]] + Collapsed(s[1..])
  }

  function TrimStart(s: string): string {
    if s != "" && s[0] == '-' then TrimStart(s[1..]) else s
  }

  function TrimEnd(s: string): string {
    if s != "" && s[|s| - 1] == '-' then TrimEnd(s[..|s| - 1]) else s
  }

  function Fold(lower: string -> string, login: string): string {
    TrimEnd(TrimStart(Collapsed(Hyphenated(lower(login)))))
  }

  function TrimToLabel(s: string): string {
    if TrimEnd(s) != "" then TrimEnd(s) else FALLBACK
  }

  function Base(lower: string -> string, login: string): string {
    var folded := Fold(lower, login);
    var base := if folded != "" then folded else FALLBACK;
    if |base| > MAX_LABEL_LENGTH then TrimToLabel(base[..MAX_LABEL_LENGTH]) else base
  }

  /** `base-N`, the base cut back to leave room. */
  function WithSuffix(base: string, n: nat): string {
    var text := "-" + Decimal.Text(n);
    var room := MAX_LABEL_LENGTH - |text|;
    (if |base| > room >= 0 then TrimToLabel(base[..room]) else base) + text
  }

  predicate LabelChars(s: string) {
    forall i :: 0 <= i < |s| ==> IsLabelChar(s[i])
  }

  lemma {:induction false} CollapsedChars(s: string)
    requires LabelChars(s)
    ensures LabelChars(Collapsed(s))
    decreases |s|
  {
    if |s| >= 2 {
      CollapsedChars(s[1..]);
    }
  }

  lemma {:induction false} TrimStartClean(s: string)
    requires LabelChars(s)
    ensures LabelChars(TrimStart(s)) && (TrimStart(s) != "" ==> IsAlphanumeric(TrimStart(s)[0]))
    decreases |s|
  {
    if s != "" && s[0] == '-' {
      TrimStartClean(s[1..]);
    }
  }

  /** Trimming the end keeps a prefix, and keeps it non-empty if it starts with a letter or a digit. */
  lemma {:induction false} TrimEndClean(s: string)
    requires LabelChars(s)
    ensures TrimEnd(s) <= s && LabelChars(TrimEnd(s))
    ensures TrimEnd(s) != "" ==> IsAlphanumeric(TrimEnd(s)[|TrimEnd(s)| - 1])
    ensures s != "" && IsAlphanumeric(s[0]) ==> TrimEnd(s) != ""
    decreases |s|
  {
    if s != "" && s[|s| - 1] == '-' {
      TrimEndClean(s[..|s| - 1]);
    }
  }

  /** The first candidate of every login, however long or odd, is a DNS label. */
  lemma BaseIsLabel(lower: string -> string, login: string)
    ensures IsLabel(Base(lower, login))
  {
    var hyphenated := Hyphenated(lower(login));
    CollapsedChars(hyphenated);
    TrimStartClean(Collapsed(hyphenated));
    TrimEndClean(TrimStart(Collapsed(hyphenated)));
    var folded := Fold(lower, login);
    if |folded| > MAX_LABEL_LENGTH {
      TrimEndClean(folded[..MAX_LABEL_LENGTH]);
    }
  }

  // ---------------------------------------------------------------------------
  // What folding gives

  /** The maximal runs of letters and digits. */
  function Words(s: string): (words: seq<string>)
    ensures s != "" && IsAlphanumeric(s[0]) ==> words != []
    ensures forall i :: 0 <= i < |words| ==> words[i] != ""
  {
    if s == "" then []
    else if !IsAlphanumeric(s[0]) then Words(s[1..])
    else if |s| > 1 && IsAlphanumeric(s[1]) then
      var rest := Words(s[1..]);
      [[s[0]] + rest[0]] + rest[1..]
    else [[s[0]]] + Words(s[1..])
  }

  /** The words with one hyphen between them. */
  function Hyphened(words: seq<string>): string {
    if words == [] then ""
    else if |words| == 1 then words[0]
    else words[0] + "-" + Hyphened(words[1..])
  }

  /** The same, after a hyphen if there is any word. */
  function AfterHyphen(words: seq<string>): string {
    if words == [] then "" else "-" + Hyphened(words)
  }

  lemma {:induction false} TrimEndHead(c: char, s: string)
    ensures TrimEnd([c] + s) == if TrimEnd(s) == "" && c == '-' then "" else [c] + TrimEnd(s)
    decreases |s|
  {
    if s == "" {
      assert [c] + s == [c] && [c][..0] == "";
    } else if s[|s| - 1] == '-' {
      assert ([c] + s)[..|s|] == [c] + s[..|s| - 1];
      TrimEndHead(c, s[..|s| - 1]);
    }
  }

  /** Collapsed and trimmed at its end, text over the label alphabet is its words, one hyphen between them. */
  lemma {:induction false} CollapsedWords(s: string)
    requires LabelChars(s)
    ensures TrimEnd(Collapsed(s)) == if s == ""
        || IsAlphanumeric(s[0]) then Hyphened(Words(s)) else AfterHyphen(Words(s))
    decreases |s|
  {
    if s != "" {
      var rest := s[1..];
      CollapsedWords(rest);
      if |s| == 1 {
        assert s == [s[0]] + "";
        TrimEndHead(s[0], "");
      } else if !(s[0] == '-' && s[1] == '-') {
        TrimEndHead(s[0], Collapsed(rest));
      }
      if IsAlphanumeric(s[0]) {
        WordJoins(s);
      }
    }
  }

  lemma LongerWord(c: char, word: string, rest: seq<string>)
    ensures Hyphened([[c] + word] + rest) == [c] + Hyphened([word] + rest)
  {
    var longer, words := [[c] + word] + rest, [word] + rest;
    assert longer[1..] == rest && words[1..] == rest;
    if rest != [] {
      assert Hyphened(longer) == ([c] + word) + "-" + Hyphened(rest);
      assert Hyphened(words) == word + "-" + Hyphened(rest);
      assert ([c] + word) + "-" + Hyphened(rest) == [c] + (word + "-" + Hyphened(rest));
    }
  }

  /** A letter or digit in front goes into the first word, or before the hyphen. */
  lemma WordJoins(s: string)
    requires s != "" && IsAlphanumeric(s[0])
    ensures Hyphened(Words(s))
         == [s[0]] + (if |s| > 1 && IsAlphanumeric(s[1]) then Hyphened(Words(s[1..])) else AfterHyphen(Words(s[1..])))
  {
    var rest := Words(s[1..]);
    if |s| > 1 && IsAlphanumeric(s[1]) {
      LongerWord(s[0], rest[0], rest[1..]);
      assert rest == [rest[0]] + rest[1..];
    } else {
    }
  }

  lemma {:induction false} TrimmedWords(s: string)
    requires LabelChars(s)
    ensures TrimEnd(TrimStart(Collapsed(s))) == Hyphened(Words(s))
    decreases |s|
  {
    if s == "" || IsAlphanumeric(s[0]) {
      CollapsedWords(s);
    } else {
      TrimmedWords(s[1..]);
      if |s| >= 2 && s[1] != '-' {
        assert Collapsed(s)[1..] == Collapsed(s[1..]);
      } else if |s| == 1 {
        assert s[1..] == "";
      }
    }
  }

  lemma {:induction false} HyphenatedWords(s: string)
    ensures Words(Hyphenated(s)) == Words(s)
    decreases |s|
  {
    if s != "" {
      assert Hyphenated(s)[1..] == Hyphenated(s[1..]);
      HyphenatedWords(s[1..]);
    }
  }

  /** Folding gives the runs of letters and digits of the lower-cased login, with one hyphen between them. */
  lemma FoldIsWords(lower: string -> string, login: string)
    ensures Fold(lower, login) == Hyphened(Words(lower(login)))
  {
    TrimmedWords(Hyphenated(lower(login)));
    HyphenatedWords(lower(login));
  }

  /**
   * The base is the folded login, cut to 63 characters with no hyphen left at the end; without any
   * word it is `user`.
   */
  lemma BaseMeans(lower: string -> string, login: string)
    ensures var folded := Hyphened(Words(lower(login)));
      && (folded == "" ==> Base(lower, login) == FALLBACK)
      && (folded != "" ==> Base(lower, login) <= folded)
      && (0 < |folded| <= MAX_LABEL_LENGTH ==> Base(lower, login) == folded)
      && (|folded| > MAX_LABEL_LENGTH ==>
            forall i :: |Base(lower, login)| <= i < MAX_LABEL_LENGTH ==> folded[i] == '-')
  {
    FoldIsWords(lower, login);
    var hyphenated := Hyphenated(lower(login));
    CollapsedChars(hyphenated);
    TrimStartClean(Collapsed(hyphenated));
    TrimEndClean(TrimStart(Collapsed(hyphenated)));
    var folded := Fold(lower, login);
    if |folded| > MAX_LABEL_LENGTH {
      TrimEndClean(folded[..MAX_LABEL_LENGTH]);
      TrimEndDrops(folded[..MAX_LABEL_LENGTH]);
    }
  }

  lemma {:induction false} TrimEndDrops(s: string)
    ensures |TrimEnd(s)| <= |s| && forall i :: |TrimEnd(s)| <= i < |s| ==> s[i] == '-'
    decreases |s|
  {
    if s != "" && s[|s| - 1] == '-' {
      TrimEndDrops(s[..|s| - 1]);
    }
  }

  lemma SmallText(n: nat)
    requires n <= MAX_SUFFIX
    ensures |Decimal.Text(n)| <= 3
  {
    if n >= 10 {
      assert Decimal.Text(n) == Decimal.Text(n / 10) + [Decimal.DIGITS[n % 10]];
      if n / 10 >= 10 {
        assert Decimal.Text(n / 10) == Decimal.Text(n / 10 / 10) + [Decimal.DIGITS[n / 10 % 10]];
      }
    }
  }

  /** No reserved name has both a hyphen and a final digit. */
  lemma ReservedShape(s: string)
    requires s in RESERVED && '-' in s
    ensures s == "mta-sts"
  {
  }

  /** A suffixed candidate is a label, ends in its own suffix, and is never reserved. */
  lemma CandidateIsAssignable(base: string, n: nat)
    requires IsLabel(base) && n <= MAX_SUFFIX
    ensures IsAssignable(WithSuffix(base, n))
  {
    SmallText(n);
    var digits := Decimal.Text(n);
    var text := "-" + digits;
    var room := MAX_LABEL_LENGTH - |text|;
    var candidate := WithSuffix(base, n);
    if |base| > room {
      TrimEndClean(base[..room]);
    }
    assert forall i :: 0 <= i < |digits| ==> Decimal.IsDigit(digits[i]) && IsAlphanumeric(digits[i]);
    var stem := candidate[..|candidate| - |text|];
    assert candidate == stem + text;
    assert candidate[|stem|] == '-';
    assert candidate[|candidate| - 1] == digits[|digits| - 1];
    assert candidate != "mta-sts";
    if candidate in RESERVED {
      ReservedShape(candidate);
    }
  }

  /**
   * A suffixed candidate is the base, its hyphen and its number; a base too long for that is cut back just
   * enough, and by the hyphens that then stand at its end.
   */
  lemma CandidateMeans(base: string, n: nat)
    requires IsLabel(base) && n <= 200
    ensures var text := "-" + Decimal.Text(n); var candidate := WithSuffix(base, n);
      && |text| <= |candidate| <= 63
      && var stem := candidate[..|candidate| - |text|];
      && candidate == stem + text && stem != "" && stem <= base
      && (|base| + |text| <= 63 ==> stem == base)
      && (|base| + |text| > 63 ==> forall i :: |stem| <= i < 63 - |text| ==> base[i] == '-')
  {
    SmallText(n);
    var text := "-" + Decimal.Text(n);
    var room := 63 - |text|;
    var candidate := WithSuffix(base, n);
    if |base| > room {
      TrimEndClean(base[..room]);
      TrimEndDrops(base[..room]);
      assert candidate[..|candidate| - |text|] == TrimEnd(base[..room]);
    } else {
      assert candidate[..|candidate| - |text|] == base;
    }
  }

  /** Text that ends in a hyphen and digits tells the digits. */
  lemma LastHyphen(x: string, s: string, y: string, t: string)
    requires forall i :: 0 <= i < |s| ==> s[i] != '-'
    requires forall i :: 0 <= i < |t| ==> t[i] != '-'
    requires x + ("-" + s) == y + ("-" + t)
    ensures s == t
  {
    var c := x + ("-" + s);
    assert c[|x|] == '-' && c[|y|] == '-';
    assert c[|x| + 1..] == s && c[|y| + 1..] == t;
    assert forall k :: |x| < k < |c| ==> c[k] == s[k - |x| - 1];
    assert forall k :: |y| < k < |c| ==> c[k] == t[k - |y| - 1];
  }

  /** Different suffixes give different candidates: digits hold no hyphen, so the last hyphen tells them apart. */
  lemma CandidatesDiffer(base: string, m: nat, n: nat)
    requires WithSuffix(base, m) == WithSuffix(base, n)
    ensures m == n
  {
    var s, t := Decimal.Text(m), Decimal.Text(n);
    var c := WithSuffix(base, m);
    var x, y := c[..|c| - |s| - 1], c[..|c| - |t| - 1];
    assert c == x + ("-" + s) && c == y + ("-" + t);
    LastHyphen(x, s, y, t);
    Decimal.TextInjective(m, n);
  }

  // ---------------------------------------------------------------------------
  // The search

  predicate IsFree(candidate: string, occupied: string -> bool) {
    IsAssignable(candidate) && !occupied(candidate)
  }

  /** Every suffixed candidate is spoken for. */
  predicate AllOccupied(base: string, occupied: string -> bool) {
    forall n :: 2 <= n <= MAX_SUFFIX ==> occupied(WithSuffix(base, n))
  }

  /** `n` is the first suffix whose candidate is free. */
  predicate FirstFree(base: string, n: nat, free: string -> bool) {
    && 2 <= n <= MAX_SUFFIX && free(WithSuffix(base, n))
    && forall m :: 2 <= m < n ==> !free(WithSuffix(base, m))
  }

  /** What the search must give: the base if it is free, else the first free suffixed candidate, else nothing. */
  ghost predicate IsAssignment(base: string, free: string -> bool, r: Option<string>) {
    if free(base) then r == Some(base)
    else if r.None? then forall n :: 2 <= n <= MAX_SUFFIX ==> !free(WithSuffix(base, n))
    else exists n :: FirstFree(base, n, free) && r == Some(WithSuffix(base, n))
  }

  /** What an assignment over the names spoken for must give. */
  ghost predicate IsAssigned(base: string, occupied: string -> bool, r: Option<string>) {
    IsAssignment(base, c => IsFree(c, occupied), r)
  }

  method AssignSubdomain(lower: string -> string, login: string, occupied: string -> bool) returns (r: Option<string>)
    ensures IsAssigned(Base(lower, login), occupied, r)
  {
    r := FindFree(Base(lower, login), c => IsFree(c, occupied));
  }

  method FindFree(base: string, free: string -> bool) returns (r: Option<string>)
    ensures IsAssignment(base, free, r)
  {
    if free(base) {
      return Some(base);
    }
    for suffix := 2 to MAX_SUFFIX + 1
      invariant forall m :: 2 <= m < suffix ==> !free(WithSuffix(base, m))
    {
      var candidate := WithSuffix(base, suffix);
      if free(candidate) {
        assert FirstFree(base, suffix, free);
        return Some(candidate);
      }
    }
    r := None;
  }

  /** Whatever is assigned is a DNS label, not reserved, and free. */
  lemma AssignedIsFree(base: string, occupied: string -> bool, r: Option<string>)
    requires IsAssigned(base, occupied, r) && r.Some?
    ensures r.value !in RESERVED && !occupied(r.value)
    ensures 1 <= |r.value| <= 63 && r.value[0] != '-' && r.value[|r.value| - 1] != '-'
    ensures forall i :: 0 <= i < |r.value| ==>
        'a' <= r.value[i] <= 'z' || '0' <= r.value[i] <= '9' || r.value[i] == '-'
  {
    if !IsFree(base, occupied) {
      var n :| FirstFree(base, n, c => IsFree(c, occupied)) && r == Some(WithSuffix(base, n));
      assert IsFree(r.value, occupied);
    }
  }

  /** The search fails exactly when the base is not free and every suffixed candidate is occupied. */
  lemma ExhaustedMeans(base: string, occupied: string -> bool, r: Option<string>)
    requires IsLabel(base) && IsAssigned(base, occupied, r)
    ensures r.None? <==> !IsFree(base, occupied) && AllOccupied(base, occupied)
  {
    if r.None? {
      forall n | 2 <= n <= MAX_SUFFIX ensures occupied(WithSuffix(base, n)) {
        CandidateIsAssignable(base, n);
      }
    } else if !IsFree(base, occupied) {
      var n :| FirstFree(base, n, c => IsFree(c, occupied)) && r == Some(WithSuffix(base, n));
      assert !occupied(WithSuffix(base, n));
    }
  }

  /** The candidates with suffixes 2 to `k`. */
  ghost function Candidates(base: string, k: nat): set<string> {
    if k < 2 then {} else Candidates(base, k - 1) + {WithSuffix(base, k)}
  }

  /** `s` is the candidate of a suffix from 2 to `k`. */
  ghost predicate IsCandidate(base: string, k: nat, s: string) {
    exists n :: 2 <= n <= k && WithSuffix(base, n) == s
  }

  lemma {:induction false} InCandidates(base: string, k: nat, s: string)
    ensures s in Candidates(base, k) <==> IsCandidate(base, k, s)
    decreases k
  {
    if k >= 2 {
      InCandidates(base, k - 1, s);
      if IsCandidate(base, k, s) {
        var n :| 2 <= n <= k && WithSuffix(base, n) == s;
        assert n < k ==> IsCandidate(base, k - 1, s);
      }
      if IsCandidate(base, k - 1, s) {
        var n :| 2 <= n <= k - 1 && WithSuffix(base, n) == s;
      }
    }
  }

  lemma {:induction false} CandidateCount(base: string, k: nat)
    requires k >= 1
    ensures |Candidates(base, k)| == k - 1
    decreases k
  {
    if k >= 2 {
      CandidateCount(base, k - 1);
      InCandidates(base, k - 1, WithSuffix(base, k));
      if n :| 2 <= n <= k - 1 && WithSuffix(base, n) == WithSuffix(base, k) {
        CandidatesDiffer(base, n, k);
        assert false;
      }
    }
  }

  /** With fewer than 199 names taken, every login is given a subdomain. */
  lemma NeverExhausted(lower: string -> string, login: string, occupied: string -> bool, taken: set<string>,
                       r: Option<string>)
    requires IsAssigned(Base(lower, login), occupied, r)
    requires forall s :: occupied(s) ==> s in taken
    requires |taken| < MAX_SUFFIX - 1
    ensures r.Some?
  {
    var base := Base(lower, login);
    BaseIsLabel(lower, login);
    ExhaustedMeans(base, occupied, r);
    if r.None? {
      CandidateCount(base, MAX_SUFFIX);
      forall s | s in Candidates(base, MAX_SUFFIX) ensures s in taken {
        InCandidates(base, MAX_SUFFIX, s);
      }
      SubsetSize(Candidates(base, MAX_SUFFIX), taken);
    }
  }

}
