/**
 * The saved domain lists: the SSRF domain filter, the e-mail domain whitelist and the icon proxy
 * whitelist share one canonicaliser and differ in how they read a single domain.
 */
module DomainLists {
  import opened Basics
  import opened Text

  datatype Kind = SSRFFilter | EmailWhitelist | IconProxyWhitelist

  datatype ListError = InvalidList | ListTooLong

  const MAX_LIST_LENGTH: nat := 500

  /** unicode.ToLower and net.ParseIP, of which only this is assumed: */
  datatype Env = Env(lower: char -> char, isIP: string -> bool)

  predicate HostChar(c: char) {
    'a' <= c <= 'z' || '0' <= c <= '9' || c == '-'
  }

  /** Lower-casing leaves the characters of host names alone. */
  ghost predicate KeepsHostNames(env: Env) {
    forall c | HostChar(c) || c == '.' :: env.lower(c) == c
  }

  // ---- one domain ----

  function Lower(env: Env, s: string): string {
    seq(|s|, i requires 0 <= i < |s| => env.lower(s[i]))
  }

  function TrimLeftOf(s: string, c: char): string {
    if s != [] && s[0] == c then TrimLeftOf(s[1..], c) else s
  }

  function TrimRightOf(s: string, c: char): string {
    if s != [] && s[|s| - 1] == c then TrimRightOf(s[..|s| - 1], c) else s
  }

  predicate ContainsAny(s: string, chars: string) {
    exists c | c in s :: c in chars
  }

  predicate ContainsPair(s: string, c: char) {
    exists i | 0 <= i < |s| - 1 :: s[i] == c && s[i + 1] == c
  }

  /** strings.Split(s, ".") */
  function Labels(s: string): (r: seq<string>)
    ensures r != []
  {
    if s == [] then [""]
    else
      var rest := Labels(s[1..]);
      if s[0] == '.' then [""] + rest else [[s[0]] + rest[0]] + rest[1..]
  }

  predicate ValidLabel(l: string) {
    l != "" && |l| <= 63 && l[0] != '-' && l[|l| - 1] != '-' && forall c | c in l :: HostChar(c)
  }

  predicate ValidShape(s: string) {
    && !ContainsPair(s, '.') && (s != "" ==> s[0] != '.' && s[|s| - 1] != '.')
    && forall l | l in Labels(s) :: ValidLabel(l)
  }

  predicate ValidHostname(s: string) {
    s != "" && |s| <= 253 && ValidShape(s)
  }

  predicate ValidEmailDomain(s: string) {
    ValidShape(s) && |Labels(s)| >= 2 && |Labels(s)[|Labels(s)| - 1]| >= 2
  }

  /** Ok("") means the part is skipped. */
  function NormalizeDomain(kind: Kind, env: Env, raw: string): Result<string, ListError> {
    var lowered := Lower(env, TrimSpace(raw));
    var domain := TrimRightOf(if kind == EmailWhitelist then TrimLeftOf(lowered, '@') else lowered, '.');
    if domain == "" then Ok("")
    else
      match kind
      case EmailWhitelist => if ValidEmailDomain(domain) then Ok(domain) else Err(InvalidList)
      case SSRFFilter =>
        if ContainsAny(domain, "/\\@?#: \t\r\n") || env.isIP(domain) || !ValidHostname(domain) then Err(InvalidList)
        else Ok(domain)
      case IconProxyWhitelist =>
        if ContainsAny(domain, "/\\@?#:") || env.isIP(domain) || !ValidEmailDomain(domain) then Err(InvalidList)
        else Ok(domain)
  }

  // ---- lists ----

  predicate IsSeparator(c: char) {
    c == '\n' || c == ',' || c == ';'
  }

  function WordLength(s: string): (n: nat)
    ensures n <= |s|
  {
    if s == [] || IsSeparator(s[0]) then 0 else 1 + WordLength(s[1..])
  }

  /** strings.FieldsFunc(s, ssrfListSeparator) */
  function Fields(s: string): seq<string>
    decreases |s|
  {
    if s == [] then []
    else if IsSeparator(s[0]) then Fields(s[1..])
    else [s[..WordLength(s)]] + Fields(s[WordLength(s)..])
  }

  function Join(list: seq<string>): string {
    if list == [] then "" else if |list| == 1 then list[0] else list[0] + ['\n'] + Join(list[1..])
  }

  /** The distinct domains of the first n parts, in order of appearance. */
  function Collect(kind: Kind, env: Env, parts: seq<string>, n: nat): Result<seq<string>, ListError>
    requires n <= |parts|
  {
    if n == 0 then Ok([])
    else
      match Collect(kind, env, parts, n - 1)
      case Err(e) => Err(e)
      case Ok(domains) =>
        match NormalizeDomain(kind, env, parts[n - 1])
        case Err(e) => Err(e)
        case Ok(d) => if d == "" || d in domains then Ok(domains) else Ok(domains + [d])
  }

  function Parse(kind: Kind, env: Env, raw: string): Result<seq<string>, ListError> {
    var parts := Fields(raw);
    match Collect(kind, env, parts, |parts|)
    case Err(e) => Err(e)
    case Ok(domains) => Ok(Sort(domains))
  }

  function Normalize(kind: Kind, env: Env, raw: string): Result<string, ListError> {
    match Parse(kind, env, raw)
    case Err(e) => Err(e)
    case Ok(domains) =>
      if domains == [] then Ok("")
      else if Octets(Join(domains)) > MAX_LIST_LENGTH then Err(ListTooLong)
      else Ok(Join(domains))
  }

  method ParseDomainList(kind: Kind, env: Env, raw: string) returns (r: Result<seq<string>, ListError>)
    ensures r == Parse(kind, env, raw)
  {
    hide NormalizeDomain, Fields, Sort;
    var parts := Fields(raw);
    var seen: set<string> := {};
    var domains: seq<string> := [];
    for i := 0 to |parts|
      invariant Collect(kind, env, parts, i) == Ok(domains)
      invariant forall d :: d in seen <==> d in domains
    {
      var domain := NormalizeDomain(kind, env, parts[i]);
      if domain.Err? {
        CollectErrors(kind, env, parts, i + 1);
        return Err(domain.error);
      }
      if domain.value == "" || domain.value in seen {
        continue;
      }
      seen := seen + {domain.value};
      domains := domains + [domain.value];
    }
    return Ok(Sort(domains));
  }

  lemma {:induction false} CollectErrors(kind: Kind, env: Env, parts: seq<string>, n: nat)
    requires n <= |parts| && Collect(kind, env, parts, n).Err?
    ensures Collect(kind, env, parts, |parts|) == Collect(kind, env, parts, n)
    decreases |parts| - n
  {
    if n < |parts| {
      CollectErrors(kind, env, parts, n + 1);
    }
  }

  ghost predicate SomePartIsRefused(kind: Kind, env: Env, parts: seq<string>) {
    exists part | part in parts :: NormalizeDomain(kind, env, part).Err?
  }

  ghost predicate Lists(kind: Kind, env: Env, parts: seq<string>, d: string) {
    d != "" && exists part | part in parts :: NormalizeDomain(kind, env, part) == Ok(d)
  }

  /** A list is refused exactly when some part is; otherwise it holds exactly the domains of its parts. */
  lemma {:induction false} CollectHoldsTheParts(kind: Kind, env: Env, parts: seq<string>, n: nat)
    requires n <= |parts|
    ensures var c := Collect(kind, env, parts, n);
            && (c.Err? <==> SomePartIsRefused(kind, env, parts[..n]))
            && (c.Ok? ==> Distinct(c.value) && forall d :: d in c.value <==> Lists(kind, env, parts[..n], d))
  {
    hide NormalizeDomain;
    if n > 0 {
      CollectHoldsTheParts(kind, env, parts, n - 1);
      assert parts[..n] == parts[..n - 1] + [parts[n - 1]];
    }
  }

  // ---- a domain in canonical form is its own canonical form ----

  lemma {:induction false} LabelChars(s: string)
    requires forall l | l in Labels(s) :: forall c | c in l :: HostChar(c)
    ensures forall c | c in s :: HostChar(c) || c == '.'
  {
    if s != [] {
      var rest := Labels(s[1..]);
      forall l | l in rest ensures forall c | c in l :: HostChar(c) {
        if s[0] != '.' && l == rest[0] {
          var first := [s[0]] + rest[0];
          assert Labels(s)[0] == first && first in Labels(s);
          forall c | c in l ensures HostChar(c) { assert c in first; }
        } else {
          var j :| 0 <= j < |rest| && rest[j] == l;
          assert l in Labels(s) by {
            assert Labels(s)[if s[0] == '.' then j + 1 else j] == l;
          }
        }
      }
      LabelChars(s[1..]);
      if s[0] != '.' {
        assert Labels(s)[0] in Labels(s) && s[0] in Labels(s)[0];
      }
      assert s == [s[0]] + s[1..];
    }
  }

  lemma CanonicalDomainIsStable(kind: Kind, env: Env, raw: string)
    requires KeepsHostNames(env) && NormalizeDomain(kind, env, raw).Ok? && NormalizeDomain(kind, env, raw).value != ""
    ensures var d := NormalizeDomain(kind, env, raw).value;
            NormalizeDomain(kind, env, d) == Ok(d) && forall c | c in d :: !IsSeparator(c)
  {
    hide CoreOf, Accepts;
    JudgedByCore(kind, env, raw);
    var d := NormalizeDomain(kind, env, raw).value;
    hide NormalizeDomain;
    AcceptedShape(kind, env, d);
    assert CoreOf(kind, env, d) == d by { NameIsItsCore(kind, env, d); }
    JudgedByCore(kind, env, d);
  }

  lemma AcceptedShape(kind: Kind, env: Env, d: string)
    requires d != "" && Accepts(kind, env, d)
    ensures (forall c | c in d :: HostChar(c) || c == '.') && d[0] != '.' && d[|d| - 1] != '.'
  {
    LabelChars(d);
  }

  lemma NameIsItsCore(kind: Kind, env: Env, d: string)
    requires KeepsHostNames(env) && d != "" && (forall c | c in d :: HostChar(c) || c == '.')
    requires d[0] != '.' && d[|d| - 1] != '.'
    ensures CoreOf(kind, env, d) == d
  {
    assert d[0] in d && d[|d| - 1] in d;
    assert TrimSpace(d) == d;
    assert Lower(env, d) == d by {
      assert forall i | 0 <= i < |d| :: d[i] in d;
    }
  }

  lemma {:induction false} WordOfJoin(w: string, rest: string)
    requires forall c | c in w :: !IsSeparator(c)
    requires rest == [] || IsSeparator(rest[0])
    ensures WordLength(w + rest) == |w|
  {
    if w == [] {
      assert w + rest == rest;
    } else {
      assert (w + rest)[1..] == w[1..] + rest;
      WordOfJoin(w[1..], rest);
    }
  }

  lemma FieldsOfWord(w: string, tail: string)
    requires w != "" && forall c | c in w :: !IsSeparator(c)
    requires tail == [] || IsSeparator(tail[0])
    ensures Fields(w + tail) == [w] + Fields(tail)
  {
    assert (w + tail)[0] == w[0] && w[0] in w;
    WordOfJoin(w, tail);
    assert (w + tail)[..|w|] == w && (w + tail)[|w|..] == tail;
  }

  lemma {:induction false} FieldsOfJoin(list: seq<string>)
    requires forall w | w in list :: w != "" && forall c | c in w :: !IsSeparator(c)
    ensures Fields(Join(list)) == list
  {
    hide WordLength;
    if list != [] {
      var w := list[0];
      var tail := if |list| == 1 then "" else ['\n'] + Join(list[1..]);
      assert Join(list) == w + tail;
      assert w in list;
      FieldsOfWord(w, tail);
      assert forall v | v in list[1..] :: v in list;
      FieldsOfJoin(list[1..]);
      if |list| > 1 { assert tail[1..] == Join(list[1..]); }
    }
  }

  lemma {:induction false} CollectOfCanonical(kind: Kind, env: Env, list: seq<string>, n: nat)
    requires n <= |list| && Distinct(list)
    requires forall d | d in list :: d != "" && NormalizeDomain(kind, env, d) == Ok(d)
    ensures Collect(kind, env, list, n) == Ok(list[..n])
  {
    hide NormalizeDomain;
    if n > 0 {
      CollectOfCanonical(kind, env, list, n - 1);
      assert list[n - 1] in list && list[n - 1] !in list[..n - 1];
      assert list[..n] == list[..n - 1] + [list[n - 1]];
    }
  }

  /** What a parse returns: strictly sorted, and exactly the domains of the parts. */
  lemma ParsedListIsCanonical(kind: Kind, env: Env, raw: string)
    ensures var p := Parse(kind, env, raw);
            && (p.Err? <==> SomePartIsRefused(kind, env, Fields(raw)))
            && (p.Ok? ==> StrictlySorted(p.value) && forall d :: d in p.value <==> Lists(kind, env, Fields(raw), d))
  {
    hide NormalizeDomain, Fields, Sort;
    var parts := Fields(raw);
    CollectHoldsTheParts(kind, env, parts, |parts|);
    assert parts[..|parts|] == parts;
    if Collect(kind, env, parts, |parts|).Ok? {
      SortSorts(Collect(kind, env, parts, |parts|).value);
    }
  }

  /** A saved list parses to what the raw list parses to, and saving it again changes nothing. */
  lemma SavedListIsCanonical(kind: Kind, env: Env, raw: string)
    requires KeepsHostNames(env) && Normalize(kind, env, raw).Ok?
    ensures var saved := Normalize(kind, env, raw).value;
            Parse(kind, env, saved) == Parse(kind, env, raw) && Normalize(kind, env, saved) == Ok(saved)
  {
    var list := Parse(kind, env, raw).value;
    ParsedListIsCanonical(kind, env, raw);
    forall d | d in list
      ensures d != "" && NormalizeDomain(kind, env, d) == Ok(d) && forall c | c in d :: !IsSeparator(c)
    {
      var part :| part in Fields(raw) && NormalizeDomain(kind, env, part) == Ok(d);
      CanonicalDomainIsStable(kind, env, part);
    }
    FieldsOfJoin(list);
    forall i, j | 0 <= i < j < |list| ensures list[i] != list[j] { LessTrichotomy(list[i], list[j]); }
    CollectOfCanonical(kind, env, list, |list|);
    assert list[..|list|] == list;
    SortOfSorted(list);
  }

  // ---- exactly which parts are accepted, and as what ----

  /** Labels joined by dots. */
  function Dotted(labels: seq<string>): string
    requires labels != []
  {
    if |labels| == 1 then labels[0] else labels[0] + ['.'] + Dotted(labels[1..])
  }

  predicate GoodLabel(l: string) {
    && 1 <= |l| <= 63 && (forall i | 0 <= i < |l| :: 'a' <= l[i] <= 'z' || '0' <= l[i] <= '9' || l[i] == '-')
    && l[0] != '-' && l[|l| - 1] != '-'
  }

  /** A name each list accepts: any host name but an address, or a name with a top-level domain, or both. */
  ghost predicate GoodName(kind: Kind, env: Env, labels: seq<string>) {
    && labels != [] && (forall i | 0 <= i < |labels| :: GoodLabel(labels[i]))
    && (kind != EmailWhitelist ==> !env.isIP(Dotted(labels)))
    && (kind == SSRFFilter ==> |Dotted(labels)| <= 253)
    && (kind != SSRFFilter ==> |labels| >= 2 && |labels[|labels| - 1]| >= 2)
  }

  predicate AllAre(s: string, c: char) {
    forall i | 0 <= i < |s| :: s[i] == c
  }

  /**
   * The part in lower case is the name, possibly with dots behind it, and in the e-mail list with
   * at signs before it.
   */
  ghost predicate ReadsAs(kind: Kind, env: Env, raw: string, d: string, front: string, back: string) {
    var part := TrimSpace(raw);
    && |front + d + back| == |part| && (forall i | 0 <= i < |part| :: (front + d + back)[i] == env.lower(part[i]))
    && AllAre(front, '@') && (kind != EmailWhitelist ==> front == "")
    && AllAre(back, '.')
  }

  lemma {:induction false} TrimmedRight(s: string, c: char) returns (back: string)
    ensures s == TrimRightOf(s, c) + back && AllAre(back, c)
    ensures var t := TrimRightOf(s, c); t != "" ==> t[|t| - 1] != c && t[0] == s[0]
  {
    if s != [] && s[|s| - 1] == c {
      back := TrimmedRight(s[..|s| - 1], c);
      back := back + [c];
    } else {
      back := [];
    }
  }

  lemma {:induction false} TrimmedLeft(s: string, c: char) returns (front: string)
    ensures s == front + TrimLeftOf(s, c) && AllAre(front, c)
    ensures var t := TrimLeftOf(s, c); t != "" ==> t[0] != c
  {
    if s != [] && s[0] == c {
      front := TrimmedLeft(s[1..], c);
      front := [c] + front;
    } else {
      front := [];
    }
  }

  lemma {:induction false} TrimRightStops(s: string, back: string, c: char)
    requires s != "" && s[|s| - 1] != c && AllAre(back, c)
    ensures TrimRightOf(s + back, c) == s
  {
    if back == [] {
      assert s + back == s;
    } else {
      assert (s + back)[..|s| + |back| - 1] == s + back[..|back| - 1];
      TrimRightStops(s, back[..|back| - 1], c);
    }
  }

  lemma {:induction false} TrimLeftStops(front: string, s: string, c: char)
    requires s != "" && s[0] != c && AllAre(front, c)
    ensures TrimLeftOf(front + s, c) == s
  {
    if front == [] {
      assert front + s == s;
    } else {
      assert (front + s)[1..] == front[1..] + s;
      TrimLeftStops(front[1..], s, c);
    }
  }

  lemma {:induction false} DottedLabels(s: string)
    ensures Dotted(Labels(s)) == s
  {
    if s != [] {
      var rest := Labels(s[1..]);
      DottedLabels(s[1..]);
      if s[0] == '.' {
        assert Labels(s)[1..] == rest;
      } else {
        assert Labels(s)[1..] == rest[1..];
        if |rest| > 1 { assert [s[0]]
                       + (rest[0] + ['.'] + Dotted(rest[1..])) == [s[0]] + rest[0] + ['.'] + Dotted(rest[1..]); }
      }
    }
  }

  lemma {:induction false} LabelsOfOne(l: string)
    requires '.' !in l
    ensures Labels(l) == [l]
  {
    if l != [] {
      assert l[0] in l && [l[0]] + l[1..] == l;
      LabelsOfOne(l[1..]);
    }
  }

  lemma {:induction false} LabelsOfJoin(l: string, rest: string)
    requires '.' !in l
    ensures Labels(l + ['.'] + rest) == [l] + Labels(rest)
  {
    var s := l + ['.'] + rest;
    if l == [] {
      assert s[1..] == rest;
    } else {
      assert l[0] in l && s[1..] == l[1..] + ['.'] + rest && [l[0]] + l[1..] == l;
      LabelsOfJoin(l[1..], rest);
    }
  }

  lemma {:induction false} LabelsOfDotted(labels: seq<string>)
    requires labels != [] && forall i | 0 <= i < |labels| :: '.' !in labels[i]
    ensures Labels(Dotted(labels)) == labels
  {
    if |labels| == 1 {
      LabelsOfOne(labels[0]);
    } else {
      LabelsOfDotted(labels[1..]);
      LabelsOfJoin(labels[0], Dotted(labels[1..]));
    }
  }

  lemma GoodLabelExactly(l: string)
    ensures ValidLabel(l) <==> GoodLabel(l)
    ensures GoodLabel(l) ==> '.' !in l
  {
    if GoodLabel(l) { assert forall c | c in l :: HostChar(c); }
    if ValidLabel(l) { assert forall i | 0 <= i < |l| :: l[i] in l; }
  }

  /** A text of good labels has a valid shape: its dots stand alone and not at its ends. */
  lemma {:induction false} DottedShape(labels: seq<string>)
    requires labels != [] && forall i | 0 <= i < |labels| :: GoodLabel(labels[i])
    ensures var d := Dotted(labels);
            && d != "" && HostChar(d[0]) && HostChar(d[|d| - 1])
            && !ContainsPair(d, '.') && forall c | c in d :: HostChar(c) || c == '.'
  {
    var d, l := Dotted(labels), labels[0];
    assert forall i | 0 <= i < |l| :: HostChar(l[i]);
    if |labels| > 1 {
      DottedShape(labels[1..]);
      var rest := Dotted(labels[1..]);
      assert d == l + (['.'] + rest);
      forall i | 0 <= i < |d| - 1 ensures !(d[i] == '.' && d[i + 1] == '.') {
        if i > |l| { assert d[i] == rest[i - |l| - 1] && d[i + 1] == rest[i - |l|]; }
      }
    }
  }

  /** The checks on a whole name accept exactly the good ones. */
  lemma NameExactly(kind: Kind, env: Env, d: string)
    requires d != ""
    ensures Accepts(kind, env, d) <==> exists labels :: GoodName(kind, env, labels) && d == Dotted(labels)
  {
    hide Accepts, GoodLabel, Dotted;
    if Accepts(kind, env, d) { AcceptedIsGood(kind, env, d); }
    if labels :| GoodName(kind, env, labels) && d == Dotted(labels) { GoodIsAccepted(kind, env, labels); }
  }

  lemma AcceptedIsGood(kind: Kind, env: Env, d: string)
    requires d != "" && Accepts(kind, env, d)
    ensures GoodName(kind, env, Labels(d)) && d == Dotted(Labels(d))
  {
    hide Labels, ContainsAny, ValidLabel, GoodLabel;
    DottedLabels(d);
    var labels := Labels(d);
    forall i | 0 <= i < |labels| ensures GoodLabel(labels[i]) {
      assert labels[i] in labels;
      GoodLabelExactly(labels[i]);
    }
  }

  lemma GoodIsAccepted(kind: Kind, env: Env, labels: seq<string>)
    requires GoodName(kind, env, labels)
    ensures Accepts(kind, env, Dotted(labels))
  {
    hide Labels, ContainsAny, ContainsPair, ValidLabel, GoodLabel, Dotted;
    DottedShape(labels);
    forall i | 0 <= i < |labels| ensures ValidLabel(labels[i]) && '.' !in labels[i] { GoodLabelExactly(labels[i]); }
    LabelsOfDotted(labels);
    NoOtherChars(Dotted(labels));
  }

  lemma NoOtherChars(d: string)
    requires forall c | c in d :: HostChar(c) || c == '.'
    ensures !ContainsAny(d, "/\\@?#: \t\r\n") && !ContainsAny(d, "/\\@?#:")
  {
  }

  predicate Accepts(kind: Kind, env: Env, d: string) {
    match kind
    case EmailWhitelist => ValidEmailDomain(d)
    case SSRFFilter => !ContainsAny(d, "/\\@?#: \t\r\n") && !env.isIP(d) && ValidHostname(d)
    case IconProxyWhitelist => !ContainsAny(d, "/\\@?#:") && !env.isIP(d) && ValidEmailDomain(d)
  }

  /** What is left of a part before it is judged. */
  function CoreOf(kind: Kind, env: Env, raw: string): string {
    var lowered := Lower(env, TrimSpace(raw));
    TrimRightOf(if kind == EmailWhitelist then TrimLeftOf(lowered, '@') else lowered, '.')
  }

  lemma JudgedByCore(kind: Kind, env: Env, raw: string)
    ensures NormalizeDomain(kind, env, raw)
            == var d := CoreOf(kind, env, raw); if d == "" || Accepts(kind, env, d) then Ok(d) else Err(InvalidList)
  {
    hide TrimSpace, Lower, TrimRightOf, TrimLeftOf, ValidEmailDomain, ValidHostname, ContainsAny;
  }

  lemma CoreReads(kind: Kind, env: Env, raw: string) returns (front: string, back: string)
    ensures ReadsAs(kind, env, raw, CoreOf(kind, env, raw), front, back)
  {
    hide TrimSpace;
    var lowered := Lower(env, TrimSpace(raw));
    var inner := if kind == EmailWhitelist then TrimLeftOf(lowered, '@') else lowered;
    front := "";
    if kind == EmailWhitelist { front := TrimmedLeft(lowered, '@'); }
    back := TrimmedRight(inner, '.');
    assert lowered == front + CoreOf(kind, env, raw) + back;
  }

  /**
   * A part is accepted as a domain exactly if, trimmed and in lower case, it reads as a good name;
   * it is skipped exactly if nothing but dots (and at signs before them, for e-mail) is left.
   */
  lemma DomainExactly(kind: Kind, env: Env, raw: string, d: string)
    ensures d != "" ==>
              (NormalizeDomain(kind, env, raw) == Ok(d)
               <==> (exists labels :: GoodName(kind, env, labels) && d == Dotted(labels))
                    && exists front, back :: ReadsAs(kind, env, raw, d, front, back))
    ensures NormalizeDomain(kind, env, raw) == Ok("")
            <==> exists front, back :: ReadsAs(kind, env, raw, "", front, back)
  {
    hide CoreOf, Accepts, NormalizeDomain, ReadsAs, GoodName, Dotted;
    JudgedByCore(kind, env, raw);
    var front, back := CoreReads(kind, env, raw);
    if d != "" {
      NameExactly(kind, env, d);
      if Accepts(kind, env, d) {
        AcceptedEnds(kind, env, d);
        forall f, b | ReadsAs(kind, env, raw, d, f, b) ensures CoreOf(kind, env, raw) == d {
          CoreIs(kind, env, raw, d, f, b);
        }
      }
    }
    forall f, b | ReadsAs(kind, env, raw, "", f, b) ensures CoreOf(kind, env, raw) == "" {
      NothingLeft(kind, env, raw, f, b);
    }
  }

  lemma AcceptedEnds(kind: Kind, env: Env, d: string)
    requires d != "" && Accepts(kind, env, d)
    ensures d[0] != '@' && d[|d| - 1] != '.'
  {
    LabelChars(d);
    assert d[0] in d;
  }

  lemma CoreIs(kind: Kind, env: Env, raw: string, d: string, front: string, back: string)
    requires ReadsAs(kind, env, raw, d, front, back) && d != "" && d[0] != '@' && d[|d| - 1] != '.'
    ensures CoreOf(kind, env, raw) == d
  {
    hide TrimSpace;
    var lowered := Lower(env, TrimSpace(raw));
    assert lowered == front + (d + back);
    if kind == EmailWhitelist { TrimLeftStops(front, d + back, '@'); } else { assert lowered == d + back; }
    TrimRightStops(d, back, '.');
  }

  lemma NothingLeft(kind: Kind, env: Env, raw: string, front: string, back: string)
    requires ReadsAs(kind, env, raw, "", front, back)
    ensures CoreOf(kind, env, raw) == ""
  {
    hide TrimSpace;
    var lowered := Lower(env, TrimSpace(raw));
    assert lowered == front + back;
    if kind == EmailWhitelist {
      AllTrimmedLeft(front, back);
    } else {
      assert lowered == back;
    }
    AllTrimmedRight(back);
  }

  lemma {:induction false} AllTrimmedRight(back: string)
    requires AllAre(back, '.')
    ensures TrimRightOf(back, '.') == ""
  {
    if back != [] {
      AllTrimmedRight(back[..|back| - 1]);
    }
  }

  lemma {:induction false} AllTrimmedLeft(front: string, back: string)
    requires AllAre(front, '@') && AllAre(back, '.')
    ensures TrimLeftOf(front + back, '@') == back
  {
    if front == [] {
      assert front + back == back;
      
    } else {
      assert (front + back)[1..] == front[1..] + back;
      AllTrimmedLeft(front[1..], back);
    }
  }

  /**
   * A list is saved exactly if no part of it is refused and its text is no longer than 500 octets;
   * an empty one as empty.
   */
  lemma SavedExactly(kind: Kind, env: Env, raw: string)
    ensures Normalize(kind, env, raw).Ok?
            <==> !SomePartIsRefused(kind, env, Fields(raw))
                 && Parse(kind, env, raw).Ok?
                 && (Parse(kind, env, raw).value == [] || Octets(Join(Parse(kind, env, raw).value)) <= 500)
    ensures Normalize(kind, env, raw).Ok? ==> Normalize(kind, env, raw).value == Join(Parse(kind, env, raw).value)
    ensures Parse(kind, env, raw).Ok? && Normalize(kind, env, raw).Err? ==>
              Normalize(kind, env, raw).error == ListTooLong
  {
    hide Parse, SomePartIsRefused, Octets;
    ParsedListIsCanonical(kind, env, raw);
  }

  /** The parts of a text are its longest runs without separators: the text falls apart at the separators alone. */
  lemma {:induction false} FieldsExactly(s: string)
    ensures forall w | w in Fields(s) :: w != "" && forall c | c in w :: c !in "\n,;"
    ensures Concat(Fields(s)) == WithoutSeparators(s)
    ensures s != "" && s[0] in "\n,;" ==> Fields(s) == Fields(s[1..])
    ensures forall a, b | s == a + b && a != "" && (forall c | c in a :: c !in "\n,;")
            && (b != "" ==> b[0] in "\n,;") ::
              Fields(s) == [a] + Fields(b)
    decreases |s|
  {
    if s != [] {
      if IsSeparator(s[0]) {
        FieldsExactly(s[1..]);
      } else {
        var n := WordLength(s);
        WordExactly(s);
        FieldsExactly(s[n..]);
        assert s == s[..n] + s[n..];
        WithoutSeparatorsOfJoin(s[..n], s[n..]);
        WithoutSeparatorsOfWord(s[..n]);
      }
      forall a, b | s == a + b && a != "" && (forall c | c in a :: c !in "\n,;") && (b != "" ==> b[0] in "\n,;")
        ensures Fields(s) == [a] + Fields(b)
      {
        FieldsOfWord(a, b);
      }
    }
  }

  function Concat(words: seq<string>): string {
    if words == [] then "" else words[0] + Concat(words[1..])
  }

  function WithoutSeparators(s: string): string {
    if s == [] then [] else (if s[0] in "\n,;" then [] else [s[0]]) + WithoutSeparators(s[1..])
  }

  lemma {:induction false} WordExactly(s: string)
    ensures forall c | c in s[..WordLength(s)] :: c !in "\n,;"
    ensures s != "" && !IsSeparator(s[0]) ==> WordLength(s) > 0
  {
    if s != [] && !IsSeparator(s[0]) {
      WordExactly(s[1..]);
      assert s[..WordLength(s)] == [s[0]] + s[1..][..WordLength(s[1..])];
    }
  }

  lemma {:induction false} WithoutSeparatorsOfJoin(a: string, b: string)
    ensures WithoutSeparators(a + b) == WithoutSeparators(a) + WithoutSeparators(b)
  {
    if a == [] {
      assert a + b == b;
    } else {
      assert (a + b)[1..] == a[1..] + b;
      WithoutSeparatorsOfJoin(a[1..], b);
    }
  }

  lemma {:induction false} WithoutSeparatorsOfWord(w: string)
    requires forall c | c in w :: c !in "\n,;"
    ensures WithoutSeparators(w) == w
  {
    if w != [] {
      assert w[0] in w;
      WithoutSeparatorsOfWord(w[1..]);
    }
  }

  /** A saved list is a text of host characters and dots, with nothing but newlines between its domains. */
  lemma SavedTextExactly(kind: Kind, env: Env, raw: string)
    requires Normalize(kind, env, raw).Ok?
    ensures forall c | c in Normalize(kind, env, raw).value :: HostChar(c) || c == '.' || c == '\n'
  {
    hide Parse, NormalizeDomain, SomePartIsRefused, Octets;
    ParsedListIsCanonical(kind, env, raw);
    if Parse(kind, env, raw).Ok? {
      var list := Parse(kind, env, raw).value;
      forall i | 0 <= i < |list| ensures forall c | c in list[i] :: HostChar(c) || c == '.' {
        assert list[i] in list;
        var part :| part in Fields(raw) && NormalizeDomain(kind, env, part) == Ok(list[i]);
        SavedNameShape(kind, env, part);
      }
      JoinedChars(list);
    }
  }

  lemma SavedNameShape(kind: Kind, env: Env, part: string)
    requires NormalizeDomain(kind, env, part).Ok? && NormalizeDomain(kind, env, part).value != ""
    ensures forall c | c in NormalizeDomain(kind, env, part).value :: HostChar(c) || c == '.'
  {
    hide CoreOf, Accepts;
    JudgedByCore(kind, env, part);
    hide NormalizeDomain;
    AcceptedShape(kind, env, CoreOf(kind, env, part));
  }

  lemma {:induction false} JoinedChars(list: seq<string>)
    requires forall i | 0 <= i < |list| :: forall c | c in list[i] :: HostChar(c) || c == '.'
    ensures forall c | c in Join(list) :: HostChar(c) || c == '.' || c == '\n'
  {
    if |list| > 1 { JoinedChars(list[1..]); }
  }
}
