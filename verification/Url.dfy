/** `url`: the section loop that parses a URL, and the printer (section 3 of RFC 3986). */
module Url {
  import opened Text

  datatype Scheme = Http | Https | Unknown

  datatype Url = Url(
    scheme: string, kind: Scheme,
    hasUserinfo: bool, username: string, password: string,
    hostname: string, port: nat, portText: string,
    path: string, query: string, fragment: string)

  /** A `url` before anything is parsed into it. */
  const BLANK: Url := Url("unknown", Unknown, false, "", "", "", 0, "", "", "", "")

  function KindOf(scheme: string): Scheme {
    if scheme == "http" then Http else if scheme == "https" then Https else Unknown
  }

  // ----- the printer -----

  predicate IsAbsolute(u: Url) {
    u.path != "" && u.path[0] == '/'
  }

  predicate HasAuthority(u: Url) {
    u.hasUserinfo || u.hostname != "" || u.portText != ""
  }

  function Userinfo(u: Url): string {
    if u.hasUserinfo then u.username + (if u.password != "" then [':'] + u.password else "") else ""
  }

  function Host(u: Url): string {
    u.hostname + (if u.hostname != "" && u.portText != "" then [':'] else "") + u.portText
  }

  function Authority(u: Url): string {
    Userinfo(u) + (if u.hasUserinfo && (u.hostname != "" || u.portText != "") then ['@'] else "") + Host(u)
  }

  function ToString(u: Url): string {
    (if u.scheme != "" then u.scheme + [':'] else "")
    + (if HasAuthority(u) then "//" + Authority(u) + (if u.path != "" && !IsAbsolute(u) then ['/'] else "") else "")
    + u.path
    + (if u.query != "" then ['?'] + u.query else "")
    + (if u.fragment != "" then ['?'] + u.fragment else "")
  }

  // ----- the section loop -----

  datatype Section = SchemePart | AuthStart | HostPart | PortPart | PathPart | QueryPart | FragPart

  datatype State = State(url: Url, section: Section, pos: nat)

  datatype Outcome = Next(state: State) | Invalid

  /** How the text of a port becomes a number; it may refuse. */
  type ToPort = string -> Option<nat>

  /** Where a host or port ends, and what starts there: `#` first, then `?`, then `/`. */
  function EndOfAuthority(data: string, pos: nat): (r: (nat, Section))
    requires pos <= |data|
    ensures pos <= r.0 <= |data|
  {
    var p, q, f := IndexOf(data, '/', pos), IndexOf(data, '?', pos), IndexOf(data, '#', pos);
    if f > -1 && (q == -1 || q > f) && (p == -1 || p > f) then (f, FragPart)
    else if q > -1 && (p == -1 || p > q) then (q, QueryPart)
    else if p > -1 then (p, PathPart)
    else (|data|, HostPart)
  }

  predicate InBounds(data: string, s: State) {
    s.pos <= |data| && (s.section == SchemePart && s.pos < |data| ==> s.pos == 0)
  }

  /** The turn from `s` to `s'` moves on and stays inside the text. */
  predicate Advances(data: string, s: State, s': State) {
    s.pos < s'.pos && InBounds(data, s')
  }

  function ParseScheme(data: string, s: State): (r: Outcome)
    requires s.pos == 0 < |data|
    ensures r.Next? ==> Advances(data, s, r.state)
  {
    var i := IndexOf(data, ':', 0);
    if i < 0 then Invalid
    else
      var scheme := Lower(data[..i]);
      var u := s.url.(scheme := scheme, kind := KindOf(scheme));
      var i2 := IndexOf(data, '/', i + 1);
      if i2 == i + 1 && IndexOf(data, '/', i2 + 1) == i2 + 1 then Next(State(u, AuthStart, i + 3))
      else if i2 == i + 1 then Next(State(u, PathPart, i + 1))
      else if |data| == i + 1 then Next(State(u, SchemePart, i + 1))
      else Next(State(u, if data[i + 1] == '?' then QueryPart else if data[i + 1] == '#' then FragPart else PathPart, i + 1))
  }

  function ParseUser(data: string, s: State, at: nat): (r: Outcome)
    requires s.pos <= at < |data|
    ensures r.Next? ==> Advances(data, s, r.state)
  {
    var i := IndexOf(data, ':', s.pos);
    var u := if i > 1 && i < at
             then s.url.(hasUserinfo := true, username := data[s.pos..i], password := data[i + 1..at])
             else s.url.(hasUserinfo := true, username := data[s.pos..at], password := "");
    Next(State(u, HostPart, at + 1))
  }

  function ParseHost(data: string, s: State): (r: Outcome)
    requires s.pos < |data|
    ensures r.Next? ==> Advances(data, s, r.state)
  {
    var i := IndexOf(data, ':', s.pos);
    if i > -1 then Next(State(s.url.(hostname := data[s.pos..i]), PortPart, i + 1))
    else
      var (end, next) := EndOfAuthority(data, s.pos);
      Next(State(s.url.(hostname := data[s.pos..end]), next, if end < |data| then end + 1 else end))
  }

  function ParsePort(toPort: ToPort, data: string, s: State): (r: Outcome)
    requires s.pos < |data|
    ensures r.Next? ==> Advances(data, s, r.state)
  {
    var (end, next) := EndOfAuthority(data, s.pos);
    var text := data[s.pos..end];
    match toPort(text)
    case None => Invalid
    case Some(port) =>
      Next(State(s.url.(portText := text, port := port), if next == HostPart then PortPart else next,
                 if end < |data| then end + 1 else end))
  }

  function ParsePath(data: string, s: State): (r: Outcome)
    requires s.pos < |data|
    ensures r.Next? ==> Advances(data, s, r.state)
  {
    var q, f := IndexOf(data, '?', s.pos), IndexOf(data, '#', s.pos);
    if f > -1 && (q == -1 || q > f) then Next(State(s.url.(path := data[s.pos..f]), FragPart, f + 1))
    else if q > -1 then Next(State(s.url.(path := data[s.pos..q]), QueryPart, q + 1))
    else Next(State(s.url.(path := data[s.pos..]), PathPart, |data|))
  }

  function ParseQuery(data: string, s: State): (r: Outcome)
    requires s.pos < |data|
    ensures r.Next? ==> Advances(data, s, r.state)
  {
    var f := IndexOf(data, '#', s.pos);
    if f > -1 then Next(State(s.url.(query := data[s.pos..f]), FragPart, f + 1))
    else Next(State(s.url.(query := data[s.pos..]), QueryPart, |data|))
  }

  /** One turn of the loop. */
  function Step(toPort: ToPort, data: string, s: State): Outcome
    requires s.pos < |data| && (s.section == SchemePart ==> s.pos == 0)
  {
    match s.section
    case SchemePart => ParseScheme(data, s)
    case AuthStart =>
      var at := IndexOf(data, '@', s.pos);
      if at > -1 then ParseUser(data, s, at)
      else ParseHost(data, s.(url := s.url.(hasUserinfo := false)))
    case HostPart => ParseHost(data, s)
    case PortPart => ParsePort(toPort, data, s)
    case PathPart => ParsePath(data, s)
    case QueryPart => ParseQuery(data, s)
    case FragPart => Next(State(s.url.(fragment := data[s.pos..]), FragPart, |data|))
  }

  /** On any input every turn moves on and stays inside the text, so parsing ends. */
  lemma {:induction false} StepAdvances(toPort: ToPort, data: string, s: State)
    requires InBounds(data, s) && s.pos < |data|
    ensures Step(toPort, data, s).Next? ==> Advances(data, s, Step(toPort, data, s).state)
  {
  }

  function ParseFrom(toPort: ToPort, data: string, s: State): Option<Url>
    requires InBounds(data, s)
    decreases |data| - s.pos
  {
    if s.pos >= |data| then Some(s.url)
    else
      StepAdvances(toPort, data, s);
      match Step(toPort, data, s)
      case Invalid => None
      case Next(s') => ParseFrom(toPort, data, s')
  }

  function FirstSection(data: string): Section
    requires data != ""
  {
    if data[0] == '/' && |data| > 1 && data[1] == '/' then AuthStart
    else if data[0] == '/' then PathPart
    else if data[0] == '?' then QueryPart
    else if data[0] == '#' then FragPart
    else SchemePart
  }

  function Parse(toPort: ToPort, data: string): Option<Url> {
    if data == "" then Some(BLANK) else ParseFrom(toPort, data, State(BLANK, FirstSection(data), 0))
  }

  /** `url::_parse` */
  method ParseUrl(toPort: ToPort, data: string) returns (r: Option<Url>)
    ensures r == Parse(toPort, data)
  {
    if data == "" {
      return Some(BLANK);
    }
    var s := State(BLANK, FirstSection(data), 0);
    while s.pos < |data|
      invariant InBounds(data, s)
      invariant ParseFrom(toPort, data, s) == Parse(toPort, data)
      decreases |data| - s.pos
    {
      StepAdvances(toPort, data, s);
      match Step(toPort, data, s)
      case Invalid => return None;
      case Next(s') => s := s';
    }
    return Some(s.url);
  }

  // ----- printing, then parsing -----

  /** No character of `cs` occurs in `s`. */
  predicate Lacks(s: string, cs: string) {
    forall c :: c in cs ==> c !in s
  }

  /** A fragment-free record whose fields do not hold the character that ends them. */
  predicate Plausible(toPort: ToPort, u: Url) {
    && u.scheme != "" && ':' !in u.scheme && Lower(u.scheme) == u.scheme && u.kind == KindOf(u.scheme)
    && u.scheme[0] != '/' && u.scheme[0] != '?' && u.scheme[0] != '#'
    && u.hostname != "" && Lacks(u.hostname, ":/?#")
    && (if u.hasUserinfo then '@' !in u.username && ':' !in u.username && '@' !in u.password
        else u.username == "" && u.password == "")
    && (if u.portText != "" then Lacks(u.portText, "/?#") && toPort(u.portText) == Some(u.port) else u.port == 0)
    && '#' !in u.path && '?' !in u.path && '#' !in u.query
    && !IsAbsolute(u)
    && u.fragment == ""
  }

  /** Where an optional part is missing, the character that would announce it does not occur later. */
  predicate Delimited(u: Url) {
    (!u.hasUserinfo ==> '@' !in Host(u) + Tail(u)) && (u.portText == "" ==> ':' !in Tail(u))
  }

  predicate WellFormed(toPort: ToPort, u: Url) {
    Plausible(toPort, u) && Delimited(u)
  }

  /** What is printed after the authority. */
  function Tail(u: Url): string {
    (if u.path != "" then ['/'] + u.path else "") + (if u.query != "" then ['?'] + u.query else "")
  }

  lemma {:induction false} Regrouped(a: string, b: string, c: string, d: string, e: string, f: string)
    ensures a + (b + c + d) + e + f + "" == (a + b) + c + ((d + e) + f)
  {
    Assoc(a, b + c, d);
    Assoc(a, b, c);
    Assoc(a + b + c, d, e);
    Assoc(a + b + c, d + e, f);
  }

  lemma {:induction false} PrintedText(toPort: ToPort, u: Url)
    requires Plausible(toPort, u)
    ensures ToString(u) == (u.scheme + "://") + Authority(u) + Tail(u)
  {
    var slash := if u.path != "" then ['/'] else "";
    var query := if u.query != "" then ['?'] + u.query else "";
    Regrouped(u.scheme + [':'], "//", Authority(u), slash, u.path, query);
    assert u.scheme + [':'] + "//" == u.scheme + "://";
    assert slash + u.path == if u.path != "" then ['/'] + u.path else "";
  }

  lemma {:induction false} Absent(pre: string, x: string, c: char)
    requires c !in x
    ensures IndexOf(pre + x, c, |pre|) == -1
  {
    assert forall k :: |pre| <= k < |pre + x| ==> (pre + x)[k] == x[k - |pre|];
  }

  lemma {:induction false} AbsentFromBoth(pre: string, x: string, rest: string, c: char)
    requires c !in x && c !in rest
    ensures IndexOf(pre + x + rest, c, |pre|) == -1
  {
    Assoc(pre, x, rest);
    Absent(pre, x + rest, c);
  }

  lemma {:induction false} NotBefore(pre: string, x: string, rest: string, c: char)
    requires c !in x
    ensures IndexOf(pre + x + rest, c, |pre|) == -1 || IndexOf(pre + x + rest, c, |pre|) >= |pre| + |x|
  {
    assert forall k :: |pre| <= k < |pre| + |x| ==> (pre + x + rest)[k] == x[k - |pre|];
  }

  lemma {:induction false} ParseStep(toPort: ToPort, data: string, s: State, s': State)
    requires InBounds(data, s) && s.pos < |data| && Step(toPort, data, s) == Next(s')
    ensures InBounds(data, s') && ParseFrom(toPort, data, s) == ParseFrom(toPort, data, s')
  {
    StepAdvances(toPort, data, s);
  }

  /** A host or port `x` ends where the path starts, */
  lemma {:induction false} EndAtSlash(pre: string, x: string, rest: string)
    requires '/' !in x && '?' !in x && '#' !in x && '#' !in rest
    ensures EndOfAuthority(pre + x + ['/'] + rest, |pre|) == (|pre| + |x|, PathPart)
  {
    var tail := ['/'] + rest;
    Assoc(pre + x, ['/'], rest);
    IndexAfter(pre, x, '/', rest);
    NotBefore(pre, x, tail, '?');
    assert (pre + x + tail)[|pre| + |x|] == '/';
    Assoc(pre, x, tail);
    Absent(pre, x + tail, '#');
  }

  /** or where the query starts, */
  lemma {:induction false} EndAtQuery(pre: string, x: string, rest: string)
    requires '/' !in x && '?' !in x && '#' !in x && '#' !in rest
    ensures EndOfAuthority(pre + x + ['?'] + rest, |pre|) == (|pre| + |x|, QueryPart)
  {
    var tail := ['?'] + rest;
    Assoc(pre + x, ['?'], rest);
    IndexAfter(pre, x, '?', rest);
    NotBefore(pre, x, tail, '/');
    assert (pre + x + tail)[|pre| + |x|] == '?';
    Assoc(pre, x, tail);
    Absent(pre, x + tail, '#');
  }

  /** or with the text. */
  lemma {:induction false} EndAtEnd(pre: string, x: string)
    requires '/' !in x && '?' !in x && '#' !in x
    ensures EndOfAuthority(pre + x, |pre|) == (|pre| + |x|, HostPart)
  {
    Absent(pre, x, '/');
    Absent(pre, x, '?');
    Absent(pre, x, '#');
  }

  function TailSection(u: Url): Section {
    if u.path != "" then PathPart else if u.query != "" then QueryPart else HostPart
  }

  lemma {:induction false} EndFound(pre: string, x: string, u: Url)
    requires '/' !in x && '?' !in x && '#' !in x && '#' !in u.path && '#' !in u.query
    ensures EndOfAuthority(pre + x + Tail(u), |pre|) == (|pre| + |x|, TailSection(u))
  {
    var query := if u.query != "" then ['?'] + u.query else "";
    if u.path != "" {
      EndAtSlash(pre, x, u.path + query);
      Assoc(['/'], u.path, query);
      Assoc(pre + x, ['/'], u.path + query);
    } else if u.query != "" {
      EndAtQuery(pre, x, u.query);
      Assoc(pre + x, ['?'], u.query);
      assert Tail(u) == ['?'] + u.query;
    } else {
      EndAtEnd(pre, x);
      assert pre + x + Tail(u) == pre + x;
    }
  }

  lemma {:induction false} QueryParses(toPort: ToPort, pre: string, query: string, v: Url)
    requires query != "" && '#' !in query
    ensures ParseFrom(toPort, pre + query, State(v, QueryPart, |pre|)) == Some(v.(query := query))
  {
    var data := pre + query;
    Absent(pre, query, '#');
    assert data[|pre|..] == query;
    ParseStep(toPort, data, State(v, QueryPart, |pre|), State(v.(query := query), QueryPart, |data|));
  }

  lemma {:induction false} PathParses(toPort: ToPort, pre: string, path: string, v: Url)
    requires path != "" && '#' !in path && '?' !in path
    ensures ParseFrom(toPort, pre + path, State(v, PathPart, |pre|)) == Some(v.(path := path))
  {
    var data := pre + path;
    Absent(pre, path, '#');
    Absent(pre, path, '?');
    assert data[|pre|..] == path;
    ParseStep(toPort, data, State(v, PathPart, |pre|), State(v.(path := path), PathPart, |data|));
  }

  lemma {:induction false} PathStep(toPort: ToPort, data: string, v: Url, pos: nat, q: nat, path: string)
    requires pos < |data| && IndexOf(data, '?', pos) == q && IndexOf(data, '#', pos) == -1
    requires pos <= q <= |data| && data[pos..q] == path
    ensures Step(toPort, data, State(v, PathPart, pos)) == Next(State(v.(path := path), QueryPart, q + 1))
  {
  }

  lemma {:induction false} PathToQuery(toPort: ToPort, pre: string, path: string, query: string, v: Url)
    requires path != "" && '#' !in path && '?' !in path && '#' !in query
    ensures Step(toPort, pre + path + ['?'] + query, State(v, PathPart, |pre|)) ==
            Next(State(v.(path := path), QueryPart, |pre + path + ['?']|))
  {
    IndexAfter(pre, path, '?', query);
    Assoc(pre + path, ['?'], query);
    AbsentFromBoth(pre, path, ['?'] + query, '#');
    SliceOf(pre, path, ['?'] + query);
    PathStep(toPort, pre + path + ['?'] + query, v, |pre|, |pre| + |path|, path);
  }

  lemma {:induction false} PathQueryParses(toPort: ToPort, pre: string, path: string, query: string, v: Url)
    requires path != "" && query != "" && '#' !in path && '?' !in path && '#' !in query
    ensures ParseFrom(toPort, pre + path + ['?'] + query, State(v, PathPart, |pre|)) ==
            Some(v.(path := path, query := query))
  {
    var pre' := pre + path + ['?'];
    PathToQuery(toPort, pre, path, query, v);
    ParseStep(toPort, pre' + query, State(v, PathPart, |pre|), State(v.(path := path), QueryPart, |pre'|));
    QueryParses(toPort, pre', query, v.(path := path));
  }

  /** The claim about the sections after the authority. */
  ghost predicate TailIsRead(toPort: ToPort, pre: string, u: Url, v: Url) {
    var data := pre + Tail(u);
    var s := State(v, TailSection(u), if Tail(u) == "" then |data| else |pre| + 1);
    InBounds(data, s) && ParseFrom(toPort, data, s) == Some(v.(path := u.path, query := u.query))
  }

  lemma {:induction false} PathTail(toPort: ToPort, pre: string, u: Url, v: Url)
    requires '#' !in u.path && '?' !in u.path && u.path != "" && u.query == "" && v.path == "" && v.query == ""
    ensures TailIsRead(toPort, pre, u, v)
  {
    PathParses(toPort, pre + ['/'], u.path, v);
    assert pre + Tail(u) == pre + ['/'] + u.path;
  }

  lemma {:induction false} QueryTail(toPort: ToPort, pre: string, u: Url, v: Url)
    requires '#' !in u.query && u.path == "" && u.query != "" && v.path == "" && v.query == ""
    ensures TailIsRead(toPort, pre, u, v)
  {
    QueryParses(toPort, pre + ['?'], u.query, v);
    assert pre + Tail(u) == pre + ['?'] + u.query;
  }

  lemma {:induction false} TailParses(toPort: ToPort, pre: string, u: Url, v: Url)
    requires '#' !in u.path && '#' !in u.query && '?' !in u.path && v.path == "" && v.query == ""
    ensures TailIsRead(toPort, pre, u, v)
  {
    if u.path != "" && u.query != "" {
      PathQueryParses(toPort, pre + ['/'], u.path, u.query, v);
      TailText(pre, u.path, u.query);
    } else if u.path != "" {
      PathTail(toPort, pre, u, v);
    } else if u.query != "" {
      QueryTail(toPort, pre, u, v);
    }
  }

  lemma {:induction false} TailText(pre: string, path: string, query: string)
    ensures pre + ((['/'] + path) + (['?'] + query)) == pre + ['/'] + path + ['?'] + query
  {
    Assoc(['/'] + path, ['?'], query);
    Assoc(pre, ['/'] + path + ['?'], query);
    Assoc(pre, ['/'] + path, ['?']);
    Assoc(pre, ['/'], path);
  }

  predicate TailOk(u: Url) {
    '#' !in u.path && '#' !in u.query && '?' !in u.path
  }

  predicate NoDelimiter(x: string) {
    '/' !in x && '?' !in x && '#' !in x
  }

  /** What is left once a host or port has ended at `end`. */
  lemma {:induction false} AfterAuthority(toPort: ToPort, pre: string, u: Url, v: Url, section: Section)
    requires TailOk(u) && v.path == "" && v.query == ""
    requires section == TailSection(u) || (Tail(u) == "" && section == PortPart)
    ensures var data := pre + Tail(u);
            var s := State(v, section, if |pre| < |data| then |pre| + 1 else |pre|);
            InBounds(data, s) && ParseFrom(toPort, data, s) == Some(v.(path := u.path, query := u.query))
  {
    TailParses(toPort, pre, u, v);
  }

  lemma {:induction false} PortStep(toPort: ToPort, data: string, v: Url, pos: nat, end: nat, section: Section, text: string, port: nat)
    requires pos < |data| && EndOfAuthority(data, pos) == (end, section) && end <= |data|
    requires pos <= end && data[pos..end] == text && toPort(text) == Some(port)
    ensures Step(toPort, data, State(v, PortPart, pos)) ==
            Next(State(v.(portText := text, port := port), if section == HostPart then PortPart else section,
                       if end < |data| then end + 1 else end))
  {
  }

  lemma {:induction false} HostStep(toPort: ToPort, data: string, v: Url, pos: nat, end: nat, section: Section, text: string)
    requires pos < |data| && IndexOf(data, ':', pos) == -1 && EndOfAuthority(data, pos) == (end, section)
    requires pos <= end <= |data| && data[pos..end] == text
    ensures Step(toPort, data, State(v, HostPart, pos)) ==
            Next(State(v.(hostname := text), section, if end < |data| then end + 1 else end))
  {
  }

  function AfterEnd(data: string, end: nat): nat {
    if end < |data| then end + 1 else end
  }

  function PortTailSection(u: Url): Section {
    if TailSection(u) == HostPart then PortPart else TailSection(u)
  }

  lemma {:induction false} PortToTail(toPort: ToPort, pre: string, u: Url, v: Url)
    requires u.portText != "" && NoDelimiter(u.portText) && toPort(u.portText) == Some(u.port) && TailOk(u)
    ensures var data := pre + u.portText + Tail(u);
            Step(toPort, data, State(v, PortPart, |pre|)) ==
            Next(State(v.(portText := u.portText, port := u.port), PortTailSection(u),
                       AfterEnd(data, |pre + u.portText|)))
  {
    EndFound(pre, u.portText, u);
    SliceOf(pre, u.portText, Tail(u));
    PortStep(toPort, pre + u.portText + Tail(u), v, |pre|, |pre| + |u.portText|, TailSection(u), u.portText, u.port);
  }

  lemma {:induction false} HostToTail(toPort: ToPort, pre: string, u: Url, v: Url)
    requires u.hostname != "" && NoDelimiter(u.hostname) && ':' !in u.hostname && ':' !in Tail(u) && TailOk(u)
    ensures var data := pre + u.hostname + Tail(u);
            Step(toPort, data, State(v, HostPart, |pre|)) ==
            Next(State(v.(hostname := u.hostname), TailSection(u), AfterEnd(data, |pre + u.hostname|)))
  {
    var host, tail := u.hostname, Tail(u);
    AbsentFromBoth(pre, host, tail, ':');
    EndFound(pre, host, u);
    HostStops(toPort, pre, host, tail, v, TailSection(u));
  }

  lemma {:induction false} HostStops(toPort: ToPort, pre: string, host: string, tail: string, v: Url, section: Section)
    requires host != "" && IndexOf(pre + host + tail, ':', |pre|) == -1
    requires EndOfAuthority(pre + host + tail, |pre|) == (|pre| + |host|, section)
    ensures var data := pre + host + tail;
            Step(toPort, data, State(v, HostPart, |pre|)) ==
            Next(State(v.(hostname := host), section, AfterEnd(data, |pre + host|)))
  {
    SliceOf(pre, host, tail);
    HostStep(toPort, pre + host + tail, v, |pre|, |pre| + |host|, section, host);
  }

  /** One turn, then the tail. */
  lemma {:induction false} StepThenTail(toPort: ToPort, pre: string, u: Url, s: State, v: Url, section: Section)
    requires TailOk(u) && v.path == "" && v.query == "" && s.pos < |pre| && s.section != SchemePart
    requires section == TailSection(u) || (Tail(u) == "" && section == PortPart)
    requires var data := pre + Tail(u);
             Step(toPort, data, s) == Next(State(v, section, AfterEnd(data, |pre|)))
    ensures ParseFrom(toPort, pre + Tail(u), s) == Some(v.(path := u.path, query := u.query))
  {
    var data := pre + Tail(u);
    AfterAuthority(toPort, pre, u, v, section);
    ParseStep(toPort, data, s, State(v, section, AfterEnd(data, |pre|)));
  }

  lemma {:induction false} PortParses(toPort: ToPort, pre: string, u: Url, v: Url)
    requires u.portText != "" && NoDelimiter(u.portText) && toPort(u.portText) == Some(u.port) && TailOk(u)
    requires v.path == "" && v.query == ""
    ensures ParseFrom(toPort, pre + u.portText + Tail(u), State(v, PortPart, |pre|)) ==
            Some(v.(portText := u.portText, port := u.port, path := u.path, query := u.query))
  {
    PortToTail(toPort, pre, u, v);
    StepThenTail(toPort, pre + u.portText, u, State(v, PortPart, |pre|),
                 v.(portText := u.portText, port := u.port), PortTailSection(u));
  }

  lemma {:induction false} HostOnlyParses(toPort: ToPort, pre: string, u: Url, v: Url)
    requires u.hostname != "" && NoDelimiter(u.hostname) && ':' !in u.hostname && ':' !in Tail(u) && TailOk(u)
    requires v.path == "" && v.query == ""
    ensures ParseFrom(toPort, pre + u.hostname + Tail(u), State(v, HostPart, |pre|)) ==
            Some(v.(hostname := u.hostname, path := u.path, query := u.query))
  {
    HostToTail(toPort, pre, u, v);
    StepThenTail(toPort, pre + u.hostname, u, State(v, HostPart, |pre|), v.(hostname := u.hostname), TailSection(u));
  }

  lemma {:induction false} HostPortParses(toPort: ToPort, pre: string, u: Url, v: Url)
    requires u.hostname != "" && ':' !in u.hostname
    requires u.portText != "" && NoDelimiter(u.portText) && toPort(u.portText) == Some(u.port) && TailOk(u)
    requires v.path == "" && v.query == ""
    ensures ParseFrom(toPort, pre + u.hostname + [':'] + u.portText + Tail(u), State(v, HostPart, |pre|)) ==
            Some(v.(hostname := u.hostname, portText := u.portText, port := u.port, path := u.path, query := u.query))
  {
    var pre' := pre + u.hostname + [':'];
    var data := pre' + u.portText + Tail(u);
    Assoc(pre', u.portText, Tail(u));
    IndexAfter(pre, u.hostname, ':', u.portText + Tail(u));
    assert data[|pre|..|pre| + |u.hostname|] == u.hostname;
    ParseStep(toPort, data, State(v, HostPart, |pre|), State(v.(hostname := u.hostname), PortPart, |pre'|));
    PortParses(toPort, pre', u, v.(hostname := u.hostname));
  }

  predicate HostOk(toPort: ToPort, u: Url) {
    && u.hostname != "" && NoDelimiter(u.hostname) && ':' !in u.hostname && TailOk(u)
    && if u.portText != "" then NoDelimiter(u.portText) && toPort(u.portText) == Some(u.port)
       else u.port == 0 && ':' !in Tail(u)
  }

  /** From the host on, everything is filled in. */
  function WithHost(v: Url, u: Url): Url {
    v.(hostname := u.hostname, portText := u.portText, port := u.port, path := u.path, query := u.query)
  }

  predicate NoHostYet(v: Url) {
    v.path == "" && v.query == "" && v.portText == "" && v.port == 0
  }

  lemma {:induction false} HostParses(toPort: ToPort, pre: string, u: Url, v: Url)
    requires HostOk(toPort, u) && NoHostYet(v)
    ensures ParseFrom(toPort, pre + Host(u) + Tail(u), State(v, HostPart, |pre|)) == Some(WithHost(v, u))
  {
    if u.portText != "" {
      HostPortParses(toPort, pre, u, v);
      Assoc(pre, u.hostname + [':'], u.portText);
      Assoc(pre, u.hostname, [':']);
    } else {
      HostOnlyParses(toPort, pre, u, v);
      assert Host(u) == u.hostname;
    }
  }

  lemma {:induction false} UserStep(toPort: ToPort, data: string, v: Url, pos: nat, at: nat, name: string, pass: string)
    requires pos < |data| && IndexOf(data, '@', pos) == at
    requires var i := IndexOf(data, ':', pos);
             if 1 < i < at then data[pos..i] == name && data[i + 1..at] == pass
             else data[pos..at] == name && pass == ""
    ensures Step(toPort, data, State(v, AuthStart, pos)) ==
            Next(State(v.(hasUserinfo := true, username := name, password := pass), HostPart, at + 1))
  {
  }

  lemma {:induction false} UserPassToHost(toPort: ToPort, pre: string, name: string, pass: string, rest: string, v: Url)
    requires |pre| > 1 && '@' !in name && ':' !in name && '@' !in pass
    ensures var info := name + ([':'] + pass);
            Step(toPort, pre + info + ['@'] + rest, State(v, AuthStart, |pre|)) ==
            Next(State(v.(hasUserinfo := true, username := name, password := pass), HostPart, |pre| + |info| + 1))
  {
    var info := name + ([':'] + pass);
    IndexAfter(pre, info, '@', rest);
    UserSplits(pre, name, pass, rest);
    UserStep(toPort, pre + info + ['@'] + rest, v, |pre|, |pre| + |info|, name, pass);
  }

  lemma {:induction false} UserOnlyToHost(toPort: ToPort, pre: string, name: string, rest: string, v: Url)
    requires '@' !in name && ':' !in name
    ensures Step(toPort, pre + name + ['@'] + rest, State(v, AuthStart, |pre|)) ==
            Next(State(v.(hasUserinfo := true, username := name, password := ""), HostPart, |pre| + |name| + 1))
  {
    IndexAfter(pre, name, '@', rest);
    UserAlone(pre, name, rest);
    UserStep(toPort, pre + name + ['@'] + rest, v, |pre|, |pre| + |name|, name, "");
  }

  lemma {:induction false} UserToHost(toPort: ToPort, pre: string, u: Url, v: Url, rest: string)
    requires |pre| > 1
    requires u.hasUserinfo && '@' !in u.username && ':' !in u.username && '@' !in u.password
    ensures Step(toPort, pre + Userinfo(u) + ['@'] + rest, State(v, AuthStart, |pre|)) ==
            Next(State(v.(hasUserinfo := true, username := u.username, password := u.password), HostPart,
                       |pre + Userinfo(u) + ['@']|))
  {
    if u.password != "" {
      UserPassToHost(toPort, pre, u.username, u.password, rest, v);
    } else {
      assert Userinfo(u) == u.username;
      UserOnlyToHost(toPort, pre, u.username, rest, v);
    }
  }

  lemma {:induction false} UserParses(toPort: ToPort, pre: string, u: Url, v: Url)
    requires HostOk(toPort, u) && NoHostYet(v) && |pre| > 1
    requires u.hasUserinfo && '@' !in u.username && ':' !in u.username && '@' !in u.password
    ensures ParseFrom(toPort, pre + Userinfo(u) + ['@'] + Host(u) + Tail(u), State(v, AuthStart, |pre|)) ==
            Some(WithHost(v, u).(hasUserinfo := true, username := u.username, password := u.password))
  {
    var pre' := pre + Userinfo(u) + ['@'];
    var data := pre' + Host(u) + Tail(u);
    var v' := v.(hasUserinfo := true, username := u.username, password := u.password);
    Assoc(pre', Host(u), Tail(u));
    UserToHost(toPort, pre, u, v, Host(u) + Tail(u));
    ParseStep(toPort, data, State(v, AuthStart, |pre|), State(v', HostPart, |pre'|));
    HostParses(toPort, pre', u, v');
  }

  lemma {:induction false} UserSplits(pre: string, name: string, pass: string, rest: string)
    requires ':' !in name
    ensures var data := pre + (name + ([':'] + pass)) + ['@'] + rest;
            var i := |pre| + |name|;
            && IndexOf(data, ':', |pre|) == i
            && data[|pre|..i] == name && data[i + 1..i + 1 + |pass|] == pass
  {
    UserText(pre, name, pass, rest);
    IndexAfter(pre, name, ':', pass + ['@'] + rest);
    Assoc(pre + name, [':'], pass + ['@'] + rest);
    SliceOf(pre, name, [':'] + (pass + ['@'] + rest));
    Assoc(pass, ['@'], rest);
    Assoc(pre + name + [':'], pass, ['@'] + rest);
    SliceOf(pre + name + [':'], pass, ['@'] + rest);
  }

  lemma {:induction false} UserAlone(pre: string, name: string, rest: string)
    requires ':' !in name
    ensures var data := pre + name + ['@'] + rest;
            var i, at := IndexOf(data, ':', |pre|), |pre| + |name|;
            !(1 < i < at) && data[|pre|..at] == name
  {
    Assoc(pre + name, ['@'], rest);
    NotBefore(pre, name, ['@'] + rest, ':');
    SliceOf(pre, name, ['@'] + rest);
  }

  lemma {:induction false} UserText(pre: string, name: string, pass: string, rest: string)
    ensures pre + (name + ([':'] + pass)) + ['@'] + rest == pre + name + [':'] + (pass + ['@'] + rest)
  {
    Assoc(name, [':'], pass);
    Assoc(pre, name + [':'], pass);
    Assoc(pre, name, [':']);
    Assoc(pre + name + [':'] + pass, ['@'], rest);
    Assoc(pass, ['@'], rest);
    Assoc(pre + name + [':'], pass, ['@'] + rest);
  }

  lemma {:induction false} NoUserStep(toPort: ToPort, data: string, v: Url, pos: nat)
    requires pos < |data| && IndexOf(data, '@', pos) == -1 && !v.hasUserinfo
    ensures Step(toPort, data, State(v, AuthStart, pos)) == Step(toPort, data, State(v, HostPart, pos))
    ensures ParseFrom(toPort, data, State(v, AuthStart, pos)) == ParseFrom(toPort, data, State(v, HostPart, pos))
  {
    assert v.(hasUserinfo := false) == v;
  }

  lemma {:induction false} NoUserParses(toPort: ToPort, pre: string, u: Url, v: Url)
    requires HostOk(toPort, u) && NoHostYet(v) && !v.hasUserinfo
    requires '@' !in Host(u) + Tail(u)
    ensures ParseFrom(toPort, pre + Host(u) + Tail(u), State(v, AuthStart, |pre|)) == Some(WithHost(v, u))
  {
    var data := pre + Host(u) + Tail(u);
    Assoc(pre, Host(u), Tail(u));
    Absent(pre, Host(u) + Tail(u), '@');
    HostParses(toPort, pre, u, v);
    NoUserStep(toPort, data, v, |pre|);
  }

  lemma {:induction false} SchemeParses(toPort: ToPort, scheme: string, rest: string)
    requires scheme != "" && ':' !in scheme && Lower(scheme) == scheme
    requires scheme[0] != '/' && scheme[0] != '?' && scheme[0] != '#'
    ensures var data := (scheme + "://") + rest;
            var v := BLANK.(scheme := scheme, kind := KindOf(scheme));
            Parse(toPort, data) == ParseFrom(toPort, data, State(v, AuthStart, |scheme| + 3))
  {
    var data, n := (scheme + "://") + rest, |scheme|;
    assert data[n] == ':' && data[n + 1] == '/' && data[n + 2] == '/' && data[..n] == scheme && data[0] == scheme[0];
    assert forall k :: 0 <= k < n ==> data[k] == scheme[k];
    IndexOfIs(data, ':', 0, n);
    IndexOfIs(data, '/', n + 1, n + 1);
    IndexOfIs(data, '/', n + 2, n + 2);
    var v := BLANK.(scheme := scheme, kind := KindOf(scheme));
    ParseStep(toPort, data, State(BLANK, SchemePart, 0), State(v, AuthStart, n + 3));
  }

  lemma {:induction false} AuthorityParses(toPort: ToPort, pre: string, u: Url, v: Url)
    requires WellFormed(toPort, u) && |pre| > 1 && v == BLANK.(scheme := u.scheme, kind := u.kind)
    ensures ParseFrom(toPort, pre + Authority(u) + Tail(u), State(v, AuthStart, |pre|)) == Some(u)
  {
    assert ":/?#"[0] == ':' && ":/?#"[1] == '/' && ":/?#"[2] == '?' && ":/?#"[3] == '#';
    assert "/?#"[0] == '/' && "/?#"[1] == '?' && "/?#"[2] == '#';
    if u.hasUserinfo {
      UserParses(toPort, pre, u, v);
      Assoc(pre, Userinfo(u) + ['@'], Host(u));
      Assoc(pre, Userinfo(u), ['@']);
    } else {
      NoUserParses(toPort, pre, u, v);
      assert Authority(u) == Host(u);
    }
  }

  /** Printing a well-formed record and parsing the text gives the record back. */
  lemma {:induction false} PrintThenParse(toPort: ToPort, u: Url)
    requires WellFormed(toPort, u)
    ensures Parse(toPort, ToString(u)) == Some(u)
  {
    var pre := u.scheme + "://";
    PrintedText(toPort, u);
    Assoc(pre, Authority(u), Tail(u));
    SchemeThen(toPort, u, Authority(u), Tail(u));
    AuthorityParses(toPort, pre, u, BLANK.(scheme := u.scheme, kind := u.kind));
  }

  // ----- what does not come back -----

  /** From a section before the fragment, with no `#` ahead of position `h`, the parsed fragment
      is empty or starts after one of them. */
  lemma {:induction false} FragmentIsShort(toPort: ToPort, data: string, s: State, h: nat)
    requires InBounds(data, s) && s.section != SchemePart && s.section != FragPart && s.url.fragment == ""
    requires forall k :: s.pos <= k < |data| && data[k] == '#' ==> h <= k
    ensures var r := ParseFrom(toPort, data, s);
      r.Some? ==> r.value.fragment == "" || |r.value.fragment| + h < |data|
    decreases |data| - s.pos
  {
    if s.pos < |data| {
      StepAdvances(toPort, data, s);
      match Step(toPort, data, s)
      case Invalid =>
      case Next(s') =>
        ToFragment(toPort, data, s, h);
        if s'.section != FragPart {
          FragmentIsShort(toPort, data, s', h);
        } else {
          FragmentTakesRest(toPort, data, s');
        }
    }
  }

  /** The fragment section is entered right after a `#`. */
  lemma {:induction false} ToFragment(toPort: ToPort, data: string, s: State, h: nat)
    requires InBounds(data, s) && s.pos < |data| && s.section != SchemePart && s.section != FragPart
    requires forall k :: s.pos <= k < |data| && data[k] == '#' ==> h <= k
    ensures Step(toPort, data, s).Next? ==>
      var s' := Step(toPort, data, s).state;
      s'.section != SchemePart && s'.url.fragment == s.url.fragment && (s'.section == FragPart ==> h < s'.pos)
  {
  }

  lemma {:induction false} FragmentTakesRest(toPort: ToPort, data: string, s: State)
    requires InBounds(data, s) && s.section == FragPart && s.url.fragment == ""
    ensures ParseFrom(toPort, data, s) == Some(s.url.(fragment := data[s.pos..]))
  {
    if s.pos < |data| {
      StepAdvances(toPort, data, s);
    } else {
      assert data[s.pos..] == "";
    }
  }

  /** Where the parser stands once the userinfo, if any, is read. */
  lemma {:induction false} ToHost(toPort: ToPort, pre: string, u: Url, v: Url, rest: string) returns (s: State)
    requires |pre| > 1 && v.fragment == "" && !v.hasUserinfo
    requires u.hasUserinfo ==> '@' !in u.username && ':' !in u.username && '@' !in u.password
    ensures var data := pre + (if u.hasUserinfo then Userinfo(u) + ['@'] else "") + rest;
      InBounds(data, s) && s.section != SchemePart && s.section != FragPart && s.url.fragment == ""
      && s.pos == |data| - |rest|
      && ParseFrom(toPort, data, State(v, AuthStart, |pre|)) == ParseFrom(toPort, data, s)
  {
    s := State(v, AuthStart, |pre|);
    if u.hasUserinfo {
      var user := Userinfo(u);
      var data := pre + user + ['@'] + rest;
      UserToHost(toPort, pre, u, v, rest);
      var next := State(v.(hasUserinfo := true, username := u.username, password := u.password), HostPart, |pre + user + ['@']|);
      ParseStep(toPort, data, s, next);
      Assoc(pre, user, ['@']);
      s := next;
    } else {
      assert pre + "" == pre;
    }
  }

  lemma {:induction false} NoHashInHost(toPort: ToPort, u: Url)
    requires WellFormed(toPort, u)
    ensures '#' !in Host(u) && '#' !in Tail(u)
  {
    assert ":/?#"[3] == '#' && "/?#"[2] == '#';
  }

  lemma {:induction false} HashesAreLate(a: string, b: string, x: string)
    requires '#' !in b
    ensures forall k :: |a| <= k < |a + b + x| && (a + b + x)[k] == '#' ==> |a + b + x| - |x| <= k
  {
    var data := a + b + x;
    assert forall k :: |a| <= k < |a| + |b| ==> data[k] == b[k - |a|];
  }

  lemma {:induction false} AuthorityText(pre: string, user: string, host: string, tail: string, last: string)
    ensures pre + ((user + host) + (tail + last)) == pre + user + (host + tail + last)
  {
    Assoc(host, tail, last);
    Assoc(user, host, tail + last);
    Assoc(pre, user, host + (tail + last));
  }

  lemma {:induction false} FragmentLast(u: Url)
    requires u.fragment != ""
    ensures ToString(u) == ToString(u.(fragment := "")) + (['?'] + u.fragment)
  {
    var a := ToString(u.(fragment := ""));
    assert a + "" == a;
  }

  lemma {:induction false} JoinText(pre: string, authority: string, tail: string, last: string)
    ensures pre + authority + tail + last == pre + (authority + (tail + last))
  {
    Assoc(pre + authority, tail, last);
    Assoc(pre, authority, tail + last);
  }

  lemma {:induction false} FragmentText(toPort: ToPort, u: Url)
    requires u.fragment != "" && WellFormed(toPort, u.(fragment := ""))
    ensures ToString(u) == (u.scheme + "://") + (Authority(u) + (Tail(u) + (['?'] + u.fragment)))
  {
    FragmentLast(u);
    PrintedText(toPort, u.(fragment := ""));
    JoinText(u.scheme + "://", Authority(u), Tail(u), ['?'] + u.fragment);
  }

  /** The printer writes `?` where a fragment starts: of the records that differ from a well-formed
      one in the fragment at most, exactly those without a fragment come back. */
  lemma {:induction false} FragmentIff(toPort: ToPort, u: Url)
    requires WellFormed(toPort, u.(fragment := ""))
    ensures Parse(toPort, ToString(u)) == Some(u) <==> u.fragment == ""
  {
    if u.fragment == "" {
      assert u.(fragment := "") == u;
      PrintThenParse(toPort, u);
    } else {
      FragmentIsLost(toPort, u);
    }
  }

  lemma {:induction false} FragmentIsLost(toPort: ToPort, u: Url)
    requires u.fragment != "" && WellFormed(toPort, u.(fragment := ""))
    ensures Parse(toPort, ToString(u)) != Some(u)
  {
    var pre := u.scheme + "://";
    var v := BLANK.(scheme := u.scheme, kind := KindOf(u.scheme));
    var last := ['?'] + u.fragment;
    var user := if u.hasUserinfo then Userinfo(u) + ['@'] else "";
    var rest := Host(u) + Tail(u) + last;
    FragmentText(toPort, u);
    SchemeParses(toPort, u.scheme, Authority(u) + (Tail(u) + last));
    AuthorityText(pre, user, Host(u), Tail(u), last);
    assert Authority(u) == user + Host(u);
    var s := ToHost(toPort, pre, u, v, rest);
    var data := pre + user + rest;
    NoHashInHost(toPort, u.(fragment := ""));
    assert Host(u) == Host(u.(fragment := "")) && Tail(u) == Tail(u.(fragment := ""));
    var before := Host(u) + Tail(u) + ['?'];
    HashesAreLate(pre + user, before, u.fragment);
    Assoc(Host(u) + Tail(u), ['?'], u.fragment);
    Assoc(pre + user, before, u.fragment);
    FragmentIsShort(toPort, data, s, |data| - |u.fragment|);
  }

  /** A path that starts with a slash comes back without it. */
  lemma {:induction false} AbsolutePathLosesSlash(toPort: ToPort, u: Url)
    requires |u.path| > 1 && u.path[0] == '/'
    requires WellFormed(toPort, u.(path := u.path[1..]))
    ensures Parse(toPort, ToString(u)) == Some(u.(path := u.path[1..]))
  {
    PrintThenParse(toPort, u.(path := u.path[1..]));
    SlashEitherWay(u, u.path[1..]);
  }

  /** The slash is printed in either case. */
  lemma {:induction false} SlashEitherWay(u: Url, rel: string)
    requires u.hostname != "" && u.scheme != "" && u.path == ['/'] + rel && rel != "" && rel[0] != '/'
    ensures ToString(u) == ToString(u.(path := rel))
  {
    var a := "//" + Authority(u);
    assert Authority(u.(path := rel)) == Authority(u);
    SlashMoves(u.scheme + [':'], a, rel);
    assert a + "" == a;
  }

  lemma {:induction false} SlashMoves(s: string, a: string, rel: string)
    ensures s + a + (['/'] + rel) == s + (a + ['/']) + rel
  {
    Assoc(s + a, ['/'], rel);
    Assoc(s, a, ['/']);
  }

  // ----- a path that is a slash alone -----

  lemma {:induction false} QueryKeepsPath(toPort: ToPort, data: string, s: State)
    requires InBounds(data, s) && (s.section == QueryPart || s.section == FragPart)
    ensures ParseFrom(toPort, data, s).Some? ==> ParseFrom(toPort, data, s).value.path == s.url.path
    decreases |data| - s.pos
  {
    if s.pos < |data| {
      StepAdvances(toPort, data, s);
      QueryKeepsPath(toPort, data, Step(toPort, data, s).state);
    }
  }

  /** A path section that stands at the query, or at the end, leaves the path empty. */
  lemma {:induction false} EmptyPath(toPort: ToPort, pre: string, query: string, v: Url)
    requires v.path == "" && '#' !in query && (query == "" || query[0] == '?')
    ensures var r := ParseFrom(toPort, pre + query, State(v, PathPart, |pre|)); r.Some? ==> r.value.path == ""
  {
    var data := pre + query;
    if query != "" {
      assert data[|pre|] == '?';
      IndexOfIs(data, '?', |pre|, |pre|);
      Absent(pre, query, '#');
      assert data[|pre|..|pre|] == "";
      ParseStep(toPort, data, State(v, PathPart, |pre|), State(v, QueryPart, |pre| + 1));
      QueryKeepsPath(toPort, data, State(v, QueryPart, |pre| + 1));
    }
  }

  lemma {:induction false} HostSlash(toPort: ToPort, pre: string, host: string, query: string, v: Url)
    requires host != "" && NoDelimiter(host) && ':' !in host && ':' !in query
    requires v.path == "" && '#' !in query && (query == "" || query[0] == '?')
    ensures var r := ParseFrom(toPort, pre + host + (['/'] + query), State(v, HostPart, |pre|));
      r.Some? ==> r.value.path == ""
  {
    var tail := ['/'] + query;
    AbsentFromBoth(pre, host, tail, ':');
    Assoc(pre + host, ['/'], query);
    EndAtSlash(pre, host, query);
    HostStops(toPort, pre, host, tail, v, PathPart);
    var v' := v.(hostname := host);
    ParseStep(toPort, pre + host + tail, State(v, HostPart, |pre|), State(v', PathPart, |pre + host| + 1));
    EmptyPath(toPort, pre + host + ['/'], query, v');
  }

  lemma {:induction false} PortSlash(toPort: ToPort, pre: string, port: string, query: string, v: Url)
    requires port != "" && NoDelimiter(port) && toPort(port).Some?
    requires v.path == "" && '#' !in query && (query == "" || query[0] == '?')
    ensures var r := ParseFrom(toPort, pre + port + (['/'] + query), State(v, PortPart, |pre|));
      r.Some? ==> r.value.path == ""
  {
    var tail := ['/'] + query;
    Assoc(pre + port, ['/'], query);
    EndAtSlash(pre, port, query);
    SliceOf(pre, port, tail);
    PortStep(toPort, pre + port + tail, v, |pre|, |pre| + |port|, PathPart, port, toPort(port).value);
    var v' := v.(portText := port, port := toPort(port).value);
    ParseStep(toPort, pre + port + tail, State(v, PortPart, |pre|), State(v', PathPart, |pre + port| + 1));
    EmptyPath(toPort, pre + port + ['/'], query, v');
  }

  lemma {:induction false} HostPortSlash(toPort: ToPort, pre: string, host: string, port: string, query: string, v: Url)
    requires host != "" && ':' !in host && port != "" && NoDelimiter(port) && toPort(port).Some?
    requires v.path == "" && '#' !in query && (query == "" || query[0] == '?')
    ensures var r := ParseFrom(toPort, pre + host + [':'] + port + (['/'] + query), State(v, HostPart, |pre|));
      r.Some? ==> r.value.path == ""
  {
    var pre', tail := pre + host + [':'], ['/'] + query;
    var data := pre' + port + tail;
    Assoc(pre', port, tail);
    IndexAfter(pre, host, ':', port + tail);
    Assoc(pre + host, [':'], port + tail);
    SliceOf(pre, host, [':'] + (port + tail));
    ParseStep(toPort, data, State(v, HostPart, |pre|), State(v.(hostname := host), PortPart, |pre'|));
    PortSlash(toPort, pre', port, query, v.(hostname := host));
  }

  lemma {:induction false} AnyHostSlash(toPort: ToPort, pre: string, u: Url, v: Url)
    requires HostOk(toPort, u) && u.path == "" && v.path == ""
    ensures var r := ParseFrom(toPort, pre + Host(u) + (['/'] + Tail(u)), State(v, HostPart, |pre|));
      r.Some? ==> r.value.path == ""
  {
    if u.portText != "" {
      HostPortSlash(toPort, pre, u.hostname, u.portText, Tail(u), v);
      Assoc(pre, u.hostname + [':'], u.portText);
      Assoc(pre, u.hostname, [':']);
    } else {
      HostSlash(toPort, pre, u.hostname, Tail(u), v);
      assert Host(u) == u.hostname;
    }
  }

  lemma {:induction false} SlashText(toPort: ToPort, u: Url)
    requires u.path == "/" && WellFormed(toPort, u.(path := ""))
    ensures var u0 := u.(path := "");
      ToString(u) == (u0.scheme + "://") + (Authority(u0) + (['/'] + Tail(u0)))
  {
    var query := if u.query != "" then ['?'] + u.query else "";
    Regrouped(u.scheme + [':'], "//", Authority(u), "", "/", query);
    assert u.scheme + [':'] + "//" == u.scheme + "://";
    assert "" + "/" == ['/'];
    Assoc(u.scheme + "://", Authority(u), ['/'] + query);
    assert Tail(u.(path := "")) == query;
  }

  lemma {:induction false} SchemeThen(toPort: ToPort, u: Url, a: string, tail: string)
    requires Plausible(toPort, u)
    ensures Parse(toPort, (u.scheme + "://") + (a + tail))
      == ParseFrom(toPort, (u.scheme + "://") + a + tail,
                   State(BLANK.(scheme := u.scheme, kind := u.kind), AuthStart, |u.scheme + "://"|))
  {
    SchemeParses(toPort, u.scheme, a + tail);
    Assoc(u.scheme + "://", a, tail);
  }

  lemma {:induction false} SlashIsLost(toPort: ToPort, u: Url)
    requires u.path == "/" && WellFormed(toPort, u.(path := ""))
    ensures Parse(toPort, ToString(u)) != Some(u)
  {
    var u0 := u.(path := "");
    SlashText(toPort, u);
    SchemeThen(toPort, u0, Authority(u0), ['/'] + Tail(u0));
    AuthoritySlash(toPort, u.scheme + "://", u0, BLANK.(scheme := u.scheme, kind := u.kind));
  }

  lemma {:induction false} AuthoritySlash(toPort: ToPort, pre: string, u: Url, v: Url)
    requires WellFormed(toPort, u) && u.path == "" && |pre| > 1 && v == BLANK.(scheme := u.scheme, kind := u.kind)
    ensures var r := ParseFrom(toPort, pre + Authority(u) + (['/'] + Tail(u)), State(v, AuthStart, |pre|));
      r.Some? ==> r.value.path == ""
  {
    var tail := ['/'] + Tail(u);
    assert ":/?#"[0] == ':' && ":/?#"[1] == '/' && ":/?#"[2] == '?' && ":/?#"[3] == '#';
    assert "/?#"[0] == '/' && "/?#"[1] == '?' && "/?#"[2] == '#';
    if u.hasUserinfo {
      var user := Userinfo(u) + ['@'];
      var v' := v.(hasUserinfo := true, username := u.username, password := u.password);
      UserToHost(toPort, pre, u, v, Host(u) + tail);
      Assoc(pre, Userinfo(u), ['@']);
      Assoc(pre, user, Host(u));
      Assoc(pre + user, Host(u), tail);
      ParseStep(toPort, pre + user + Host(u) + tail, State(v, AuthStart, |pre|), State(v', HostPart, |pre + user|));
      AnyHostSlash(toPort, pre + user, u, v');
    } else {
      assert Authority(u) == Host(u);
      assert '@' !in Host(u) && '@' !in tail;
      AbsentFromBoth(pre, Host(u), tail, '@');
      NoUserStep(toPort, pre + Host(u) + tail, v, |pre|);
      AnyHostSlash(toPort, pre, u, v);
    }
  }

  function Relative(path: string): string {
    if path != "" && path[0] == '/' then path[1..] else path
  }

  /** Of the records that are well-formed but for a leading slash of the path, exactly those without
      it come back. */
  lemma {:induction false} PathIff(toPort: ToPort, u: Url)
    requires WellFormed(toPort, u.(path := Relative(u.path)))
    ensures Parse(toPort, ToString(u)) == Some(u) <==> !IsAbsolute(u)
  {
    if u.path == "/" {
      SlashIsLost(toPort, u);
    } else if IsAbsolute(u) {
      AbsolutePathLosesSlash(toPort, u);
    } else {
      assert u.(path := Relative(u.path)) == u;
      PrintThenParse(toPort, u);
    }
  }

  // ----- a missing userinfo or port whose character occurs later -----

  lemma {:induction false} UserinfoStays(toPort: ToPort, data: string, s: State)
    requires InBounds(data, s) && s.section != SchemePart && s.section != AuthStart
    ensures ParseFrom(toPort, data, s).Some? ==> ParseFrom(toPort, data, s).value.hasUserinfo == s.url.hasUserinfo
    decreases |data| - s.pos
  {
    if s.pos < |data| {
      StepAdvances(toPort, data, s);
      match Step(toPort, data, s)
      case Invalid =>
      case Next(s') =>
        PastHost(toPort, data, s);
        UserinfoStays(toPort, data, s');
    }
  }

  /** Once the host is being read neither the userinfo nor, after it, the host changes. */
  lemma {:induction false} PastHost(toPort: ToPort, data: string, s: State)
    requires InBounds(data, s) && s.pos < |data| && s.section != SchemePart && s.section != AuthStart
    ensures Step(toPort, data, s).Next? ==>
      var s' := Step(toPort, data, s).state;
      && s'.section != SchemePart && s'.section != AuthStart && s'.url.hasUserinfo == s.url.hasUserinfo
      && (s.section != HostPart ==> s'.section != HostPart && s'.url.hostname == s.url.hostname)
  {
  }

  lemma {:induction false} HostStays(toPort: ToPort, data: string, s: State)
    requires InBounds(data, s) && s.section != SchemePart && s.section != AuthStart && s.section != HostPart
    ensures ParseFrom(toPort, data, s).Some? ==> ParseFrom(toPort, data, s).value.hostname == s.url.hostname
    decreases |data| - s.pos
  {
    if s.pos < |data| {
      StepAdvances(toPort, data, s);
      match Step(toPort, data, s)
      case Invalid =>
      case Next(s') =>
        PastHost(toPort, data, s);
        HostStays(toPort, data, s');
    }
  }

  /** An `@` anywhere ahead is taken to end a userinfo. */
  lemma {:induction false} StrayAt(toPort: ToPort, pre: string, rest: string, v: Url)
    requires '@' in rest
    ensures var r := ParseFrom(toPort, pre + rest, State(v, AuthStart, |pre|)); r.Some? ==> r.value.hasUserinfo
  {
    var data, s := pre + rest, State(v, AuthStart, |pre|);
    var k :| 0 <= k < |rest| && rest[k] == '@';
    assert data[|pre| + k] == '@';
    StepAdvances(toPort, data, s);
    UserinfoStays(toPort, data, Step(toPort, data, s).state);
  }

  /** A `:` anywhere ahead is taken to end the host. */
  lemma {:induction false} StrayColon(toPort: ToPort, pre: string, host: string, tail: string, v: Url)
    requires ':' !in host && ':' in tail && tail[0] != ':'
    ensures var r := ParseFrom(toPort, pre + host + tail, State(v, HostPart, |pre|));
      r.Some? ==> |r.value.hostname| > |host|
  {
    var data, s := pre + host + tail, State(v, HostPart, |pre|);
    var k :| 0 <= k < |tail| && tail[k] == ':';
    assert data[|pre| + |host| + k] == ':';
    var i := IndexOf(data, ':', |pre|);
    assert i > |pre| + |host| by {
      assert forall j :: |pre| <= j < |pre| + |host| ==> data[j] == host[j - |pre|];
      assert data[|pre| + |host|] == tail[0];
    }
    var s' := State(v.(hostname := data[|pre|..i]), PortPart, i + 1);
    ParseStep(toPort, data, s, s');
    HostStays(toPort, data, s');
  }

  lemma {:induction false} PrintedParse(toPort: ToPort, u: Url)
    requires Plausible(toPort, u)
    ensures Parse(toPort, ToString(u))
      == ParseFrom(toPort, (u.scheme + "://") + Authority(u) + Tail(u),
                   State(BLANK.(scheme := u.scheme, kind := u.kind), AuthStart, |u.scheme + "://"|))
  {
    PrintedText(toPort, u);
    Assoc(u.scheme + "://", Authority(u), Tail(u));
    SchemeThen(toPort, u, Authority(u), Tail(u));
  }

  lemma {:induction false} StrayAtIsLost(toPort: ToPort, u: Url)
    requires Plausible(toPort, u) && !u.hasUserinfo && '@' in Host(u) + Tail(u)
    ensures Parse(toPort, ToString(u)) != Some(u)
  {
    var pre := u.scheme + "://";
    PrintedParse(toPort, u);
    assert Authority(u) == Host(u);
    Assoc(pre, Host(u), Tail(u));
    StrayAt(toPort, pre, Host(u) + Tail(u), BLANK.(scheme := u.scheme, kind := u.kind));
  }

  lemma {:induction false} StrayColonIsLost(toPort: ToPort, u: Url)
    requires Plausible(toPort, u) && u.portText == "" && ':' in Tail(u)
    requires !u.hasUserinfo ==> '@' !in Host(u) + Tail(u)
    ensures Parse(toPort, ToString(u)) != Some(u)
  {
    var pre, host, tail := u.scheme + "://", u.hostname, Tail(u);
    var v := BLANK.(scheme := u.scheme, kind := u.kind);
    assert ":/?#"[0] == ':';
    assert Host(u) == host;
    PrintedParse(toPort, u);
    if u.hasUserinfo {
      var user := Userinfo(u) + ['@'];
      var v' := v.(hasUserinfo := true, username := u.username, password := u.password);
      UserToHost(toPort, pre, u, v, host + tail);
      Assoc(pre, Userinfo(u), ['@']);
      Assoc(pre, user, host);
      Assoc(pre + user, host, tail);
      ParseStep(toPort, pre + user + host + tail, State(v, AuthStart, |pre|), State(v', HostPart, |pre + user|));
      StrayColon(toPort, pre + user, host, tail, v');
    } else {
      assert Authority(u) == host;
      AbsentFromBoth(pre, host, tail, '@');
      NoUserStep(toPort, pre + host + tail, v, |pre|);
      StrayColon(toPort, pre, host, tail, v);
    }
  }

  /** A record that is otherwise well-formed comes back exactly when no later `@` stands in for a
      missing userinfo and no later `:` for a missing port. */
  lemma {:induction false} DelimitedIff(toPort: ToPort, u: Url)
    requires Plausible(toPort, u)
    ensures Parse(toPort, ToString(u)) == Some(u) <==> Delimited(u)
  {
    if Delimited(u) {
      PrintThenParse(toPort, u);
    } else if !u.hasUserinfo && '@' in Host(u) + Tail(u) {
      StrayAtIsLost(toPort, u);
    } else {
      StrayColonIsLost(toPort, u);
    }
  }
}
