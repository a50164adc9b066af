/** The forms a URL may start with and end with: a query or a fragment behind any text, and texts
    that start with a path, a query, a fragment or two slashes. */
module UrlForms {
  import opened Text
  import opened U = Url

  /** The record of a text, once `?x` or `#x` is written behind the text. */
  function Marked(u: Url, c: char, x: string): Url {
    if c == '#' then u.(fragment := x) else u.(query := x)
  }

  function MarkSection(c: char): Section {
    if c == '#' then FragPart else QueryPart
  }

  /** The text ends before the mark, and the mark is the first of its kind. */
  predicate IsMark(data: string, c: char, x: string) {
    '#' !in data && (c == '#' || (c == '?' && '?' !in data && '#' !in x))
  }

  // ----- searches in the longer text -----

  lemma {:induction false} IndexExtend(data: string, c: char, x: string, ch: char, pos: nat)
    requires pos <= |data|
    ensures var i, j := IndexOf(data, ch, pos), IndexOf(data + [c] + x, ch, pos);
      && (i >= 0 ==> j == i)
      && (i < 0 ==> j == -1 || j >= |data|)
      && (i < 0 && ch == c ==> j == |data|)
      && (i < 0 && ch != c ==> j != |data|)
      && (i < 0 && ch != c && ch !in x ==> j == -1)
  {
    var D := data + [c] + x;
    var i := IndexOf(data, ch, pos);
    assert forall k :: 0 <= k < |data| ==> D[k] == data[k];
    assert D[|data|] == c && forall k :: |data| < k < |D| ==> D[k] == x[k - |data| - 1];
    if i >= 0 {
      IndexOfIs(D, ch, pos, i);
    } else if ch == c {
      IndexOfIs(D, ch, pos, |data|);
    }
  }

  lemma {:induction false} SliceExtend(data: string, c: char, x: string, a: nat, b: nat)
    requires a <= b <= |data|
    ensures (data + [c] + x)[a..b] == data[a..b]
  {
  }

  lemma {:induction false} ToTheEnd(data: string, a: nat)
    requires a <= |data|
    ensures data[a..|data|] == data[a..]
  {
  }

  // ----- one turn -----

  /** The fields a section writes, and those after it, are still blank. */
  predicate Clean(s: State) {
    var u := s.url;
    && u.fragment == "" && u.query == ""
    && (s.section != QueryPart ==> u.path == "")
    && (s.section == SchemePart || s.section == AuthStart || s.section == HostPart ==> u.hostname == "")
    && (s.section == SchemePart || s.section == AuthStart ==> !u.hasUserinfo)
  }

  /** Up to the host, a colon or an at sign anywhere later would be taken for a delimiter. */
  predicate IsEarly(section: Section) {
    section == SchemePart || section == AuthStart || section == HostPart
  }

  predicate Ready(data: string, c: char, x: string, s: State) {
    && InBounds(data, s) && Clean(s) && IsMark(data, c, x)
    && s.section != FragPart && (c == '?' ==> s.section != QueryPart)
    && (s.pos == |data| ==> s.section != SchemePart && s.section != PortPart)
    && (IsEarly(s.section) ==> ':' !in x && '@' !in x && (data == "" || data[|data| - 1] != ':'))
  }

  /** The mark changes nothing before it: the turn is the same, or it is the last one of the text
      and the mark's section follows. */
  predicate Alike(data: string, c: char, x: string, o: Outcome, o': Outcome) {
    || (o.Invalid? && o'.Invalid?)
    || (o.Next? && o' == o && Ready(data, c, x, o.state))
    || (o.Next? && o.state.pos == |data| && o' == Next(State(o.state.url, MarkSection(c), |data| + 1))
        && o.state.url.fragment == "" && (c == '?' ==> o.state.url.query == ""))
  }

  lemma {:induction false} SlashAt(data: string, pos: nat)
    requires pos <= |data|
    ensures IndexOf(data, '/', pos) == pos <==> pos < |data| && data[pos] == '/'
  {
  }

  /** Whether two slashes stand behind the colon at `i`. */
  predicate TwoSlashesAfter(data: string, i: nat) {
    i + 2 < |data| && data[i + 1] == '/' && data[i + 2] == '/'
  }

  function SectionAfter(data: string, i: nat): Section
    requires i + 1 < |data|
  {
    if TwoSlashesAfter(data, i) then AuthStart
    else if data[i + 1] == '?' then QueryPart
    else if data[i + 1] == '#' then FragPart
    else PathPart
  }

  /** The scheme is folded, and what follows its colon decides what is read next. */
  lemma {:induction false} SchemeMeaning(data: string, s: State, i: nat)
    requires s.pos == 0 && i + 1 < |data| && IndexOf(data, ':', 0) == i
    ensures var scheme := Lower(data[..i]);
      ParseScheme(data, s)
      == Next(State(s.url.(scheme := scheme, kind := if scheme == "http" then Http else if scheme == "https" then Https else Unknown),
                    SectionAfter(data, i),
                    if TwoSlashesAfter(data, i) then i + 3 else i + 1))
  {
    SlashAt(data, i + 1);
    SlashAt(data, i + 2);
  }

  lemma {:induction false} SchemeAlike(data: string, c: char, x: string, s: State)
    requires Ready(data, c, x, s) && s.section == SchemePart && s.pos < |data|
    ensures Alike(data, c, x, ParseScheme(data, s), ParseScheme(data + [c] + x, s))
  {
    var D := data + [c] + x;
    var i := IndexOf(data, ':', 0);
    IndexExtend(data, c, x, ':', 0);
    if i >= 0 {
      SchemeMeaning(data, s, i);
      SchemeMeaning(D, s, i);
      SliceExtend(data, c, x, 0, i);
      assert D[..i] == D[0..i] && data[..i] == data[0..i];
      assert D[i + 1] == data[i + 1] && (i + 2 < |data| ==> D[i + 2] == data[i + 2]);
      assert i + 2 == |data| ==> D[i + 2] == c;
      assert data[i + 1] in data;
    }
  }

  lemma {:induction false} EndAlike(data: string, c: char, x: string, pos: nat)
    requires pos <= |data| && IsMark(data, c, x)
    ensures var (e, n), (e', n') := EndOfAuthority(data, pos), EndOfAuthority(data + [c] + x, pos);
      && e' == e && n != FragPart && (c == '?' ==> n != QueryPart)
      && (e < |data| ==> n' == n && n != HostPart)
      && (e == |data| ==> n == HostPart && n' == MarkSection(c))
  {
    IndexExtend(data, c, x, '/', pos);
    IndexExtend(data, c, x, '?', pos);
    IndexExtend(data, c, x, '#', pos);
  }

  lemma {:induction false} HostAlike(data: string, c: char, x: string, s: State)
    requires Ready(data, c, x, s) && s.section == HostPart && s.pos < |data|
    ensures Alike(data, c, x, ParseHost(data, s), ParseHost(data + [c] + x, s))
  {
    var i := IndexOf(data, ':', s.pos);
    IndexExtend(data, c, x, ':', s.pos);
    if i >= 0 {
      SliceExtend(data, c, x, s.pos, i);
    } else {
      EndAlike(data, c, x, s.pos);
      SliceExtend(data, c, x, s.pos, EndOfAuthority(data, s.pos).0);
    }
  }

  lemma {:induction false} UserSame(data: string, D: string, s: State, at: nat, i: int)
    requires s.pos <= at < |data| <= |D| && IndexOf(data, ':', s.pos) == IndexOf(D, ':', s.pos) == i
    requires D[s.pos..at] == data[s.pos..at]
    requires 0 <= i < at ==> D[s.pos..i] == data[s.pos..i] && D[i + 1..at] == data[i + 1..at]
    ensures ParseUser(D, s, at) == ParseUser(data, s, at)
  {
  }

  lemma {:induction false} UserAlike(data: string, c: char, x: string, s: State, at: nat)
    requires Ready(data, c, x, s) && s.section == AuthStart && s.pos <= at < |data|
    ensures Alike(data, c, x, ParseUser(data, s, at), ParseUser(data + [c] + x, s, at))
  {
    var i := IndexOf(data, ':', s.pos);
    IndexExtend(data, c, x, ':', s.pos);
    SliceExtend(data, c, x, s.pos, at);
    if 0 <= i < at {
      SliceExtend(data, c, x, s.pos, i);
      SliceExtend(data, c, x, i + 1, at);
    }
    UserSame(data, data + [c] + x, s, at, i);
  }

  lemma {:induction false} PortAlike(toPort: ToPort, data: string, c: char, x: string, s: State)
    requires Ready(data, c, x, s) && s.section == PortPart && s.pos < |data|
    ensures Alike(data, c, x, ParsePort(toPort, data, s), ParsePort(toPort, data + [c] + x, s))
  {
    EndAlike(data, c, x, s.pos);
    SliceExtend(data, c, x, s.pos, EndOfAuthority(data, s.pos).0);
  }

  lemma {:induction false} PathAlike(data: string, c: char, x: string, s: State)
    requires Ready(data, c, x, s) && s.section == PathPart && s.pos < |data|
    ensures Alike(data, c, x, ParsePath(data, s), ParsePath(data + [c] + x, s))
  {
    IndexExtend(data, c, x, '?', s.pos);
    IndexExtend(data, c, x, '#', s.pos);
    var q := IndexOf(data, '?', s.pos);
    SliceExtend(data, c, x, s.pos, if q >= 0 then q else |data|);
    ToTheEnd(data, s.pos);
  }

  lemma {:induction false} QueryAlike(data: string, c: char, x: string, s: State)
    requires Ready(data, c, x, s) && s.section == QueryPart && s.pos < |data|
    ensures Alike(data, c, x, ParseQuery(data, s), ParseQuery(data + [c] + x, s))
  {
    IndexExtend(data, c, x, '#', s.pos);
    SliceExtend(data, c, x, s.pos, |data|);
    ToTheEnd(data, s.pos);
  }

  lemma {:induction false} AuthAlike(toPort: ToPort, data: string, c: char, x: string, s: State)
    requires Ready(data, c, x, s) && s.section == AuthStart && s.pos < |data|
    ensures Alike(data, c, x, Step(toPort, data, s), Step(toPort, data + [c] + x, s))
  {
    var at := IndexOf(data, '@', s.pos);
    IndexExtend(data, c, x, '@', s.pos);
    if at >= 0 {
      UserAlike(data, c, x, s, at);
    } else {
      var s' := State(s.url.(hasUserinfo := false), HostPart, s.pos);
      HostAlike(data, c, x, s');
    }
  }

  lemma {:induction false} StepAlike(toPort: ToPort, data: string, c: char, x: string, s: State)
    requires Ready(data, c, x, s) && s.pos < |data|
    ensures Alike(data, c, x, Step(toPort, data, s), Step(toPort, data + [c] + x, s))
  {
    match s.section
    case SchemePart => SchemeAlike(data, c, x, s);
    case AuthStart => AuthAlike(toPort, data, c, x, s);
    case HostPart => HostAlike(data, c, x, s);
    case PortPart => PortAlike(toPort, data, c, x, s);
    case PathPart => PathAlike(data, c, x, s);
    case QueryPart => QueryAlike(data, c, x, s);
  }

  // ----- the whole loop -----

  /** Behind the mark everything is the query or the fragment. */
  lemma {:induction false} MarkParses(toPort: ToPort, data: string, c: char, x: string, u: Url)
    requires IsMark(data, c, x) && u.fragment == "" && (c == '?' ==> u.query == "")
    ensures ParseFrom(toPort, data + [c] + x, State(u, MarkSection(c), |data| + 1)) == Some(Marked(u, c, x))
  {
    var D, s := data + [c] + x, State(u, MarkSection(c), |data| + 1);
    if x != "" {
      assert D[|data| + 1..] == x;
      if c == '?' {
        Absent(data + [c], x, '#');
      }
      ParseStep(toPort, D, s, State(Marked(u, c, x), MarkSection(c), |D|));
    }
  }

  /** Where a section was still to begin, it begins and ends at the mark. */
  lemma {:induction false} EmptySection(toPort: ToPort, data: string, c: char, x: string, s: State)
    requires Ready(data, c, x, s) && s.pos == |data|
    ensures InBounds(data + [c] + x, s)
    ensures Step(toPort, data + [c] + x, s) == Next(State(s.url, MarkSection(c), |data| + 1))
  {
    var D := data + [c] + x;
    IndexExtend(data, c, x, ':', s.pos);
    IndexExtend(data, c, x, '@', s.pos);
    IndexExtend(data, c, x, '?', s.pos);
    IndexExtend(data, c, x, '#', s.pos);
    EndAlike(data, c, x, s.pos);
    assert D[s.pos..|data|] == "";
  }

  lemma {:induction false} MarkedFrom(toPort: ToPort, data: string, c: char, x: string, s: State)
    requires Ready(data, c, x, s)
    ensures InBounds(data + [c] + x, s)
    ensures ParseFrom(toPort, data + [c] + x, s) ==
      match ParseFrom(toPort, data, s) case None => None case Some(u) => Some(Marked(u, c, x))
    decreases |data| - s.pos
  {
    var D := data + [c] + x;
    if s.pos == |data| {
      EmptySection(toPort, data, c, x, s);
      ParseStep(toPort, D, s, State(s.url, MarkSection(c), |data| + 1));
      MarkParses(toPort, data, c, x, s.url);
    } else {
      StepAlike(toPort, data, c, x, s);
      StepAdvances(toPort, data, s);
      var o, o' := Step(toPort, data, s), Step(toPort, D, s);
      if o.Next? {
        ParseStep(toPort, D, s, o'.state);
        if o' == o {
          MarkedFrom(toPort, data, c, x, o.state);
        } else {
          MarkParses(toPort, data, c, x, o.state.url);
        }
      }
    }
  }

  /** A text that starts with a single slash or with a question mark has no authority. */
  predicate IsLocal(data: string) {
    data != "" && (data[0] == '?' || (data[0] == '/' && !("//" <= data)))
  }

  /** Behind any text without a `#`, a fragment is read and changes nothing else, and so is a query
      behind any text without a `?` as well; this holds of every text that is refused and of every
      text that is read. Where the text may hold an authority, it does not end in a colon, and no
      colon and no at sign follow. */
  lemma {:induction false} MarkIsRead(toPort: ToPort, data: string, c: char, x: string)
    requires data != "" && IsMark(data, c, x)
    requires IsLocal(data) || (':' !in x && '@' !in x && data[|data| - 1] != ':')
    ensures Parse(toPort, data + [c] + x) ==
      match Parse(toPort, data) case None => None case Some(u) => Some(Marked(u, c, x))
  {
    var D := data + [c] + x;
    assert D[0] == data[0] && (|data| == 1 ==> D[1] == c) && (|data| > 1 ==> D[1] == data[1]);
    if "//" <= data {
      assert data[0] == '/' && data[1] == '/';
    }
    assert data[0] == '/' && |data| > 1 && data[1] == '/' ==> "//" <= data;
    MarkedFrom(toPort, data, c, x, State(BLANK, FirstSection(data), 0));
  }

  // ----- what a text may start with -----

  /** A path: the form in which a request line carries its uri. */
  lemma {:induction false} PathAlone(toPort: ToPort, path: string)
    requires path != "" && path[0] == '/' && !("//" <= path) && '?' !in path && '#' !in path
    ensures Parse(toPort, path) == Some(BLANK.(path := path))
  {
    assert |path| > 1 && path[1] == '/' ==> "//" <= path;
    assert "" + path == path;
    PathParses(toPort, "", path, BLANK);
  }

  lemma {:induction false} PathForms(toPort: ToPort, path: string, query: string, fragment: string)
    requires path != "" && path[0] == '/' && !("//" <= path) && '?' !in path && '#' !in path && '#' !in query
    ensures Parse(toPort, path) == Some(BLANK.(path := path))
    ensures BLANK.(path := path) == Url("unknown", Unknown, false, "", "", "", 0, "", path, "", "")
    ensures Parse(toPort, path + ['?'] + query) == Some(BLANK.(path := path, query := query))
    ensures Parse(toPort, path + ['#'] + fragment) == Some(BLANK.(path := path, fragment := fragment))
    ensures Parse(toPort, path + ['?'] + query + ['#'] + fragment)
      == Some(BLANK.(path := path, query := query, fragment := fragment))
  {
    PathAlone(toPort, path);
    MarkIsRead(toPort, path, '?', query);
    MarkIsRead(toPort, path, '#', fragment);
    LocalMore(path, query);
    MarkIsRead(toPort, path + ['?'] + query, '#', fragment);
  }

  lemma {:induction false} LocalMore(path: string, query: string)
    requires IsLocal(path) && '#' !in path && '#' !in query
    ensures IsLocal(path + ['?'] + query) && '#' !in path + ['?'] + query
  {
    var data := path + ['?'] + query;
    assert data[0] == path[0] && (|path| > 1 ==> data[1] == path[1]) && (|path| == 1 ==> data[1] == '?');
    assert "//" <= data ==> data[1] == '/';
    assert path[0] == '/' && |path| > 1 && path[1] == '/' ==> "//" <= path;
  }

  /** A query or a fragment; its mark is not skipped but becomes part of it. */
  lemma {:induction false} QueryAndFragmentForms(toPort: ToPort, query: string, fragment: string)
    requires '#' !in query
    ensures Parse(toPort, "") == Some(BLANK)
    ensures Parse(toPort, "?" + query) == Some(BLANK.(query := "?" + query))
    ensures Parse(toPort, "?" + query + ['#'] + fragment) == Some(BLANK.(query := "?" + query, fragment := fragment))
    ensures Parse(toPort, "#" + fragment) == Some(BLANK.(fragment := "#" + fragment))
  {
    var q, f := "?" + query, "#" + fragment;
    assert "" + q == q && q[0] == '?';
    QueryParses(toPort, "", q, BLANK);
    MarkIsRead(toPort, q, '#', fragment);
    assert f[0] == '#' && f[0..] == f;
    ParseStep(toPort, f, State(BLANK, FragPart, 0), State(BLANK.(fragment := f), FragPart, |f|));
  }

  /** Two slashes without a scheme announce an authority, but they are not skipped: the host is what
      stands before the first of them, nothing, and the path starts with the second. */
  lemma {:induction false} TwoSlashes(toPort: ToPort, rest: string)
    requires forall ch :: ch in "@:?#" ==> ch !in rest
    ensures Parse(toPort, "//" + rest) == Some(BLANK.(path := "/" + rest))
  {
    var data, path := "//" + rest, "/" + rest;
    assert '@' in "@:?#" && ':' in "@:?#" && '?' in "@:?#" && '#' in "@:?#";
    assert data[0] == '/' && data[1] == '/' && data == "/" + path && data[0..0] == "";
    assert forall ch :: ch in data ==> ch == '/' || ch in rest;
    ParseStep(toPort, data, State(BLANK, AuthStart, 0), State(BLANK, PathPart, 1));
    PathParses(toPort, "/", path, BLANK);
  }

  lemma {:induction false} TwoSlashForms(toPort: ToPort, rest: string, query: string, fragment: string)
    requires forall ch :: ch in "@:?#" ==> ch !in rest
    requires forall ch :: ch in "@:#" ==> ch !in query
    requires ':' !in fragment && '@' !in fragment
    ensures Parse(toPort, "//" + rest + ['?'] + query) == Some(BLANK.(path := "/" + rest, query := query))
    ensures Parse(toPort, "//" + rest + ['#'] + fragment) == Some(BLANK.(path := "/" + rest, fragment := fragment))
  {
    var data := "//" + rest;
    assert '@' in "@:?#" && ':' in "@:?#" && '?' in "@:?#" && '#' in "@:?#";
    assert '@' in "@:#" && ':' in "@:#" && '#' in "@:#";
    TwoSlashes(toPort, rest);
    MarkIsRead(toPort, data, '?', query);
    MarkIsRead(toPort, data, '#', fragment);
  }

  /** A text that starts with neither mark nor slash needs a colon. */
  lemma {:induction false} NeedsScheme(toPort: ToPort, data: string)
    requires data != "" && data[0] != '/' && data[0] != '?' && data[0] != '#' && ':' !in data
    ensures Parse(toPort, data) == None
  {
  }

  /** A record without an authority: its path does not start with two slashes, and is there. */
  predicate IsOpaque(u: Url) {
    && u.scheme != "" && ':' !in u.scheme && Lower(u.scheme) == u.scheme
    && u.kind == (if u.scheme == "http" then Http else if u.scheme == "https" then Https else Unknown)
    && u.scheme[0] != '/' && u.scheme[0] != '?' && u.scheme[0] != '#'
    && u == BLANK.(scheme := u.scheme, kind := u.kind, path := u.path, query := u.query)
    && u.path != "" && !("//" <= u.path) && '?' !in u.path && '#' !in u.path && '#' !in u.query
  }

  /** Printed without slashes behind the scheme, it is read back. */
  lemma {:induction false} OpaqueRoundTrip(toPort: ToPort, u: Url)
    requires IsOpaque(u)
    ensures ToString(u) == u.scheme + ":" + u.path + (if u.query != "" then "?" + u.query else "")
    ensures Parse(toPort, ToString(u)) == Some(u)
  {
    OpaqueText(u);
    var pre := u.scheme + ":";
    var v := BLANK.(scheme := u.scheme, kind := u.kind);
    if u.query == "" {
      assert pre + u.path + "" == pre + u.path;
      SchemeThenPath(toPort, u, u.path);
      PathParses(toPort, pre, u.path, v);
    } else {
      assert pre + (u.path + ['?'] + u.query) == pre + u.path + ("?" + u.query) == pre + u.path + ['?'] + u.query;
      SchemeThenPath(toPort, u, u.path + ['?'] + u.query);
      PathQueryParses(toPort, pre, u.path, u.query, v);
    }
  }

  lemma {:induction false} OpaqueText(u: Url)
    requires IsOpaque(u)
    ensures ToString(u) == u.scheme + ":" + u.path + (if u.query != "" then "?" + u.query else "")
  {
    assert u.scheme + [':'] + "" == u.scheme + ":";
  }

  lemma {:induction false} SchemeThenPath(toPort: ToPort, u: Url, rest: string)
    requires IsOpaque(u) && u.path <= rest && (|rest| > |u.path| ==> rest[|u.path|] == '?')
    ensures var data := u.scheme + ":" + rest;
      Parse(toPort, data)
      == ParseFrom(toPort, data, State(BLANK.(scheme := u.scheme, kind := u.kind), PathPart, |u.scheme + ":"|))
  {
    var data, i := u.scheme + ":" + rest, |u.scheme|;
    assert data[i] == ':' && forall k :: 0 <= k < i ==> data[k] == u.scheme[k];
    IndexOfIs(data, ':', 0, i);
    assert data[..i] == u.scheme && data[i + 1] == u.path[0];
    assert |rest| > 1 ==> data[i + 2] == rest[1];
    assert |u.path| > 1 && u.path[0] == '/' && u.path[1] == '/' ==> "//" <= u.path;
    assert |u.path| > 1 ==> rest[1] == u.path[1];
    assert u.path[0] in u.path;
    SchemeMeaning(data, State(BLANK, SchemePart, 0), i);
    ParseStep(toPort, data, State(BLANK, SchemePart, 0),
              State(BLANK.(scheme := u.scheme, kind := u.kind), PathPart, i + 1));
  }

  /** A port that is no number refuses the whole text. */
  lemma {:induction false} BadPortIsRefused(toPort: ToPort, scheme: string, host: string, port: string)
    requires scheme != "" && ':' !in scheme && Lower(scheme) == scheme
    requires scheme[0] != '/' && scheme[0] != '?' && scheme[0] != '#'
    requires ':' !in host && '@' !in host && '@' !in port && port != "" && NoDelimiter(port) && toPort(port) == None
    ensures Parse(toPort, scheme + "://" + host + [':'] + port) == None
  {
    var pre := scheme + "://";
    var v := BLANK.(scheme := scheme, kind := KindOf(scheme));
    var data := pre + host + [':'] + port;
    Assoc(pre + host, [':'], port);
    Assoc(pre, host, [':'] + port);
    SchemeParses(toPort, scheme, host + ([':'] + port));
    Absent(pre, host + ([':'] + port), '@');
    NoUserStep(toPort, data, v, |pre|);
    IndexAfter(pre, host, ':', port);
    SliceOf(pre, host, [':'] + port);
    ParseStep(toPort, data, State(v, HostPart, |pre|), State(v.(hostname := host), PortPart, |pre + host + [':']|));
    BadPort(toPort, pre + host + [':'], port, v.(hostname := host));
  }

  lemma {:induction false} BadPort(toPort: ToPort, pre: string, port: string, v: Url)
    requires port != "" && NoDelimiter(port) && toPort(port) == None
    ensures ParseFrom(toPort, pre + port, State(v, PortPart, |pre|)) == None
  {
    EndAtEnd(pre, port);
    assert (pre + port)[|pre|..|pre + port|] == port;
  }

  /** A record with a scheme and a user but no host is printed without an at sign, so the user is read
      back as the host. */
  lemma {:induction false} UserAloneBecomesHost(toPort: ToPort, scheme: string, name: string)
    requires scheme != "" && ':' !in scheme && Lower(scheme) == scheme
    requires scheme[0] != '/' && scheme[0] != '?' && scheme[0] != '#'
    requires name != "" && Lacks(name, "@:/?#")
    ensures var blank := BLANK.(scheme := scheme, kind := KindOf(scheme));
      var s := ToString(blank.(hasUserinfo := true, username := name));
      s == scheme + "://" + name && Parse(toPort, s) == Some(blank.(hostname := name))
  {
    var blank := BLANK.(scheme := scheme, kind := KindOf(scheme));
    var u, v := blank.(hasUserinfo := true, username := name), blank.(hostname := name);
    NameIsHost(toPort, v);
    PrintThenParse(toPort, v);
    PrintedText(toPort, v);
    NoMore(scheme, name);
  }

  lemma {:induction false} NoMore(scheme: string, name: string)
    ensures name + "" + "" == name && "" + "" + name == name && name + "" == name
    ensures scheme + [':'] + ("//" + name + "") + "" + "" + "" == scheme + "://" + name
    ensures (scheme + "://") + name + "" == scheme + "://" + name
  {
    assert "//" + name + "" == "//" + name;
    Assoc(scheme + [':'], "//", name);
    assert scheme + [':'] + "//" == scheme + "://";
  }

  lemma {:induction false} NameIsHost(toPort: ToPort, v: Url)
    requires v.scheme != "" && ':' !in v.scheme && Lower(v.scheme) == v.scheme
    requires v.scheme[0] != '/' && v.scheme[0] != '?' && v.scheme[0] != '#'
    requires v == BLANK.(scheme := v.scheme, kind := KindOf(v.scheme), hostname := v.hostname)
    requires v.hostname != "" && Lacks(v.hostname, "@:/?#")
    ensures WellFormed(toPort, v)
  {
    assert '@' in "@:/?#" && ':' in "@:/?#" && '/' in "@:/?#" && '?' in "@:/?#" && '#' in "@:/?#";
    assert Host(v) + Tail(v) == v.hostname;
  }

  lemma {:induction false} PrintsSomething(toPort: ToPort, u: Url)
    requires Plausible(toPort, u)
    ensures ToString(u) != ""
  {
    PrintedText(toPort, u);
  }

  /** A fragment behind a printed URL: nothing but the fragment changes. */
  lemma {:induction false} PrintedThenFragment(toPort: ToPort, u: Url, fragment: string)
    requires WellFormed(toPort, u) && ':' !in fragment && '@' !in fragment
    requires var s := ToString(u); '#' !in s && (s == "" || s[|s| - 1] != ':')
    ensures Parse(toPort, ToString(u) + ['#'] + fragment) == Some(u.(fragment := fragment))
  {
    PrintThenParse(toPort, u);
    PrintsSomething(toPort, u);
    MarkIsRead(toPort, ToString(u), '#', fragment);
  }
}
