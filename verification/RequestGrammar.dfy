/** The grammar of a request head: how `http_parser` takes a request line and a header line apart,
    and what it concludes from the header map. */
module RequestGrammar {
  import opened Text
  import opened HeaderMaps
  import opened RequestBody
  import opened HeadLines
  import opened RequestHead
  import Machine = MultipartMachine

  /** Code outside the parser: the url constructor, the number conversion (`None` where it throws)
      and the access decision. */
  datatype Env = Env(
    uriOk: string -> bool,
    number: string -> Option<nat>,
    judge: (Request, HeaderMap) -> Verdict)

  // ----- one line -----

  predicate IsVerbChar(c: char) {
    'a' <= c <= 'z' || 'A' <= c <= 'Z' || '0' <= c <= '9' || c == '-' || c == '_'
  }

  /** The verb characters that end just before `to`. */
  function VerbBefore(line: string, to: nat): string
    requires to <= |line|
  {
    if to > 0 && IsVerbChar(line[to - 1]) then VerbBefore(line, to - 1) + [line[to - 1]] else ""
  }

  predicate IsVersion(v: string) {
    Lower(v) == "http/1.0" || Lower(v) == "http/1.1"
  }

  /** `None` where the line is passed over and another request line is looked for. */
  function ReqLineOf(env: Env, line: string): Option<Request> {
    var ssp := LastIndexOf(line, ' ', |line|);
    if ssp < 0 then None
    else
      // a search that would start before the line starts over at its end
      var fsp := LastIndexOf(line, ' ', if ssp == 0 then |line| else ssp);
      if fsp < 0 || fsp >= ssp then None
      else Accept(env, Parts(line, fsp, ssp))
  }

  function Parts(line: string, fsp: nat, ssp: nat): Request
    requires fsp < ssp < |line|
  {
    Request(VerbBefore(line, fsp), line[fsp + 1..ssp], Trim(line[ssp + 1..]))
  }

  function Accept(env: Env, req: Request): Option<Request> {
    if IsVersion(CStr(req.version)) && env.uriOk(req.uri) then Some(req) else None
  }

  function SkipBlanks(s: string): string {
    if s != "" && s[0] == ' ' then SkipBlanks(s[1..]) else s
  }

  function FieldOf(line: string): Option<Field> {
    var i := IndexOf(line, ':', 0);
    if i < 0 then None else Some(Field(line[..i], SkipBlanks(line[i + 1..])))
  }

  // ----- what the grammar admits, character by character -----

  /** Letters, digits, minus and underscore. */
  predicate InVerb(c: char) {
    c in UPPER || c in LOWER || c in DIGITS || c == '-' || c == '_'
  }

  lemma {:induction false} VerbAlphabet(c: char)
    ensures IsVerbChar(c) <==> InVerb(c)
  {
    InUpper(c);
    InLower(c);
    InDigits(c);
  }

  /** `HTTP/1.0` or `HTTP/1.1`, the letters in either case. */
  predicate SpellsVersion(v: string) {
    && |v| == 8 && (v[0] == 'h' || v[0] == 'H') && (v[1] == 't' || v[1] == 'T')
    && (v[2] == 't' || v[2] == 'T') && (v[3] == 'p' || v[3] == 'P')
    && v[4] == '/' && v[5] == '1' && v[6] == '.' && (v[7] == '0' || v[7] == '1')
  }

  lemma {:induction false} SameText(a: string, b: string)
    requires |a| == |b| && forall i :: 0 <= i < |a| ==> a[i] == b[i]
    ensures a == b
  {
  }

  lemma {:induction false} VersionIff(v: string)
    ensures IsVersion(v) <==> SpellsVersion(v)
  {
    if SpellsVersion(v) {
      SameText(Lower(v), if v[7] == '0' then "http/1.0" else "http/1.1");
    }
    if IsVersion(v) {
      var w := Lower(v);
      assert w[0] == 'h' && w[1] == 't' && w[2] == 't' && w[3] == 'p' && w[4] == '/' && w[5] == '1' && w[6] == '.';
      assert w[7] == '0' || w[7] == '1';
    }
  }

  // ----- reading back written lines -----

  predicate IsVerbAfter(pre: string, verb: string) {
    (pre == "" || !IsVerbChar(pre[|pre| - 1])) && forall i :: 0 <= i < |verb| ==> IsVerbChar(verb[i])
  }

  lemma {:induction false} VerbReads(pre: string, verb: string, post: string)
    requires IsVerbAfter(pre, verb)
    ensures VerbBefore(pre + verb + post, |pre| + |verb|) == verb
    decreases |verb|
  {
    var s := pre + verb + post;
    if verb == "" {
      assert pre != "" ==> s[|pre| - 1] == pre[|pre| - 1];
    } else {
      var n := |verb| - 1;
      var v, last := verb[..n], [verb[n]];
      assert verb == v + last;
      assert s == pre + v + (last + post);
      VerbReads(pre, v, last + post);
      assert s[|pre| + n] == verb[n];
    }
  }

  lemma {:induction false} VersionIsClean(v: string)
    requires SpellsVersion(v)
    ensures ' ' !in v && CStr(v) == v && Trim(v) == v
  {
    assert forall i :: 0 <= i < |v| ==> v[i] != ' ' && v[i] != '\0';
    TrimClean(v);
  }

  lemma {:induction false} LineParts(a: string, uri: string, v: string)
    requires ' ' !in uri && ' ' !in v
    ensures var line := a + " " + uri + " " + v;
      var f := |a|;
      var s := f + 1 + |uri|;
      line[f] == ' ' && line[s] == ' ' && line[f + 1..s] == uri && line[s + 1..] == v
      && (forall k :: f < k < s ==> line[k] != ' ') && (forall k :: s < k < |line| ==> line[k] != ' ')
  {
    var line := a + " " + uri + " " + v;
    var f := |a|;
    var s := f + 1 + |uri|;
    assert forall k :: f < k < s ==> line[k] == uri[k - f - 1];
    assert forall k :: s < k < |line| ==> line[k] == v[k - s - 1];
  }

  /** The parts of a written request line, found from its end. */
  lemma {:induction false} SpacesFound(a: string, uri: string, v: string)
    requires ' ' !in uri && ' ' !in v
    ensures var line := a + " " + uri + " " + v;
      LastIndexOf(line, ' ', |line|) == |a| + 1 + |uri| && LastIndexOf(line, ' ', |a| + 1 + |uri|) == |a|
  {
    var line := a + " " + uri + " " + v;
    LineParts(a, uri, v);
    LastIndexIs(line, ' ', |line|, |a| + 1 + |uri|);
    LastIndexIs(line, ' ', |a| + 1 + |uri|, |a|);
  }

  function ReqText(pre: string, req: Request): string {
    pre + req.verb + " " + req.uri + " " + req.version
  }

  /** The verb is made of verb characters and stands alone after `pre`. */
  predicate VerbStandsOut(pre: string, verb: string) {
    (pre == "" || !InVerb(pre[|pre| - 1])) && forall i :: 0 <= i < |verb| ==> InVerb(verb[i])
  }

  lemma {:induction false} StandsOut(pre: string, verb: string)
    requires VerbStandsOut(pre, verb)
    ensures IsVerbAfter(pre, verb)
  {
    if pre != "" {
      VerbAlphabet(pre[|pre| - 1]);
    }
    forall i | 0 <= i < |verb| ensures IsVerbChar(verb[i]) {
      VerbAlphabet(verb[i]);
    }
  }

  lemma {:induction false} PartsFound(pre: string, verb: string, uri: string, v: string)
    requires VerbStandsOut(pre, verb) && ' ' !in uri && ' ' !in v
    ensures var f := |pre + verb|;
      var s := f + 1 + |uri|;
      s < |pre + verb + " " + uri + " " + v|
      && Parts(pre + verb + " " + uri + " " + v, f, s) == Request(verb, uri, Trim(v))
  {
    LineParts(pre + verb, uri, v);
    StandsOut(pre, verb);
    VerbFound(pre, verb, uri, v);
  }

  /** A line of three parts is a request line exactly when its version is one of the two, whatever
      blanks but spaces are around it, and the url constructor takes its uri; it then reads back as
      those parts, whatever ends before the verb with another kind of character. */
  lemma {:induction false} ReqLineIff(env: Env, pre: string, req: Request)
    requires VerbStandsOut(pre, req.verb) && ' ' !in req.uri && ' ' !in req.version
    ensures ReqLineOf(env, ReqText(pre, req)) ==
      if SpellsVersion(CStr(Trim(req.version))) && env.uriOk(req.uri)
      then Some(Request(req.verb, req.uri, Trim(req.version)))
      else None
  {
    var f := |pre + req.verb|;
    SpacesFound(pre + req.verb, req.uri, req.version);
    PartsFound(pre, req.verb, req.uri, req.version);
    VersionIff(CStr(Trim(req.version)));
    ReqLineFrom(env, ReqText(pre, req), f, f + 1 + |req.uri|, Request(req.verb, req.uri, Trim(req.version)));
  }

  /** A written request line reads back as what it was written from. */
  lemma {:induction false} ReqLineReads(env: Env, pre: string, req: Request)
    requires VerbStandsOut(pre, req.verb)
    requires ' ' !in req.uri && env.uriOk(req.uri) && SpellsVersion(req.version)
    ensures ReqLineOf(env, ReqText(pre, req)) == Some(req)
  {
    VersionIsClean(req.version);
    ReqLineIff(env, pre, req);
  }

  /** A line with no or with one space is no request line. */
  lemma {:induction false} TooFewSpaces(env: Env, a: string, b: string)
    requires ' ' !in a && ' ' !in b
    ensures ReqLineOf(env, a) == None && ReqLineOf(env, a + " " + b) == None
  {
    var line := a + " " + b;
    assert forall k :: 0 <= k < |line| && line[k] == ' ' ==> k == |a|;
  }

  lemma {:induction false} VerbFound(pre: string, verb: string, uri: string, v: string)
    requires IsVerbAfter(pre, verb)
    ensures VerbBefore(pre + verb + " " + uri + " " + v, |pre + verb|) == verb
  {
    Assoc(pre + verb, " ", uri);
    Assoc(pre + verb, " " + uri, " ");
    Assoc(pre + verb, " " + uri + " ", v);
    VerbReads(pre, verb, " " + uri + " " + v);
  }

  lemma {:induction false} ReqLineFrom(env: Env, line: string, f: nat, s: nat, req: Request)
    requires f < s < |line| && LastIndexOf(line, ' ', |line|) == s && LastIndexOf(line, ' ', s) == f
    requires Parts(line, f, s) == req
    ensures ReqLineOf(env, line) == Accept(env, req)
  {
  }

  function Blanks(n: nat): string {
    if n == 0 then "" else " " + Blanks(n - 1)
  }

  lemma {:induction false} SkipBlanksOf(n: nat, v: string)
    requires v == "" || v[0] != ' '
    ensures SkipBlanks(Blanks(n) + v) == v
  {
    if n == 0 {
      assert "" + v == v;
    } else {
      assert (Blanks(n) + v)[1..] == Blanks(n - 1) + v;
      SkipBlanksOf(n - 1, v);
    }
  }

  /** A header line reads back as its name and value, however many blanks follow the colon. */
  lemma {:induction false} FieldReads(name: string, pad: nat, value: string)
    requires ':' !in name && (value == "" || value[0] != ' ')
    ensures FieldOf(name + ":" + (Blanks(pad) + value)) == Some(Field(name, value))
  {
    var line := name + ":" + (Blanks(pad) + value);
    assert line[|name|] == ':' && forall k :: 0 <= k < |name| ==> line[k] == name[k];
    IndexOfIs(line, ':', 0, |name|);
    assert line[..|name|] == name && line[|name| + 1..] == Blanks(pad) + value;
    SkipBlanksOf(pad, value);
  }

  /** A line is a header line exactly when it holds a colon. */
  lemma {:induction false} FieldIff(line: string)
    ensures FieldOf(line).Some? <==> ':' in line
  {
  }

  // ----- the blank line -----

  datatype Media = Simple(kind: Kind) | Multi

  const URLENC := "application/x-www-form-urlencoded"
  const MULTIP := "multipart/form-data"
  const TXTPLN := "text/plain"

  /** What one piece of the content type decides, or `other` when it names no form encoding. */
  function Decide(piece: string, other: Media): Media {
    if Lower(piece) == URLENC then Simple(UrlEncoded)
    else if Lower(piece) == MULTIP then Multi
    else if Lower(piece) == TXTPLN then Simple(TextPlain)
    else other
  }

  /** The first piece that names a form encoding decides. */
  function MediaOf(pieces: seq<string>): Media {
    if pieces == [] then Simple(Raw) else Decide(pieces[0], MediaOf(pieces[1..]))
  }

  predicate NamesEncoding(piece: string) {
    || Lower(piece) == "application/x-www-form-urlencoded"
    || Lower(piece) == "multipart/form-data" || Lower(piece) == "text/plain"
  }

  /** The piece at `i` is the first that names a form encoding, and it decides; with none the body
      is raw. */
  lemma {:induction false} MediaMeaning(pieces: seq<string>, i: nat)
    requires i <= |pieces| && forall j :: 0 <= j < i ==> !NamesEncoding(pieces[j])
    ensures i == |pieces| ==> MediaOf(pieces) == Simple(Raw)
    ensures i < |pieces| ==>
      (Lower(pieces[i]) == URLENC ==> MediaOf(pieces) == Simple(UrlEncoded))
      && (Lower(pieces[i]) == MULTIP ==> MediaOf(pieces) == Multi)
      && (Lower(pieces[i]) == TXTPLN ==> MediaOf(pieces) == Simple(TextPlain))
    decreases |pieces|
  {
    NamesDiffer();
    if i > 0 {
      assert pieces[1..][i - 1..] == pieces[i..];
      MediaMeaning(pieces[1..], i - 1);
    }
  }

  function EncodingName(m: Media): string {
    match m
    case Multi => "multipart/form-data"
    case Simple(UrlEncoded) => "application/x-www-form-urlencoded"
    case Simple(TextPlain) => "text/plain"
    case Simple(Raw) => ""
  }

  predicate NamesFirst(pieces: seq<string>, i: nat, name: string) {
    i < |pieces| && Lower(pieces[i]) == name && forall j :: 0 <= j < i ==> !NamesEncoding(pieces[j])
  }

  /** The first piece that names any form encoding names that of `m`; no piece does for a raw body. */
  predicate FirstNames(pieces: seq<string>, m: Media) {
    if m == Simple(Raw) then forall i :: 0 <= i < |pieces| ==> !NamesEncoding(pieces[i])
    else exists i :: 0 <= i < |pieces| && NamesFirst(pieces, i, EncodingName(m))
  }

  lemma {:induction false} FirstNaming(pieces: seq<string>) returns (i: nat)
    ensures i <= |pieces| && forall j :: 0 <= j < i ==> !NamesEncoding(pieces[j])
    ensures i < |pieces| ==> NamesEncoding(pieces[i])
    decreases |pieces|
  {
    if pieces == [] || NamesEncoding(pieces[0]) {
      i := 0;
    } else {
      var k := FirstNaming(pieces[1..]);
      i := k + 1;
    }
  }

  lemma {:induction false} NamesDiffer()
    ensures URLENC != MULTIP && URLENC != TXTPLN && MULTIP != TXTPLN
  {
    assert |URLENC| == 33 && |MULTIP| == 19 && |TXTPLN| == 10;
  }

  lemma {:induction false} MediaIff(pieces: seq<string>, m: Media)
    ensures MediaOf(pieces) == m <==> FirstNames(pieces, m)
  {
    var i := FirstNaming(pieces);
    MediaMeaning(pieces, i);
    NamesDiffer();
    forall k | 0 <= k < |pieces| && NamesFirst(pieces, k, EncodingName(m)) && m != Simple(Raw)
      ensures k == i
    {
      assert NamesEncoding(pieces[k]);
    }
    if i < |pieces| {
      assert EncodingName(MediaOf(pieces)) == Lower(pieces[i]) && MediaOf(pieces) != Simple(Raw);
      assert NamesFirst(pieces, i, Lower(pieces[i]));
    }
  }

  /** `post_headers_validation` */
  function NextOf(env: Env, hdrs: HeaderMap): After {
    if "content-length" !in hdrs then Go(NoBody)
    else
      match env.number(First(hdrs, "content-length"))
      case None => Restart
      case Some(size) =>
        if "content-type" !in hdrs then Go(Unprepared(size))
        else
          match MediaOf(Split(Trim(First(hdrs, "content-type")), ';'))
          case Simple(kind) => Go(Plain(kind, size))
          case Multi => MultipartOf(BoundaryOf(hdrs), size)
  }

  /** Without a boundary `init_multip` fails; but then the parser prepares a plain body after all,
      and one of length zero is ready, failure or not. */
  function MultipartOf(boundary: string, size: nat): After {
    if boundary != "" then Go(Multipart(boundary, size))
    else if size == 0 then Go(Plain(Raw, 0))
    else Refuse
  }

  /** The boundary attribute of the content type. */
  function BoundaryOf(hdrs: HeaderMap): string {
    Machine.GetBoundary(First(hdrs, "content-type"))
  }

  /** The pieces of the first content type. */
  function TypePieces(hdrs: HeaderMap): seq<string> {
    Split(Trim(First(hdrs, "content-type")), ';')
  }

  predicate HasLength(env: Env, hdrs: HeaderMap, size: nat) {
    "content-length" in hdrs && env.number(First(hdrs, "content-length")) == Some(size)
  }

  /** When each kind of body is announced, by the header map alone. */
  lemma {:induction false} NextMeaning(env: Env, hdrs: HeaderMap, size: nat, kind: Kind, b: string)
    ensures NextOf(env, hdrs) == Go(NoBody) <==> "content-length" !in hdrs
    ensures NextOf(env, hdrs) == Restart <==>
      "content-length" in hdrs && env.number(First(hdrs, "content-length")) == None
    ensures NextOf(env, hdrs) == Go(Unprepared(size)) <==> HasLength(env, hdrs, size) && "content-type" !in hdrs
    ensures NextOf(env, hdrs) == Go(Plain(kind, size)) <==>
      HasLength(env, hdrs, size) && "content-type" in hdrs
      && (FirstNames(TypePieces(hdrs), Simple(kind))
          || (FirstNames(TypePieces(hdrs), Multi) && BoundaryOf(hdrs) == "" && kind == Raw && size == 0))
    ensures NextOf(env, hdrs) == Go(Multipart(b, size)) <==>
      HasLength(env, hdrs, size) && "content-type" in hdrs && FirstNames(TypePieces(hdrs), Multi)
      && BoundaryOf(hdrs) == b && b != ""
    ensures NextOf(env, hdrs) == Refuse <==>
      (exists n: nat :: n > 0 && HasLength(env, hdrs, n)) && "content-type" in hdrs
      && FirstNames(TypePieces(hdrs), Multi) && BoundaryOf(hdrs) == ""
  {
    MediaIff(TypePieces(hdrs), Simple(kind));
    MediaIff(TypePieces(hdrs), Multi);
    if "content-length" in hdrs && env.number(First(hdrs, "content-length")).Some? {
      assert HasLength(env, hdrs, env.number(First(hdrs, "content-length")).value);
    }
  }

  /** The rules `http_parser` reads a head by. */
  function RulesOf(env: Env): Rules {
    Rules(Grammar(t => ReqLineOf(env, t), FieldOf), env.judge, hdrs => NextOf(env, hdrs))
  }

  // ----- a written head arrives -----

  datatype Written = Written(field: Field, pad: nat)

  function FieldText(w: Written): string {
    w.field.name + ":" + (Blanks(w.pad) + w.field.value)
  }

  predicate IsWritable(w: Written) {
    ':' !in w.field.name && (w.field.value == "" || w.field.value[0] != ' ') && CrlfFree(FieldText(w))
  }

  predicate AreWritable(ws: seq<Written>) {
    forall i :: 0 <= i < |ws| ==> IsWritable(ws[i])
  }

  function FieldTexts(ws: seq<Written>): seq<string> {
    if ws == [] then [] else [FieldText(ws[0])] + FieldTexts(ws[1..])
  }

  function FieldsOf(ws: seq<Written>): seq<Field> {
    if ws == [] then [] else [ws[0].field] + FieldsOf(ws[1..])
  }

  lemma {:induction false} TextReads(w: Written)
    requires IsWritable(w)
    ensures FieldOf(FieldText(w)) == Some(w.field) && FieldText(w) != ""
  {
    FieldReads(w.field.name, w.pad, w.field.value);
  }

  lemma {:induction false} FieldsCons(g: Grammar, l: string, ls: seq<string>)
    requires CrlfFree(l) && l != "" && g.field(l).Some? && AreFields(g, ls)
    ensures AreFields(g, [l] + ls)
  {
  }

  lemma {:induction false} AddAllCons(g: Grammar, hdrs: HeaderMap, l: string, ls: seq<string>)
    requires AreFields(g, ls) && AreFields(g, [l] + ls) && g.field(l).Some?
    ensures AddAll(g, hdrs, [l] + ls) == AddAll(g, Add(hdrs, g.field(l).value), ls)
  {
    assert ([l] + ls)[1..] == ls;
  }

  lemma {:induction false} TextsRead(g: Grammar, hdrs: HeaderMap, ws: seq<Written>)
    requires AreWritable(ws) && g.field == FieldOf
    ensures AreFields(g, FieldTexts(ws)) && AddAll(g, hdrs, FieldTexts(ws)) == Collect(hdrs, FieldsOf(ws))
    decreases |ws|
  {
    if ws != [] {
      var f, fs := ws[0].field, FieldsOf(ws[1..]);
      assert ([f] + fs)[1..] == fs;
      TextReads(ws[0]);
      TextsRead(g, Add(hdrs, f), ws[1..]);
      FieldsCons(g, FieldText(ws[0]), FieldTexts(ws[1..]));
      AddAllCons(g, hdrs, FieldText(ws[0]), FieldTexts(ws[1..]));
    }
  }

  /** A written head and whatever follows it: the request line and the header map are those
      written, the count is the length of the head, and the rest is left. */
  lemma {:induction false} WrittenHeadArrives(env: Env, pre: string, req: Request, ws: seq<Written>, rest: string)
    requires VerbStandsOut(pre, req.verb) && ' ' !in req.uri && env.uriOk(req.uri) && SpellsVersion(req.version)
    requires CrlfFree(ReqText(pre, req)) && AreWritable(ws)
    requires var hdrs := Collect(map[], FieldsOf(ws)); env.judge(req, hdrs) != Reject && NextOf(env, hdrs).Go?
    ensures var head, hdrs := HeadText(ReqText(pre, req), FieldTexts(ws)), Collect(map[], FieldsOf(ws));
      ParseHead(RulesOf(env), ReqLine, head + rest, 0) == Ended(req, hdrs, NextOf(env, hdrs).next, |head|, rest)
  {
    ReqLineReads(env, pre, req);
    TextsRead(RulesOf(env).lines, map[], ws);
    HeadArrives(RulesOf(env), ReqText(pre, req), FieldTexts(ws), rest, req, Collect(map[], FieldsOf(ws)));
  }

  lemma {:induction false} HeadArrives(rules: Rules, r: string, ls: seq<string>, rest: string, req: Request, hdrs: HeaderMap)
    requires CrlfFree(r) && r != "" && rules.lines.req(r) == Some(req)
    requires AreFields(rules.lines, ls) && AddAll(rules.lines, map[], ls) == hdrs
    requires AfterHead(rules, req, hdrs).Go?
    ensures ParseHead(rules, ReqLine, HeadText(r, ls) + rest, 0)
      == Ended(req, hdrs, AfterHead(rules, req, hdrs).next, |HeadText(r, ls)|, rest)
  {
    OneHead(rules.lines, r, ls, rest, 0);
    AtEnd(rules, ReqLine, HeadText(r, ls) + rest, Blank(req, hdrs, |r| + |Lines(ls)|, rest));
  }

  // ----- the loops -----

  lemma {:induction false} AroundChar(s: string, from: nat, e: nat)
    requires from <= e < |s|
    ensures s[from..] == s[from..e] + [s[e]] + s[e + 1..]
  {
  }

  lemma {:induction false} PieceAt(ct: string, from: nat)
    requires from <= |ct|
    ensures var e := IndexOf(ct, ';', from);
      Split(ct[from..], ';') == if e < 0 then [ct[from..]] else [ct[from..e]] + Split(ct[e + 1..], ';')
  {
    var e := IndexOf(ct, ';', from);
    if e < 0 {
      SplitNone(ct[from..], ';');
    } else {
      AroundChar(ct, from, e);
      SplitCons(ct[from..e], ';', ct[e + 1..]);
    }
  }

  /** What the pieces after the separator at `at` decide. */
  function MediaFrom(ct: string, at: int): Media
    requires -1 <= at <= |ct|
  {
    if at < |ct| then MediaOf(Split(ct[at + 1..], ';')) else Simple(Raw)
  }

  lemma {:induction false} MediaCons(pieces: seq<string>, piece: string, more: seq<string>)
    requires pieces == [piece] + more
    ensures MediaOf(pieces) == Decide(piece, MediaOf(more))
  {
    assert pieces[1..] == more;
  }

  lemma {:induction false} MediaMore(ct: string, from: nat, e: nat)
    requires from <= e < |ct| && IndexOf(ct, ';', from) == e
    ensures MediaFrom(ct, from - 1) == Decide(ct[from..e], MediaFrom(ct, e))
  {
    PieceAt(ct, from);
    MediaCons(Split(ct[from..], ';'), ct[from..e], Split(ct[e + 1..], ';'));
  }

  lemma {:induction false} MediaLast(ct: string, from: nat)
    requires from <= |ct| && IndexOf(ct, ';', from) < 0
    ensures MediaFrom(ct, from - 1) == Decide(ct[from..|ct|], MediaFrom(ct, |ct|))
  {
    PieceAt(ct, from);
    assert ct[from..|ct|] == ct[from..];
    assert [ct[from..]] == [ct[from..]] + [];
    MediaCons(Split(ct[from..], ';'), ct[from..], []);
  }

  method FindLast(line: string, c: char, to: nat) returns (i: int)
    requires to <= |line|
    ensures i == LastIndexOf(line, c, to)
  {
    i := to - 1;
    while i >= 0 && line[i] != c
      invariant -1 <= i < to
      invariant LastIndexOf(line, c, to) == LastIndexOf(line, c, i + 1)
    {
      i := i - 1;
    }
  }

  /** The loop that collects the verb backwards. */
  method ReadVerb(line: string, to: nat) returns (verb: string)
    requires to <= |line|
    ensures verb == VerbBefore(line, to)
  {
    verb := "";
    var i := to;
    assert VerbBefore(line, to) + "" == VerbBefore(line, to);
    while i > 0 && IsVerbChar(line[i - 1])
      invariant 0 <= i <= to
      invariant VerbBefore(line, to) == VerbBefore(line, i) + verb
    {
      Assoc(VerbBefore(line, i - 1), [line[i - 1]], verb);
      verb := [line[i - 1]] + verb;
      i := i - 1;
    }
  }

  method ReadReqLine(env: Env, line: string) returns (r: Option<Request>)
    ensures r == ReqLineOf(env, line)
  {
    var ssp := FindLast(line, ' ', |line|);
    if ssp < 0 {
      return None;
    }
    var fsp := FindLast(line, ' ', if ssp == 0 then |line| else ssp);
    if fsp < 0 || fsp >= ssp {
      return None;
    }
    var verb := ReadVerb(line, fsp);
    var parts := Request(verb, line[fsp + 1..ssp], Trim(line[ssp + 1..]));
    assert parts == Parts(line, fsp, ssp);
    return Accept(env, parts);
  }

  method ReadField(line: string) returns (r: Option<Field>)
    ensures r == FieldOf(line)
  {
    var sep := IndexOf(line, ':', 0);
    if sep < 0 {
      return None;
    }
    var at := sep + 1;
    while at < |line| && line[at] == ' '
      invariant sep < at <= |line|
      invariant SkipBlanks(line[at..]) == SkipBlanks(line[sep + 1..])
    {
      assert line[at..][1..] == line[at + 1..];
      at := at + 1;
    }
    assert SkipBlanks(line[at..]) == line[at..];
    return Some(Field(line[..sep], line[at..]));
  }

  /** The loop over the pieces of the content type. */
  method FindMedia(ct: string) returns (m: Media)
    ensures m == MediaOf(Split(ct, ';'))
  {
    var at := -1;
    assert ct[0..] == ct;
    while at < |ct|
      invariant -1 <= at <= |ct|
      invariant MediaOf(Split(ct, ';')) == MediaFrom(ct, at)
      decreases |ct| - at
    {
      var from := at + 1;
      at := IndexOf(ct, ';', from);
      if at < 0 {
        MediaLast(ct, from);
        at := |ct|;
      } else {
        MediaMore(ct, from, at);
      }
      var piece := ct[from..at];
      if Lower(piece) == URLENC {
        return Simple(UrlEncoded);
      } else if Lower(piece) == MULTIP {
        return Multi;
      } else if Lower(piece) == TXTPLN {
        return Simple(TextPlain);
      }
    }
    return Simple(Raw);
  }

  /** `post_headers_validation`: what the header map says about the body. */
  method ReadNext(env: Env, hdrs: HeaderMap) returns (a: After)
    ensures a == NextOf(env, hdrs)
  {
    if "content-length" !in hdrs {
      return Go(NoBody);
    }
    var size := env.number(First(hdrs, "content-length"));
    if size.None? {
      return Restart;
    }
    if "content-type" !in hdrs {
      return Go(Unprepared(size.value));
    }
    var media := FindMedia(Trim(First(hdrs, "content-type")));
    if media.Simple? {
      return Go(Plain(media.kind, size.value));
    }
    var boundary := Machine.GetBoundary(First(hdrs, "content-type"));
    if boundary != "" {
      return Go(Multipart(boundary, size.value));
    }
    return if size.value == 0 then Go(Plain(Raw, 0)) else Refuse;
  }
}
