/** The lines of a request head, whatever a request line and a header line look like: which bytes
    are counted and what the header map holds. */
module HeadLines {
  import opened Text
  import opened HeaderMaps

  datatype Request = Request(verb: string, uri: string, version: string)

  /** How a line is read: `None` is a line passed over where a request line is looked for, and a
      malformed one among the headers. */
  datatype Grammar = Grammar(req: string -> Option<Request>, field: string -> Option<Field>)

  function Add(hdrs: HeaderMap, f: Field): HeaderMap {
    AddHeader(hdrs, f.name, f.value)
  }

  datatype State = ReqLine | InHeaders(req: Request, hdrs: HeaderMap)

  /** `count` is what the lines add to the returned count; a request line adds its length without
      its CRLF. */
  datatype Head =
    | More(st: State, count: nat)
    | Failed
    | Blank(req: Request, hdrs: HeaderMap, count: nat, rest: string)

  datatype Step = Fails | Stops | Goes(st: State, cost: nat)

  function StepOf(g: Grammar, st: State, t: string): Step {
    match st
    case ReqLine =>
      if t == "" then Fails
      else (match g.req(t) case None => Goes(ReqLine, |t|) case Some(req) => Goes(InHeaders(req, map[]), |t|))
    case InHeaders(req, hdrs) =>
      if t == "" then Stops
      else (match g.field(t) case None => Fails case Some(f) => Goes(InHeaders(req, Add(hdrs, f)), |t| + 2))
  }

  function ReadHead(g: Grammar, st: State, data: string, count: nat): (h: Head)
    ensures h.Blank? ==> |h.rest| < |data|
    decreases |data|
  {
    match CutLine(data)
    case NoLine => More(st, count)
    case Line(t, rest) =>
      match StepOf(g, st, t)
      case Fails => Failed
      case Stops => if st.InHeaders? then Blank(st.req, st.hdrs, count, rest) else Failed
      case Goes(st', cost) => ReadHead(g, st', rest, count + cost)
  }

  // ----- what a list of header lines leaves in the map -----

  predicate AreFields(g: Grammar, ls: seq<string>) {
    forall i :: 0 <= i < |ls| ==> CrlfFree(ls[i]) && ls[i] != "" && g.field(ls[i]).Some?
  }

  function AddAll(g: Grammar, hdrs: HeaderMap, ls: seq<string>): HeaderMap
    requires AreFields(g, ls)
    decreases |ls|
  {
    if ls == [] then hdrs else AddAll(g, Add(hdrs, g.field(ls[0]).value), ls[1..])
  }

  /** The fields the lines are read to. */
  function FieldsIn(g: Grammar, ls: seq<string>): seq<Field>
    requires AreFields(g, ls)
    decreases |ls|
  {
    if ls == [] then [] else [g.field(ls[0]).value] + FieldsIn(g, ls[1..])
  }

  lemma {:induction false} AddAllCollects(g: Grammar, hdrs: HeaderMap, ls: seq<string>)
    requires AreFields(g, ls)
    ensures AddAll(g, hdrs, ls) == Collect(hdrs, FieldsIn(g, ls))
    decreases |ls|
  {
    if ls != [] {
      var f, fs := g.field(ls[0]).value, FieldsIn(g, ls[1..]);
      assert ([f] + fs)[1..] == fs;
      AddAllCollects(g, Add(hdrs, f), ls[1..]);
    }
  }

  /** The map holds, under each case-folded name and no other, the values of the lines with that
      name in arrival order. */
  lemma {:induction false} HeaderMapMeaning(g: Grammar, ls: seq<string>, key: string)
    requires AreFields(g, ls)
    ensures key in AddAll(g, map[], ls) <==> ValuesOf(FieldsIn(g, ls), key) != []
    ensures key in AddAll(g, map[], ls) ==> AddAll(g, map[], ls)[key] == ValuesOf(FieldsIn(g, ls), key)
  {
    var fs := FieldsIn(g, ls);
    AddAllCollects(g, map[], ls);
    CollectMeaning(map[], fs, key);
    assert [] + ValuesOf(fs, key) == ValuesOf(fs, key);
  }

  // ----- accounting -----

  function Lines(ls: seq<string>): string {
    if ls == [] then "" else ls[0] + CRLF + Lines(ls[1..])
  }

  /** Lines that are passed over while a request line is looked for. */
  predicate ArePassedOver(g: Grammar, js: seq<string>) {
    forall i :: 0 <= i < |js| ==> CrlfFree(js[i]) && js[i] != "" && g.req(js[i]).None?
  }

  predicate IsReqLine(g: Grammar, r: string) {
    CrlfFree(r) && r != "" && g.req(r).Some?
  }

  /** A point in the reading of the lines, and that reading on from one is reading on from another. */
  datatype Point = Point(st: State, data: string, count: nat)

  ghost predicate Leads(g: Grammar, a: Point, b: Point) {
    ReadHead(g, a.st, a.data, a.count) == ReadHead(g, b.st, b.data, b.count)
  }

  lemma {:induction false} LeadsOn(g: Grammar, a: Point, b: Point, c: Point)
    requires Leads(g, a, b) && Leads(g, b, c)
    ensures Leads(g, a, c)
  {
  }

  lemma {:induction false} LineLeads(g: Grammar, a: Point, t: string, b: Point)
    requires CutLine(a.data) == Line(t, b.data) && StepOf(g, a.st, t).Goes?
    requires b.st == StepOf(g, a.st, t).st && b.count == a.count + StepOf(g, a.st, t).cost
    ensures Leads(g, a, b)
  {
  }

  lemma {:induction false} LinesOf(ls: seq<string>, tail: string)
    requires ls != []
    ensures Lines(ls) == ls[0] + CRLF + Lines(ls[1..])
    ensures |Lines(ls)| == |ls[0]| + 2 + |Lines(ls[1..])|
    ensures CrlfFree(ls[0]) ==> CutLine(Lines(ls) + tail) == Line(ls[0], Lines(ls[1..]) + tail)
  {
    if CrlfFree(ls[0]) {
      Assoc(ls[0] + CRLF, Lines(ls[1..]), tail);
      CutLineOf(ls[0], Lines(ls[1..]) + tail);
    }
  }

  lemma {:induction false} FirstField(g: Grammar, req: Request, hdrs: HeaderMap, ls: seq<string>, tail: string, count: nat)
    requires ls != [] && AreFields(g, ls)
    ensures |Lines(ls)| == |ls[0]| + 2 + |Lines(ls[1..])|
    ensures Leads(g, Point(InHeaders(req, hdrs), Lines(ls) + tail, count),
                  Point(InHeaders(req, Add(hdrs, g.field(ls[0]).value)), Lines(ls[1..]) + tail, count + |ls[0]| + 2))
  {
    LinesOf(ls, tail);
    LineLeads(g, Point(InHeaders(req, hdrs), Lines(ls) + tail, count), ls[0],
              Point(InHeaders(req, Add(hdrs, g.field(ls[0]).value)), Lines(ls[1..]) + tail, count + |ls[0]| + 2));
  }

  /** Header lines are counted in full. */
  lemma {:induction false} FieldLines(g: Grammar, req: Request, hdrs: HeaderMap, ls: seq<string>, tail: string, count: nat)
    requires AreFields(g, ls)
    ensures Leads(g, Point(InHeaders(req, hdrs), Lines(ls) + tail, count),
                  Point(InHeaders(req, AddAll(g, hdrs, ls)), tail, count + |Lines(ls)|))
    decreases |ls|
  {
    var a := Point(InHeaders(req, hdrs), Lines(ls) + tail, count);
    if ls == [] {
      assert Lines(ls) + tail == tail;
    } else {
      var l, more := ls[0], ls[1..];
      var hdrs' := Add(hdrs, g.field(l).value);
      var b := Point(InHeaders(req, hdrs'), Lines(more) + tail, count + |l| + 2);
      FirstField(g, req, hdrs, ls, tail, count);
      FieldLines(g, req, hdrs', more, tail, b.count);
      var c := Point(InHeaders(req, AddAll(g, hdrs', more)), tail, b.count + |Lines(more)|);
      LeadsOn(g, a, b, c);
      assert c == Point(InHeaders(req, AddAll(g, hdrs, ls)), tail, count + |Lines(ls)|);
    }
  }

  lemma {:induction false} FirstPassed(g: Grammar, js: seq<string>, tail: string, count: nat)
    requires js != [] && ArePassedOver(g, js)
    ensures |Lines(js)| == |js[0]| + 2 + |Lines(js[1..])|
    ensures Leads(g, Point(ReqLine, Lines(js) + tail, count), Point(ReqLine, Lines(js[1..]) + tail, count + |js[0]|))
  {
    LinesOf(js, tail);
    LineLeads(g, Point(ReqLine, Lines(js) + tail, count), js[0],
              Point(ReqLine, Lines(js[1..]) + tail, count + |js[0]|));
  }

  /** Every line that is passed over is counted two short. */
  lemma {:induction false} PassedLines(g: Grammar, js: seq<string>, tail: string, count: nat)
    requires ArePassedOver(g, js)
    ensures |Lines(js)| >= 2 * |js|
    ensures Leads(g, Point(ReqLine, Lines(js) + tail, count), Point(ReqLine, tail, count + |Lines(js)| - 2 * |js|))
    decreases |js|
  {
    var a := Point(ReqLine, Lines(js) + tail, count);
    if js == [] {
      assert Lines(js) + tail == tail;
    } else {
      var l, more := js[0], js[1..];
      var b := Point(ReqLine, Lines(more) + tail, count + |l|);
      FirstPassed(g, js, tail, count);
      PassedLines(g, more, tail, b.count);
      LeadsOn(g, a, b, Point(ReqLine, tail, b.count + |Lines(more)| - 2 * |more|));
    }
  }

  function HeadText(r: string, ls: seq<string>): string {
    r + CRLF + Lines(ls) + CRLF
  }

  lemma {:induction false} AtBlank(g: Grammar, req: Request, hdrs: HeaderMap, rest: string, count: nat)
    ensures ReadHead(g, InHeaders(req, hdrs), CRLF + rest, count) == Blank(req, hdrs, count, rest)
  {
    CutLineOf("", rest);
    assert "" + CRLF + rest == CRLF + rest;
  }

  lemma {:induction false} HeadTextTail(r: string, ls: seq<string>, rest: string)
    ensures HeadText(r, ls) + rest == r + CRLF + (Lines(ls) + (CRLF + rest))
  {
    var a, b := r + CRLF, Lines(ls);
    Assoc(a + b, CRLF, rest);
    Assoc(a, b, CRLF + rest);
  }

  lemma {:induction false} ReqAndFields(g: Grammar, r: string, ls: seq<string>, tail: string, count: nat)
    requires IsReqLine(g, r) && AreFields(g, ls)
    ensures Leads(g, Point(ReqLine, r + CRLF + (Lines(ls) + tail), count),
                  Point(InHeaders(g.req(r).value, AddAll(g, map[], ls)), tail, count + |r| + |Lines(ls)|))
  {
    var req := g.req(r).value;
    var a := Point(ReqLine, r + CRLF + (Lines(ls) + tail), count);
    var b := Point(InHeaders(req, map[]), Lines(ls) + tail, count + |r|);
    CutLineOf(r, b.data);
    LineLeads(g, a, r, b);
    FieldLines(g, req, map[], ls, tail, b.count);
    LeadsOn(g, a, b, Point(InHeaders(req, AddAll(g, map[], ls)), tail, b.count + |Lines(ls)|));
  }

  lemma {:induction false} NoMoreLines(g: Grammar, st: State, left: string, count: nat)
    requires CrlfFree(left)
    ensures ReadHead(g, st, left, count) == More(st, count)
  {
    CutLineFree(left);
  }

  /** Between the request line and the blank line the count is the offset of the next line minus
      two; whatever incomplete line is left is not counted. */
  lemma {:induction false} PartialHead(g: Grammar, r: string, ls: seq<string>, left: string)
    requires IsReqLine(g, r) && AreFields(g, ls) && CrlfFree(left)
    ensures ReadHead(g, ReqLine, r + CRLF + (Lines(ls) + left), 0)
      == More(InHeaders(g.req(r).value, AddAll(g, map[], ls)), |r + CRLF + Lines(ls)| - 2)
  {
    ReqAndFields(g, r, ls, left, 0);
    NoMoreLines(g, InHeaders(g.req(r).value, AddAll(g, map[], ls)), left, |r| + |Lines(ls)|);
  }

  /** After the whole head the count is four short, which the blank line adds, whatever lines were
      passed over before the request line; for each of those it is two shorter still. */
  lemma {:induction false} WholeHead(g: Grammar, js: seq<string>, r: string, ls: seq<string>, rest: string)
    requires ArePassedOver(g, js) && IsReqLine(g, r) && AreFields(g, ls)
    ensures |Lines(js)| >= 2 * |js|
    ensures ReadHead(g, ReqLine, Lines(js) + (HeadText(r, ls) + rest), 0)
      == Blank(g.req(r).value, AddAll(g, map[], ls), |Lines(js)| - 2 * |js| + |HeadText(r, ls)| - 4, rest)
  {
    var data := HeadText(r, ls) + rest;
    PassedLines(g, js, data, 0);
    var c := |Lines(js)| - 2 * |js|;
    OneHead(g, r, ls, rest, c);
    assert |HeadText(r, ls)| == |r| + 2 + |Lines(ls)| + 2;
  }

  lemma {:induction false} OneHead(g: Grammar, r: string, ls: seq<string>, rest: string, c: nat)
    requires IsReqLine(g, r) && AreFields(g, ls)
    ensures ReadHead(g, ReqLine, HeadText(r, ls) + rest, c)
      == Blank(g.req(r).value, AddAll(g, map[], ls), c + |r| + |Lines(ls)|, rest)
  {
    HeadTextTail(r, ls, rest);
    ReqAndFields(g, r, ls, CRLF + rest, c);
    AtBlank(g, g.req(r).value, AddAll(g, map[], ls), rest, c + |r| + |Lines(ls)|);
  }

  /** A blank line where a request line is looked for fails the call, behind any lines passed over; */
  lemma {:induction false} BlankFails(g: Grammar, js: seq<string>, rest: string)
    requires ArePassedOver(g, js)
    ensures ReadHead(g, ReqLine, Lines(js) + (CRLF + rest), 0) == Failed
  {
    PassedLines(g, js, CRLF + rest, 0);
    CutLineOf("", rest);
    assert "" + CRLF + rest == CRLF + rest;
  }

  /** so does, behind a request line and any header lines, a line that is none. */
  lemma {:induction false} BadFieldFails(g: Grammar, r: string, ls: seq<string>, bad: string, rest: string)
    requires IsReqLine(g, r) && AreFields(g, ls) && CrlfFree(bad) && bad != "" && g.field(bad).None?
    ensures ReadHead(g, ReqLine, r + CRLF + (Lines(ls) + (bad + CRLF + rest)), 0) == Failed
  {
    ReqAndFields(g, r, ls, bad + CRLF + rest, 0);
    CutLineOf(bad, rest);
  }
}
