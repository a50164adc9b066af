/** A call of `http_parser` on the bytes of a request head, for any grammar of its lines: what ends
    the head, what goes to the body and the count that is returned. */
module RequestHead {
  import opened Text
  import opened HeaderMaps
  import opened RequestBody
  import opened HeadLines
  import Machine = MultipartMachine
  import Form = MultipartParser

  /** What `validate_headers` leaves behind: an error, a response still paused on its access
      policies, or a response that has been resumed. */
  datatype Verdict = Reject | Pause | Proceed

  /** The body that follows. Without a content type it is announced but its buffer is never
      prepared. */
  datatype Next = NoBody | Unprepared(size: nat) | Plain(kind: Kind, size: nat) | Multipart(boundary: string, size: nat)

  datatype After = Refuse | Restart | Go(next: Next)

  datatype Rules = Rules(lines: Grammar, judge: (Request, HeaderMap) -> Verdict, next: HeaderMap -> After)

  /** A rejected request is not looked at further. */
  function AfterHead(rules: Rules, req: Request, hdrs: HeaderMap): After {
    if rules.judge(req, hdrs) == Reject then Refuse else rules.next(hdrs)
  }

  datatype Outcome =
    | Waiting(st: State, count: nat)
    | Refused
    | Ended(req: Request, hdrs: HeaderMap, next: Next, count: nat, rest: string)

  /** A call up to the end of the head. A length that is no number starts the parser over, two
      bytes counted for the blank line. */
  function ParseHead(rules: Rules, st: State, data: string, count: nat): Outcome
    decreases |data|
  {
    match ReadHead(rules.lines, st, data, count)
    case More(st', n) => Waiting(st', n)
    case Failed => Refused
    case Blank(req, hdrs, n, rest) =>
      match AfterHead(rules, req, hdrs)
      case Refuse => Refused
      case Restart => ParseHead(rules, ReqLine, rest, n + 2)
      case Go(next) => Ended(req, hdrs, next, n + 4, rest)
  }

  /** The request is not rejected and what it announces can be prepared. */
  predicate GoesOn(rules: Rules, r: string, ls: seq<string>)
    requires IsReqLine(rules.lines, r) && AreFields(rules.lines, ls)
  {
    var hdrs := AddAll(rules.lines, map[], ls);
    rules.judge(rules.lines.req(r).value, hdrs) != Reject && rules.next(hdrs).Go?
  }

  lemma {:induction false} AtEnd(rules: Rules, st: State, data: string, h: Head)
    requires h == ReadHead(rules.lines, st, data, 0) && h.Blank? && AfterHead(rules, h.req, h.hdrs).Go?
    ensures ParseHead(rules, st, data, 0)
      == Ended(h.req, h.hdrs, AfterHead(rules, h.req, h.hdrs).next, h.count + 4, h.rest)
  {
  }

  /** The blank line pays the missing two back, so the returned count is the length of the head;
      but for each line passed over before the request line it stays two short. */
  lemma {:induction false} HeadAccounting(rules: Rules, js: seq<string>, r: string, ls: seq<string>, rest: string)
    requires ArePassedOver(rules.lines, js) && IsReqLine(rules.lines, r) && AreFields(rules.lines, ls)
    requires GoesOn(rules, r, ls)
    ensures var head := Lines(js) + HeadText(r, ls);
      var out := ParseHead(rules, ReqLine, head + rest, 0);
      out.Ended? && out.req == rules.lines.req(r).value && out.hdrs == AddAll(rules.lines, map[], ls)
      && out.rest == rest && out.count + 2 * |js| == |head|
      && (out.count == |head| <==> js == [])
  {
    Assoc(Lines(js), HeadText(r, ls), rest);
    WholeHead(rules.lines, js, r, ls, rest);
    var data := Lines(js) + (HeadText(r, ls) + rest);
    AtEnd(rules, ReqLine, data, ReadHead(rules.lines, ReqLine, data, 0));
  }

  // ----- any call -----

  /** Everything the parser remembers between calls. `Stuck` is the body that was announced without
      a content type: its buffer is never made. */
  datatype Parser =
    | InHead(st: State)
    | Failing
    | NoBodyToRead(req: Request, hdrs: HeaderMap)
    | Stuck(req: Request, hdrs: HeaderMap)
    | PlainBody(req: Request, hdrs: HeaderMap, body: Body)
    | FormBody(req: Request, hdrs: HeaderMap, bounds: Machine.Bounds, form: Machine.Session)

  /** `init_body`, `init_multip` */
  function Begin(req: Request, hdrs: HeaderMap, next: Next): Parser {
    match next
    case NoBody => NoBodyToRead(req, hdrs)
    case Unprepared(_) => Stuck(req, hdrs)
    case Plain(kind, size) => PlainBody(req, hdrs, Init(kind, size))
    case Multipart(boundary, _) => FormBody(req, hdrs, Machine.SetBoundary(boundary), Machine.FRESH)
  }

  /** A call once the head has ended, and how many bytes it takes. There is no answer where the code
      writes to the buffer that was never made. */
  function BodyCall(p: Parser, data: string): Option<(Parser, nat)>
    requires !p.InHead? && !p.Failing?
  {
    if data == "" then Some((p, 0))
    else
      match p
      case NoBodyToRead(_, _) => Some((p, 0))
      case Stuck(_, _) => None
      case PlainBody(_, _, b) => var (b', n) := Feed(b, data); Some((p.(body := b'), n))
      case FormBody(_, _, bd, f) => Some((p.(form := Machine.Feed(bd, f, data)), if f.Open? then |data| else 0))
  }

  /** What a call on the head comes to: with access granted, the rest goes to the body at once. */
  function Finish(rules: Rules, out: Outcome): Option<(Parser, nat)> {
    match out
    case Waiting(st, n) => Some((InHead(st), n))
    case Refused => Some((Failing, 0))
    case Ended(req, hdrs, next, n, rest) =>
      if rules.judge(req, hdrs) != Proceed then Some((Begin(req, hdrs, next), n))
      else
        match BodyCall(Begin(req, hdrs, next), rest)
        case None => None
        case Some((p, m)) => Some((p, n + m))
  }

  /** Any call; a failed parser starts over. */
  function Call(rules: Rules, p: Parser, data: string): Option<(Parser, nat)> {
    if data == "" then Some((p, 0))
    else
      match p
      case InHead(st) => Finish(rules, ParseHead(rules, st, data, 0))
      case Failing => Finish(rules, ParseHead(rules, ReqLine, data, 0))
      case _ => BodyCall(p, data)
  }

  /** What a freshly announced body takes of the bytes at hand. */
  function Taken(next: Next, rest: string): nat {
    match next
    case NoBody => 0
    case Unprepared(_) => 0
    case Plain(_, size) => Min(|rest|, size)
    case Multipart(_, _) => |rest|
  }

  lemma {:induction false} TakenByBody(req: Request, hdrs: HeaderMap, next: Next, rest: string)
    ensures BodyCall(Begin(req, hdrs, next), rest).None? <==> next.Unprepared? && rest != ""
    ensures BodyCall(Begin(req, hdrs, next), rest).Some? ==>
      BodyCall(Begin(req, hdrs, next), rest).value.1 == Taken(next, rest)
  {
  }

  /** One call with the whole head and some of what follows, that is not refused. It breaks exactly
      when access is granted, a body was announced without a content type and a byte of it is at
      hand; otherwise it reports the head and, with access granted, what the body takes: nothing
      without a body, up to the content length of a plain one, everything of a multipart one. */
  lemma {:induction false} CallIsExact(rules: Rules, r: string, ls: seq<string>, rest: string)
    requires IsReqLine(rules.lines, r) && AreFields(rules.lines, ls) && GoesOn(rules, r, ls)
    ensures var hdrs := AddAll(rules.lines, map[], ls);
      var req, next := rules.lines.req(r).value, rules.next(hdrs).next;
      var granted := rules.judge(req, hdrs) == Proceed;
      var call, n := Call(rules, InHead(ReqLine), HeadText(r, ls) + rest), |HeadText(r, ls)|;
      match next
      case NoBody => call == Some((NoBodyToRead(req, hdrs), n))
      case Unprepared(_) => call == if granted && rest != "" then None else Some((Stuck(req, hdrs), n))
      case Plain(kind, size) =>
        call == if granted then Some((PlainBody(req, hdrs, Feed(Init(kind, size), rest).0), n + Min(|rest|, size)))
                else Some((PlainBody(req, hdrs, Init(kind, size)), n))
      case Multipart(b, _) =>
        var bd := Machine.Bounds("--" + b, "--" + b + "--");
        call == if granted then Some((FormBody(req, hdrs, bd, Machine.Feed(bd, Machine.FRESH, rest)), n + |rest|))
                else Some((FormBody(req, hdrs, bd, Machine.FRESH), n))
  {
    var hdrs := AddAll(rules.lines, map[], ls);
    EndedIsNext(rules, r, ls, rest);
    FirstBody(rules.lines.req(r).value, hdrs, rules.next(hdrs).next, rest);
  }

  /** What the freshly announced body does with the bytes at hand. */
  lemma {:induction false} FirstBody(req: Request, hdrs: HeaderMap, next: Next, rest: string)
    ensures BodyCall(Begin(req, hdrs, next), rest) == match next
      case NoBody => Some((NoBodyToRead(req, hdrs), 0))
      case Unprepared(_) => if rest != "" then None else Some((Stuck(req, hdrs), 0))
      case Plain(kind, size) => Some((PlainBody(req, hdrs, Feed(Init(kind, size), rest).0), Min(|rest|, size)))
      case Multipart(b, _) =>
        var bd := Machine.SetBoundary(b);
        Some((FormBody(req, hdrs, bd, Machine.Feed(bd, Machine.FRESH, rest)), |rest|))
  {
    if rest == "" && next.Plain? && next.size > 0 {
      assert "" + rest[..|rest|] == "";
    }
  }

  lemma {:induction false} EndedIsNext(rules: Rules, r: string, ls: seq<string>, rest: string)
    requires IsReqLine(rules.lines, r) && AreFields(rules.lines, ls) && GoesOn(rules, r, ls)
    ensures var hdrs := AddAll(rules.lines, map[], ls);
      ParseHead(rules, ReqLine, HeadText(r, ls) + rest, 0)
      == Ended(rules.lines.req(r).value, hdrs, rules.next(hdrs).next, |HeadText(r, ls)|, rest)
  {
    OneHead(rules.lines, r, ls, rest, 0);
    var data := HeadText(r, ls) + rest;
    AtEnd(rules, ReqLine, data, ReadHead(rules.lines, ReqLine, data, 0));
  }

  /** A call with a whole head that is refused fails and reports nothing; the next call starts over.
      A length that is no number starts the parser over at once, the head counted two short. */
  lemma {:induction false} CallStops(rules: Rules, r: string, ls: seq<string>, rest: string)
    requires IsReqLine(rules.lines, r) && AreFields(rules.lines, ls)
    ensures var hdrs := AddAll(rules.lines, map[], ls);
      var call, rejected := Call(rules, InHead(ReqLine), HeadText(r, ls) + rest), rules.judge(rules.lines.req(r).value, hdrs) == Reject;
      && (rejected || rules.next(hdrs) == Refuse ==> call == Some((Failing, 0)))
      && (!rejected && rules.next(hdrs) == Restart && CrlfFree(rest) ==>
            call == Some((InHead(ReqLine), |HeadText(r, ls)| - 2)))
    ensures rest != "" ==> Call(rules, Failing, rest) == Call(rules, InHead(ReqLine), rest)
  {
    OneHead(rules.lines, r, ls, rest, 0);
    HeadIsText(r, ls);
    CutLineFree(rest);
    if CrlfFree(rest) {
      NoLineLeft(rules, ReqLine, rest, |r| + |Lines(ls)| + 2);
    }
  }

  /** A line that does not belong where it stands fails the call, which then reports nothing. */
  lemma {:induction false} BadLineFails(rules: Rules, js: seq<string>, r: string, ls: seq<string>, bad: string, rest: string)
    requires ArePassedOver(rules.lines, js) && IsReqLine(rules.lines, r) && AreFields(rules.lines, ls)
    requires CrlfFree(bad) && bad != "" && rules.lines.field(bad).None?
    ensures Call(rules, InHead(ReqLine), Lines(js) + (CRLF + rest)) == Some((Failing, 0))
    ensures Call(rules, InHead(ReqLine), r + CRLF + (Lines(ls) + (bad + CRLF + rest))) == Some((Failing, 0))
  {
    BlankFails(rules.lines, js, rest);
    BadFieldFails(rules.lines, r, ls, bad, rest);
  }

  /** Whether nothing is left to be read of a request. */
  predicate IsFinished(p: Parser) {
    p.NoBodyToRead? || (p.PlainBody? && p.body.Ready?) || (p.FormBody? && !p.form.Open?)
  }

  /** An empty call changes nothing, and a finished request takes nothing more. */
  lemma {:induction false} FinishedTakesNothing(rules: Rules, p: Parser, data: string)
    ensures Call(rules, p, "") == Some((p, 0))
    ensures IsFinished(p) ==> Call(rules, p, data) == Some((p, 0))
  {
  }

  lemma {:induction false} HeadIsText(r: string, ls: seq<string>)
    ensures |HeadText(r, ls)| == |r| + 2 + |Lines(ls)| + 2
  {
  }

  // ----- a body over several calls -----

  /** Successive calls once the head has ended. */
  function BodyCalls(p: Parser, chunks: seq<string>): Option<(Parser, nat)>
    requires !p.InHead? && !p.Failing?
    decreases chunks
  {
    if chunks == [] then Some((p, 0))
    else
      match BodyCall(p, chunks[0])
      case None => None
      case Some((p1, n)) =>
        match BodyCalls(p1, chunks[1..])
        case None => None
        case Some((p2, m)) => Some((p2, n + m))
  }

  lemma {:induction false} PlainCalls(req: Request, hdrs: HeaderMap, b: Body, chunks: seq<string>)
    requires b.Reading? ==> |b.got| < b.size
    ensures BodyCalls(PlainBody(req, hdrs, b), chunks)
      == Some((PlainBody(req, hdrs, FeedAll(b, chunks).0), FeedAll(b, chunks).1))
    decreases chunks
  {
    if chunks != [] {
      var b' := Feed(b, chunks[0]).0;
      if chunks[0] == "" && b.Reading? {
        assert b.got + "" == b.got;
      }
      PlainCalls(req, hdrs, b', chunks[1..]);
    }
  }

  lemma {:induction false} FormCalls(req: Request, hdrs: HeaderMap, bd: Machine.Bounds, f: Machine.Session, chunks: seq<string>)
    ensures BodyCalls(FormBody(req, hdrs, bd, f), chunks).Some?
    ensures BodyCalls(FormBody(req, hdrs, bd, f), chunks).value.0
      == FormBody(req, hdrs, bd, Machine.FeedAll(bd, f, chunks))
    decreases chunks
  {
    if chunks != [] {
      FormCalls(req, hdrs, bd, Machine.Feed(bd, f, chunks[0]), chunks[1..]);
    }
  }

  // ----- the object -----

  datatype Status = ParsingReqLine | ParsingHeader | ParsingBody | ReadyToExec | Error

  lemma {:induction false} NoLineLeft(rules: Rules, st: State, data: string, count: nat)
    requires CutLine(data).NoLine?
    ensures ParseHead(rules, st, data, count) == Waiting(st, count)
  {
  }

  /** What one line does to a call. */
  function LineEffect(rules: Rules, st: State, count: nat, t: string, rest: string): Outcome {
    match StepOf(rules.lines, st, t)
    case Fails => Refused
    case Goes(st', cost) => ParseHead(rules, st', rest, count + cost)
    case Stops =>
      if st.ReqLine? then Refused
      else
        match AfterHead(rules, st.req, st.hdrs)
        case Refuse => Refused
        case Restart => ParseHead(rules, ReqLine, rest, count + 2)
        case Go(next) => Ended(st.req, st.hdrs, next, count + 4, rest)
  }

  lemma {:induction false} SameReading(rules: Rules, a: Point, b: Point)
    requires Leads(rules.lines, a, b)
    ensures ParseHead(rules, a.st, a.data, a.count) == ParseHead(rules, b.st, b.data, b.count)
  {
  }

  lemma {:induction false} ParseStep(rules: Rules, st: State, data: string, count: nat, t: string, rest: string)
    requires CutLine(data) == Line(t, rest)
    ensures ParseHead(rules, st, data, count) == LineEffect(rules, st, count, t, rest)
  {
    var step := StepOf(rules.lines, st, t);
    if step.Goes? {
      var a, b := Point(st, data, count), Point(step.st, rest, count + step.cost);
      LineLeads(rules.lines, a, t, b);
      SameReading(rules, a, b);
    }
  }

  lemma {:induction false} EolFound(data: string, from: nat, i: nat)
    requires from <= i && i + 2 <= |data| && data[i] == '\r' && data[i + 1] == '\n'
    requires forall k :: from <= k < i ==> !(data[k] == '\r' && data[k + 1] == '\n')
    ensures CutLine(data[from..]) == Line(data[from..i], data[i + 2..])
  {
    var t, rest := data[from..i], data[i + 2..];
    assert data[from..] == t + CRLF + rest;
    assert CrlfFree(t) by {
      forall k | 0 <= k < |t| - 1 ensures !(t[k] == '\r' && t[k + 1] == '\n') {
        assert t[k] == data[from + k] && t[k + 1] == data[from + k + 1];
      }
    }
    CutLineOf(t, rest);
  }

  lemma {:induction false} EolMissing(data: string, from: nat)
    requires from <= |data|
    requires forall k :: from <= k && k + 1 < |data| ==> !(data[k] == '\r' && data[k + 1] == '\n')
    ensures CutLine(data[from..]).NoLine?
  {
    var t := data[from..];
    forall k | 0 <= k < |t| - 1 ensures !(t[k] == '\r' && t[k + 1] == '\n') {
      assert t[k] == data[from + k] && t[k + 1] == data[from + k + 1];
    }
    CutLineFree(t);
  }

  class HttpParser {
    const rules: Rules
    var status: Status
    var req: Request
    var hdrs: HeaderMap
    // what the head announced, once it has ended, and what reads it
    var next: Next
    var body: BodyReader?
    var form: Form.Parser?

    constructor (rules: Rules)
      ensures Valid() && View() == InHead(ReqLine) && this.rules == rules
    {
      this.rules, status, next, body, form := rules, ParsingReqLine, NoBody, null, null;
      req, hdrs := Request("", "", ""), map[];
    }

    ghost predicate ReadsHead()
      reads this
    {
      status.ParsingReqLine? || status.ParsingHeader?
    }

    ghost function HeadState(): State
      reads this
    {
      if status.ParsingHeader? then InHeaders(req, hdrs) else ReqLine
    }

    /** A body is at hand, in the state the status says. */
    ghost predicate BodyValid()
      reads this, body, form
    {
      match next
      case NoBody => status == ReadyToExec
      case Unprepared(_) => status == ParsingBody
      case Plain(_, _) => body != null && body.Valid() && status == if body.ready then ReadyToExec else ParsingBody
      case Multipart(_, _) => form != null && form.Valid() && status == if form.ready then ReadyToExec else ParsingBody
    }

    ghost predicate Valid()
      reads this, body, form
    {
      status == Error || ReadsHead() || BodyValid()
    }

    ghost function BodyView(): Parser
      requires BodyValid()
      reads this, body, form
    {
      match next
      case NoBody => NoBodyToRead(req, hdrs)
      case Unprepared(_) => Stuck(req, hdrs)
      case Plain(_, _) => PlainBody(req, hdrs, body.View())
      case Multipart(_, _) => FormBody(req, hdrs, form.bounds, form.View())
    }

    ghost function View(): Parser
      requires Valid()
      reads this, body, form
    {
      if status == Error then Failing
      else if ReadsHead() then InHead(HeadState())
      else BodyView()
    }

    method ParseReqLine(line: string) returns (n: nat)
      requires status.ParsingReqLine?
      modifies this`status, this`req, this`hdrs
      ensures match StepOf(rules.lines, ReqLine, line)
        case Fails => status == Error && n == 0
        case Stops => false
        case Goes(st, cost) => (status.ParsingReqLine? || status.ParsingHeader?) && HeadState() == st && n == cost
    {
      if line == "" {
        status := Error;
        return 0;
      }
      var r := rules.lines.req(line);
      if r.Some? {
        req, hdrs, status := r.value, map[], ParsingHeader;
      }
      return |line|;
    }

    /** A header line that is not the blank one. */
    method ParseField(line: string) returns (n: nat)
      requires status.ParsingHeader? && line != ""
      modifies this`status, this`hdrs
      ensures match StepOf(rules.lines, old(HeadState()), line)
        case Fails => status == Error && n == 0
        case Stops => false
        case Goes(st, cost) => status.ParsingHeader? && HeadState() == st && n == cost
    {
      var f := rules.lines.field(line);
      if f.None? {
        status := Error;
        return 0;
      }
      var name := Lower(f.value.name);
      if name in hdrs {
        hdrs := hdrs[name := hdrs[name] + [f.value.value]];
      } else {
        hdrs := hdrs[name := [f.value.value]];
      }
      assert [] + [f.value.value] == [f.value.value];
      return |line| + 2;
    }

    /** The blank line; a length that is no number resets the parser. */
    method EndHead() returns (n: nat)
      requires status.ParsingHeader?
      modifies this
      ensures match AfterHead(rules, old(req), old(hdrs))
        case Refuse => status == Error
        case Restart => status == ParsingReqLine && n == 2
        case Go(nx) => (
          && n == 4 && !ReadsHead() && status != Error && req == old(req) && hdrs == old(hdrs)
          && BodyValid() && BodyView() == Begin(req, hdrs, nx))
      ensures (body == null || fresh(body)) && (form == null || fresh(form))
    {
      n := 4;
      body, form := null, null;
      if rules.judge(req, hdrs) == Reject {
        status := Error;
        return;
      }
      match rules.next(hdrs) {
        case Refuse => status := Error;
        case Restart =>
          status := ParsingReqLine;
          n := 2;
        case Go(nx) =>
          next, status := nx, ParsingBody;
          match nx {
            case NoBody => status := ReadyToExec;
            case Unprepared(_) =>
            case Plain(kind, size) =>
              body := new BodyReader(kind, size);
              if size == 0 {
                status := ReadyToExec;
              }
            case Multipart(boundary, _) =>
              form := new Form.Parser(boundary);
          }
      }
    }

    method FindEol(data: string, from: nat) returns (i: int)
      requires from <= |data|
      ensures i < 0 ==> CutLine(data[from..]).NoLine?
      ensures i >= 0 ==> from <= i && i + 2 <= |data| && CutLine(data[from..]) == Line(data[from..i], data[i + 2..])
    {
      i := from;
      while i + 1 < |data|
        invariant from <= i <= |data|
        invariant forall k :: from <= k < i && k + 1 < |data| ==> !(data[k] == '\r' && data[k + 1] == '\n')
      {
        if data[i] == '\r' && data[i + 1] == '\n' {
          EolFound(data, from, i);
          return;
        }
        i := i + 1;
      }
      EolMissing(data, from);
      i := -1;
    }

    /** One line of the head, other than the blank one. */
    method ParseLine(line: string) returns (n: nat)
      requires status.ParsingReqLine? || (status.ParsingHeader? && line != "")
      modifies this`status, this`req, this`hdrs
      ensures match StepOf(rules.lines, old(HeadState()), line)
        case Fails => status == Error && n == 0
        case Stops => false
        case Goes(st, cost) => (status.ParsingReqLine? || status.ParsingHeader?) && HeadState() == st && n == cost
    {
      if status.ParsingReqLine? {
        n := ParseReqLine(line);
      } else {
        n := ParseField(line);
      }
    }

    /** A call once the head has ended: `parse_body` and its siblings, or `parse_form_multip`. */
    method ParseBody(data: string) returns (n: nat)
      requires BodyValid() && BodyCall(BodyView(), data).Some? && !ReadsHead() && status != Error
      modifies this`status, body, form
      ensures BodyValid() && !ReadsHead() && status != Error
      ensures BodyCall(old(BodyView()), data) == Some((BodyView(), n))
    {
      n := 0;
      if data == "" {
        return;
      }
      if next.Plain? {
        n := body.Parse(data);
        status := if body.ready then ReadyToExec else ParsingBody;
      } else if next.Multipart? {
        n := form.Parse(data);
        status := if form.ready then ReadyToExec else ParsingBody;
      }
    }

    /** The call that is to see `out` has counted `n` and has `data` before it. */
    ghost predicate Before(out: Outcome, data: string, n: nat)
      reads this
    {
      ReadsHead() && ParseHead(rules, HeadState(), data, n) == out
    }

    /** Where a call that saw `out` leaves the parser. */
    ghost predicate Shows(out: Outcome, n: nat)
      reads this, body, form
    {
      Valid() && Finish(rules, out) == Some((View(), n))
    }

    /** The blank line and what follows it. */
    method ParseBlank(rest: string, count: nat) returns (n: nat)
      requires status.ParsingHeader? && Finish(rules, LineEffect(rules, HeadState(), count, "", rest)).Some?
      modifies this
      ensures (body == null || fresh(body)) && (form == null || fresh(form))
      ensures var out := LineEffect(rules, old(HeadState()), count, "", rest);
        if ReadsHead() then Before(out, rest, n) else Shows(out, n)
    {
      var cost := EndHead();
      n := count + cost;
      if status == Error {
        return 0;
      }
      if status != ParsingReqLine && rules.judge(req, hdrs) == Proceed {
        var m := ParseBody(rest);
        n := n + m;
      }
    }

    /** Any other line. */
    method ParseOther(line: string, count: nat, ghost rest: string) returns (n: nat)
      requires status.ParsingReqLine? || (status.ParsingHeader? && line != "")
      modifies this`status, this`req, this`hdrs
      ensures var out := LineEffect(rules, old(HeadState()), count, line, rest);
        if ReadsHead() then Before(out, rest, n) else Shows(out, n)
    {
      var cost := ParseLine(line);
      n := if status == Error then 0 else count + cost;
    }

    /** A line: the call goes on after it, or has seen what it is to see. */
    method ParseAny(line: string, rest: string, count: nat, ghost data: string, ghost out: Outcome) returns (n: nat)
      requires CutLine(data) == Line(line, rest) && Before(out, data, count) && Finish(rules, out).Some?
      modifies this
      ensures if ReadsHead() then Before(out, rest, n) else Shows(out, n)
    {
      ParseStep(rules, HeadState(), data, count, line, rest);
      if status.ParsingHeader? && line == "" {
        n := ParseBlank(rest, count);
      } else {
        n := ParseOther(line, count, rest);
      }
    }

    /** One turn of the loop over the lines. */
    method ParseNext(data: string, sol: nat, count: nat, ghost out: Outcome) returns (done: bool, n: nat, next: nat)
      requires sol <= |data| && Before(out, data[sol..], count) && Finish(rules, out).Some?
      modifies this
      ensures done ==> Shows(out, n)
      ensures next <= |data| && (!done ==> sol < next && Before(out, data[next..], n))
    {
      var eol := FindEol(data, sol);
      if eol < 0 {
        NoLineLeft(rules, HeadState(), data[sol..], count);
        return true, count, sol;
      }
      n := ParseAny(data[sol..eol], data[eol + 2..], count, data[sol..], out);
      done, next := !status.ParsingReqLine? && !status.ParsingHeader?, eol + 2;
    }

    /** The lines of the head, then the body in the same call. */
    method ParseLines(data: string, ghost out: Outcome) returns (n: nat)
      requires Before(out, data, 0) && Finish(rules, out).Some?
      modifies this
      ensures Shows(out, n)
    {
      n := 0;
      var sol, done := 0, false;
      assert data[0..] == data;
      while !done
        invariant sol <= |data|
        invariant if done then Shows(out, n) else Before(out, data[sol..], n)
        decreases if done then 0 else 1 + |data| - sol
      {
        done, n, sol := ParseNext(data, sol, n, out);
      }
    }

    /** One call on the bytes at hand. The one thing a caller must not do is hand over bytes of a body
        whose buffer was never made. */
    method Parse(data: string) returns (n: nat)
      requires Valid() && Call(rules, View(), data).Some?
      modifies this, body, form
      ensures Valid() && Call(rules, old(View()), data) == Some((View(), n))
    {
      if data == "" {
        return 0;
      }
      if status == Error {
        status := ParsingReqLine;
      }
      if status.ParsingReqLine? || status.ParsingHeader? {
        n := ParseLines(data, ParseHead(rules, HeadState(), data, 0));
      } else {
        n := ParseBody(data);
      }
    }
  }
}
