/** Whole requests: a written head, then a body of any kind, over any calls. */
module RequestArrives {
  import opened Text
  import opened HeaderMaps
  import opened RequestBody
  import opened HeadLines
  import opened RequestHead
  import opened RequestGrammar
  import Machine = MultipartMachine
  import Split = MultipartSplit
  import Printer = MultipartRoundTrip

  // ----- what a written content type announces -----

  /** The content type of a multipart form. */
  function FormType(boundary: string): string {
    "multipart/form-data" + [';'] + Parameter(boundary)
  }

  function Parameter(boundary: string): string {
    " boundary" + ['='] + boundary
  }

  lemma {:induction false} ParameterReads(boundary: string)
    requires Printer.IsKey(boundary)
    ensures Text.Split(Trim(Parameter(boundary)), '=') == ["boundary", boundary]
    ensures Trim("boundary") == "boundary" && Trim(boundary) == boundary
    ensures ';' !in Parameter(boundary)
  {
    ParameterTrims(boundary);
    TrimClean("boundary");
    TrimClean(boundary);
    SplitCons("boundary", '=', boundary);
    SplitNone(boundary, '=');
    assert ["boundary"] + [boundary] == ["boundary", boundary];
  }

  lemma {:induction false} ParameterTrims(boundary: string)
    requires Printer.IsKey(boundary)
    ensures Trim(Parameter(boundary)) == "boundary" + ['='] + boundary
  {
    var s := "boundary" + ['='] + boundary;
    assert s[0] == 'b' && s[|s| - 1] == boundary[|boundary| - 1];
    TrimClean(s);
    assert [' '] + s == Parameter(boundary);
  }

  lemma {:induction false} MultipIsClean()
    ensures ';' !in MULTIP && '=' !in MULTIP && Trim(MULTIP) == MULTIP && Lower(MULTIP) == MULTIP
  {
    assert MULTIP[0] == 'm' && MULTIP[|MULTIP| - 1] == 'a';
    TrimClean(MULTIP);
    MultipIsLower();
  }

  lemma {:induction false} MultipIsLower()
    ensures Lower(MULTIP) == MULTIP
  {
  }

  lemma {:induction false} FormTypePieces(boundary: string)
    requires Printer.IsKey(boundary)
    ensures Text.Split(FormType(boundary), ';') == [MULTIP, Parameter(boundary)]
    ensures Trim(FormType(boundary)) == FormType(boundary)
  {
    var t, p := FormType(boundary), Parameter(boundary);
    MultipIsClean();
    ParameterReads(boundary);
    SplitCons(MULTIP, ';', p);
    SplitNone(p, ';');
    assert [MULTIP] + [p] == [MULTIP, p];
    assert t[0] == 'm' && t[|t| - 1] == boundary[|boundary| - 1];
    TrimClean(t);
  }

  lemma {:induction false} FormTypeReads(boundary: string)
    requires Printer.IsKey(boundary)
    ensures MediaOf(Text.Split(Trim(FormType(boundary)), ';')) == Multi
    ensures Machine.GetBoundary(FormType(boundary)) == boundary
  {
    var p := Parameter(boundary);
    var pieces := [MULTIP, p];
    FormTypePieces(boundary);
    MultipIsClean();
    ParameterReads(boundary);
    NamesDiffer();
    SplitNone(MULTIP, '=');
    assert pieces[1..] == [p];
    assert Machine.FindAttribute([p], "boundary") == Some(boundary);
  }

  // ----- the announced body -----

  /** The head of a request, as it is written. */
  datatype Sent = Sent(pre: string, req: Request, fields: seq<Written>)

  function HeadOf(h: Sent): string {
    HeadText(ReqText(h.pre, h.req), FieldTexts(h.fields))
  }

  /** The header map a head is read to. */
  function MapFor(h: Sent): HeaderMap {
    Collect(map[], FieldsOf(h.fields))
  }

  predicate IsSent(env: Env, h: Sent) {
    && VerbStandsOut(h.pre, h.req.verb) && ' ' !in h.req.uri && env.uriOk(h.req.uri) && SpellsVersion(h.req.version)
    && CrlfFree(ReqText(h.pre, h.req)) && AreWritable(h.fields)
  }

  /** The first field of that name, in any case, has that value. */
  predicate Says(h: Sent, name: string, value: string) {
    ValuesOf(FieldsOf(h.fields), name) != [] && ValuesOf(FieldsOf(h.fields), name)[0] == value
  }

  lemma {:induction false} SaysFirst(h: Sent, name: string, value: string)
    requires Says(h, name, value)
    ensures name in MapFor(h) && First(MapFor(h), name) == value
  {
    CollectMeaning(map[], FieldsOf(h.fields), name);
    assert [] + ValuesOf(FieldsOf(h.fields), name) == ValuesOf(FieldsOf(h.fields), name);
  }

  /** The length is a number, access is granted and the content type is that one. */
  predicate Announces(env: Env, h: Sent, length: string, size: nat, ct: string) {
    && Says(h, "content-length", length) && env.number(length) == Some(size)
    && Says(h, "content-type", ct) && env.judge(h.req, MapFor(h)) == Proceed
  }

  lemma {:induction false} AnnouncedNext(env: Env, h: Sent, length: string, size: nat, ct: string)
    requires Announces(env, h, length, size, ct)
    ensures AfterHead(RulesOf(env), h.req, MapFor(h)) ==
      match MediaOf(Text.Split(Trim(ct), ';'))
      case Simple(kind) => Go(Plain(kind, size))
      case Multi => MultipartOf(Machine.GetBoundary(ct), size)
  {
    SaysFirst(h, "content-length", length);
    SaysFirst(h, "content-type", ct);
  }

  lemma {:induction false} HeadEnds(env: Env, h: Sent, next: Next, first: string)
    requires IsSent(env, h) && AfterHead(RulesOf(env), h.req, MapFor(h)) == Go(next)
    ensures ParseHead(RulesOf(env), ReqLine, HeadOf(h) + first, 0) == Ended(h.req, MapFor(h), next, |HeadOf(h)|, first)
    ensures RulesOf(env).judge(h.req, MapFor(h)) == env.judge(h.req, MapFor(h))
  {
    WrittenHeadArrives(env, h.pre, h.req, h.fields, first);
  }

  /** The call that brings the head and the first bytes of the body. */
  lemma {:induction false} FirstCall(rules: Rules, h: Sent, next: Next, first: string)
    requires ParseHead(rules, ReqLine, HeadOf(h) + first, 0) == Ended(h.req, MapFor(h), next, |HeadOf(h)|, first)
    requires rules.judge(h.req, MapFor(h)) == Proceed && !next.Unprepared?
    ensures BodyCall(Begin(h.req, MapFor(h), next), first).Some?
    ensures var (p, m) := BodyCall(Begin(h.req, MapFor(h), next), first).value;
      Call(rules, InHead(ReqLine), HeadOf(h) + first) == Some((p, |HeadOf(h)| + m))
  {
    TakenByBody(h.req, MapFor(h), next, first);
    CallIsFinish(rules, HeadOf(h) + first, Ended(h.req, MapFor(h), next, |HeadOf(h)|, first));
  }

  lemma {:induction false} HeadAndFirst(env: Env, h: Sent, next: Next, first: string)
    requires IsSent(env, h) && AfterHead(RulesOf(env), h.req, MapFor(h)) == Go(next) && !next.Unprepared?
    requires env.judge(h.req, MapFor(h)) == Proceed
    ensures BodyCall(Begin(h.req, MapFor(h), next), first).Some?
    ensures var (p, m) := BodyCall(Begin(h.req, MapFor(h), next), first).value;
      Call(RulesOf(env), InHead(ReqLine), HeadOf(h) + first) == Some((p, |HeadOf(h)| + m))
  {
    HeadEnds(env, h, next, first);
    FirstCall(RulesOf(env), h, next, first);
  }

  lemma {:induction false} CallIsFinish(rules: Rules, data: string, out: Outcome)
    requires data != "" && ParseHead(rules, ReqLine, data, 0) == out && out.Ended?
    requires rules.judge(out.req, out.hdrs) == Proceed
    requires BodyCall(Begin(out.req, out.hdrs, out.next), out.rest).Some?
    ensures var (p, m) := BodyCall(Begin(out.req, out.hdrs, out.next), out.rest).value;
      Call(rules, InHead(ReqLine), data) == Some((p, out.count + m))
  {
  }

  // ----- forms in both encodings -----

  /** A printed multipart form behind a written head, cut into calls anywhere after the head: the
      request gets the head as written, the fields and the files; each call takes all it is given,
      together the head and the form. The announced length plays no part. */
  lemma {:induction false} MultipartRequestArrives(
    env: Env, h: Sent, length: string, size: nat, boundary: string, items: seq<Printer.Item>, first: string, chunks: seq<string>)
    requires IsSent(env, h) && Announces(env, h, length, size, FormType(boundary))
    requires Printer.IsKey(boundary) && Printer.IsToken(boundary) && items != []
    requires forall item :: item in items ==> Printer.IsPrintable(Machine.SetBoundary(boundary), item)
    requires first + Concat(chunks) == Printer.Print(boundary, items)
    requires Split.FileLinesWithin(
      Machine.SetBoundary(boundary), Machine.START, Printer.Print(boundary, items), Split.LONGEST_SAFE_LINE)
    ensures var call := Call(RulesOf(env), InHead(ReqLine), HeadOf(h) + first);
      && call.Some? && call.value.1 == |HeadOf(h)| + |first|
      && call.value.0.FormBody?
      && BodyCalls(call.value.0, chunks).Some?
      && BodyCalls(call.value.0, chunks).value.0
         == FormBody(h.req, MapFor(h), Machine.SetBoundary(boundary),
                     Machine.Ready(Printer.Fields(items), Printer.Attachments(items)))
      && call.value.1 + BodyCalls(call.value.0, chunks).value.1 == |HeadOf(h)| + |Printer.Print(boundary, items)|
  {
    FormAnnounced(env, h, length, size, boundary);
    HeadAndFirst(env, h, Multipart(boundary, size), first);
    FormCallsArrive(h.req, MapFor(h), boundary, items, first, chunks);
  }

  lemma {:induction false} FormAnnounced(env: Env, h: Sent, length: string, size: nat, boundary: string)
    requires Announces(env, h, length, size, FormType(boundary)) && Printer.IsKey(boundary)
    ensures AfterHead(RulesOf(env), h.req, MapFor(h)) == Go(Multipart(boundary, size))
  {
    FormTypeReads(boundary);
    AnnouncedNext(env, h, length, size, FormType(boundary));
  }

  lemma {:induction false} FormCallsArrive(
    req: Request, hdrs: HeaderMap, boundary: string, items: seq<Printer.Item>, first: string, chunks: seq<string>)
    requires Printer.IsToken(boundary) && items != []
    requires forall item :: item in items ==> Printer.IsPrintable(Machine.SetBoundary(boundary), item)
    requires first + Concat(chunks) == Printer.Print(boundary, items)
    requires Split.FileLinesWithin(
      Machine.SetBoundary(boundary), Machine.START, Printer.Print(boundary, items), Split.LONGEST_SAFE_LINE)
    ensures var bd := Machine.SetBoundary(boundary);
      var p := FormBody(req, hdrs, bd, Machine.Feed(bd, Machine.FRESH, first));
      && BodyCall(FormBody(req, hdrs, bd, Machine.FRESH), first) == Some((p, |first|))
      && BodyCalls(p, chunks)
         == Some((FormBody(req, hdrs, bd, Machine.Ready(Printer.Fields(items), Printer.Attachments(items))),
                  |Concat(chunks)|))
  {
    var bd := Machine.SetBoundary(boundary);
    FormCalls(req, hdrs, bd, Machine.Feed(bd, Machine.FRESH, first), chunks);
    FirstOfChunks(bd, first, chunks);
    Printer.RoundTripInChunks(boundary, items, [first] + chunks);
    Printer.PrintedWork(boundary, items);
    FormCallsCount(req, hdrs, bd, first, chunks);
  }

  lemma {:induction false} FormCallsCount(
    req: Request, hdrs: HeaderMap, bd: Machine.Bounds, first: string, chunks: seq<string>)
    requires Split.FileLinesWithin(bd, Machine.START, first + Concat(chunks), Split.LONGEST_SAFE_LINE)
    requires Machine.Work(bd, Machine.START, first + Concat(chunks)).1 == ""
    ensures var p := FormBody(req, hdrs, bd, Machine.Feed(bd, Machine.FRESH, first));
      BodyCalls(p, chunks).Some? && BodyCalls(p, chunks).value.1 == |Concat(chunks)|
  {
    var all := first + Concat(chunks);
    FirstOfChunks(bd, first, chunks);
    assert "" + all == all;
    FormTaken(req, hdrs, bd, Machine.START, "", [first] + chunks);
    FirstOfCalls(FormBody(req, hdrs, bd, Machine.FRESH), first, chunks);
  }

  lemma {:induction false} FirstOfCalls(p: Parser, first: string, chunks: seq<string>)
    requires p.FormBody?
    ensures var (p1, n) := BodyCall(p, first).value;
      BodyCalls(p, [first] + chunks) ==
      match BodyCalls(p1, chunks) case None => None case Some((p2, m)) => Some((p2, n + m))
  {
    assert ([first] + chunks)[1..] == chunks;
  }

  lemma {:induction false} EmptyCalls(p: Parser, chunks: seq<string>)
    requires p.FormBody? && Concat(chunks) == ""
    ensures BodyCalls(p, chunks) == Some((p, 0))
    decreases chunks
  {
    if chunks != [] {
      assert |chunks[0]| + |Concat(chunks[1..])| == 0;
      EmptyCalls(p, chunks[1..]);
    }
  }

  /** A form that the machine reads to its last byte is taken whole, however it is cut: until that
      byte the machine has not stopped. */
  lemma {:induction false} FormTaken(
    req: Request, hdrs: HeaderMap, bd: Machine.Bounds, c: Machine.Core, buf: string, chunks: seq<string>)
    requires !Machine.Stopped(c)
    requires Split.FileLinesWithin(bd, c, buf + Concat(chunks), Split.LONGEST_SAFE_LINE)
    requires Machine.Work(bd, c, buf + Concat(chunks)).1 == ""
    ensures BodyCalls(FormBody(req, hdrs, bd, Machine.Open(c, buf)), chunks).Some?
    ensures BodyCalls(FormBody(req, hdrs, bd, Machine.Open(c, buf)), chunks).value.1 == |Concat(chunks)|
    decreases chunks
  {
    if chunks != [] {
      var x, rest := chunks[0], Concat(chunks[1..]);
      if x == "" {
        assert x + rest == rest;
        FormTaken(req, hdrs, bd, c, buf, chunks[1..]);
      } else {
        var (c', buf') := Machine.Work(bd, c, buf + x);
        Assoc(buf, x, rest);
        Split.WorkSplit(bd, c, buf + x, rest);
        if Machine.Stopped(c') {
          assert |buf' + rest| == 0;
          EmptyCalls(FormBody(req, hdrs, bd, Machine.Settle(c', buf')), chunks[1..]);
        } else {
          FormTaken(req, hdrs, bd, c', buf', chunks[1..]);
        }
      }
    }
  }

  lemma {:induction false} FirstOfChunks(bd: Machine.Bounds, first: string, chunks: seq<string>)
    ensures Concat([first] + chunks) == first + Concat(chunks)
    ensures Machine.FeedAll(bd, Machine.FRESH, [first] + chunks)
      == Machine.FeedAll(bd, Machine.Feed(bd, Machine.FRESH, first), chunks)
  {
    assert ([first] + chunks)[1..] == chunks;
  }

  lemma {:induction false} FirstOfPlain(b: Body, first: string, chunks: seq<string>)
    ensures Concat([first] + chunks) == first + Concat(chunks)
    ensures FeedAll(b, [first] + chunks)
      == (FeedAll(Feed(b, first).0, chunks).0, Feed(b, first).1 + FeedAll(Feed(b, first).0, chunks).1)
  {
    assert ([first] + chunks)[1..] == chunks;
  }

  /** The same for a urlencoded form of the announced length: the request gets the pairs, and the
      calls together take the head and the form and leave what follows. */
  lemma {:induction false} UrlencodedRequestArrives(
    env: Env, h: Sent, length: string, ct: string, es: Params, ps: Params, first: string, chunks: seq<string>, after: string)
    requires IsSent(env, h) && Announces(env, h, length, |Print(es)|, ct)
    requires FirstNames(Text.Split(Trim(ct), ';'), Simple(UrlEncoded))
    requires SpellsAll(es, ps) && ps != [] && ps[|ps| - 1] != ("", "")
    requires first + Concat(chunks) == Print(es) + after
    ensures var call := Call(RulesOf(env), InHead(ReqLine), HeadOf(h) + first);
      && call.Some? && call.value.0.PlainBody?
      && BodyCalls(call.value.0, chunks).Some?
      && BodyCalls(call.value.0, chunks).value.0 == PlainBody(h.req, MapFor(h), Ready(ps))
      && call.value.1 + BodyCalls(call.value.0, chunks).value.1 == |HeadOf(h)| + |Print(es)|
  {
    var size, b := |Print(es)|, Init(UrlEncoded, |Print(es)|);
    var next := Plain(UrlEncoded, size);
    MediaIff(Text.Split(Trim(ct), ';'), Simple(UrlEncoded));
    AnnouncedNext(env, h, length, size, ct);
    HeadAndFirst(env, h, next, first);
    FirstOfPlain(b, first, chunks);
    FormArrives(es, ps, [first] + chunks, after);
    PlainFirst(h.req, MapFor(h), b, first, chunks);
  }

  /** A body of the announced length that is no form: the calls together take the head and the body,
      leave what follows, and the request gets what the body delivers. */
  lemma {:induction false} PlainRequestArrives(
    env: Env, h: Sent, length: string, ct: string, kind: Kind, body: string, first: string, chunks: seq<string>, after: string)
    requires IsSent(env, h) && Announces(env, h, length, |body|, ct)
    requires kind != UrlEncoded && FirstNames(Text.Split(Trim(ct), ';'), Simple(kind))
    requires first + Concat(chunks) == body + after
    ensures var call := Call(RulesOf(env), InHead(ReqLine), HeadOf(h) + first);
      && call.Some? && call.value.0.PlainBody?
      && BodyCalls(call.value.0, chunks).Some?
      && BodyCalls(call.value.0, chunks).value.0
         == PlainBody(h.req, MapFor(h), Ready(if kind == Raw && body != "" then [("", body)] else []))
      && call.value.1 + BodyCalls(call.value.0, chunks).value.1 == |HeadOf(h)| + |body|
  {
    var size, b := |body|, Init(kind, |body|);
    MediaIff(Text.Split(Trim(ct), ';'), Simple(kind));
    AnnouncedNext(env, h, length, size, ct);
    HeadAndFirst(env, h, Plain(kind, size), first);
    FirstOfPlain(b, first, chunks);
    BodyIsConserved(kind, size, [first] + chunks);
    assert (body + after)[..size] == body;
    PlainFirst(h.req, MapFor(h), b, first, chunks);
  }

  /** A raw body arrives as the one parameter without a name, byte for byte. */
  lemma {:induction false} RawRequestArrives(
    env: Env, h: Sent, length: string, ct: string, body: string, first: string, chunks: seq<string>, after: string)
    requires IsSent(env, h) && Announces(env, h, length, |body|, ct) && body != ""
    requires FirstNames(Text.Split(Trim(ct), ';'), Simple(Raw))
    requires first + Concat(chunks) == body + after
    ensures var call := Call(RulesOf(env), InHead(ReqLine), HeadOf(h) + first);
      && call.Some? && call.value.0.PlainBody?
      && BodyCalls(call.value.0, chunks).Some?
      && BodyCalls(call.value.0, chunks).value.0 == PlainBody(h.req, MapFor(h), Ready([("", body)]))
      && call.value.1 + BodyCalls(call.value.0, chunks).value.1 == |HeadOf(h)| + |body|
  {
    PlainRequestArrives(env, h, length, ct, Raw, body, first, chunks, after);
  }

  /** A request without a content length is ready with its head and takes nothing more. */
  lemma {:induction false} BodilessRequestArrives(env: Env, h: Sent, rest: string)
    requires IsSent(env, h) && env.judge(h.req, MapFor(h)) == Proceed
    requires ValuesOf(FieldsOf(h.fields), "content-length") == []
    ensures Call(RulesOf(env), InHead(ReqLine), HeadOf(h) + rest) == Some((NoBodyToRead(h.req, MapFor(h)), |HeadOf(h)|))
  {
    BodilessNext(env, h);
    HeadAndFirst(env, h, NoBody, rest);
    FirstBody(h.req, MapFor(h), NoBody, rest);
  }

  lemma {:induction false} BodilessNext(env: Env, h: Sent)
    requires env.judge(h.req, MapFor(h)) == Proceed && ValuesOf(FieldsOf(h.fields), "content-length") == []
    ensures AfterHead(RulesOf(env), h.req, MapFor(h)) == Go(NoBody)
  {
    CollectMeaning(map[], FieldsOf(h.fields), "content-length");
  }

  lemma {:induction false} PlainFirst(req: Request, hdrs: HeaderMap, b: Body, first: string, chunks: seq<string>)
    requires b.Reading? ==> |b.got| < b.size
    ensures BodyCall(PlainBody(req, hdrs, b), first) == Some((PlainBody(req, hdrs, Feed(b, first).0), Feed(b, first).1))
    ensures BodyCalls(PlainBody(req, hdrs, Feed(b, first).0), chunks)
      == Some((PlainBody(req, hdrs, FeedAll(Feed(b, first).0, chunks).0), FeedAll(Feed(b, first).0, chunks).1))
  {
    if first == "" && b.Reading? {
      assert b.got + "" == b.got;
    }
    PlainCalls(req, hdrs, Feed(b, first).0, chunks);
  }
}
