/** The exact reach of the two multipart guarantees: which file contents come back, and how long
    lines may be before the place of a chunk cut shows. */
module MultipartLimits {
  import opened Text
  import opened MultipartMachine
  import opened MultipartSplit
  import opened MultipartRoundTrip

  // ----- a file comes back exactly when no line of it is a boundary -----

  lemma {:induction false} WorkKeepsDone(bd: Bounds, c: Core, buf: string)
    ensures c.done <= Work(bd, c, buf).0.done
    decreases |buf|
  {
    if !Stopped(c) && CutLine(buf).Line? {
      var Line(line, rest) := CutLine(buf);
      WorkKeepsDone(bd, OnLine(bd, c, line), rest);
    }
  }

  /** A boundary line inside the content closes the file early, with less than the content. */
  lemma {:induction false} FileCutShort(bd: Bounds, c: Core, text: string, rest: string)
    returns (file: Part, next: Core, more: string)
    requires InFile(c) && |bd.start| >= 2 && |bd.end| >= 2
    requires !NoBoundaryLine(bd, text)
    ensures Work(bd, c, text + CRLF + rest) == Work(bd, next, more)
    ensures next.done == c.done + [file] && file.File?
    ensures |file.written| + 2 <= |c.current.written| + (if c.current.appendCrlf then 2 else 0) + |text|
    decreases |text|
  {
    var line, tail := text, rest;
    CutLineFree(text);
    match CutLine(text) {
      case NoLine =>
      case Line(l, t) =>
        line, tail := l, t + CRLF + rest;
        LineOfText(text, rest);
    }
    OneLine(bd, c, line, tail);
    if IsBoundary(bd, line) {
      file, next, more := c.current, OnLine(bd, c, line), tail;
    } else {
      file, next, more := FileCutShort(bd, OnLine(bd, c, line), CutLine(text).rest, rest);
    }
  }

  lemma {:induction false} FirstUpload(parts: seq<Part>)
    requires parts != [] && parts[0].File?
    ensures Uploads(Leaves(parts)) != [] && Uploads(Leaves(parts))[0].content == parts[0].written
  {
    assert Leaves(parts) == [parts[0]] + Leaves(parts[1..]);
  }

  lemma {:induction false} PrintOne(boundary: string, item: Item)
    ensures var bd := SetBoundary(boundary);
            Print(boundary, [item]) ==
            bd.start + CRLF + (PrintHead(item) + (Payload(item) + CRLF + (bd.end + CRLF + "")))
  {
    var bd := SetBoundary(boundary);
    var end := bd.end + CRLF + "";
    var items := [item];
    assert items[1..] == [] && PrintRest(bd, []) == end;
    assert PrintRest(bd, items) == bd.start + CRLF + (PrintItem(items[0]) + PrintRest(bd, items[1..]));
    Assoc(Payload(item), CRLF, end);
    Assoc(PrintHead(item), Payload(item) + CRLF, end);
  }

  lemma {:induction false} OpensWith(boundary: string, item: Item, rest: string)
    requires IsToken(boundary) && IsHeadOk(item)
    ensures var bd := SetBoundary(boundary);
            Work(bd, START, bd.start + CRLF + (PrintHead(item) + rest)) == Work(bd, Opened(item, []), rest)
  {
    var bd := SetBoundary(boundary);
    BoundaryText(boundary);
    OneLine(bd, START, bd.start, PrintHead(item) + rest);
    HeadOpens(bd, item, [], rest);
  }

  lemma {:induction false} CutShortUpload(boundary: string, item: Item)
    requires IsToken(boundary) && item.Attachment? && IsHeadOk(item)
    requires !NoBoundaryLine(SetBoundary(boundary), item.content)
    ensures var s := Feed(SetBoundary(boundary), FRESH, Print(boundary, [item]));
            s.Ready? ==> s.files != [] && |s.files[0].content| < |item.content|
  {
    var bd, body := SetBoundary(boundary), Print(boundary, [item]);
    var end := bd.end + CRLF + "";
    PrintOne(boundary, item);
    OpensWith(boundary, item, item.content + CRLF + end);
    var file, next, more := FileCutShort(bd, Opened(item, []), item.content, end);
    WorkKeepsDone(bd, next, more);
    var c := Work(bd, next, more).0;
    assert c.done[0] == next.done[0] == file;
    FirstUpload(Contents(c));
    FeedFresh(bd, body);
  }

  lemma {:induction false} OneAttachment(item: Item)
    requires item.Attachment?
    ensures Fields([item]) == [] && Attachments([item]) == [Upload(item.name, item.filename, MimeOf(item.mime), item.content)]
  {
    var one := [item];
    assert one[1..] == [];
  }

  lemma {:induction false} FileRoundTripIff(boundary: string, item: Item)
    requires IsToken(boundary) && item.Attachment? && IsHeadOk(item)
    ensures Feed(SetBoundary(boundary), FRESH, Print(boundary, [item])) ==
            Ready([], [Upload(item.name, item.filename, MimeOf(item.mime), item.content)])
            <==> NoBoundaryLine(SetBoundary(boundary), item.content)
  {
    if NoBoundaryLine(SetBoundary(boundary), item.content) {
      RoundTrip(boundary, [item]);
      OneAttachment(item);
    } else {
      CutShortUpload(boundary, item);
    }
  }

  // ----- a field comes back exactly when its value is one plain line and its name has no separator -----

  lemma {:induction false} FormCutShort(bd: Bounds, c: Core, text: string, rest: string)
    returns (form: Part, next: Core, more: string)
    requires c.mode == Content && c.current.Form? && !c.completed && |bd.start| >= 2 && |bd.end| >= 2
    requires !NoBoundaryLine(bd, text)
    ensures Work(bd, c, text + CRLF + rest) == Work(bd, next, more)
    ensures next.done == c.done + [form] && form.Form?
    ensures |form.value| + 2 <= |c.current.value| + |text|
    decreases |text|
  {
    var line, tail := text, rest;
    CutLineFree(text);
    match CutLine(text) {
      case NoLine =>
      case Line(l, t) =>
        line, tail := l, t + CRLF + rest;
        LineOfText(text, rest);
    }
    OneLine(bd, c, line, tail);
    if IsBoundary(bd, line) {
      form, next, more := c.current, OnLine(bd, c, line), tail;
    } else {
      form, next, more := FormCutShort(bd, OnLine(bd, c, line), CutLine(text).rest, rest);
    }
  }

  lemma {:induction false} FirstParam(parts: seq<Part>)
    requires parts != [] && parts[0].Form?
    ensures FormParams(Leaves(parts)) != [] && FormParams(Leaves(parts))[0] == (parts[0].name, parts[0].value)
  {
    assert Leaves(parts) == [parts[0]] + Leaves(parts[1..]);
  }

  lemma {:induction false} CutShortField(boundary: string, item: Item)
    requires IsToken(boundary) && item.Field? && IsHeadOk(item)
    requires !NoBoundaryLine(SetBoundary(boundary), item.value)
    ensures var s := Feed(SetBoundary(boundary), FRESH, Print(boundary, [item]));
            s.Ready? ==> s.params != [] && |s.params[0].1| < |item.value|
  {
    var bd, body := SetBoundary(boundary), Print(boundary, [item]);
    var end := bd.end + CRLF + "";
    PrintOne(boundary, item);
    OpensWith(boundary, item, item.value + CRLF + end);
    var form, next, more := FormCutShort(bd, Opened(item, []), item.value, end);
    WorkKeepsDone(bd, next, more);
    var c := Work(bd, next, more).0;
    assert c.done[0] == next.done[0] == form;
    FirstParam(Contents(c));
    FeedFresh(bd, body);
  }

  /** The first part of a body stays what it is and keeps its name. */
  predicate SameFirst(c: Core, d: Core) {
    && Contents(c) != [] && Contents(d) != []
    && var p, q := Contents(c)[0], Contents(d)[0];
    (p.Form? && q.Form? && p.name == q.name) || (p.File? && q.File?)
  }

  lemma {:induction false} LineKeepsFirst(bd: Bounds, c: Core, line: string)
    requires Inv(c) && !Stopped(c) && SameFirst(c, c)
    ensures SameFirst(c, OnLine(bd, c, line))
  {
  }

  lemma {:induction false} WorkKeepsFirst(bd: Bounds, c: Core, buf: string)
    requires Inv(c) && SameFirst(c, c)
    ensures SameFirst(c, Work(bd, c, buf).0)
    decreases |buf|
  {
    if !Stopped(c) {
      match CutLine(buf)
      case Line(line, rest) =>
        OnLineInv(bd, c, line);
        LineKeepsFirst(bd, c, line);
        WorkKeepsFirst(bd, OnLine(bd, c, line), rest);
      case NoLine =>
    }
  }

  lemma {:induction false} AnyFieldAssigned(bd: Bounds, item: Item)
    requires item.Field? && (item.mime.Some? ==> IsMime(item.mime.value))
    ensures var c := OnLine(bd, Headed(item, []), "");
      && Inv(c) && SameFirst(c, c)
      && (Contents(c)[0].Form? ==> Contents(c)[0].name == GetHeaderAttribute(Disposition(item.name), "name"))
  {
    TypeRead(item);
  }

  /** The state after the header lines of a field of any name. */
  lemma {:induction false} FieldOpens(boundary: string, item: Item, rest: string)
    requires IsToken(boundary) && item.Field? && IsLineText(item.name) && (item.mime.Some? ==> IsMime(item.mime.value))
    ensures var bd := SetBoundary(boundary);
      Work(bd, START, bd.start + CRLF + (PrintHead(item) + rest)) == Work(bd, OnLine(bd, Headed(item, []), ""), rest)
  {
    var bd := SetBoundary(boundary);
    BoundaryText(boundary);
    OneLine(bd, START, bd.start, PrintHead(item) + rest);
    FieldHeader(item.name);
    HeadRead(bd, item, [], rest);
  }

  lemma {:induction false} BadNameShows(boundary: string, item: Item)
    requires IsToken(boundary) && item.Field? && IsLineText(item.name) && (item.mime.Some? ==> IsMime(item.mime.value))
    requires ';' in item.name || '=' in item.name
    ensures Feed(SetBoundary(boundary), FRESH, Print(boundary, [item])) != Ready([(item.name, item.value)], [])
  {
    var bd := SetBoundary(boundary);
    var rest := item.value + CRLF + (bd.end + CRLF + "");
    PrintOne(boundary, item);
    FieldOpens(boundary, item, rest);
    var c := OnLine(bd, Headed(item, []), "");
    AnyFieldAssigned(bd, item);
    FieldNameIff(item.name);
    WorkKeepsFirst(bd, c, rest);
    var parts := Contents(Work(bd, c, rest).0);
    if parts[0].Form? {
      FirstParam(parts);
    } else {
      FirstUpload(parts);
    }
    FeedFresh(bd, Print(boundary, [item]));
  }

  /** For any name and value that make up header and body lines, and with or without a type: the field
      comes back exactly when the name holds no separator and the value no CRLF, no NUL and is not
      itself a boundary. */
  lemma {:induction false} FieldRoundTripIff(boundary: string, name: string, mime: Option<string>, value: string)
    requires IsToken(boundary) && IsLineText(name) && (mime.Some? ==> IsMime(mime.value))
    ensures Feed(SetBoundary(boundary), FRESH, Print(boundary, [Field(name, mime, value)])) == Ready([(name, value)], [])
            <==> ';' !in name && '=' !in name
                 && CrlfFree(value) && '\0' !in value && !IsBoundary(SetBoundary(boundary), value)
  {
    var bd, item := SetBoundary(boundary), Field(name, mime, value);
    CutLineFree(value);
    if ';' in name || '=' in name {
      BadNameShows(boundary, item);
    } else if NoBoundaryLine(bd, value) {
      PrintableFieldIff(boundary, name, mime, value);
    } else {
      CutShortField(boundary, item);
    }
  }

  // ----- how long a line may be -----

  lemma {:induction false} LinesWithinCons(t: string, rest: string, n: nat)
    requires CrlfFree(t) && |t| <= n && LinesWithin(rest, n)
    ensures LinesWithin(t + CRLF + rest, n)
  {
    CutLineOf(t, rest);
  }

  lemma {:induction false} PrintedLines(boundary: string, item: Item, n: nat)
    requires IsToken(boundary) && item.Attachment? && item.mime.None? && IsHeadOk(item) && CrlfFree(item.content)
    requires |item.content| <= n && |boundary| + 4 <= n
    requires |HeaderLine(DISPOSITION, FileDisposition(item.name, item.filename))| <= n
    ensures LinesWithin(Print(boundary, [item]), n)
  {
    var bd := SetBoundary(boundary);
    BoundaryText(boundary);
    FileHeader(item.name, item.filename);
    var end := bd.end + CRLF + "";
    var body := item.content + CRLF + end;
    LinesWithinCons(bd.end, "", n);
    LinesWithinCons(item.content, end, n);
    LinesWithinCons("", body, n);
    assert PrintType(item.mime) + ("" + CRLF + body) == "" + CRLF + body;
    LinesWithinCons(HeaderLine(DISPOSITION, DispositionOf(item)), "" + CRLF + body, n);
    HeadText(item, body);
    LinesWithinCons(bd.start, PrintHead(item) + body, n);
    PrintOne(boundary, item);
  }

  lemma {:induction false} CutText(start: string, head: string, x: string, end: string)
    ensures (start + CRLF + (head + (x + "\r"))) + ((['\n'] + end) + CRLF + "") ==
            start + CRLF + (head + (x + CRLF + (end + CRLF + "")))
  {
    assert "\r" + ['\n'] == CRLF;
  }

  /** Cut between the CR and the LF after a line of 10239 bytes or more, the flush takes the CR to
      disk and the boundary that follows is no longer seen. */
  lemma {:induction false} LongLineShowsCut(boundary: string, item: Item) returns (first: string, second: string)
    requires IsToken(boundary) && item.Attachment? && IsHeadOk(item)
    requires CrlfFree(item.content) && |item.content| >= 10239
    ensures first + second == Print(boundary, [item])
    ensures var s := Feed(SetBoundary(boundary), FRESH, first);
            s.Open? && Feed(SetBoundary(boundary), s, second).Open?
    ensures !IsBoundary(SetBoundary(boundary), item.content) ==>
            Feed(SetBoundary(boundary), FRESH, first + second) ==
            Ready([], [Upload(item.name, item.filename, MimeOf(item.mime), item.content)])
  {
    FileRoundTripIff(boundary, item);
    CutLineFree(item.content);
    var bd, x := SetBoundary(boundary), item.content;
    first := bd.start + CRLF + (PrintHead(item) + (x + "\r"));
    second := (['\n'] + bd.end) + CRLF + "";
    PrintOne(boundary, item);
    CutText(bd.start, PrintHead(item), x, bd.end);
    FirstHalf(boundary, item);
    SecondHalf(boundary, Flush(Opened(item, []), x + "\r"));
  }

  lemma {:induction false} FirstHalf(boundary: string, item: Item)
    requires IsToken(boundary) && item.Attachment? && IsHeadOk(item)
    requires CrlfFree(item.content) && |item.content| >= 10239
    ensures var bd := SetBoundary(boundary);
            Feed(bd, FRESH, bd.start + CRLF + (PrintHead(item) + (item.content + "\r"))) ==
            Open(Flush(Opened(item, []), item.content + "\r"), "")
  {
    var bd, x := SetBoundary(boundary), item.content;
    var first := bd.start + CRLF + (PrintHead(item) + (x + "\r"));
    OpensWith(boundary, item, x + "\r");
    CrlfFreeConcat(x, "\r");
    CutLineFree(x + "\r");
    FeedFresh(bd, first);
  }

  lemma {:induction false} SecondHalf(boundary: string, c: Core)
    requires IsToken(boundary) && InFile(c)
    ensures Feed(SetBoundary(boundary), Open(c, ""), (['\n'] + SetBoundary(boundary).end) + CRLF + "").Open?
  {
    var bd := SetBoundary(boundary);
    var line := ['\n'] + bd.end;
    BoundaryText(boundary);
    CrlfFreeConcat(['\n'], bd.end);
    OneLine(bd, c, line, "");
    assert "" + (line + CRLF + "") == line + CRLF + "";
    assert CStr(line) == line && line[0] == '\n' && bd.start[0] == '-' && bd.end[0] == '-';
  }

  const WITNESS: Item := Attachment("", "f", None, seq(10239, _ => 'x'))

  lemma {:induction false} WitnessIsOk()
    ensures IsHeadOk(WITNESS) && CrlfFree(WITNESS.content) && |WITNESS.content| == 10239
    ensures NoBoundaryLine(SetBoundary("B"), WITNESS.content)
    ensures |HeaderLine(DISPOSITION, FileDisposition(WITNESS.name, WITNESS.filename))| <= 100
  {
    assert WITNESS.content[0] == 'x';
    assert !IsBoundary(SetBoundary("B"), WITNESS.content);
    CutLineFree(WITNESS.content);
  }

  ghost predicate CutsNeverShow(n: nat) {
    forall bd: Bounds, chunks: seq<string> :: LinesWithin(Concat(chunks), n) ==>
      FeedAll(bd, FRESH, chunks) == Feed(bd, FRESH, Concat(chunks))
  }

  lemma {:induction false} TwoChunks(bd: Bounds, first: string, second: string)
    ensures Concat([first, second]) == first + second
    ensures FeedAll(bd, FRESH, [first, second]) == Feed(bd, Feed(bd, FRESH, first), second)
  {
    var chunks := [first, second];
    assert chunks[1..] == [second] && [second][1..] == [];
    assert Concat([second]) == second + "" == second;
    assert FeedAll(bd, FRESH, chunks) == FeedAll(bd, Feed(bd, FRESH, first), [second]);
    assert FeedAll(bd, Feed(bd, FRESH, first), [second]) ==
           FeedAll(bd, Feed(bd, Feed(bd, FRESH, first), second), []);
  }

  /** Bodies with lines of at most `n` bytes are cut-independent exactly up to 10238. */
  lemma {:induction false} SplitBoundIsTight(n: nat)
    ensures CutsNeverShow(n) <==> n <= 10238
  {
    if n <= LONGEST_SAFE_LINE {
      forall bd: Bounds, chunks: seq<string> | LinesWithin(Concat(chunks), n)
        ensures FeedAll(bd, FRESH, chunks) == Feed(bd, FRESH, Concat(chunks))
      {
        AllLinesWithin(bd, START, Concat(chunks), n, LONGEST_SAFE_LINE);
        SplitInvariance(bd, chunks);
      }
    } else {
      LongLinesShow(n);
    }
  }

  lemma {:induction false} LongLinesShow(n: nat)
    requires n > LONGEST_SAFE_LINE
    ensures !CutsNeverShow(n)
  {
    WitnessIsOk();
    PrintedLines("B", WITNESS, n);
    var chunks := WitnessCut();
  }

  /** One upload of 10239 bytes in two calls: open, though one call completes it. */
  lemma {:induction false} WitnessCut() returns (chunks: seq<string>)
    ensures Concat(chunks) == Print("B", [WITNESS])
    ensures FeedAll(SetBoundary("B"), FRESH, chunks) != Feed(SetBoundary("B"), FRESH, Concat(chunks))
  {
    WitnessIsOk();
    CutLineFree(WITNESS.content);
    var first, second := LongLineShowsCut("B", WITNESS);
    chunks := [first, second];
    TwoChunks(SetBoundary("B"), first, second);
  }
}
