/** The machine's invariant, and independence from how the body is cut into chunks. */
module MultipartSplit {
  import opened Text
  import opened HeaderMaps
  import opened MultipartMachine

  // ----- the machine invariant -----

  predicate Nested(c: Core) {
    c.mode == Headers && c.current.Sub? && !c.completed &&
    SubKindOf(GetHeader(c.current.headers, "Content-Type")).Some?
  }

  /** What every reachable state satisfies. */
  predicate Inv(c: Core) {
    match c.mode
    case Init => c == START
    case Headers => if c.completed then c.current.Root? else c.current.Unset? || Nested(c)
    case Content => (c.current.Form? || c.current.File?) && !c.completed
    case Failed(status) => status == 400 && !c.completed
  }

  lemma {:induction false} OnLineInv(bd: Bounds, c: Core, line: string)
    requires Inv(c) && !Stopped(c)
    ensures Inv(OnLine(bd, c, line))
  {
  }

  lemma {:induction false} WorkInv(bd: Bounds, c: Core, buf: string)
    requires Inv(c)
    ensures Inv(Work(bd, c, buf).0)
    decreases |buf|
  {
    if !Stopped(c) && CutLine(buf).Line? {
      var Line(line, rest) := CutLine(buf);
      OnLineInv(bd, c, line);
      WorkInv(bd, OnLine(bd, c, line), rest);
    }
  }

  predicate SessionInv(s: Session) {
    match s
    case Open(c, buf) => Inv(c) && !Stopped(c) && CrlfFree(buf) && !MustFlush(c, buf)
    case Rejected(status, _) => status == 400
    case Ready(_, _) => true
  }

  lemma {:induction false} WorkRests(bd: Bounds, c: Core, buf: string)
    ensures var (c', buf') := Work(bd, c, buf);
            Stopped(c') || (CrlfFree(buf') && !MustFlush(c', buf'))
    decreases |buf|
  {
    CutLineText(buf);
    if !Stopped(c) && CutLine(buf).Line? {
      WorkRests(bd, OnLine(bd, c, CutLine(buf).text), CutLine(buf).rest);
    }
  }

  lemma {:induction false} WorkSettles(bd: Bounds, c: Core, buf: string)
    requires Inv(c)
    ensures var (c', buf') := Work(bd, c, buf); SessionInv(Settle(c', buf'))
  {
    WorkInv(bd, c, buf);
    WorkRests(bd, c, buf);
  }

  lemma {:induction false} FeedInv(bd: Bounds, s: Session, chunk: string)
    requires SessionInv(s)
    ensures SessionInv(Feed(bd, s, chunk))
  {
    if s.Open? {
      WorkSettles(bd, s.core, s.buf + chunk);
    }
  }

  /** No run reaches a 500: the "Invalid multipart content type" branch is dead, and whatever is
      open is a part the current mode can read. */
  lemma {:induction false} EveryRunKeepsInv(bd: Bounds, s: Session, chunks: seq<string>)
    requires SessionInv(s)
    ensures SessionInv(FeedAll(bd, s, chunks))
    decreases chunks
  {
    if chunks != [] {
      FeedInv(bd, s, chunks[0]);
      EveryRunKeepsInv(bd, Feed(bd, s, chunks[0]), chunks[1..]);
    }
  }

  // ----- a nested multipart part can never be left -----

  lemma {:induction false} NestedStays(bd: Bounds, c: Core, line: string)
    requires Nested(c)
    ensures Nested(OnLine(bd, c, line)) || OnLine(bd, c, line).mode == Failed(400)
  {
  }

  lemma {:induction false} NestedWork(bd: Bounds, c: Core, buf: string)
    requires Nested(c)
    ensures var c' := Work(bd, c, buf).0; Nested(c') || (c'.mode == Failed(400) && !c'.completed)
    decreases |buf|
  {
    match CutLine(buf)
    case NoLine =>
    case Line(line, rest) =>
      NestedStays(bd, c, line);
      if Nested(OnLine(bd, c, line)) {
        NestedWork(bd, OnLine(bd, c, line), rest);
      }
  }

  /** Once a part announces `multipart/mixed` (or `alternative`, `digest`) no input completes the
      request: it stays open or is rejected. */
  lemma {:induction false} NestedNeverCompletes(bd: Bounds, s: Session, chunks: seq<string>)
    requires s.Open? && Nested(s.core)
    ensures !FeedAll(bd, s, chunks).Ready?
    decreases chunks
  {
    if chunks != [] {
      NestedWork(bd, s.core, s.buf + chunks[0]);
      var s' := Feed(bd, s, chunks[0]);
      if s'.Open? {
        NestedNeverCompletes(bd, s', chunks[1..]);
      } else {
        FeedAllStopped(bd, s', chunks[1..]);
      }
    }
  }

  lemma {:induction false} FeedAllStopped(bd: Bounds, s: Session, chunks: seq<string>)
    requires !s.Open?
    ensures FeedAll(bd, s, chunks) == s
    decreases chunks
  {
    if chunks != [] {
      FeedAllStopped(bd, s, chunks[1..]);
    }
  }

  // ----- chunk-split invariance -----

  /** No line of the text is longer than `n` (an unfinished last line may end in a CR). */
  predicate LinesWithin(s: string, n: nat)
    decreases |s|
  {
    match CutLine(s)
    case NoLine => |s| <= n + 1
    case Line(line, rest) => |line| <= n && LinesWithin(rest, n)
  }

  /** No line that is read while a file is open is longer than `n`; other lines are of any length. */
  predicate FileLinesWithin(bd: Bounds, c: Core, s: string, n: nat)
    decreases |s|
  {
    Stopped(c) ||
    match CutLine(s)
    case NoLine => InFile(c) ==> |s| <= n + 1
    case Line(line, rest) => (InFile(c) ==> |line| <= n) && FileLinesWithin(bd, OnLine(bd, c, line), rest, n)
  }

  lemma {:induction false} AllLinesWithin(bd: Bounds, c: Core, s: string, n: nat, m: nat)
    requires LinesWithin(s, n) && n <= m
    ensures FileLinesWithin(bd, c, s, m)
    decreases |s|
  {
    match CutLine(s)
    case NoLine =>
    case Line(line, rest) => AllLinesWithin(bd, OnLine(bd, c, line), rest, n, m);
  }

  const LONGEST_SAFE_LINE: nat := MAX_CONTENT_BUF_LEN - 2

  /** Working on a prefix first changes nothing, as long as the prefix never forces a flush. */
  lemma {:induction false} WorkSplit(bd: Bounds, c: Core, a: string, b: string)
    requires FileLinesWithin(bd, c, a + b, LONGEST_SAFE_LINE)
    ensures var (c', a') := Work(bd, c, a);
            Work(bd, c, a + b) == Work(bd, c', a' + b) && FileLinesWithin(bd, c', a' + b, LONGEST_SAFE_LINE)
    decreases |a|
  {
    if !Stopped(c) {
      match CutLine(a)
      case Line(line, rest) =>
        CutLineExtend(a, b);
        WorkSplit(bd, OnLine(bd, c, line), rest, b);
      case NoLine =>
        CutLineText(a);
        if CutLine(a + b).Line? {
          CutLinePast(a, b);
        }
    }
  }

  lemma {:induction false} OpenSplit(bd: Bounds, c: Core, buf: string, chunks: seq<string>)
    requires !Stopped(c) && CrlfFree(buf) && !MustFlush(c, buf)
    requires FileLinesWithin(bd, c, buf + Concat(chunks), LONGEST_SAFE_LINE)
    ensures FeedAll(bd, Open(c, buf), chunks) == Feed(bd, Open(c, buf), Concat(chunks))
    decreases chunks
  {
    if chunks != [] {
      var x, rest := chunks[0], Concat(chunks[1..]);
      if x == "" {
        assert x + rest == rest;
        OpenSplit(bd, c, buf, chunks[1..]);
      } else {
        var (c', buf') := Work(bd, c, buf + x);
        Assoc(buf, x, rest);
        WorkSplit(bd, c, buf + x, rest);
        WorkRests(bd, c, buf + x);
        if Stopped(c') {
          FeedAllStopped(bd, Settle(c', buf'), chunks[1..]);
        } else {
          OpenSplit(bd, c', buf', chunks[1..]);
          if rest == "" {
            assert buf' + rest == buf';
            CutLineFree(buf');
          }
        }
      }
    }
  }

  /** Any way of cutting a body into calls, even between a CR and its LF, ends like one call, as long
      as no line of a file is longer than that. */
  lemma {:induction false} SplitInvariance(bd: Bounds, chunks: seq<string>)
    requires FileLinesWithin(bd, START, Concat(chunks), LONGEST_SAFE_LINE)
    ensures FeedAll(bd, FRESH, chunks) == Feed(bd, FRESH, Concat(chunks))
  {
    assert "" + Concat(chunks) == Concat(chunks);
    OpenSplit(bd, START, "", chunks);
  }
}
