/** Byte conservation of file uploads, over every run of the machine. */
module MultipartFiles {
  import opened Text
  import opened MultipartMachine

  /** The two things that happen to an open machine: bytes arrive, or the work loop turns once. */
  datatype Event = Receive(chunk: string) | Turn

  datatype State = State(core: Core, buf: string)

  /** One turn of the work loop. */
  function TurnOnce(bd: Bounds, s: State): State {
    if Stopped(s.core) then s
    else match CutLine(s.buf)
      case Line(line, rest) => State(OnLine(bd, s.core, line), rest)
      case NoLine => if MustFlush(s.core, s.buf) then State(Flush(s.core, s.buf), "") else s
  }

  function Apply(bd: Bounds, s: State, e: Event): State {
    match e
    case Receive(chunk) => s.(buf := s.buf + chunk)
    case Turn => TurnOnce(bd, s)
  }

  function Run(bd: Bounds, s: State, events: seq<Event>): State
    decreases events
  {
    if events == [] then s else Run(bd, Apply(bd, s, events[0]), events[1..])
  }

  function Received(events: seq<Event>): string {
    if events == [] then ""
    else (if events[0].Receive? then events[0].chunk else "") + Received(events[1..])
  }

  /** The run never leaves the file part it starts in. */
  predicate StaysInFile(bd: Bounds, s: State, events: seq<Event>)
    decreases events
  {
    InFile(s.core) && (events == [] || StaysInFile(bd, Apply(bd, s, events[0]), events[1..]))
  }

  /** Everything received for the open file: on disk, owed as a line end, or still buffered. */
  function Held(s: State): string
    requires InFile(s.core)
  {
    s.core.current.written + (if s.core.current.appendCrlf then CRLF else "") + s.buf
  }

  lemma {:induction false} ApplyConserves(bd: Bounds, s: State, e: Event)
    requires InFile(s.core) && InFile(Apply(bd, s, e).core)
    ensures Held(Apply(bd, s, e)) == Held(s) + (if e.Receive? then e.chunk else "")
    ensures Apply(bd, s, e).core.done == s.core.done
  {
    match e
    case Receive(chunk) =>
    case Turn =>
      match CutLine(s.buf)
      case NoLine =>
      case Line(line, rest) =>
        CutLineText(s.buf);
        Regroup(s.core.current.written + (if s.core.current.appendCrlf then CRLF else ""), line, CRLF, rest);
  }

  /** At every step of every run inside a file part, through line reads and overflow flushes, no
      byte is lost, added or reordered. */
  lemma {:induction false} FileConservation(bd: Bounds, s: State, events: seq<Event>)
    requires StaysInFile(bd, s, events)
    ensures InFile(Run(bd, s, events).core)
    ensures Held(Run(bd, s, events)) == Held(s) + Received(events)
    ensures Run(bd, s, events).core.done == s.core.done
    decreases events
  {
    if events != [] {
      ApplyConserves(bd, s, events[0]);
      FileConservation(bd, Apply(bd, s, events[0]), events[1..]);
    }
  }

  lemma {:induction false} LeavingTurn(bd: Bounds, last: State)
    requires InFile(last.core) && !InFile(TurnOnce(bd, last).core)
    ensures CutLine(last.buf).Line? && IsBoundary(bd, CutLine(last.buf).text)
    ensures TurnOnce(bd, last).buf == CutLine(last.buf).rest
    ensures Contents(TurnOnce(bd, last).core) == last.core.done + [last.core.current]
  {
  }

  /** When the part is left, what is on disk is what came before the boundary line: exactly up to
      the CRLF that precedes it if a line end was owed, else up to the boundary itself. */
  lemma {:induction false} ClosedFileIsExact(bd: Bounds, s: State, events: seq<Event>, line: string, rest: string)
    requires StaysInFile(bd, s, events)
    requires s.core.current.written == "" && !s.core.current.appendCrlf
    requires !InFile(TurnOnce(bd, Run(bd, s, events)).core)
    requires CutLine(Run(bd, s, events).buf) == Line(line, rest)
    ensures IsBoundary(bd, line)
    ensures var file := Run(bd, s, events).core.current;
            && Contents(TurnOnce(bd, Run(bd, s, events)).core) == s.core.done + [file]
            && file.File?
            && s.buf + Received(events) ==
               file.written + (if file.appendCrlf then CRLF else "") + line + CRLF + rest
  {
    FileConservation(bd, s, events);
    var last := Run(bd, s, events);
    LeavingTurn(bd, last);
    CutLineText(last.buf);
    Regroup(last.core.current.written + (if last.core.current.appendCrlf then CRLF else ""), line, CRLF, rest);
    assert Held(s) == s.buf;
  }

  /** The work loop is a run of turns, so the two statements above speak about it. */
  lemma {:induction false} WorkIsTurns(bd: Bounds, s: State) returns (turns: seq<Event>)
    ensures forall e :: e in turns ==> e == Turn
    ensures var (c, buf) := Work(bd, s.core, s.buf); Run(bd, s, turns) == State(c, buf)
    decreases |s.buf|
  {
    turns := [];
    if !Stopped(s.core) {
      var next := TurnOnce(bd, s);
      match CutLine(s.buf)
      case Line(line, rest) =>
        turns := WorkIsTurns(bd, next);
        turns := [Turn] + turns;
      case NoLine =>
        if MustFlush(s.core, s.buf) {
          turns := [Turn];
          assert Run(bd, s, turns) == Run(bd, next, []);
        }
    }
  }
}
