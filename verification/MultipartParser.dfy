/** The multipart side of `http_parser` as the object it is: fields changed line by line, each
    method proved against the machine of `MultipartMachine`. */
module MultipartParser {
  import opened Text
  import opened HeaderMaps
  import opened MultipartMachine
  import opened MultipartSplit

  const OK: nat := 200

  lemma {:induction false} FormParamsConcat(a: seq<Part>, b: seq<Part>)
    ensures FormParams(a + b) == FormParams(a) + FormParams(b)
  {
    if a == [] {
      assert a + b == b && [] + FormParams(b) == FormParams(b);
    } else {
      var one := if a[0].Form? then [(a[0].name, a[0].value)] else [];
      assert (a + b)[0] == a[0] && (a + b)[1..] == a[1..] + b;
      FormParamsConcat(a[1..], b);
      Assoc(one, FormParams(a[1..]), FormParams(b));
    }
  }

  lemma {:induction false} UploadsConcat(a: seq<Part>, b: seq<Part>)
    ensures Uploads(a + b) == Uploads(a) + Uploads(b)
  {
    if a == [] {
      assert a + b == b && [] + Uploads(b) == Uploads(b);
    } else {
      var p := a[0];
      var one := if p.File? then [Upload(p.name, p.filename, p.mime, p.written)] else [];
      assert (a + b)[0] == p && (a + b)[1..] == a[1..] + b;
      UploadsConcat(a[1..], b);
      Assoc(one, Uploads(a[1..]), Uploads(b));
    }
  }

  function LeavesOf(p: Part): seq<Part> {
    if p.Sub? then Leaves(p.contents) else [p]
  }

  lemma {:induction false} LoadStep(parts: seq<Part>, i: nat)
    requires i < |parts|
    ensures FormParams(Leaves(parts[i..])) == FormParams(LeavesOf(parts[i])) + FormParams(Leaves(parts[i + 1..]))
    ensures Uploads(Leaves(parts[i..])) == Uploads(LeavesOf(parts[i])) + Uploads(Leaves(parts[i + 1..]))
  {
    assert parts[i..][0] == parts[i] && parts[i..][1..] == parts[i + 1..];
    FormParamsConcat(LeavesOf(parts[i]), Leaves(parts[i + 1..]));
    UploadsConcat(LeavesOf(parts[i]), Leaves(parts[i + 1..]));
  }

  class Parser {
    const bounds: Bounds
    // parser_state::ready_to_exec has been reached
    var ready: bool
    var mode: Mode
    var buf: string
    var current: Part
    var done: seq<Part>
    var completed: bool
    var uploaded: nat
    // the request's body parameters and files
    var params: seq<(string, string)>
    var files: seq<Upload>
    // the statuses sent to the response as errors
    var errors: seq<nat>
    // every byte received for the file part that is open, if one is
    ghost var partRaw: string

    ghost function TheCore(): Core
      reads this
    {
      Core(mode, current, done, completed)
    }

    ghost function View(): Session
      reads this
    {
      if ready then Ready(params, files)
      else if mode.Failed? then Rejected(mode.status, Contents(TheCore()))
      else Open(TheCore(), buf)
    }

    /** Byte conservation: on disk, owed as a line end, or still in the buffer. */
    ghost predicate FileConserved()
      reads this
    {
      InFile(TheCore()) ==>
        current.written + (if current.appendCrlf then CRLF else "") + buf == partRaw
    }

    ghost predicate Valid()
      reads this
    {
      && SessionInv(View())
      && FileConserved()
      && bounds.start != bounds.end
      && !completed
      && (!ready ==> params == [] && files == [])
      && errors == if mode.Failed? then [mode.status] else []
    }

    constructor (boundary: string)
      ensures Valid() && View() == FRESH && bounds == SetBoundary(boundary)
    {
      bounds := SetBoundary(boundary);
      ready := false;
      mode, buf, current, done, completed := Init, "", Root, [], false;
      uploaded := 0;
      params, files, errors := [], [], [];
      partRaw := "";
    }

    /** `evbuffer_readln` */
    method ReadLine() returns (line: Option<string>)
      modifies `buf
      ensures match CutLine(old(buf))
              case NoLine => line == None && buf == old(buf)
              case Line(text, rest) => line == Some(text) && buf == rest && |buf| < |old(buf)|
    {
      match CutLine(buf)
      case NoLine =>
        line := None;
      case Line(text, rest) =>
        assert |buf| == |text| + 2 + |rest|;
        line := Some(text);
        buf := rest;
    }

    method ParseBoundaryHeader(line: string) returns (ok: bool)
      requires mode == Headers && (current.Unset? || current.Sub?)
      modifies `current
      ensures MultipartMachine.ParseBoundaryHeader(old(TheCore()), line) ==
              if ok then TheCore() else TheCore().(mode := Failed(BAD_REQUEST))
    {
      var hdr := CStr(line);
      var col := IndexOf(hdr, ':', 0);
      if col < 0 {
        return false;
      }
      current := WithHeaders(current, AddHeader(current.headers, hdr[..col], hdr[col + 1..]));
      return true;
    }

    method AssignContentType()
      requires mode == Headers && !completed && (current.Unset? || current.Sub?)
      modifies `mode, `current, `done, `partRaw
      ensures TheCore() == MultipartMachine.AssignContentType(bounds, old(TheCore()))
      ensures FileConserved()
    {
      var h := current.headers;
      var ct := GetHeader(h, "Content-Type");
      var cd := GetHeader(h, "Content-Disposition");
      var name := GetHeaderAttribute(cd, "name");
      if current.Sub? {
        done := done + [current];
      }
      match SubKindOf(ct)
      case Some(kind) =>
        var b := GetBoundary(ct);
        current := Sub(h, name, kind, if b == "" then bounds else SetBoundary(b), []);
        mode := Headers;
      case None =>
        var mime := Trim(if ct == "" then DEFAULT_MIME_TYPE else ct);
        var filename := GetHeaderAttribute(cd, "filename");
        if filename == "" {
          current := Form(h, name, mime, "");
        } else {
          current := File(h, name, mime, filename, "", false);
          partRaw := buf;
          assert "" + "" + buf == buf;
        }
        mode := Content;
    }

    method ParseEndOfSection(line: string) returns (ended: bool)
      requires mode == Content && !completed && (current.Form? || current.File?)
      requires bounds.start != bounds.end
      modifies `mode, `current, `done, `completed
      ensures ended <==> IsBoundary(bounds, line)
      ensures TheCore() == if ended then EndSection(bounds, old(TheCore()), line) else old(TheCore())
    {
      ended := false;
      if bounds.start == CStr(line) {
        ended := true;
        mode := Headers;
        done := done + [current];
        current := Unset(map[]);
      }
      if bounds.end == CStr(line) {
        ended := true;
        mode := Headers;
        done := done + [current];
        current := Root;
      }
      if ended && current.Root? {
        completed := true;
      }
    }

    method OnReadFormData() returns (hasWorks: bool)
      requires mode == Content && current.Form? && !completed
      requires bounds.start != bounds.end
      modifies `mode, `current, `done, `completed, `buf
      ensures match CutLine(old(buf))
              case NoLine => !hasWorks && TheCore() == old(TheCore()) && buf == old(buf)
              case Line(line, rest) =>
                hasWorks && TheCore() == OnLine(bounds, old(TheCore()), line) && buf == rest && |buf| < |old(buf)|
      ensures !InFile(TheCore())
    {
      var line := ReadLine();
      if line == None {
        return false;
      }
      hasWorks := true;
      var ended := ParseEndOfSection(line.value);
      if !ended {
        current := current.(value := current.value + CStr(line.value));
      }
    }

    method OnReadFileData() returns (hasWorks: bool)
      requires InFile(TheCore()) && FileConserved()
      requires bounds.start != bounds.end
      modifies `mode, `current, `done, `completed, `buf
      ensures match CutLine(old(buf))
              case NoLine =>
                && !hasWorks
                && (TheCore(), buf) == if MustFlush(old(TheCore()), old(buf)) then (Flush(old(TheCore()), old(buf)), "")
                                       else (old(TheCore()), old(buf))
              case Line(line, rest) =>
                hasWorks && TheCore() == OnLine(bounds, old(TheCore()), line) && buf == rest && |buf| < |old(buf)|
      ensures FileConserved()
    {
      CutLineText(buf);
      var line := ReadLine();
      if line != None {
        var ended := ParseEndOfSection(line.value);
        if ended {
          return true;
        }
      }
      if line == None {
        if |buf| >= MAX_CONTENT_BUF_LEN {
          if current.appendCrlf {
            current := current.(written := current.written + CRLF);
          }
          current := current.(appendCrlf := false);
          current := current.(written := current.written + buf);
          assert TheCore() == Flush(old(TheCore()), buf) by {
            assert old(current.written) + "" == old(current.written);
          }
          buf := "";
        }
        return false;
      }
      Regroup(current.written + (if current.appendCrlf then CRLF else ""), line.value, CRLF, buf);
      if current.appendCrlf {
        current := current.(written := current.written + CRLF);
      }
      current := current.(written := current.written + line.value);
      current := current.(appendCrlf := true);
      assert current == WriteLine(old(current), line.value) by {
        assert old(current.written) + "" == old(current.written);
      }
      return true;
    }

    /** The tree walk of `request_t::_load_multipart_params`. */
    method LoadMultipartParams(parts: seq<Part>)
      modifies `params, `files
      ensures params == old(params) + FormParams(Leaves(parts))
      ensures files == old(files) + Uploads(Leaves(parts))
      decreases parts
    {
      var i := 0;
      assert parts[0..] == parts;
      while i < |parts|
        invariant 0 <= i <= |parts|
        invariant params + FormParams(Leaves(parts[i..])) == old(params) + FormParams(Leaves(parts))
        invariant files + Uploads(Leaves(parts[i..])) == old(files) + Uploads(Leaves(parts))
      {
        ghost var p0, f0 := params, files;
        ghost var p1, f1 := FormParams(LeavesOf(parts[i])), Uploads(LeavesOf(parts[i]));
        ghost var p2, f2 := FormParams(Leaves(parts[i + 1..])), Uploads(Leaves(parts[i + 1..]));
        LoadStep(parts, i);
        LoadOne(parts[i]);
        Assoc(p0, p1, p2);
        Assoc(f0, f1, f2);
        i := i + 1;
      }
      assert parts[i..] == [];
      assert params + [] == params && files + [] == files;
    }

    /** The body of that walk, for one part. */
    method LoadOne(ct: Part)
      modifies `params, `files
      ensures params == old(params) + FormParams(LeavesOf(ct))
      ensures files == old(files) + Uploads(LeavesOf(ct))
      decreases ct
    {
      if ct.Sub? {
        LoadMultipartParams(ct.contents);
      } else if ct.File? {
        files := files + [Upload(ct.name, ct.filename, ct.mime, ct.written)];
      } else if ct.Form? {
        params := params + [(ct.name, ct.value)];
      }
    }

    /** One turn of the work loop: the switch on the mode. */
    method TurnOnce() returns (hasWorks: bool, res: nat)
      requires Inv(TheCore()) && !Stopped(TheCore()) && FileConserved()
      requires bounds.start != bounds.end
      modifies `mode, `current, `done, `completed, `buf, `partRaw
      ensures match CutLine(old(buf))
              case NoLine =>
                && !hasWorks && res == OK
                && (TheCore(), buf) == if MustFlush(old(TheCore()), old(buf)) then (Flush(old(TheCore()), old(buf)), "")
                                       else (old(TheCore()), old(buf))
              case Line(line, rest) =>
                && hasWorks && buf == rest && |buf| < |old(buf)|
                && OnLine(bounds, old(TheCore()), line) ==
                   Outcome(res)
      ensures !mode.Failed? && FileConserved()
    {
      res, hasWorks := OK, true;
      match mode
      case Init =>
        var line := ReadLine();
        if line == None {
          return false, OK;
        }
        if CStr(line.value) != bounds.start {
          return true, BAD_REQUEST;
        }
        mode := Headers;
        current := Unset(map[]);
      case Headers =>
        var line := ReadLine();
        if line == None {
          return false, OK;
        }
        if line.value == "" {
          AssignContentType();
          return;
        }
        var ok := ParseBoundaryHeader(line.value);
        if !ok {
          res := BAD_REQUEST;
        }
      case Content =>
        if current.Form? {
          hasWorks := OnReadFormData();
        } else if current.File? {
          hasWorks := OnReadFileData();
        } else {
          // "Invalid multipart content type!"
          assert false;
        }
    }

    /** The work loop. */
    method WorkLoop() returns (res: nat)
      requires Inv(TheCore()) && !Stopped(TheCore()) && FileConserved() && bounds.start != bounds.end
      modifies `mode, `current, `done, `completed, `buf, `partRaw
      ensures Work(bounds, old(TheCore()), old(buf)) == (Outcome(res), buf)
      ensures !mode.Failed? && FileConserved() && (res != OK ==> !completed)
    {
      ghost var before, input := TheCore(), buf;
      var hasWorks := true;
      res := OK;
      while hasWorks && !completed && res == OK
        invariant (res == OK ==> Inv(TheCore())) && !mode.Failed?
        invariant Work(bounds, before, input) ==
                  if res == OK && hasWorks then Work(bounds, TheCore(), buf) else (Outcome(res), buf)
        invariant res != OK ==> !completed
        invariant FileConserved()
        decreases |buf| + if hasWorks && res == OK then 1 else 0
      {
        ghost var c, b := TheCore(), buf;
        hasWorks, res := TurnOnce();
        if CutLine(b).Line? {
          OnLineInv(bounds, c, CutLine(b).text);
        }
      }
    }

    /** The chunk goes into the buffer, and the work loop runs. */
    method Receive(data: string) returns (res: nat)
      requires Inv(TheCore()) && !Stopped(TheCore()) && FileConserved() && bounds.start != bounds.end
      modifies `mode, `current, `done, `completed, `buf, `partRaw, `uploaded
      ensures Work(bounds, old(TheCore()), old(buf) + data) == (Outcome(res), buf)
      ensures SessionInv(Settle(Outcome(res), buf))
      ensures !mode.Failed? && FileConserved() && (res != OK ==> !completed)
    {
      AddData(data);
      WorkSettles(bounds, TheCore(), buf);
      res := WorkLoop();
    }

    method AddData(data: string)
      requires FileConserved()
      modifies `buf, `partRaw, `uploaded
      ensures buf == old(buf) + data && uploaded == old(uploaded) + |data| && FileConserved()
    {
      if InFile(TheCore()) {
        Assoc(current.written + (if current.appendCrlf then CRLF else ""), buf, data);
      }
      uploaded := uploaded + |data|;
      buf := buf + data;
      partRaw := partRaw + data;
    }

    /** `parse_form_multip`: one chunk, then lines until none is complete. */
    method ParseFormMultip(data: string) returns (n: nat)
      requires Valid() && !ready && data != ""
      modifies this
      ensures Valid()
      ensures View() == Feed(bounds, old(View()), data)
      ensures n == if old(View()).Open? then |data| else 0
    {
      if mode.Failed? {
        return 0;
      }
      var res := Receive(data);
      Cleanup(res);
      n := |data|;
    }

    /** The `cleanup` label: a failure is kept and reported, a completed body is handed to the
        request. */
    method Cleanup(res: nat)
      requires !ready && !mode.Failed? && params == [] && files == [] && errors == [] && bounds.start != bounds.end
      requires SessionInv(Settle(Outcome(res), buf)) && FileConserved()
      requires res != OK ==> !completed
      modifies this
      ensures Valid() && View() == Settle(old(Outcome(res)), old(buf))
      ensures errors == if res != OK then [res] else []
    {
      if res != OK {
        mode := Failed(res);
        errors := errors + [res];
      } else if completed {
        Complete();
      }
    }

    /** The request gets the parts, and the multipart state is reset. */
    method Complete()
      requires params == [] && files == []
      modifies `mode, `buf, `current, `done, `completed, `uploaded, `ready, `params, `files
      ensures ready && mode == Init && buf == "" && current == Root && done == [] && !completed && uploaded == 0
      ensures params == FormParams(Leaves(Contents(old(TheCore()))))
      ensures files == Uploads(Leaves(Contents(old(TheCore()))))
    {
      LoadMultipartParams(if current.Form? || current.File? || current.Sub? then done + [current] else done);
      mode, buf, current, done, completed, uploaded := Init, "", Root, [], false, 0;
      ready := true;
    }

    ghost function Outcome(res: nat): Core
      reads this
    {
      if res == OK then TheCore() else TheCore().(mode := Failed(res))
    }

    /** The dispatch of `parse` once the body is a multipart form: nothing for an empty chunk, and
        nothing once the request is ready. */
    method Parse(data: string) returns (n: nat)
      requires Valid()
      modifies this
      ensures Valid()
      ensures View() == Feed(bounds, old(View()), data)
      ensures n == if old(View()).Open? then |data| else 0
    {
      if data == "" || ready {
        return 0;
      }
      n := ParseFormMultip(data);
    }
  }
}
