/** The `multipart/form-data` machine of `http_parser` (section 5.1.1 of RFC 2046, section 4 of
    RFC 7578), as a function of the bytes it is fed. One `Core` is everything the machine
    remembers besides the unread bytes. */
module MultipartMachine {
  import opened Text
  import opened HeaderMaps

  const MAX_CONTENT_BUF_LEN: nat := 10240
  const DEFAULT_MIME_TYPE: string := "text/plain"
  const BAD_REQUEST: nat := 400
  const INTERNAL_SERVER_ERROR: nat := 500

  datatype Bounds = Bounds(start: string, end: string)

  datatype SubKind = Mixed | Alternative | Digest

  /** `multipart_content_t` and its subclasses. Every part the machine makes has the root as its
      parent: `subcontent`, `form` and `file` are all built with `copy->parent`. */
  datatype Part =
    | Root
    | Unset(headers: HeaderMap)
    | Form(headers: HeaderMap, name: string, mime: string, value: string)
    | File(headers: HeaderMap, name: string, mime: string, filename: string,
           written: string, appendCrlf: bool)
    | Sub(headers: HeaderMap, name: string, kind: SubKind, bounds: Bounds, contents: seq<Part>)

  datatype Mode = Init | Headers | Content | Failed(status: nat)

  /** `current` is the part being read; `done` are the root's contents before it. */
  datatype Core = Core(mode: Mode, current: Part, done: seq<Part>, completed: bool)

  const START: Core := Core(Init, Root, [], false)

  function Contents(c: Core): seq<Part> {
    if c.current.Form? || c.current.File? || c.current.Sub? then c.done + [c.current] else c.done
  }

  predicate Stopped(c: Core) {
    c.completed || c.mode.Failed?
  }

  // ----- header lines and their attributes -----

  function SetBoundary(b: string): Bounds {
    Bounds("--" + b, "--" + b + "--")
  }

  /** The quotes around an attribute value: one is dropped at each end, where there is one. */
  function Unquote(v: string): string {
    var v1 := if v != "" && v[0] == '"' then v[1..] else v;
    if v1 != "" && v1[|v1| - 1] == '"' then v1[..|v1| - 1] else v1
  }

  /** The first `attr=value` among the pieces; a piece with no or with several `=` is skipped. */
  function FindAttribute(pieces: seq<string>, attr: string): Option<string> {
    if pieces == [] then None
    else
      var kv := Split(Trim(pieces[0]), '=');
      if |kv| == 2 && Trim(kv[0]) == attr then Some(Trim(kv[1]))
      else FindAttribute(pieces[1..], attr)
  }

  function GetHeaderAttribute(hdr: string, attr: string): string {
    match FindAttribute(Split(hdr, ';'), attr)
    case None => ""
    case Some(v) => Unquote(v)
  }

  function GetBoundary(hdr: string): string {
    match FindAttribute(Split(hdr, ';'), "boundary")
    case None => ""
    case Some(v) => v
  }

  function SubKindOf(ct: string): Option<SubKind> {
    if Contains(ct, "multipart/mixed") then Some(Mixed)
    else if Contains(ct, "multipart/alternative") then Some(Alternative)
    else if Contains(ct, "multipart/digest") then Some(Digest)
    else None
  }

  // ----- one line -----

  function WithHeaders(p: Part, h: HeaderMap): Part
    requires p.Unset? || p.Sub?
  {
    if p.Unset? then Unset(h) else Sub(h, p.name, p.kind, p.bounds, p.contents)
  }

  /** `_mp_parse_boundary_header` */
  function ParseBoundaryHeader(c: Core, line: string): Core
    requires c.current.Unset? || c.current.Sub?
  {
    var hdr := CStr(line);
    var col := IndexOf(hdr, ':', 0);
    if col < 0 then c.(mode := Failed(BAD_REQUEST))
    else
      var h := AddHeader(c.current.headers, hdr[..col], hdr[col + 1..]);
      c.(current := WithHeaders(c.current, h))
  }

  /** `_mp_assign_content_type`: the blank line after the headers decides what the part is. */
  function AssignContentType(bd: Bounds, c: Core): Core
    requires c.current.Unset? || c.current.Sub?
  {
    var h := c.current.headers;
    var ct := GetHeader(h, "Content-Type");
    var cd := GetHeader(h, "Content-Disposition");
    var name := GetHeaderAttribute(cd, "name");
    match SubKindOf(ct)
    case Some(kind) =>
      var b := GetBoundary(ct);
      var sub := Sub(h, name, kind, if b == "" then bd else SetBoundary(b), []);
      Core(Headers, sub, Contents(c), false)
    case None =>
      var mime := Trim(if ct == "" then DEFAULT_MIME_TYPE else ct);
      var filename := GetHeaderAttribute(cd, "filename");
      var part := if filename == "" then Form(h, name, mime, "")
                  else File(h, name, mime, filename, "", false);
      Core(Content, part, Contents(c), false)
  }

  predicate IsBoundary(bd: Bounds, line: string) {
    CStr(line) == bd.start || CStr(line) == bd.end
  }

  /** `_mp_parse_end_of_section` on a boundary line: the start boundary opens the next part,
      the end boundary completes the body. */
  function EndSection(bd: Bounds, c: Core, line: string): Core
    requires IsBoundary(bd, line)
  {
    if CStr(line) == bd.end then Core(Headers, Root, Contents(c), true)
    else Core(Headers, Unset(map[]), Contents(c), false)
  }

  function WriteLine(p: Part, line: string): (r: Part)
    requires p.File?
    ensures r.File? && r.appendCrlf && |r.written| >= |p.written| + |line|
  {
    p.(written := p.written + (if p.appendCrlf then CRLF else "") + line, appendCrlf := true)
  }

  /** What one complete line does in each mode. */
  function OnLine(bd: Bounds, c: Core, line: string): Core {
    match c.mode
    case Failed(_) => c
    case Init =>
      if CStr(line) != bd.start then c.(mode := Failed(BAD_REQUEST))
      else Core(Headers, Unset(map[]), c.done, false)
    case Headers =>
      if !(c.current.Unset? || c.current.Sub?) then c.(mode := Failed(INTERNAL_SERVER_ERROR))
      else if line == "" then AssignContentType(bd, c)
      else ParseBoundaryHeader(c, line)
    case Content =>
      if !(c.current.Form? || c.current.File?) then c.(mode := Failed(INTERNAL_SERVER_ERROR))
      else if IsBoundary(bd, line) then EndSection(bd, c, line)
      else if c.current.Form? then c.(current := c.current.(value := c.current.value + CStr(line)))
      else c.(current := WriteLine(c.current, line))
  }

  // ----- a whole buffer -----

  predicate InFile(c: Core) {
    c.mode == Content && c.current.File? && !c.completed
  }

  /** No complete line is left, but an open file never holds back more than the limit. */
  predicate MustFlush(c: Core, buf: string) {
    InFile(c) && |buf| >= MAX_CONTENT_BUF_LEN
  }

  function Flush(c: Core, buf: string): Core
    requires InFile(c)
  {
    c.(current := WriteLine(c.current, buf).(appendCrlf := false))
  }

  /** The work loop of `parse_form_multip`: lines are taken until none is complete or the machine
      stops. Returns the machine and the bytes left unread. */
  function Work(bd: Bounds, c: Core, buf: string): (Core, string)
    decreases |buf|
  {
    if Stopped(c) then (c, buf)
    else match CutLine(buf)
      case Line(line, rest) => Work(bd, OnLine(bd, c, line), rest)
      case NoLine => if MustFlush(c, buf) then (Flush(c, buf), "") else (c, buf)
  }

  // ----- what the request gets -----

  datatype Upload = Upload(name: string, filename: string, mime: string, content: string)

  /** The leaves of a list of parts, left to right. */
  function Leaves(parts: seq<Part>): seq<Part>
    decreases parts
  {
    if parts == [] then []
    else (if parts[0].Sub? then Leaves(parts[0].contents) else [parts[0]]) + Leaves(parts[1..])
  }

  function FormParams(leaves: seq<Part>): seq<(string, string)> {
    if leaves == [] then []
    else (if leaves[0].Form? then [(leaves[0].name, leaves[0].value)] else []) + FormParams(leaves[1..])
  }

  function Uploads(leaves: seq<Part>): seq<Upload> {
    if leaves == [] then []
    else
      var p := leaves[0];
      (if p.File? then [Upload(p.name, p.filename, p.mime, p.written)] else []) + Uploads(leaves[1..])
  }

  // ----- a connection feeding chunks -----

  datatype Session =
    | Open(core: Core, buf: string)
    | Rejected(status: nat, contents: seq<Part>)
    | Ready(params: seq<(string, string)>, files: seq<Upload>)

  const FRESH: Session := Open(START, "")

  function Settle(c: Core, buf: string): Session {
    if c.mode.Failed? then Rejected(c.mode.status, Contents(c))
    else if c.completed then Ready(FormParams(Leaves(Contents(c))), Uploads(Leaves(Contents(c))))
    else Open(c, buf)
  }

  /** One call with a chunk. A finished machine takes nothing; an empty chunk does nothing. */
  function Feed(bd: Bounds, s: Session, chunk: string): Session {
    if !s.Open? || chunk == "" then s
    else var (c, buf) := Work(bd, s.core, s.buf + chunk); Settle(c, buf)
  }

  function FeedAll(bd: Bounds, s: Session, chunks: seq<string>): Session
    decreases chunks
  {
    if chunks == [] then s else FeedAll(bd, Feed(bd, s, chunks[0]), chunks[1..])
  }
}
