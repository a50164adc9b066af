/** Printing a list of form fields and files as `multipart/form-data` and parsing it back. */
module MultipartRoundTrip {
  import opened Text
  import opened HeaderMaps
  import opened MultipartMachine
  import opened MultipartSplit

  datatype Item =
    | Field(name: string, mime: Option<string>, value: string)
    | Attachment(name: string, filename: string, mime: Option<string>, content: string)

  // ----- the printer -----

  function Quoted(v: string): string {
    ['"'] + v + ['"']
  }

  function Attr(k: string, v: string): string {
    [' '] + (k + ['='] + Quoted(v))
  }

  function Disposition(name: string): string {
    FORM_DATA + [';'] + Attr("name", name)
  }

  function FileDisposition(name: string, filename: string): string {
    FORM_DATA + [';'] + (Attr("name", name) + [';'] + Attr("filename", filename))
  }

  const FORM_DATA: string := " form-data"

  const DISPOSITION: string := "Content-Disposition"
  const TYPE: string := "Content-Type"

  function HeaderLine(key: string, value: string): string {
    key + [':'] + value
  }

  function DispositionOf(item: Item): string {
    if item.Field? then Disposition(item.name) else FileDisposition(item.name, item.filename)
  }

  /** The type is printed only where one is given. */
  function PrintType(mime: Option<string>): string {
    match mime
    case None => ""
    case Some(t) => HeaderLine(TYPE, " " + t) + CRLF
  }

  /** The header lines of a part and the blank line that ends them. */
  function PrintHead(item: Item): string {
    HeaderLine(DISPOSITION, DispositionOf(item)) + CRLF + (PrintType(item.mime) + ("" + CRLF + ""))
  }

  function Payload(item: Item): string {
    if item.Field? then item.value else item.content
  }

  /** A part without its boundary line. */
  function PrintItem(item: Item): string {
    PrintHead(item) + (Payload(item) + CRLF)
  }

  function PrintRest(bd: Bounds, items: seq<Item>): string {
    if items == [] then bd.end + CRLF + ""
    else bd.start + CRLF + (PrintItem(items[0]) + PrintRest(bd, items[1..]))
  }

  /** The whole body: `--b`, part, `--b`, part, ..., `--b--`. */
  function Print(boundary: string, items: seq<Item>): string {
    PrintRest(SetBoundary(boundary), items)
  }

  // ----- what can be printed -----

  /** An attribute the header splitter gives back: no `;`, `=`, NUL or line end. */
  predicate IsAttribute(s: string) {
    ';' !in s && '=' !in s && '\0' !in s && CrlfFree(s)
  }

  /** A type that is one trimmed line and none of the three that nest. */
  predicate IsMime(s: string) {
    && '\0' !in s && CrlfFree(s) && Trim(" " + s) == s
    && !Contains(s, "multipart/mixed") && !Contains(s, "multipart/alternative") && !Contains(s, "multipart/digest")
  }

  lemma {:induction false} BlankBefore(s: string, sub: string)
    requires sub != "" && sub[0] != ' '
    ensures Contains(" " + s, sub) <==> Contains(s, sub)
  {
    assert (" " + s)[1..] == s && (" " + s)[0] == ' ';
  }

  lemma {:induction false} MimeIsPlain(s: string)
    requires IsMime(s)
    ensures SubKindOf(" " + s).None?
  {
    BlankBefore(s, "multipart/mixed");
    BlankBefore(s, "multipart/alternative");
    BlankBefore(s, "multipart/digest");
  }

  /** No line of the text, the unfinished last one included, is a boundary. */
  predicate NoBoundaryLine(bd: Bounds, s: string)
    decreases |s|
  {
    match CutLine(s)
    case NoLine => !IsBoundary(bd, s)
    case Line(line, rest) => !IsBoundary(bd, line) && NoBoundaryLine(bd, rest)
  }

  predicate IsHeadOk(item: Item) {
    && IsAttribute(item.name) && (item.mime.Some? ==> IsMime(item.mime.value))
    && (item.Attachment? ==> IsAttribute(item.filename) && item.filename != "")
  }

  predicate IsPrintable(bd: Bounds, item: Item) {
    IsHeadOk(item) && NoBoundaryLine(bd, Payload(item))
  }

  predicate IsToken(boundary: string) {
    '\0' !in boundary && CrlfFree(boundary)
  }

  // ----- header attributes -----

  predicate IsKey(k: string) {
    k != "" && '=' !in k && ';' !in k && !IsSpace(k[0]) && !IsSpace(k[|k| - 1])
  }

  lemma {:induction false} UnquoteQuoted(v: string)
    ensures Unquote(Quoted(v)) == v
    ensures Trim(Quoted(v)) == Quoted(v)
  {
    assert Quoted(v)[1..] == v + ['"'];
  }

  lemma {:induction false} AttrPiece(k: string, v: string)
    requires IsKey(k) && '=' !in v
    ensures Split(Trim(Attr(k, v)), '=') == [k, Quoted(v)]
    ensures Trim(k) == k
  {
    AttrTrims(k, v);
    TrimClean(k);
    assert '=' !in Quoted(v);
    PairSplits(k, Quoted(v));
  }

  lemma {:induction false} AttrTrims(k: string, v: string)
    requires IsKey(k)
    ensures Trim(Attr(k, v)) == k + ['='] + Quoted(v)
  {
    var s := k + ['='] + Quoted(v);
    assert s[0] == k[0] && s[|s| - 1] == '"';
    TrimClean(s);
  }

  lemma {:induction false} PairSplits(k: string, q: string)
    requires '=' !in k && '=' !in q
    ensures Split(k + ['='] + q, '=') == [k, q]
  {
    SplitCons(k, '=', q);
    SplitNone(q, '=');
    assert [k] + [q] == [k, q];
  }

  lemma {:induction false} FindHit(k: string, v: string, pieces: seq<string>)
    requires IsKey(k) && '=' !in v
    requires pieces != [] && pieces[0] == Attr(k, v)
    ensures FindAttribute(pieces, k) == Some(Quoted(v))
  {
    AttrPiece(k, v);
    UnquoteQuoted(v);
  }

  lemma {:induction false} FindMiss(k: string, v: string, pieces: seq<string>, attr: string)
    requires IsKey(k) && '=' !in v && k != attr
    requires pieces != [] && pieces[0] == Attr(k, v)
    ensures FindAttribute(pieces, attr) == FindAttribute(pieces[1..], attr)
  {
    AttrPiece(k, v);
  }

  lemma {:induction false} FindFormData(pieces: seq<string>, attr: string)
    requires pieces != [] && pieces[0] == FORM_DATA
    ensures FindAttribute(pieces, attr) == FindAttribute(pieces[1..], attr)
    ensures ';' !in FORM_DATA
  {
    assert FORM_DATA[1..] == "form-data";
    assert Trim(FORM_DATA) == "form-data";
    SplitNone("form-data", '=');
  }

  lemma {:induction false} Keys()
    ensures IsKey("name") && IsKey("filename") && "name" != "filename"
    ensures ';' !in FORM_DATA
  {
    assert |"name"| == 4 && |"filename"| == 8;
  }

  lemma {:induction false} AttrSplit(k: string, v: string)
    requires IsKey(k) && ';' !in v
    ensures ';' !in Attr(k, v)
    ensures Split(Attr(k, v), ';') == [Attr(k, v)]
  {
    SplitNone(Attr(k, v), ';');
  }

  lemma {:induction false} FindOne(k: string, v: string, other: string)
    requires IsKey(k) && ';' !in v && '=' !in v && k != other
    ensures var pieces := Split(FORM_DATA + [';'] + Attr(k, v), ';');
            FindAttribute(pieces, k) == Some(Quoted(v)) && FindAttribute(pieces, other) == None
  {
    var b := Attr(k, v);
    Keys();
    AttrSplit(k, v);
    SplitCons(FORM_DATA, ';', b);
    var pieces := [FORM_DATA] + [b];
    assert pieces[1..] == [b] && [b][1..] == [];
    FindFormData(pieces, k);
    FindFormData(pieces, other);
    FindHit(k, v, [b]);
    FindMiss(k, v, [b], other);
  }

  lemma {:induction false} FindTwo(k: string, v: string, k': string, v': string)
    requires IsKey(k) && ';' !in v && '=' !in v
    requires IsKey(k') && ';' !in v' && '=' !in v' && k != k'
    ensures var pieces := Split(FORM_DATA + [';'] + (Attr(k, v) + [';'] + Attr(k', v')), ';');
            FindAttribute(pieces, k) == Some(Quoted(v)) && FindAttribute(pieces, k') == Some(Quoted(v'))
  {
    var b, c := Attr(k, v), Attr(k', v');
    Keys();
    AttrSplit(k, v);
    AttrSplit(k', v');
    SplitCons(FORM_DATA, ';', b + [';'] + c);
    SplitCons(b, ';', c);
    var pieces := [FORM_DATA] + ([b] + [c]);
    assert pieces[1..] == [b] + [c] && ([b] + [c])[1..] == [c];
    FindFormData(pieces, k);
    FindFormData(pieces, k');
    FindHit(k, v, [b] + [c]);
    FindMiss(k, v, [b] + [c], k');
    FindHit(k', v', [c]);
  }

  lemma {:induction false} FieldAttributes(name: string)
    requires IsAttribute(name)
    ensures GetHeaderAttribute(Disposition(name), "name") == name
    ensures GetHeaderAttribute(Disposition(name), "filename") == ""
  {
    Keys();
    FindOne("name", name, "filename");
    UnquoteQuoted(name);
  }

  lemma {:induction false} FileAttributes(name: string, filename: string)
    requires IsAttribute(name) && IsAttribute(filename)
    ensures GetHeaderAttribute(FileDisposition(name, filename), "name") == name
    ensures GetHeaderAttribute(FileDisposition(name, filename), "filename") == filename
  {
    Keys();
    FindTwo("name", name, "filename", filename);
    UnquoteQuoted(name);
    UnquoteQuoted(filename);
  }

  /** One quote is dropped at each end where there is one, and nothing else. */
  lemma {:induction false} UnquoteMeaning(v: string)
    requires v != "" && v[0] != '"' && v[|v| - 1] != '"'
    ensures Unquote(v) == v && Unquote("") == "" && Unquote("\"") == ""
    ensures Unquote("\"" + v) == v && Unquote(v + "\"") == v && Unquote("\"" + v + "\"") == v
  {
    assert ("\"" + v)[1..] == v && ("\"" + v + "\"")[1..] == v + "\"";
    assert (v + "\"")[..|v|] == v;
  }

  /** A value may stand without quotes. */
  lemma {:induction false} BareAttribute(v: string)
    requires IsKey(v) && v[0] != '"' && v[|v| - 1] != '"'
    ensures GetHeaderAttribute(FORM_DATA + [';'] + ("name" + ['='] + v), "name") == v
  {
    var piece := "name" + ['='] + v;
    Keys();
    SplitCons(FORM_DATA, ';', piece);
    SplitNone(piece, ';');
    var pieces := [FORM_DATA] + [piece];
    assert pieces[1..] == [piece];
    FindFormData(pieces, "name");
    BareFound(v);
    UnquoteMeaning(v);
  }

  lemma {:induction false} BareFound(v: string)
    requires IsKey(v)
    ensures FindAttribute(["name" + ['='] + v], "name") == Some(v)
  {
    var piece := "name" + ['='] + v;
    assert piece[0] == 'n' && piece[|piece| - 1] == v[|v| - 1];
    TrimClean(piece);
    TrimClean("name");
    TrimClean(v);
    PairSplits("name", v);
  }

  // ----- an attribute is found again exactly when it holds no separator -----

  lemma {:induction false} SplitLacks(s: string, c: char, i: nat)
    requires i < |Split(s, c)|
    ensures c !in Split(s, c)[i]
    decreases |s|
  {
    var k := IndexOf(s, c, 0);
    if k >= 0 {
      var more := s[k + 1..];
      assert Split(s, c) == [s[..k]] + Split(more, c);
      if i > 0 {
        SplitLacks(more, c, i - 1);
      }
    }
  }

  lemma {:induction false} TrimLacks(s: string, c: char)
    requires c !in s
    ensures c !in Trim(s)
  {
    TrimLeftLacks(s, c);
    TrimRightLacks(TrimLeft(s), c);
  }

  lemma {:induction false} TrimLeftLacks(s: string, c: char)
    requires c !in s
    ensures c !in TrimLeft(s)
  {
    if s != "" && IsSpace(s[0]) {
      TrimLeftLacks(s[1..], c);
    }
  }

  lemma {:induction false} TrimRightLacks(s: string, c: char)
    requires c !in s
    ensures c !in TrimRight(s)
  {
    if s != "" && IsSpace(s[|s| - 1]) {
      TrimRightLacks(s[..|s| - 1], c);
    }
  }

  /** A value found among pieces without `c`, or without `=`, has none. */
  lemma {:induction false} FoundLacks(pieces: seq<string>, attr: string, c: char)
    requires c == '=' || forall i :: 0 <= i < |pieces| ==> c !in pieces[i]
    ensures FindAttribute(pieces, attr).Some? ==> c !in FindAttribute(pieces, attr).value
    decreases |pieces|
  {
    if pieces != [] {
      var t := Trim(pieces[0]);
      var kv := Split(t, '=');
      if |kv| == 2 && Trim(kv[0]) == attr {
        if c == '=' {
          SplitLacks(t, '=', 1);
        } else {
          TrimLacks(pieces[0], c);
          PieceLacks(t, '=', c, 1);
        }
        TrimLacks(kv[1], c);
      } else {
        FoundLacks(pieces[1..], attr, c);
      }
    }
  }

  lemma {:induction false} PieceLacks(s: string, sep: char, c: char, i: nat)
    requires c !in s && i < |Split(s, sep)|
    ensures c !in Split(s, sep)[i]
    decreases |s|
  {
    var k := IndexOf(s, sep, 0);
    if k >= 0 {
      var more := s[k + 1..];
      assert Split(s, sep) == [s[..k]] + Split(more, sep);
      if i > 0 {
        PieceLacks(more, sep, c, i - 1);
      }
    }
  }

  lemma {:induction false} UnquoteLacks(v: string, c: char)
    requires c !in v
    ensures c !in Unquote(v)
  {
  }

  lemma {:induction false} PiecesLack(hdr: string)
    ensures forall i :: 0 <= i < |Split(hdr, ';')| ==> ';' !in Split(hdr, ';')[i]
  {
    forall i | 0 <= i < |Split(hdr, ';')| ensures ';' !in Split(hdr, ';')[i] {
      SplitLacks(hdr, ';', i);
    }
  }

  lemma {:induction false} AttributeLacksOne(pieces: seq<string>, attr: string, c: char)
    requires c == '=' || forall i :: 0 <= i < |pieces| ==> c !in pieces[i]
    ensures FindAttribute(pieces, attr).Some? ==> c !in Unquote(FindAttribute(pieces, attr).value)
  {
    FoundLacks(pieces, attr, c);
    if FindAttribute(pieces, attr).Some? {
      UnquoteLacks(FindAttribute(pieces, attr).value, c);
    }
  }

  /** Whatever the header, no attribute is read with a `;` or a `=` in it. */
  lemma {:induction false} AttributeLacks(hdr: string, attr: string)
    ensures ';' !in GetHeaderAttribute(hdr, attr) && '=' !in GetHeaderAttribute(hdr, attr)
  {
    PiecesLack(hdr);
    AttributeLacksOne(Split(hdr, ';'), attr, ';');
    AttributeLacksOne(Split(hdr, ';'), attr, '=');
  }

  /** A name comes back from its header exactly when it holds neither separator. */
  lemma {:induction false} FieldNameIff(name: string)
    ensures GetHeaderAttribute(Disposition(name), "name") == name <==> ';' !in name && '=' !in name
  {
    AttributeLacks(Disposition(name), "name");
    if ';' !in name && '=' !in name {
      Keys();
      FindOne("name", name, "filename");
      UnquoteQuoted(name);
    }
  }

  /** So does the name of a file, whatever its file name is; and behind such a name the file name. */
  lemma {:induction false} FileNamesIff(name: string, filename: string)
    ensures GetHeaderAttribute(FileDisposition(name, filename), "name") == name <==> ';' !in name && '=' !in name
    ensures ';' !in name && '=' !in name ==>
      (GetHeaderAttribute(FileDisposition(name, filename), "filename") == filename
       <==> ';' !in filename && '=' !in filename)
  {
    AttributeLacks(FileDisposition(name, filename), "name");
    AttributeLacks(FileDisposition(name, filename), "filename");
    if ';' !in name && '=' !in name {
      FindNameFirst(name, Attr("filename", filename));
      UnquoteQuoted(name);
      if ';' !in filename && '=' !in filename {
        Keys();
        FindTwo("name", name, "filename", filename);
        UnquoteQuoted(filename);
      }
    }
  }

  lemma {:induction false} FindNameFirst(name: string, more: string)
    requires ';' !in name && '=' !in name
    ensures FindAttribute(Split(FORM_DATA + [';'] + (Attr("name", name) + [';'] + more), ';'), "name") == Some(Quoted(name))
  {
    var b := Attr("name", name);
    Keys();
    AttrSplit("name", name);
    SplitCons(FORM_DATA, ';', b + [';'] + more);
    SplitCons(b, ';', more);
    var rest := [b] + Split(more, ';');
    var pieces := [FORM_DATA] + rest;
    assert pieces[1..] == rest;
    FindFormData(pieces, "name");
    FindHit("name", name, rest);
  }

  // ----- the machine on printed text -----

  lemma {:induction false} OneLine(bd: Bounds, c: Core, t: string, rest: string)
    requires !Stopped(c) && CrlfFree(t)
    ensures Work(bd, c, t + CRLF + rest) == Work(bd, OnLine(bd, c, t), rest)
  {
    CutLineOf(t, rest);
  }

  lemma {:induction false} OnHeader(bd: Bounds, c: Core, key: string, value: string)
    requires c.mode == Headers && c.current.Unset? && ':' !in key
    requires '\0' !in key && '\0' !in value
    ensures OnLine(bd, c, HeaderLine(key, value)) ==
            c.(current := Unset(AddHeader(c.current.headers, key, value)))
  {
    var line := HeaderLine(key, value);
    assert CStr(line) == line;
    assert line[|key|] == ':' && forall k :: 0 <= k < |key| ==> line[k] == key[k];
    IndexOfIs(line, ':', 0, |key|);
    assert line[..|key|] == key && line[|key| + 1..] == value;
  }

  lemma {:induction false} HeaderKeys()
    ensures ':' !in DISPOSITION && '\0' !in DISPOSITION && CrlfFree(DISPOSITION)
    ensures ':' !in TYPE && '\0' !in TYPE && CrlfFree(TYPE)
    ensures Lower(DISPOSITION) != Lower(TYPE)
  {
    assert |DISPOSITION| == 19 && |TYPE| == 12;
  }

  lemma {:induction false} Headers1(d: string)
    ensures var h := AddHeader(map[], DISPOSITION, d);
            GetHeader(h, DISPOSITION) == d && GetHeader(h, TYPE) == ""
  {
    HeaderKeys();
  }

  lemma {:induction false} Headers2(d: string, t: string)
    ensures var h := AddHeader(AddHeader(map[], DISPOSITION, d), TYPE, t);
            GetHeader(h, DISPOSITION) == d && GetHeader(h, TYPE) == t
  {
    HeaderKeys();
  }

  /** Text without a NUL or a CRLF, which therefore survives as one line. */
  predicate IsLineText(s: string) {
    CrlfFree(s) && '\0' !in s
  }

  lemma {:induction false} LineTextJoin(a: string, c: char, b: string)
    requires IsLineText(a) && IsLineText(b) && c != '\r' && c != '\n' && c != '\0'
    ensures IsLineText(a + [c] + b)
  {
    CrlfFreeConcat(a, [c]);
    CrlfFreeConcat(a + [c], b);
  }

  lemma {:induction false} AttrText(k: string, v: string)
    requires IsLineText(v) && IsLineText(k)
    ensures IsLineText(Attr(k, v))
  {
    LineTextJoin("", '"', v);
    LineTextJoin("" + ['"'] + v, '"', "");
    assert "" + ['"'] + v + ['"'] + "" == Quoted(v);
    LineTextJoin(k, '=', Quoted(v));
    LineTextJoin("", ' ', k + ['='] + Quoted(v));
    assert "" + [' '] + (k + ['='] + Quoted(v)) == Attr(k, v);
  }

  lemma {:induction false} LiteralText()
    ensures IsLineText("name") && IsLineText("filename") && IsLineText(FORM_DATA)
    ensures IsLineText(DISPOSITION) && IsLineText(TYPE)
  {
  }

  lemma {:induction false} FieldHeader(name: string)
    requires IsLineText(name)
    ensures IsLineText(Disposition(name)) && IsLineText(HeaderLine(DISPOSITION, Disposition(name)))
  {
    LiteralText();
    AttrText("name", name);
    LineTextJoin(FORM_DATA, ';', Attr("name", name));
    LineTextJoin(DISPOSITION, ':', Disposition(name));
  }

  lemma {:induction false} FileHeader(name: string, filename: string)
    requires IsAttribute(name) && IsAttribute(filename)
    ensures IsLineText(FileDisposition(name, filename))
    ensures IsLineText(HeaderLine(DISPOSITION, FileDisposition(name, filename)))
  {
    LiteralText();
    AttrText("name", name);
    AttrText("filename", filename);
    LineTextJoin(Attr("name", name), ';', Attr("filename", filename));
    LineTextJoin(FORM_DATA, ';', Attr("name", name) + [';'] + Attr("filename", filename));
    LineTextJoin(DISPOSITION, ':', FileDisposition(name, filename));
  }

  lemma {:induction false} MimeHeader(mime: string)
    requires IsMime(mime)
    ensures IsLineText(" " + mime) && IsLineText(HeaderLine(TYPE, " " + mime))
  {
    LiteralText();
    LineTextJoin("", ' ', mime);
    assert "" + [' '] + mime == " " + mime;
    LineTextJoin(TYPE, ':', " " + mime);
  }

  function HeadersOf(item: Item): HeaderMap {
    var h := AddHeader(map[], DISPOSITION, DispositionOf(item));
    if item.mime.None? then h else AddHeader(h, TYPE, " " + item.mime.value)
  }

  /** A part without a type is plain text. */
  function MimeOf(mime: Option<string>): string {
    if mime.None? then "text/plain" else mime.value
  }

  /** The state right after the blank line of an item's headers: a field is a form and an attachment
      is a file, with or without a type. */
  function Opened(item: Item, done: seq<Part>): Core {
    var h, mime := HeadersOf(item), MimeOf(item.mime);
    match item
    case Field(name, _, _) => Core(Content, Form(h, name, mime, ""), done, false)
    case Attachment(name, filename, _, _) => Core(Content, File(h, name, mime, filename, "", false), done, false)
  }

  function Awaiting(done: seq<Part>): Core {
    Core(Headers, Unset(map[]), done, false)
  }

  function With1(done: seq<Part>, d: string): Core {
    Awaiting(done).(current := Unset(AddHeader(map[], DISPOSITION, d)))
  }

  function With2(done: seq<Part>, d: string, t: string): Core {
    Awaiting(done).(current := Unset(AddHeader(AddHeader(map[], DISPOSITION, d), TYPE, t)))
  }

  lemma {:induction false} ReadDisposition(bd: Bounds, done: seq<Part>, d: string, rest: string)
    requires IsLineText(d) && IsLineText(HeaderLine(DISPOSITION, d))
    ensures Work(bd, Awaiting(done), HeaderLine(DISPOSITION, d) + CRLF + rest) == Work(bd, With1(done, d), rest)
  {
    HeaderKeys();
    OnHeader(bd, Awaiting(done), DISPOSITION, d);
    OneLine(bd, Awaiting(done), HeaderLine(DISPOSITION, d), rest);
  }

  lemma {:induction false} ReadType(bd: Bounds, done: seq<Part>, d: string, t: string, rest: string)
    requires IsLineText(t) && IsLineText(HeaderLine(TYPE, t))
    ensures Work(bd, With1(done, d), HeaderLine(TYPE, t) + CRLF + rest) == Work(bd, With2(done, d, t), rest)
  {
    HeaderKeys();
    OnHeader(bd, With1(done, d), TYPE, t);
    OneLine(bd, With1(done, d), HeaderLine(TYPE, t), rest);
  }

  /** The state before the blank line. */
  function Headed(item: Item, done: seq<Part>): Core {
    Awaiting(done).(current := Unset(HeadersOf(item)))
  }

  lemma {:induction false} TypeRead(item: Item)
    requires item.mime.Some? ==> IsMime(item.mime.value)
    ensures GetHeader(HeadersOf(item), DISPOSITION) == DispositionOf(item)
    ensures var ct := GetHeader(HeadersOf(item), TYPE);
      SubKindOf(ct).None? && Trim(if ct == "" then "text/plain" else ct) == MimeOf(item.mime)
  {
    if item.mime.None? {
      Headers1(DispositionOf(item));
      assert SubKindOf("").None?;
      TrimClean("text/plain");
    } else {
      Headers2(DispositionOf(item), " " + item.mime.value);
      MimeIsPlain(item.mime.value);
    }
  }

  lemma {:induction false} AssignItem(bd: Bounds, item: Item, done: seq<Part>)
    requires IsHeadOk(item)
    ensures OnLine(bd, Headed(item, done), "") == Opened(item, done)
  {
    TypeRead(item);
    if item.Field? {
      FieldAttributes(item.name);
    } else {
      FileAttributes(item.name, item.filename);
    }
  }

  lemma {:induction false} HeadText(item: Item, rest: string)
    ensures PrintHead(item) + rest
      == HeaderLine(DISPOSITION, DispositionOf(item)) + CRLF + (PrintType(item.mime) + ("" + CRLF + rest))
  {
    var a, b := HeaderLine(DISPOSITION, DispositionOf(item)) + CRLF, PrintType(item.mime);
    Assoc(a, b + ("" + CRLF + ""), rest);
    Assoc(b, "" + CRLF + "", rest);
    assert "" + CRLF + "" + rest == "" + CRLF + rest;
  }

  /** The header lines are read whatever the name and the type are, as long as they are lines. */
  lemma {:induction false} HeadRead(bd: Bounds, item: Item, done: seq<Part>, rest: string)
    requires IsLineText(DispositionOf(item)) && IsLineText(HeaderLine(DISPOSITION, DispositionOf(item)))
    requires item.mime.Some? ==> IsMime(item.mime.value)
    ensures Work(bd, Awaiting(done), PrintHead(item) + rest) == Work(bd, OnLine(bd, Headed(item, done), ""), rest)
  {
    var d, last := DispositionOf(item), "" + CRLF + rest;
    HeadText(item, rest);
    ReadDisposition(bd, done, d, PrintType(item.mime) + last);
    if item.mime.Some? {
      var t := " " + item.mime.value;
      MimeHeader(item.mime.value);
      Assoc(HeaderLine(TYPE, t), CRLF, last);
      ReadType(bd, done, d, t, last);
    } else {
      assert "" + last == last;
    }
    OneLine(bd, Headed(item, done), "", rest);
  }

  lemma {:induction false} HeadOpens(bd: Bounds, item: Item, done: seq<Part>, rest: string)
    requires IsHeadOk(item)
    ensures Work(bd, Awaiting(done), PrintHead(item) + rest) == Work(bd, Opened(item, done), rest)
  {
    if item.Field? {
      FieldHeader(item.name);
    } else {
      FileHeader(item.name, item.filename);
    }
    HeadRead(bd, item, done, rest);
    AssignItem(bd, item, done);
  }

  // ----- payloads -----

  /** What a form field keeps of its text: line ends vanish, and so does the rest of a line after
      a NUL. */
  function Kept(text: string): string
    decreases |text|
  {
    match CutLine(text)
    case NoLine => CStr(text)
    case Line(line, rest) => CStr(line) + Kept(rest)
  }

  lemma {:induction false} KeptOfLine(line: string, rest: string)
    requires CrlfFree(line)
    ensures Kept(line + CRLF + rest) == CStr(line) + Kept(rest)
  {
    CutLineOf(line, rest);
  }

  /** Without a NUL, a field keeps everything but the line ends. */
  lemma {:induction false} KeptJoins(line: string, rest: string)
    requires IsLineText(line)
    ensures Kept(line) == line && Kept(line + CRLF + rest) == line + Kept(rest)
  {
    KeptIsText(line);
    KeptOfLine(line, rest);
  }

  /** A NUL hides the rest of its line, and only that. */
  lemma {:induction false} KeptStopsAtNul(a: string, b: string, rest: string)
    requires IsLineText(a) && CrlfFree(a + ['\0'] + b)
    ensures Kept(a + ['\0'] + b) == a && Kept(a + ['\0'] + b + CRLF + rest) == a + Kept(rest)
  {
    var line := a + ['\0'] + b;
    assert line[|a|] == '\0' && forall k :: 0 <= k < |a| ==> line[k] == a[k];
    IndexOfIs(line, '\0', 0, |a|);
    assert line[..|a|] == a;
    CutLineFree(line);
    KeptOfLine(line, rest);
  }

  lemma {:induction false} KeptLength(text: string)
    ensures |Kept(text)| <= |text|
    decreases |text|
  {
    match CutLine(text)
    case NoLine =>
    case Line(line, rest) =>
      KeptLength(rest);
  }

  lemma {:induction false} KeptIsText(text: string)
    ensures Kept(text) == text <==> IsLineText(text)
  {
    CutLineFree(text);
    match CutLine(text)
    case NoLine =>
    case Line(line, rest) => KeptLength(rest);
  }

  function AddValue(c: Core, v: string): Core
    requires c.current.Form?
  {
    c.(current := c.current.(value := c.current.value + v))
  }

  lemma {:induction false} AddValues(c: Core, a: string, b: string)
    requires c.current.Form?
    ensures AddValue(AddValue(c, a), b) == AddValue(c, a + b)
  {
    assert c.current.value + a + b == c.current.value + (a + b);
  }

  /** The first line of a text that is followed by more. */
  lemma {:induction false} LineOfText(text: string, rest: string)
    requires CutLine(text).Line?
    ensures var Line(line, more) := CutLine(text);
      CrlfFree(line) && text + CRLF + rest == line + CRLF + (more + CRLF + rest)
  {
    var Line(line, more) := CutLine(text);
    CutLineText(text);
    Assoc(line + CRLF, more, CRLF);
    Assoc(line + CRLF, more + CRLF, rest);
  }

  lemma {:induction false} FormReads(bd: Bounds, c: Core, text: string, rest: string)
    requires c.mode == Content && c.current.Form? && !c.completed
    requires NoBoundaryLine(bd, text)
    ensures Work(bd, c, text + CRLF + rest) == Work(bd, AddValue(c, Kept(text)), rest)
    decreases |text|
  {
    CutLineFree(text);
    match CutLine(text)
    case NoLine =>
      OneLine(bd, c, text, rest);
    case Line(line, more) =>
      LineOfText(text, rest);
      OneLine(bd, c, line, more + CRLF + rest);
      FormReads(bd, AddValue(c, CStr(line)), more, rest);
      AddValues(c, CStr(line), Kept(more));
  }

  lemma {:induction false} WriteLines(p: Part, line: string, more: string)
    requires p.File?
    ensures WriteLine(WriteLine(p, line), more) == WriteLine(p, line + CRLF + more)
  {
    var w := p.written + if p.appendCrlf then CRLF else "";
    assert w + line + CRLF + more == w + (line + CRLF + more);
  }

  lemma {:induction false} FileReads(bd: Bounds, c: Core, text: string, rest: string)
    requires InFile(c)
    requires NoBoundaryLine(bd, text)
    ensures Work(bd, c, text + CRLF + rest) == Work(bd, c.(current := WriteLine(c.current, text)), rest)
    decreases |text|
  {
    CutLineFree(text);
    match CutLine(text)
    case NoLine =>
      OneLine(bd, c, text, rest);
    case Line(line, more) =>
      LineOfText(text, rest);
      OneLine(bd, c, line, more + CRLF + rest);
      FileReads(bd, c.(current := WriteLine(c.current, line)), more, rest);
      CutLineText(text);
      WriteLines(c.current, line, more);
  }

  /** The finished part of an item. */
  function PartOf(item: Item): Part {
    var p := Opened(item, []).current;
    match item
    case Field(_, _, value) => p.(value := Kept(value))
    case Attachment(_, _, _, content) => p.(written := content, appendCrlf := true)
  }

  lemma {:induction false} ItemReads(bd: Bounds, item: Item, done: seq<Part>, rest: string)
    requires IsPrintable(bd, item)
    ensures Work(bd, Awaiting(done), PrintItem(item) + rest) ==
            Work(bd, Core(Content, PartOf(item), done, false), rest)
  {
    Assoc(PrintHead(item), Payload(item) + CRLF, rest);
    HeadOpens(bd, item, done, Payload(item) + CRLF + rest);
    if item.Field? {
      FieldPayload(bd, item, done, rest);
    } else {
      FilePayload(bd, item, done, rest);
    }
  }

  lemma {:induction false} FieldPayload(bd: Bounds, item: Item, done: seq<Part>, rest: string)
    requires IsPrintable(bd, item) && item.Field?
    ensures Work(bd, Opened(item, done), item.value + CRLF + rest) ==
            Work(bd, Core(Content, PartOf(item), done, false), rest)
  {
    FormReads(bd, Opened(item, done), item.value, rest);
    assert "" + Kept(item.value) == Kept(item.value);
  }

  lemma {:induction false} FilePayload(bd: Bounds, item: Item, done: seq<Part>, rest: string)
    requires IsPrintable(bd, item) && item.Attachment?
    ensures Work(bd, Opened(item, done), item.content + CRLF + rest) ==
            Work(bd, Core(Content, PartOf(item), done, false), rest)
  {
    FileReads(bd, Opened(item, done), item.content, rest);
    assert "" + "" + item.content == item.content;
  }

  function PartsOf(items: seq<Item>): seq<Part> {
    if items == [] then [] else [PartOf(items[0])] + PartsOf(items[1..])
  }

  lemma {:induction false} BoundaryText(boundary: string)
    requires IsToken(boundary)
    ensures var bd := SetBoundary(boundary);
            IsLineText(bd.start) && IsLineText(bd.end) && bd.start != bd.end
  {
    LineTextJoin("-", '-', boundary);
    assert "-" + ['-'] + boundary == SetBoundary(boundary).start;
    LineTextJoin(SetBoundary(boundary).start, '-', "-");
    assert SetBoundary(boundary).start + ['-'] + "-" == SetBoundary(boundary).end;
  }

  lemma {:induction false} NextItem(boundary: string, p: Part, done: seq<Part>, item: Item, rest: string)
    requires IsToken(boundary) && IsPrintable(SetBoundary(boundary), item)
    requires p.Form? || p.File?
    ensures var bd := SetBoundary(boundary);
            Work(bd, Core(Content, p, done, false), bd.start + CRLF + (PrintItem(item) + rest)) ==
            Work(bd, Core(Content, PartOf(item), done + [p], false), rest)
  {
    var bd := SetBoundary(boundary);
    BoundaryText(boundary);
    OneLine(bd, Core(Content, p, done, false), bd.start, PrintItem(item) + rest);
    ItemReads(bd, item, done + [p], rest);
  }

  lemma {:induction false} RestReads(boundary: string, p: Part, done: seq<Part>, items: seq<Item>)
    requires IsToken(boundary)
    requires forall item :: item in items ==> IsPrintable(SetBoundary(boundary), item)
    requires p.Form? || p.File?
    ensures Work(SetBoundary(boundary), Core(Content, p, done, false), PrintRest(SetBoundary(boundary), items))
            == (Core(Headers, Root, done + [p] + PartsOf(items), true), "")
    decreases items
  {
    var bd := SetBoundary(boundary);
    var c := Core(Content, p, done, false);
    BoundaryText(boundary);
    if items == [] {
      OneLine(bd, c, bd.end, "");
      assert done + [p] + PartsOf(items) == done + [p];
    } else {
      var rest := PrintRest(bd, items[1..]);
      NextItem(boundary, p, done, items[0], rest);
      RestReads(boundary, PartOf(items[0]), done + [p], items[1..]);
      Assoc(done + [p], [PartOf(items[0])], PartsOf(items[1..]));
    }
  }

  // ----- what the request is given -----

  function Fields(items: seq<Item>): seq<(string, string)> {
    if items == [] then []
    else (if items[0].Field? then [(items[0].name, Kept(items[0].value))] else []) + Fields(items[1..])
  }

  function Attachments(items: seq<Item>): seq<Upload> {
    if items == [] then []
    else
      var a := items[0];
      (if a.Attachment? then [Upload(a.name, a.filename, MimeOf(a.mime), a.content)] else []) + Attachments(items[1..])
  }

  lemma {:induction false} LoadedParts(items: seq<Item>)
    ensures Leaves(PartsOf(items)) == PartsOf(items)
    ensures FormParams(PartsOf(items)) == Fields(items)
    ensures Uploads(PartsOf(items)) == Attachments(items)
  {
    if items != [] {
      LoadedParts(items[1..]);
      assert PartsOf(items)[1..] == PartsOf(items[1..]);
    }
  }

  lemma {:induction false} FeedFresh(bd: Bounds, body: string)
    requires body != ""
    ensures Feed(bd, FRESH, body) == var (c, buf) := Work(bd, START, body); Settle(c, buf)
  {
    assert "" + body == body;
  }

  /** Every non-empty list of printable items comes back, fields and files each in order and each
      once; file contents are exact and field texts are what `Kept` leaves of them. */
  lemma {:induction false} RoundTrip(boundary: string, items: seq<Item>)
    requires IsToken(boundary) && items != []
    requires forall item :: item in items ==> IsPrintable(SetBoundary(boundary), item)
    ensures Feed(SetBoundary(boundary), FRESH, Print(boundary, items)) == Ready(Fields(items), Attachments(items))
  {
    PrintedWork(boundary, items);
    PartsSettle(items);
    FeedFresh(SetBoundary(boundary), Print(boundary, items));
  }

  lemma {:induction false} PartsSettle(items: seq<Item>)
    ensures Settle(Core(Headers, Root, PartsOf(items), true), "") == Ready(Fields(items), Attachments(items))
  {
    LoadedParts(items);
  }

  /** The machine reads a printed body to its last byte. */
  lemma {:induction false} PrintedWork(boundary: string, items: seq<Item>)
    requires IsToken(boundary) && items != []
    requires forall item :: item in items ==> IsPrintable(SetBoundary(boundary), item)
    ensures Work(SetBoundary(boundary), START, Print(boundary, items))
      == (Core(Headers, Root, PartsOf(items), true), "")
  {
    var bd := SetBoundary(boundary);
    BoundaryText(boundary);
    var body := PrintItem(items[0]) + PrintRest(bd, items[1..]);
    OneLine(bd, START, bd.start, body);
    ItemReads(bd, items[0], [], PrintRest(bd, items[1..]));
    RestReads(boundary, PartOf(items[0]), [], items[1..]);
    Assoc([], [PartOf(items[0])], PartsOf(items[1..]));
    assert [] + PartsOf(items) == PartsOf(items);
  }

  /** The same, however the printed body is cut up on the way. */
  lemma {:induction false} RoundTripInChunks(boundary: string, items: seq<Item>, chunks: seq<string>)
    requires IsToken(boundary) && items != []
    requires forall item :: item in items ==> IsPrintable(SetBoundary(boundary), item)
    requires Concat(chunks) == Print(boundary, items)
    requires FileLinesWithin(SetBoundary(boundary), START, Print(boundary, items), LONGEST_SAFE_LINE)
    ensures FeedAll(SetBoundary(boundary), FRESH, chunks) == Ready(Fields(items), Attachments(items))
  {
    RoundTrip(boundary, items);
    SplitInvariance(SetBoundary(boundary), chunks);
  }

  lemma {:induction false} PrintableFieldIff(boundary: string, name: string, mime: Option<string>, value: string)
    requires IsToken(boundary) && IsPrintable(SetBoundary(boundary), Item.Field(name, mime, value))
    ensures Feed(SetBoundary(boundary), FRESH, Print(boundary, [Item.Field(name, mime, value)])) == Ready([(name, value)], [])
            <==> CrlfFree(value) && '\0' !in value
  {
    var items := [Item.Field(name, mime, value)];
    RoundTrip(boundary, items);
    KeptIsText(value);
    assert Fields(items) == [(name, Kept(value))] + Fields(items[1..]);
    if Kept(value) != value {
      assert Fields(items)[0] != (name, value);
    }
  }

  /** A body of no parts at all is refused: the first line must be the start boundary. */
  lemma {:induction false} NoPartsIsRejected(boundary: string)
    requires IsToken(boundary)
    ensures Feed(SetBoundary(boundary), FRESH, Print(boundary, [])) == Rejected(400, [])
  {
    var bd := SetBoundary(boundary);
    BoundaryText(boundary);
    OneLine(bd, START, bd.end, "");
    FeedFresh(bd, Print(boundary, []));
  }
}
