/** From the text of a route to the text of its pattern: the tokenising loop of `_build_route_re`,
    the pattern of each segment, and the nesting. */
module RouteText {
  import opened Text
  import opened Regex
  import opened Routes

  // ----- the source's two passes over a route string -----

  datatype RawSeg = RawSeg(path: string, isParam: bool, optional: bool)

  function Classify(piece: string): RawSeg
    requires piece != ""
  {
    if piece[0] == ':' then
      RawSeg(piece, true, |piece| > 1 && piece[1] == '[' && piece[|piece| - 1] == ']')
    else
      RawSeg(piece, false, piece[0] == '[' && piece[|piece| - 1] == ']')
  }

  datatype PatSeg = PatSeg(pattern: string, optional: bool, name: Option<string>)

  const ONE_SEGMENT: string := "[^\\/\\n]+"

  /** The leading `:` and the square brackets are dropped. */
  function StripMarks(r: RawSeg): string
    requires r.path != ""
  {
    var p := if r.isParam then r.path[1..] else r.path;
    if r.optional && |p| >= 2 then p[1..|p| - 1] else p
  }

  /** The pattern of one segment; what is between the parentheses of a parameter is its own. */
  function PatternOf(r: RawSeg): PatSeg
    requires r.path != ""
  {
    var p := StripMarks(r);
    if r.isParam then
      var open := IndexOf(p, '(', 0);
      if open < 0 then
        PatSeg("(?<" + p + ">" + (ONE_SEGMENT + ")"), r.optional, Some(p))
      else
        var name := p[..open];
        var close := LastIndexOf(p, ')', |p|);
        var own := if close < 0 then ONE_SEGMENT + ")"
                   else if close < open then p[open + 1..]
                   else p[open + 1..close + 1];
        PatSeg("(?<" + name + ">" + own, r.optional, Some(name))
    else
      PatSeg(if p == "*" then ONE_SEGMENT else if p == "**" then ".+" else p, r.optional, None)
  }

  /** `_build_route_re(segs, idx)` */
  function BuildText(segs: seq<PatSeg>): string {
    if segs == [] then ""
    else if segs[0].optional then
      "($|\\/$|\\/" + segs[0].pattern + BuildText(segs[1..]) + ")"
    else
      "\\/" + segs[0].pattern + BuildText(segs[1..])
  }

  function PatternsOf(pieces: seq<string>): seq<PatSeg>
    requires "" !in pieces
  {
    if pieces == [] then []
    else
      assert pieces[0] in pieces;
      [PatternOf(Classify(pieces[0]))] + PatternsOf(pieces[1..])
  }

  function NonEmpty(pieces: seq<string>): (r: seq<string>)
    ensures "" !in r
  {
    if pieces == [] then []
    else (if pieces[0] == "" then [] else [pieces[0]]) + NonEmpty(pieces[1..])
  }

  /** What the route's text is cut into. */
  function Pieces(route: string): (r: seq<string>)
    ensures "" !in r
  {
    NonEmpty(Split(route, '/'))
  }

  const TRAILER_TEXT: string := "($|\\/$)"

  function RoutePattern(route: string): string {
    if route == "" then "" else "^" + BuildText(PatternsOf(Pieces(route))) + TRAILER_TEXT
  }

  // ----- the loops -----

  function Emit(cur: string): seq<string> {
    if cur == "" then [] else [cur]
  }

  /** What the tokeniser still emits, with `cur` collected and `s` ahead. */
  function Ahead(cur: string, s: string): seq<string>
    decreases |s|
  {
    if s == "" then Emit(cur)
    else if s[0] == '/' then Emit(cur) + Ahead("", s[1..])
    else Ahead(cur + [s[0]], s[1..])
  }

  lemma {:induction false} AheadIsPieces(cur: string, s: string)
    requires '/' !in cur
    ensures Ahead(cur, s) == NonEmpty(Split(cur + s, '/'))
    decreases |s|
  {
    if s == "" {
      assert cur + s == cur;
      SplitNone(cur, '/');
      var one := [cur];
      assert one[1..] == [] && NonEmpty(one) == (if one[0] == "" then [] else [one[0]]) + NonEmpty(one[1..]);
    } else if s[0] == '/' {
      assert cur + s == cur + ['/'] + s[1..];
      SplitCons(cur, '/', s[1..]);
      assert "" + s[1..] == s[1..];
      AheadIsPieces("", s[1..]);
    } else {
      assert cur + s == cur + [s[0]] + s[1..];
      AheadIsPieces(cur + [s[0]], s[1..]);
    }
  }

  /** One character of the route, with the pieces emitted so far. */
  lemma {:induction false} AheadStep(route: string, i: nat, cur: string, pieces: seq<string>)
    requires i < |route|
    ensures pieces + Ahead(cur, route[i..])
      == if route[i] == '/' then pieces + Emit(cur) + Ahead("", route[i + 1..])
         else pieces + Ahead(cur + [route[i]], route[i + 1..])
  {
    assert route[i..][1..] == route[i + 1..];
    Assoc(pieces, Emit(cur), Ahead("", route[i + 1..]));
  }

  lemma {:induction false} AheadEnd(cur: string, pieces: seq<string>)
    ensures pieces + Ahead(cur, "") == pieces + Emit(cur) + Ahead("", "")
  {
  }

  lemma {:induction false} AheadOf(route: string)
    requires route != ""
    ensures Ahead("", route) == Pieces(route)
    ensures route[0] == '/' ==> Ahead("", route[1..]) == Pieces(route)
  {
    AheadIsPieces("", route);
    assert "" + route == route;
  }

  /** The tokenising loop. */
  method Tokenize(route: string) returns (pieces: seq<string>)
    requires route != ""
    ensures pieces == Pieces(route)
  {
    pieces := [];
    var cur := "";
    var i := if route[0] == '/' then 1 else 0;
    AheadOf(route);
    assert route[0..] == route && [] + Pieces(route) == Pieces(route);
    while i < |route|
      invariant 0 <= i <= |route|
      invariant i == |route| ==> cur == ""
      invariant pieces + Ahead(cur, route[i..]) == Pieces(route)
    {
      AheadStep(route, i, cur, pieces);
      if route[i] == '/' || i == |route| - 1 {
        if route[i] != '/' {
          cur := cur + [route[i]];
          AheadEnd(cur, pieces);
        }
        pieces := pieces + Emit(cur);
        cur := "";
      } else {
        cur := cur + [route[i]];
      }
      i := i + 1;
    }
  }

  function NamesOf(segs: seq<PatSeg>): seq<string> {
    if segs == [] then []
    else (if segs[0].name.Some? then [segs[0].name.value] else []) + NamesOf(segs[1..])
  }

  /** `_build_route_re(route_path)`: the pattern and the parameter names, in order. */
  method CompileRoute(route: string) returns (pattern: string, names: seq<string>)
    ensures pattern == RoutePattern(route)
    ensures names == if route == "" then [] else NamesOf(PatternsOf(Pieces(route)))
  {
    if route == "" {
      return "", [];
    }
    var pieces := Tokenize(route);
    var segs := Segments(pieces);
    pattern := "^" + BuildText(segs) + TRAILER_TEXT;
    names := NamesOf(segs);
  }

  /** The loop that turns the pieces into pattern segments. */
  method Segments(pieces: seq<string>) returns (segs: seq<PatSeg>)
    requires "" !in pieces
    ensures segs == PatternsOf(pieces)
  {
    segs := [];
    var i := 0;
    while i < |pieces|
      invariant 0 <= i <= |pieces|
      invariant "" !in pieces[i..]
      invariant segs + PatternsOf(pieces[i..]) == PatternsOf(pieces)
    {
      assert pieces[i..][0] == pieces[i] && pieces[i..][1..] == pieces[i + 1..];
      Assoc(segs, [PatternOf(Classify(pieces[i]))], PatternsOf(pieces[i + 1..]));
      segs := segs + [PatternOf(Classify(pieces[i]))];
      i := i + 1;
    }
    assert segs == PatternsOf(pieces) by {
      assert pieces[i..] == [] && segs + [] == segs;
    }
  }

  // ----- printing segments as a route -----

  predicate IsWord(c: char) {
    'a' <= c <= 'z' || 'A' <= c <= 'Z' || '0' <= c <= '9' || c == '_'
  }

  /** Characters that stand for themselves in a pattern and mean nothing to the tokeniser. */
  predicate IsInert(c: char) {
    IsWord(c) || c == '-' || c == '~' || c == '%' || c == '=' || c == '&' || c == ',' || c == ';' || c == '@' || c == '!'
  }

  predicate Printable(g: Seg) {
    match g.kind
    case Lit(text) => text != "" && forall c :: c in text ==> IsInert(c)
    case Param(name, cls) => name != "" && (forall c :: c in name ==> IsWord(c)) && cls != AnyChar
    case _ => true
  }

  function Bracketed(s: string, optional: bool): string {
    if optional then ['['] + s + [']'] else s
  }

  /** A segment as it is written in a route. */
  function Piece(g: Seg): string {
    match g.kind
    case Lit(text) => Bracketed(text, g.optional)
    case Star => Bracketed("*", g.optional)
    case StarStar => Bracketed("**", g.optional)
    case Param(name, NotSlash) => [':'] + Bracketed(name, g.optional)
    case Param(name, _) => [':'] + Bracketed(name + ['('] + "\\d+" + [')'], g.optional)
  }

  function RouteOf(segs: seq<Seg>): string {
    if segs == [] then "" else ['/'] + Piece(segs[0]) + RouteOf(segs[1..])
  }

  function NameOf(k: Kind): Option<string> {
    if k.Param? then Some(k.name) else None
  }

  lemma {:induction false} LitText(text: string)
    requires '/' !in text
    ensures Render(LitRe(text)) == text
  {
    if text != "" {
      LitText(text[1..]);
      assert text == [text[0]] + text[1..];
    }
  }

  lemma {:induction false} BracketedStrips(s: string, optional: bool)
    requires s != "" && s[0] != '[' && s[0] != ':'
    ensures Classify(Bracketed(s, optional)) == RawSeg(Bracketed(s, optional), false, optional)
    ensures StripMarks(Classify(Bracketed(s, optional))) == s
  {
    if optional {
      assert Bracketed(s, true)[1..|s| + 1] == s;
    }
  }

  lemma {:induction false} ParamStrips(s: string, optional: bool)
    requires s != "" && s[0] != '['
    ensures Classify([':'] + Bracketed(s, optional)) == RawSeg([':'] + Bracketed(s, optional), true, optional)
    ensures StripMarks(Classify([':'] + Bracketed(s, optional))) == s
  {
    var p := [':'] + Bracketed(s, optional);
    assert p[1..] == Bracketed(s, optional);
    if optional {
      assert Bracketed(s, true)[1..|s| + 1] == s;
    }
  }

  lemma {:induction false} DigitsPattern(name: string)
    requires forall c :: c in name ==> IsWord(c)
    ensures var p := name + ['('] + "\\d+" + [')'];
            && IndexOf(p, '(', 0) == |name| && LastIndexOf(p, ')', |p|) == |p| - 1
            && p[..|name|] == name && p[|name| + 1..LastIndexOf(p, ')', |p|) + 1] == "\\d+" + ")"
  {
    var p := name + ['('] + "\\d+" + [')'];
    assert p[|name|] == '(';
    assert forall k :: 0 <= k < |name| ==> p[k] == name[k] && name[k] in name;
    IndexOfIs(p, '(', 0, |name|);
    assert p[|name| + 1..|p|] == "\\d+" + ")";
  }

  lemma {:induction false} PlainCompiles(s: string, optional: bool)
    requires s != "" && s[0] != '[' && s[0] != ':'
    ensures PatternOf(Classify(Bracketed(s, optional))) ==
            PatSeg(if s == "*" then ONE_SEGMENT else if s == "**" then ".+" else s, optional, None)
  {
    BracketedStrips(s, optional);
  }

  lemma {:induction false} ParamCompiles(name: string, optional: bool)
    requires name != "" && forall c :: c in name ==> IsWord(c)
    ensures PatternOf(Classify([':'] + Bracketed(name, optional))) ==
            PatSeg("(?<" + name + ">" + (ONE_SEGMENT + ")"), optional, Some(name))
  {
    assert name[0] in name;
    ParamStrips(name, optional);
    NoParen(name);
  }

  lemma {:induction false} NoParen(name: string)
    requires forall c :: c in name ==> IsWord(c)
    ensures IndexOf(name, '(', 0) == -1
  {
    forall k | 0 <= k < |name| ensures name[k] != '(' {
      assert name[k] in name;
    }
  }

  lemma {:induction false} DigitsCompiles(name: string, optional: bool)
    requires name != "" && forall c :: c in name ==> IsWord(c)
    ensures PatternOf(Classify([':'] + Bracketed(name + ['('] + "\\d+" + [')'], optional))) ==
            PatSeg("(?<" + name + ">" + ("\\d+" + ")"), optional, Some(name))
  {
    var p := name + ['('] + "\\d+" + [')'];
    assert name[0] in name && p[0] == name[0];
    ParamStrips(p, optional);
    DigitsPattern(name);
  }

  /** Each segment's text compiles to the pattern of its meaning. */
  lemma {:induction false} PieceCompiles(g: Seg)
    requires Printable(g)
    ensures PatternOf(Classify(Piece(g))) == PatSeg(Render(SegRe(g.kind)), g.optional, NameOf(g.kind))
  {
    match g.kind
    case Lit(text) => LitPiece(text, g.optional);
    case Star => PlainCompiles("*", g.optional);
    case StarStar => PlainCompiles("**", g.optional);
    case Param(name, cls) => ParamPiece(name, cls, g.optional);
  }

  lemma {:induction false} LitPiece(text: string, optional: bool)
    requires text != "" && forall c :: c in text ==> IsInert(c)
    ensures PatternOf(Classify(Bracketed(text, optional))) == PatSeg(Render(LitRe(text)), optional, None)
  {
    assert text[0] in text;
    LitText(text);
    PlainCompiles(text, optional);
  }

  lemma {:induction false} ParamPiece(name: string, cls: CharClass, optional: bool)
    requires Printable(Seg(Param(name, cls), optional))
    ensures PatternOf(Classify(Piece(Seg(Param(name, cls), optional))))
      == PatSeg(Render(Named(name, Plus(cls))), optional, Some(name))
  {
    NamedText(name, cls);
    if cls == NotSlash {
      ParamCompiles(name, optional);
    } else {
      DigitsCompiles(name, optional);
    }
  }

  lemma {:induction false} NamedText(name: string, cls: CharClass)
    requires cls != AnyChar
    ensures Render(Named(name, Plus(cls)))
      == "(?<" + name + ">" + ((if cls == NotSlash then ONE_SEGMENT else "\\d+") + ")")
  {
  }

  lemma {:induction false} PieceText(g: Seg)
    requires Printable(g)
    ensures Piece(g) != "" && '/' !in Piece(g)
  {
  }

  lemma {:induction false} RouteIsPath(segs: seq<Seg>)
    ensures IsPath(RouteOf(segs))
  {
  }

  function PiecesFor(segs: seq<Seg>): (r: seq<string>)
    requires forall g :: g in segs ==> Printable(g)
    ensures "" !in r
  {
    if segs == [] then []
    else
      assert segs[0] in segs;
      PieceText(segs[0]);
      [Piece(segs[0])] + PiecesFor(segs[1..])
  }

  lemma {:induction false} NonEmptyCons(x: string, rest: seq<string>)
    ensures NonEmpty([x] + rest) == Emit(x) + NonEmpty(rest)
  {
    assert ([x] + rest)[1..] == rest;
  }

  lemma {:induction false} NoPieces()
    ensures Pieces("") == []
  {
    SplitNone("", '/');
    NonEmptyCons("", []);
    assert [""] + [] == [""];
  }

  lemma {:induction false} PiecesOfPath(u: string)
    requires IsPath(u)
    ensures Pieces(u) == NonEmpty(Parts(u))
  {
    if u == "" {
      NoPieces();
    } else {
      assert u == "" + ['/'] + u[1..];
      SplitCons("", '/', u[1..]);
      NonEmptyCons("", Parts(u));
    }
  }

  lemma {:induction false} DropEmpties(p: string, u: string)
    requires p != "" && '/' !in p && IsPath(u)
    ensures Pieces(['/'] + p + u) == [p] + Pieces(u)
  {
    var s := ['/'] + p + u;
    assert s[1..] == p + u;
    PiecesOfPath(s);
    SplitFirst(p, u);
    NonEmptyCons(p, Parts(u));
    PiecesOfPath(u);
  }

  lemma {:induction false} PiecesOfRoute(segs: seq<Seg>)
    requires forall g :: g in segs ==> Printable(g)
    ensures Pieces(RouteOf(segs)) == PiecesFor(segs)
  {
    if segs == [] {
      NoPieces();
    } else {
      assert segs[0] in segs;
      PieceText(segs[0]);
      RouteIsPath(segs[1..]);
      PiecesOfRoute(segs[1..]);
      DropEmpties(Piece(segs[0]), RouteOf(segs[1..]));
    }
  }

  lemma {:induction false} HereText(a: string, b: string)
    ensures "\\/" + (a + b) == "\\/" + a + b
    ensures "($|\\/$|" + ("\\/" + (a + b)) + ")" == "($|\\/$|\\/" + a + b + ")"
  {
    Assoc("\\/", a, b);
    assert "($|\\/$|" + "\\/" == "($|\\/$|\\/";
    Assoc("($|\\/$|", "\\/", a + b);
    Assoc("($|\\/$|\\/", a, b);
  }

  lemma {:induction false} OptionalText(here: Regex)
    ensures Render(Optional(here)) == "($|\\/$|" + Render(here) + ")"
  {
    var x := Render(here);
    SlashEndText();
    assert Render(Alt(End, Alt(Cat(SLASH, End), here))) == "$" + "|" + ("\\/$" + "|" + x);
    BranchText(x);
  }

  lemma {:induction false} SlashEndText()
    ensures Render(Cat(SLASH, End)) == "\\/$"
  {
  }

  lemma {:induction false} BranchText(x: string)
    ensures "(" + ("$" + "|" + ("\\/$" + "|" + x)) + ")" == "($|\\/$|" + x + ")"
  {
    assert "\\/$" + "|" + x == "\\/$|" + x;
    Assoc("$|", "\\/$|", x);
    assert "$|" + "\\/$|" == "$|\\/$|";
    Assoc("(", "$|\\/$|", x);
  }

  lemma {:induction false} PatternsRender(segs: seq<Seg>)
    requires forall g :: g in segs ==> Printable(g)
    ensures BuildText(PatternsOf(PiecesFor(segs))) == Render(BuildRe(segs))
  {
    if segs != [] {
      assert segs[0] in segs;
      PieceCompiles(segs[0]);
      PatternsRender(segs[1..]);
      var pieces := PiecesFor(segs);
      assert pieces[0] == Piece(segs[0]) && pieces[1..] == PiecesFor(segs[1..]);
      var pats := PatternsOf(pieces);
      assert pats[0] == PatternOf(Classify(Piece(segs[0]))) && pats[1..] == PatternsOf(pieces[1..]);
      var g, b := SegRe(segs[0].kind), BuildRe(segs[1..]);
      var here := Cat(SLASH, Cat(g, b));
      assert Render(here) == "\\/" + (Render(g) + Render(b));
      HereText(Render(g), Render(b));
      OptionalText(here);
    }
  }

  lemma {:induction false} TrailerText()
    ensures Render(TRAILER) == TRAILER_TEXT
  {
    assert Render(Cat(SLASH, End)) == "\\/$";
    assert Render(Alt(End, Cat(SLASH, End))) == "$|\\/$";
  }

  /** The text the source hands to the regex compiler for a printed route is the text of the
      regex whose meaning is proved in `Routes`. */
  lemma {:induction false} RouteTextCompiles(segs: seq<Seg>)
    requires segs != [] && forall g :: g in segs ==> Printable(g)
    ensures RoutePattern(RouteOf(segs)) == "^" + Render(Compile(segs))
  {
    PiecesOfRoute(segs);
    PatternsRender(segs);
    assert RouteOf(segs) != "";
    WholeText(BuildRe(segs));
  }

  lemma {:induction false} WholeText(b: Regex)
    ensures "^" + Render(b) + TRAILER_TEXT == "^" + Render(Cat(b, TRAILER))
  {
    TrailerText();
    Assoc("^", Render(b), TRAILER_TEXT);
  }

  // ----- the names -----

  /** The names of the parameters, from left to right. */
  function ParamNames(segs: seq<Seg>): seq<string> {
    if segs == [] then []
    else
      match segs[0].kind
      case Param(name, _) => [name] + ParamNames(segs[1..])
      case _ => ParamNames(segs[1..])
  }

  lemma {:induction false} NamesOfPieces(segs: seq<Seg>)
    requires forall g :: g in segs ==> Printable(g)
    ensures NamesOf(PatternsOf(PiecesFor(segs))) == ParamNames(segs)
  {
    if segs != [] {
      assert segs[0] in segs;
      PieceCompiles(segs[0]);
      NamesOfPieces(segs[1..]);
      var pieces := PiecesFor(segs);
      assert pieces[0] == Piece(segs[0]) && pieces[1..] == PiecesFor(segs[1..]);
      var pats := PatternsOf(pieces);
      assert pats[0] == PatternOf(Classify(Piece(segs[0]))) && pats[1..] == PatternsOf(pieces[1..]);
    }
  }

  /** The names the source keeps for a printed route are those of its parameters, in order, and they
      are the names under which its regex captures. */
  lemma {:induction false} RouteNames(segs: seq<Seg>)
    requires segs != [] && forall g :: g in segs ==> Printable(g)
    ensures NamesOf(PatternsOf(Pieces(RouteOf(segs)))) == ParamNames(segs)
  {
    PiecesOfRoute(segs);
    NamesOfPieces(segs);
  }

  // ----- a parameter with a pattern of its own -----

  /** What stands between the first opening and the last closing parenthesis is the pattern, whatever
      it is; */
  lemma {:induction false} OwnPattern(name: string, own: string, optional: bool)
    requires name != "" && forall c :: c in name ==> IsWord(c)
    ensures PatternOf(Classify([':'] + Bracketed(name + ['('] + own + [')'], optional))) ==
            PatSeg("(?<" + name + ">" + (own + ")"), optional, Some(name))
  {
    var p := name + ['('] + own + [')'];
    assert name[0] in name && p[0] == name[0];
    ParamStrips(p, optional);
    OwnText(name, own);
    OwnFrom(Classify([':'] + Bracketed(p, optional)), p, name, own + ")");
  }

  lemma {:induction false} OwnText(name: string, own: string)
    requires forall c :: c in name ==> IsWord(c)
    ensures var p := name + ['('] + own + [')'];
      && IndexOf(p, '(', 0) == |name| && LastIndexOf(p, ')', |p|) == |p| - 1
      && p[..|name|] == name && p[|name| + 1..|p|] == own + ")"
  {
    Assoc(name + ['('], own, [')']);
    OpenParen(name, own + [')']);
    LastParen(name + ['('], own);
  }

  lemma {:induction false} LastParen(pre: string, own: string)
    ensures var p := pre + own + [')']; LastIndexOf(p, ')', |p|) == |p| - 1 && p[|pre|..|p|] == own + ")"
  {
  }

  lemma {:induction false} OwnFrom(r: RawSeg, p: string, name: string, own: string)
    requires r.path != "" && r.isParam && StripMarks(r) == p && |name| < |p| - 1
    requires IndexOf(p, '(', 0) == |name| && LastIndexOf(p, ')', |p|) == |p| - 1
    requires p[..|name|] == name && p[|name| + 1..|p|] == own
    ensures PatternOf(r) == PatSeg("(?<" + name + ">" + own, r.optional, Some(name))
  {
  }

  /** without a closing one the parameter takes any one part. */
  lemma {:induction false} MissingParen(name: string, own: string, optional: bool)
    requires name != "" && (forall c :: c in name ==> IsWord(c)) && ')' !in own
    ensures PatternOf(Classify([':'] + Bracketed(name + ['('] + own, optional))) ==
            PatSeg("(?<" + name + ">" + ("[^\\/\\n]+" + ")"), optional, Some(name))
  {
    var q := name + ['('] + own;
    assert name[0] in name && q[0] == name[0];
    ParamStrips(q, optional);
    OpenParen(name, own);
    NoCloseParen(name, own);
    DefaultFrom(Classify([':'] + Bracketed(q, optional)), q, |name|);
  }

  lemma {:induction false} NoCloseParen(name: string, own: string)
    requires (forall c :: c in name ==> IsWord(c)) && ')' !in own
    ensures var q := name + ['('] + own; LastIndexOf(q, ')', |q|) == -1
  {
    var q := name + ['('] + own;
    forall k | 0 <= k < |q| ensures q[k] != ')' {
      assert k < |name| ==> q[k] == name[k] && name[k] in name;
      assert k > |name| ==> q[k] == own[k - |name| - 1];
    }
  }

  lemma {:induction false} DefaultFrom(r: RawSeg, p: string, open: nat)
    requires r.path != "" && r.isParam && StripMarks(r) == p
    requires open < |p| && IndexOf(p, '(', 0) == open && LastIndexOf(p, ')', |p|) == -1
    ensures PatternOf(r) == PatSeg("(?<" + p[..open] + ">" + (ONE_SEGMENT + ")"), r.optional, Some(p[..open]))
  {
  }

  /** With the only closing one before the opening one, the pattern is all that follows the latter, and
      no parenthesis closes it. */
  lemma {:induction false} StrayParen(name: string, own: string)
    requires ')' in name && name[0] != '[' && '(' !in name && ')' !in own
    ensures PatternOf(Classify([':'] + (name + ['('] + own))) == PatSeg("(?<" + name + ">" + own, false, Some(name))
  {
    var q := name + ['('] + own;
    assert q[0] == name[0];
    ParamStrips(q, false);
    StrayText(name, own);
    StrayFrom(Classify([':'] + Bracketed(q, false)), q, name, own);
  }

  lemma {:induction false} StrayText(name: string, own: string)
    requires ')' in name && '(' !in name && ')' !in own
    ensures var q := name + ['('] + own;
      && IndexOf(q, '(', 0) == |name| && 0 <= LastIndexOf(q, ')', |q|) < |name|
      && q[..|name|] == name && q[|name| + 1..] == own
  {
    var q := name + ['('] + own;
    assert q[|name|] == '(' && forall k :: 0 <= k < |name| ==> q[k] == name[k];
    IndexOfIs(q, '(', 0, |name|);
    assert forall k :: |name| < k < |q| ==> q[k] == own[k - |name| - 1];
    var k :| 0 <= k < |name| && name[k] == ')';
    assert q[k] == ')';
  }

  lemma {:induction false} StrayFrom(r: RawSeg, q: string, name: string, own: string)
    requires r.path != "" && r.isParam && StripMarks(r) == q && |name| < |q|
    requires IndexOf(q, '(', 0) == |name| && 0 <= LastIndexOf(q, ')', |q|) < |name|
    requires q[..|name|] == name && q[|name| + 1..] == own
    ensures PatternOf(r) == PatSeg("(?<" + name + ">" + own, r.optional, Some(name))
  {
  }

  /** Empty brackets are an optional segment of no text, or a parameter without a name. */
  lemma {:induction false} EmptyBrackets()
    ensures PatternOf(Classify("[]")) == PatSeg("", true, None)
    ensures PatternOf(Classify(":[]")) == PatSeg("(?<>[^\\/\\n]+)", true, Some(""))
  {
    assert ":[]"[1..] == "[]" && "[]"[1..1] == "";
    assert "(?<" + "" + ">" + (ONE_SEGMENT + ")") == "(?<>[^\\/\\n]+)";
  }

  lemma {:induction false} OpenParen(name: string, rest: string)
    requires forall c :: c in name ==> IsWord(c)
    ensures IndexOf(name + ['('] + rest, '(', 0) == |name| && (name + ['('] + rest)[..|name|] == name
    ensures (name + ['('] + rest)[|name| + 1..] == rest
  {
    var p := name + ['('] + rest;
    assert p[|name|] == '(' && forall k :: 0 <= k < |name| ==> p[k] == name[k] && name[k] in name;
    IndexOfIs(p, '(', 0, |name|);
  }
}
