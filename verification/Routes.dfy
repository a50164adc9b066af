/** `route_t`: a route string is cut into segments and compiled to one nested pattern. The pattern
    accepts a path exactly when a matcher that looks at one path segment at a time does. */
module Routes {
  import opened Text
  import opened Regex

  // ----- segments and their pattern -----

  datatype Kind =
    | Lit(text: string)
    | Star
    | StarStar
    | Param(name: string, cls: CharClass)

  datatype Seg = Seg(kind: Kind, optional: bool)

  function LitRe(text: string): Regex {
    if text == "" then Eps else Cat(Chr(text[0]), LitRe(text[1..]))
  }

  function SegRe(k: Kind): Regex {
    match k
    case Lit(text) => LitRe(text)
    case Star => Plus(NotSlash)
    case StarStar => Plus(AnyChar)
    case Param(name, cls) => Named(name, Plus(cls))
  }

  const SLASH: Regex := Chr('/')
  const TRAILER: Regex := Paren(Alt(End, Cat(SLASH, End)))

  /** `_build_route_re(segs, idx)`: an optional segment and everything after it sit in one group
      whose other two branches are the end of the path. */
  function BuildRe(segs: seq<Seg>): Regex {
    if segs == [] then Eps
    else
      var here := Cat(SLASH, Cat(SegRe(segs[0].kind), BuildRe(segs[1..])));
      if segs[0].optional then Paren(Alt(End, Alt(Cat(SLASH, End), here))) else here
  }

  function Compile(segs: seq<Seg>): Regex {
    Cat(BuildRe(segs), TRAILER)
  }

  /** What `pcre_exec` answers for the anchored pattern. */
  ghost predicate RouteMatches(segs: seq<Seg>, path: string, caps: Captures) {
    exists t :: Matches(Compile(segs), path, t, caps)
  }

  // ----- the segment-wise matcher -----

  predicate IsPath(s: string) {
    s == "" || s[0] == '/'
  }

  function Parts(s: string): seq<string>
    requires IsPath(s)
  {
    if s == "" then [] else Split(s[1..], '/')
  }

  /** Nothing is left, or one trailing slash. */
  predicate AtEnd(parts: seq<string>) {
    parts == [] || parts == [""]
  }

  predicate CaselessEq(a: string, b: string) {
    |a| == |b| && forall i :: 0 <= i < |a| ==> LowerChar(a[i]) == LowerChar(b[i])
  }

  predicate Accepts(k: Kind, part: string) {
    match k
    case Lit(text) => CaselessEq(part, text)
    case Star => part != ""
    case StarStar => false
    case Param(_, Digit) => part != "" && forall i :: 0 <= i < |part| ==> part[i] in "0123456789"
    case Param(_, _) => part != ""
  }

  function Captured(k: Kind, part: string): Captures {
    if k.Param? then [(k.name, part)] else []
  }

  /** One path part per segment; `**` takes one or more, but not a lone empty one. */
  ghost predicate SegmentsMatch(segs: seq<Seg>, parts: seq<string>, caps: Captures)
    decreases segs
  {
    if segs == [] then AtEnd(parts) && caps == []
    else
      || (segs[0].optional && AtEnd(parts) && caps == [])
      || if segs[0].kind.StarStar? then
           exists k :: 1 <= k <= |parts| && parts[..k] != [""] && SegmentsMatch(segs[1..], parts[k..], caps)
         else
           && parts != [] && Accepts(segs[0].kind, parts[0])
           && var here := Captured(segs[0].kind, parts[0]);
           && here <= caps && SegmentsMatch(segs[1..], parts[1..], caps[|here|..])
  }

  /** What the tokeniser can produce: literals are non-empty and hold no slash; a parameter's
      pattern never takes a slash. */
  predicate WellFormed(segs: seq<Seg>) {
    forall g :: g in segs ==> KindOk(g.kind)
  }

  // ----- cutting a path after its first part -----

  lemma {:induction false} SplitFirst(p: string, u: string)
    requires '/' !in p && IsPath(u)
    ensures Split(p + u, '/') == [p] + Parts(u)
  {
    if u == "" {
      assert p + u == p;
      SplitNone(p, '/');
    } else {
      assert p + u == p + ['/'] + u[1..];
      SplitCons(p, '/', u[1..]);
    }
  }

  lemma {:induction false} SplitMore(p: string, y: string, u: string)
    requires '/' !in p
    ensures Split(p + ['/'] + y + u, '/') == [p] + Split(y + u, '/')
  {
    Assoc(p + ['/'], y, u);
    SplitCons(p, '/', y + u);
  }

  /** A cut at any slash, or at the end, splits the list of parts. */
  lemma {:induction false} SplitAnywhere(x: string, u: string)
    requires IsPath(u)
    ensures Split(x + u, '/') == Split(x, '/') + Parts(u)
    decreases |x|
  {
    var i := IndexOf(x, '/', 0);
    if i < 0 {
      SplitFirst(x, u);
    } else {
      var p, y := x[..i], x[i + 1..];
      assert x == p + ['/'] + y;
      SplitMore(p, y, u);
      SplitAnywhere(y, u);
      SplitCons(p, '/', y);
      Assoc([p], Split(y, '/'), Parts(u));
    }
  }

  lemma {:induction false} ConsSlices<T>(a: T, rest: seq<T>, k: nat)
    requires 1 <= k <= 1 + |rest|
    ensures ([a] + rest)[..k] == [a] + rest[..k - 1] && ([a] + rest)[k..] == rest[k - 1..]
  {
  }

  lemma {:induction false} SlashCut(s: string, i: nat, y: string, u: string)
    requires i < |s| && s[i] == '/' && s[i + 1..] == y + u
    ensures s == s[..i] + ['/'] + y + u
  {
    assert s == s[..i] + ['/'] + s[i + 1..];
    Assoc(s[..i] + ['/'], y, u);
  }

  /** Every way of dividing the parts comes from a cut of the text. */
  lemma {:induction false} CutBeforePart(s: string, k: nat) returns (x: string, u: string)
    requires 1 <= k <= |Split(s, '/')|
    ensures s == x + u && IsPath(u) && Split(x, '/') == Split(s, '/')[..k] && Parts(u) == Split(s, '/')[k..]
    decreases k
  {
    var i := IndexOf(s, '/', 0);
    if i < 0 {
      x, u := s, "";
    } else if k == 1 {
      x, u := s[..i], s[i..];
      assert u[1..] == s[i + 1..];
      SplitNone(x, '/');
      ConsSlices(s[..i], Split(s[i + 1..], '/'), k);
    } else {
      var y;
      ConsSlices(s[..i], Split(s[i + 1..], '/'), k);
      y, u := CutBeforePart(s[i + 1..], k - 1);
      x := s[..i] + ['/'] + y;
      SplitCons(s[..i], '/', y);
      SlashCut(s, i, y, u);
    }
  }

  // ----- what the pieces of the pattern match -----

  predicate LitPrefix(text: string, s: string) {
    |text| <= |s| && CaselessEq(s[..|text|], text)
  }

  lemma {:induction false} LitPrefixStep(text: string, s: string)
    requires text != ""
    ensures LitPrefix(text, s) <==>
            s != "" && LowerChar(s[0]) == LowerChar(text[0]) && LitPrefix(text[1..], s[1..])
  {
    if |text| <= |s| {
      var a, b := s[..|text|], s[1..][..|text| - 1];
      assert forall i :: 0 <= i < |b| ==> b[i] == a[i + 1];
      assert forall i :: 0 <= i < |b| ==> text[1..][i] == text[i + 1];
      assert forall i :: 0 < i < |a| ==> a[i] == b[i - 1] && text[i] == text[1..][i - 1];
    }
  }

  lemma {:induction false} LitMatches(text: string, s: string)
    requires LitPrefix(text, s)
    ensures Matches(LitRe(text), s, s[|text|..], [])
  {
    if text != "" {
      LitPrefixStep(text, s);
      LitMatches(text[1..], s[1..]);
      assert s[1..][|text| - 1..] == s[|text|..];
      CatIntro(Chr(text[0]), LitRe(text[1..]), s, s[1..], s[|text|..], [], []);
    }
  }

  lemma {:induction false} LitMatchesOnly(text: string, s: string, t: string, caps: Captures)
    requires Matches(LitRe(text), s, t, caps)
    ensures LitPrefix(text, s) && t == s[|text|..] && caps == []
  {
    if text != "" {
      var u, c1, c2 := CatElim(Chr(text[0]), LitRe(text[1..]), s, t, caps);
      LitMatchesOnly(text[1..], s[1..], t, c2);
      LitPrefixStep(text, s);
      assert s[1..][|text| - 1..] == s[|text|..];
    }
  }

  // ----- one segment of the pattern, then the rest -----

  lemma {:induction false} SlashMatches(s: string, t: string, caps: Captures)
    ensures Matches(SLASH, s, t, caps) <==> s != "" && s[0] == '/' && t == s[1..] && caps == []
  {
  }

  lemma {:induction false} EndMatches(s: string, t: string, caps: Captures)
    requires '\n' !in s
    ensures Matches(End, s, t, caps) <==> s == "" && t == "" && caps == []
  {
    assert "\n"[0] == '\n';
  }

  lemma {:induction false} SlashEndMatches(s: string, t: string, caps: Captures)
    requires '\n' !in s
    ensures Matches(Cat(SLASH, End), s, t, caps) <==> s == "/" && t == "" && caps == []
  {
    if Matches(Cat(SLASH, End), s, t, caps) {
      var u, c1, c2 := CatElim(SLASH, End, s, t, caps);
      EndMatches(u, t, c2);
    }
    if s == "/" && t == "" && caps == [] {
      CatIntro(SLASH, End, s, "", t, [], []);
    }
  }

  lemma {:induction false} TrailerMatches(s: string, t: string, caps: Captures)
    requires '\n' !in s
    ensures Matches(TRAILER, s, t, caps) <==> (s == "" || s == "/") && t == "" && caps == []
  {
    EndMatches(s, t, caps);
    SlashEndMatches(s, t, caps);
    assert Matches(TRAILER, s, t, caps) <==> Matches(Alt(End, Cat(SLASH, End)), s, t, caps);
  }

  /** The pattern from a segment on: a slash, the segment, and the rest of the pattern. */
  ghost predicate HereMatches(segs: seq<Seg>, s: string, caps: Captures)
    requires segs != []
  {
    && s != "" && s[0] == '/'
    && exists u: string, c1: Captures, c2: Captures ::
         Matches(SegRe(segs[0].kind), s[1..], u, c1) && RouteMatches(segs[1..], u, c2) && caps == c1 + c2
  }

  lemma {:induction false} HereIntro(segs: seq<Seg>, s: string, caps: Captures)
    requires segs != [] && HereMatches(segs, s, caps)
    ensures exists t :: Matches(Cat(Cat(SLASH, Cat(SegRe(segs[0].kind), BuildRe(segs[1..]))), TRAILER), s, t, caps)
  {
    var g, b := SegRe(segs[0].kind), BuildRe(segs[1..]);
    var u, c1, c2 :| Matches(g, s[1..], u, c1) && RouteMatches(segs[1..], u, c2) && caps == c1 + c2;
    var t :| Matches(Compile(segs[1..]), u, t, c2);
    CatIntro(g, Cat(b, TRAILER), s[1..], u, t, c1, c2);
    CatToLeft(g, b, TRAILER, s[1..], t, caps);
    CatIntro(SLASH, Cat(Cat(g, b), TRAILER), s, s[1..], t, [], caps);
    assert [] + caps == caps;
    CatToLeft(SLASH, Cat(g, b), TRAILER, s, t, caps);
  }

  lemma {:induction false} HereElim(segs: seq<Seg>, b: Regex, s: string, t: string, caps: Captures)
    requires segs != [] && b == BuildRe(segs[1..])
    requires Matches(Cat(Cat(SLASH, Cat(SegRe(segs[0].kind), b)), TRAILER), s, t, caps)
    ensures HereMatches(segs, s, caps)
  {
    var u, c1, c2 := HereParts(SegRe(segs[0].kind), b, s, t, caps);
    RouteIntro(segs[1..], b, u, t, c2);
  }

  lemma {:induction false} RouteIntro(segs: seq<Seg>, b: Regex, s: string, t: string, caps: Captures)
    requires b == BuildRe(segs) && Matches(Cat(b, TRAILER), s, t, caps)
    ensures RouteMatches(segs, s, caps)
  {
    assert Matches(Compile(segs), s, t, caps);
  }

  lemma {:induction false} HereParts(g: Regex, b: Regex, s: string, t: string, caps: Captures)
    returns (u: string, c1: Captures, c2: Captures)
    requires Matches(Cat(Cat(SLASH, Cat(g, b)), TRAILER), s, t, caps)
    ensures s != "" && s[0] == '/'
    ensures Matches(g, s[1..], u, c1) && Matches(Cat(b, TRAILER), u, t, c2) && caps == c1 + c2
  {
    CatToRight(SLASH, Cat(g, b), TRAILER, s, t, caps);
    var v, c0, c12 := CatElim(SLASH, Cat(Cat(g, b), TRAILER), s, t, caps);
    SlashMatches(s, v, c0);
    assert c0 + c12 == c12;
    CatToRight(g, b, TRAILER, v, t, c12);
    u, c1, c2 := CatElim(g, Cat(b, TRAILER), v, t, c12);
  }

  /** The empty pattern still takes one trailing slash. */
  lemma {:induction false} NoSegments(s: string, caps: Captures)
    requires '\n' !in s
    ensures RouteMatches([], s, caps) <==> (s == "" || s == "/") && caps == []
  {
    if RouteMatches([], s, caps) {
      var t :| Matches(Compile([]), s, t, caps);
      var u, c1, c2 := CatElim(Eps, TRAILER, s, t, caps);
      TrailerMatches(s, t, c2);
    }
    if (s == "" || s == "/") && caps == [] {
      TrailerMatches(s, "", []);
      CatIntro(Eps, TRAILER, s, s, "", [], []);
      assert Matches(Compile([]), s, "", caps);
    }
  }

  /** An optional segment may be missing together with all that follow it. */
  lemma {:induction false} SegmentThenRest(segs: seq<Seg>, s: string, caps: Captures)
    requires segs != [] && '\n' !in s
    ensures RouteMatches(segs, s, caps) <==>
            HereMatches(segs, s, caps) || (segs[0].optional && (s == "" || s == "/") && caps == [])
  {
    var here := Cat(SLASH, Cat(SegRe(segs[0].kind), BuildRe(segs[1..])));
    if RouteMatches(segs, s, caps) {
      var t :| Matches(Compile(segs), s, t, caps);
      if segs[0].optional {
        OptionalElim(here, s, t, caps);
        if Matches(Cat(here, TRAILER), s, t, caps) {
          HereElim(segs, BuildRe(segs[1..]), s, t, caps);
        }
      } else {
        HereElim(segs, BuildRe(segs[1..]), s, t, caps);
      }
    }
    if HereMatches(segs, s, caps) {
      HereIntro(segs, s, caps);
      var t :| Matches(Cat(here, TRAILER), s, t, caps);
      if segs[0].optional {
        OptionalIntro(here, s, t, caps);
      }
      assert Matches(Compile(segs), s, t, caps);
    }
    if segs[0].optional && (s == "" || s == "/") && caps == [] {
      OptionalAbsent(here, s);
      assert Matches(Compile(segs), s, "", caps);
    }
  }

  function Optional(here: Regex): Regex {
    Paren(Alt(End, Alt(Cat(SLASH, End), here)))
  }

  lemma {:induction false} OptionalElim(here: Regex, s: string, t: string, caps: Captures)
    requires '\n' !in s && Matches(Cat(Optional(here), TRAILER), s, t, caps)
    ensures Matches(Cat(here, TRAILER), s, t, caps) || ((s == "" || s == "/") && caps == [])
  {
    var u, c1, c2 := CatElim(Optional(here), TRAILER, s, t, caps);
    EndMatches(s, u, c1);
    SlashEndMatches(s, u, c1);
    OptionalCases(here, s, u, c1);
    if Matches(here, s, u, c1) {
      CatIntro(here, TRAILER, s, u, t, c1, c2);
    } else {
      TrailerMatches(u, t, c2);
    }
  }

  lemma {:induction false} OptionalCases(here: Regex, s: string, t: string, caps: Captures)
    ensures Matches(Optional(here), s, t, caps) <==>
            Matches(End, s, t, caps) || Matches(Cat(SLASH, End), s, t, caps) || Matches(here, s, t, caps)
  {
    var inner := Alt(Cat(SLASH, End), here);
    assert Matches(inner, s, t, caps) <==> Matches(Cat(SLASH, End), s, t, caps) || Matches(here, s, t, caps);
    assert Matches(Alt(End, inner), s, t, caps) <==> Matches(End, s, t, caps) || Matches(inner, s, t, caps);
  }

  lemma {:induction false} OptionalIntro(here: Regex, s: string, t: string, caps: Captures)
    requires Matches(Cat(here, TRAILER), s, t, caps)
    ensures Matches(Cat(Optional(here), TRAILER), s, t, caps)
  {
    var u, c1, c2 := CatElim(here, TRAILER, s, t, caps);
    OptionalCases(here, s, u, c1);
    CatIntro(Optional(here), TRAILER, s, u, t, c1, c2);
  }

  lemma {:induction false} OptionalAbsent(here: Regex, s: string)
    requires s == "" || s == "/"
    ensures Matches(Cat(Optional(here), TRAILER), s, "", [])
  {
    TrailerMatches("", "", []);
    EndMatches(s, "", []);
    SlashEndMatches(s, "", []);
    OptionalCases(here, s, "", []);
    CatIntro(Optional(here), TRAILER, s, "", "", [], []);
  }

  // ----- one segment against one part -----

  lemma {:induction false} SplitSingle(x: string)
    ensures |Split(x, '/')| == 1 ==> Split(x, '/') == [x] && '/' !in x
    ensures Split(x, '/') == [""] <==> x == ""
  {
  }

  predicate KindOk(k: Kind) {
    match k
    case Lit(text) => text != "" && '/' !in text
    case Param(_, cls) => cls != AnyChar
    case _ => true
  }

  /** All characters of a part are in a class: any part is in the default one, and only one of digits
      is in that of the digits. */
  lemma {:induction false} PartInClass(cls: CharClass, p: string)
    requires cls != AnyChar && '\n' !in p
    ensures (forall i :: 0 <= i < |p| ==> InClass(cls, p[i])) <==>
      if cls == Digit then forall i :: 0 <= i < |p| ==> p[i] in "0123456789" else '/' !in p
  {
    forall i | 0 <= i < |p| ensures '0' <= p[i] <= '9' <==> p[i] in "0123456789" {
      InDigits(p[i]);
    }
  }

  /** Up to the next slash, the segment's pattern and its matcher agree. */
  lemma {:induction false} SegmentMatches(k: Kind, p: string, u: string)
    requires KindOk(k) && !k.StarStar? && '\n' !in p && '/' !in p && Accepts(k, p)
    ensures Matches(SegRe(k), p + u, u, Captured(k, p))
  {
    var s := p + u;
    assert s[|p|..] == u && s[..|p|] == p;
    match k
    case Lit(text) =>
      LitMatches(text, s);
    case Star =>
    case Param(name, cls) =>
      PartInClass(cls, p);
      assert Matches(Plus(cls), s, u, []);
      assert [(name, p)] + [] == [(name, p)];
  }

  lemma {:induction false} SegmentMatchesOnly(k: Kind, s: string, u: string, caps: Captures) returns (p: string)
    requires KindOk(k) && !k.StarStar? && '\n' !in s
    requires Matches(SegRe(k), s, u, caps)
    ensures s == p + u && '/' !in p && Accepts(k, p) && caps == Captured(k, p)
  {
    match k
    case Lit(text) =>
      LitMatchesOnly(text, s, u, caps);
      p := s[..|text|];
      assert forall i :: 0 <= i < |p| ==> LowerChar(p[i]) == LowerChar(text[i]) && text[i] != '/';
    case Star =>
      p := s[..|s| - |u|];
    case Param(name, cls) =>
      p := s[..|s| - |u|];
      var c :| Matches(Plus(cls), s, u, c) && caps == [(name, s[..|s| - |u|])] + c;
      assert s == p + u && forall i :: 0 <= i < |p| ==> p[i] == s[i];
      PartInClass(cls, p);
  }

  lemma {:induction false} StarStarMatches(x: string, u: string, caps: Captures)
    requires '\n' !in x
    ensures Matches(SegRe(StarStar), x + u, u, caps) <==> x != "" && caps == []
  {
    assert (x + u)[|x|..] == u;
  }

  // ----- the main theorem -----

  lemma {:induction false} PartsCons(s: string, p: string, u: string)
    requires s != "" && s[0] == '/' && s[1..] == p + u && '/' !in p && IsPath(u)
    ensures Parts(s) == [p] + Parts(u) && Parts(s)[1..] == Parts(u)
  {
    SplitFirst(p, u);
  }

  /** The claim for one segment list, on all paths. */
  ghost predicate Agrees(segs: seq<Seg>) {
    forall s: string, caps: Captures :: '\n' !in s ==>
      (RouteMatches(segs, s, caps) <==> IsPath(s) && SegmentsMatch(segs, Parts(s), caps))
  }

  lemma {:induction false} HereForward(segs: seq<Seg>, s: string, caps: Captures)
    requires segs != [] && KindOk(segs[0].kind) && Agrees(segs[1..])
    requires '\n' !in s && HereMatches(segs, s, caps)
    ensures IsPath(s) && SegmentsMatch(segs, Parts(s), caps)
  {
    var k, rest := segs[0].kind, segs[1..];
    var u, c1, c2 :| Matches(SegRe(k), s[1..], u, c1) && RouteMatches(rest, u, c2) && caps == c1 + c2;
    if k.StarStar? {
      var x := s[1..][..|s| - 1 - |u|];
      assert s[1..] == x + u;
      SplitAnywhere(x, u);
      SplitSingle(x);
      var n := |Split(x, '/')|;
      assert Parts(s)[..n] == Split(x, '/') && Parts(s)[n..] == Parts(u);
      assert c1 + c2 == c2;
      assert SegmentsMatch(rest, Parts(s)[n..], caps);
    } else {
      var p := SegmentMatchesOnly(k, s[1..], u, c1);
      PartsCons(s, p, u);
      assert caps[|c1|..] == c2;
    }
  }

  lemma {:induction false} HereFrom(segs: seq<Seg>, s: string, u: string, c1: Captures, c2: Captures)
    requires segs != [] && s != "" && s[0] == '/'
    requires Matches(SegRe(segs[0].kind), s[1..], u, c1) && RouteMatches(segs[1..], u, c2)
    ensures HereMatches(segs, s, c1 + c2)
  {
  }

  lemma {:induction false} BackwardStarStar(segs: seq<Seg>, s: string, n: nat, caps: Captures)
    requires segs != [] && segs[0].kind.StarStar? && Agrees(segs[1..])
    requires '\n' !in s && s != "" && s[0] == '/'
    requires 1 <= n <= |Parts(s)| && Parts(s)[..n] != [""] && SegmentsMatch(segs[1..], Parts(s)[n..], caps)
    ensures HereMatches(segs, s, caps)
  {
    var x, u := CutBeforePart(s[1..], n);
    SplitSingle(x);
    assert forall i :: 0 <= i < |x| ==> x[i] == s[1..][i];
    StarStarMatches(x, u, []);
    HereFrom(segs, s, u, [], caps);
    assert [] + caps == caps;
  }

  lemma {:induction false} BackwardPart(segs: seq<Seg>, s: string, caps: Captures)
    requires segs != [] && KindOk(segs[0].kind) && !segs[0].kind.StarStar? && Agrees(segs[1..])
    requires '\n' !in s && s != "" && s[0] == '/' && Accepts(segs[0].kind, Parts(s)[0])
    requires SegmentsMatch(segs[1..], Parts(s)[1..], caps)
    ensures HereMatches(segs, s, Captured(segs[0].kind, Parts(s)[0]) + caps)
  {
    var p, u := CutBeforePart(s[1..], 1);
    SplitSingle(p);
    PartsCons(s, p, u);
    BackwardFrom(segs, s, p, u, caps);
  }

  lemma {:induction false} BackwardFrom(segs: seq<Seg>, s: string, p: string, u: string, caps: Captures)
    requires segs != [] && KindOk(segs[0].kind) && !segs[0].kind.StarStar? && Agrees(segs[1..])
    requires '\n' !in s && s != "" && s[0] == '/' && s[1..] == p + u && '/' !in p && IsPath(u)
    requires Accepts(segs[0].kind, p) && SegmentsMatch(segs[1..], Parts(u), caps)
    ensures HereMatches(segs, s, Captured(segs[0].kind, p) + caps)
  {
    assert forall i :: 0 <= i < |p| ==> p[i] == s[1..][i];
    assert forall i :: 0 <= i < |u| ==> u[i] == s[1..][|p| + i];
    SegmentMatches(segs[0].kind, p, u);
    HereFrom(segs, s, u, Captured(segs[0].kind, p), caps);
  }

  lemma {:induction false} HereBackward(segs: seq<Seg>, s: string, caps: Captures)
    requires segs != [] && KindOk(segs[0].kind) && Agrees(segs[1..])
    requires '\n' !in s && IsPath(s) && SegmentsMatch(segs, Parts(s), caps)
    ensures HereMatches(segs, s, caps) || (segs[0].optional && AtEnd(Parts(s)) && caps == [])
  {
    var k, rest := segs[0].kind, segs[1..];
    if segs[0].optional && AtEnd(Parts(s)) && caps == [] {
    } else if k.StarStar? {
      var n :| 1 <= n <= |Parts(s)| && Parts(s)[..n] != [""] && SegmentsMatch(rest, Parts(s)[n..], caps);
      BackwardStarStar(segs, s, n, caps);
    } else {
      var here := Captured(k, Parts(s)[0]);
      BackwardPart(segs, s, caps[|here|..]);
      assert caps == here + caps[|here|..];
    }
  }

  lemma {:induction false} EndOfPath(s: string)
    requires IsPath(s)
    ensures AtEnd(Parts(s)) <==> s == "" || s == "/"
  {
    if s != "" {
      SplitSingle(s[1..]);
    }
  }

  /** For every list of segments, a path matches the compiled pattern with some captures exactly
      when the segment-wise matcher accepts its parts with the same captures. */
  lemma {:induction false} CompiledPatternAgrees(segs: seq<Seg>)
    requires WellFormed(segs)
    ensures Agrees(segs)
  {
    if segs != [] {
      assert segs[0] in segs;
      CompiledPatternAgrees(segs[1..]);
    }
    forall s: string, caps: Captures | '\n' !in s
      ensures RouteMatches(segs, s, caps) <==> IsPath(s) && SegmentsMatch(segs, Parts(s), caps)
    {
      if IsPath(s) { EndOfPath(s); }
      if segs == [] {
        NoSegments(s, caps);
      } else {
        SegmentThenRest(segs, s, caps);
        if HereMatches(segs, s, caps) { HereForward(segs, s, caps); }
        if IsPath(s) && SegmentsMatch(segs, Parts(s), caps) { HereBackward(segs, s, caps); }
      }
    }
  }

  lemma {:induction false} RouteMeaning(segs: seq<Seg>, path: string, caps: Captures)
    requires WellFormed(segs) && '\n' !in path
    ensures RouteMatches(segs, path, caps) <==> IsPath(path) && SegmentsMatch(segs, Parts(path), caps)
  {
    CompiledPatternAgrees(segs);
  }

  // ----- captures -----

  /** `**` stands at most once, at the end. */
  predicate StarStarLast(segs: seq<Seg>) {
    forall i :: 0 <= i < |segs| - 1 ==> !segs[i].kind.StarStar?
  }

  /** The parameters a path binds: the part at each parameter's own position, as far as the path
      reaches. */
  function Bindings(segs: seq<Seg>, parts: seq<string>): Captures
    decreases segs
  {
    if segs == [] || parts == [] || segs[0].kind.StarStar? || (segs[0].optional && AtEnd(parts)) then []
    else Captured(segs[0].kind, parts[0]) + Bindings(segs[1..], parts[1..])
  }

  lemma {:induction false} CapturesAreBindings(segs: seq<Seg>, parts: seq<string>, caps: Captures)
    requires WellFormed(segs) && StarStarLast(segs)
    requires SegmentsMatch(segs, parts, caps)
    ensures caps == Bindings(segs, parts)
  {
    if segs != [] {
      var k, rest := segs[0].kind, segs[1..];
      assert segs[0] in segs;
      if k.StarStar? {
        assert rest == [];
      } else if !(segs[0].optional && AtEnd(parts) && caps == []) {
        var here := Captured(k, parts[0]);
        CapturesAreBindings(rest, parts[1..], caps[|here|..]);
        assert caps == here + caps[|here|..];
        assert !Accepts(k, "");
      }
    }
  }

  /** A match is unique: every parameter gets the path part at its position, an absent optional
      gets nothing. */
  lemma {:induction false} MatchIsUnique(segs: seq<Seg>, path: string, caps: Captures)
    requires WellFormed(segs) && StarStarLast(segs) && '\n' !in path
    requires RouteMatches(segs, path, caps)
    ensures IsPath(path) && caps == Bindings(segs, Parts(path))
  {
    RouteMeaning(segs, path, caps);
    CapturesAreBindings(segs, Parts(path), caps);
  }

  predicate BindsAt(segs: seq<Seg>, parts: seq<string>, i: int, name: string, value: string) {
    && 0 <= i < |segs| && i < |parts|
    && segs[i].kind.Param? && segs[i].kind.name == name
    && parts[i] == value && value != ""
  }

  lemma {:induction false} BindingPositions(segs: seq<Seg>, parts: seq<string>, caps: Captures, name: string, value: string)
    requires WellFormed(segs) && StarStarLast(segs)
    requires SegmentsMatch(segs, parts, caps)
    ensures (name, value) in caps <==> exists i :: BindsAt(segs, parts, i, name, value)
  {
    if segs != [] {
      var k, rest := segs[0].kind, segs[1..];
      assert segs[0] in segs;
      if segs[0].optional && AtEnd(parts) && caps == [] {
      } else if k.StarStar? {
        assert rest == [];
      } else {
        var here := Captured(k, parts[0]);
        BindingPositions(rest, parts[1..], caps[|here|..], name, value);
        assert caps == here + caps[|here|..];
        assert !Accepts(k, "");
        if exists i :: BindsAt(rest, parts[1..], i, name, value) {
          var i :| BindsAt(rest, parts[1..], i, name, value);
          assert BindsAt(segs, parts, i + 1, name, value);
        }
        if exists i :: BindsAt(segs, parts, i, name, value) {
          var i :| BindsAt(segs, parts, i, name, value);
          if i > 0 {
            assert BindsAt(rest, parts[1..], i - 1, name, value);
          }
        }
        if k.Param? && (name, value) == here[0] {
          assert BindsAt(segs, parts, 0, name, value);
        }
      }
    }
  }

  /** A parameter is bound exactly when the path has a non-empty part at its position, and then to
      that part. */
  lemma {:induction false} ParameterMeaning(segs: seq<Seg>, path: string, caps: Captures, name: string, value: string)
    requires WellFormed(segs) && StarStarLast(segs) && '\n' !in path
    requires RouteMatches(segs, path, caps)
    ensures IsPath(path)
    ensures (name, value) in caps <==> exists i :: BindsAt(segs, Parts(path), i, name, value)
  {
    RouteMeaning(segs, path, caps);
    BindingPositions(segs, Parts(path), caps, name, value);
  }

  /** Every leading mandatory segment needs a non-empty part of its own; in particular `*` does
      not match the path that stops before it. */
  lemma {:induction false} MandatoryNeedsPart(segs: seq<Seg>, parts: seq<string>, caps: Captures, n: nat)
    requires WellFormed(segs) && SegmentsMatch(segs, parts, caps)
    requires n <= |segs| && forall i :: 0 <= i < n ==> !segs[i].optional && !segs[i].kind.StarStar?
    ensures n <= |parts| && forall i :: 0 <= i < n ==> parts[i] != ""
  {
    if n > 0 {
      assert segs[0] in segs && !Accepts(segs[0].kind, "");
      var here := Captured(segs[0].kind, parts[0]);
      MandatoryNeedsPart(segs[1..], parts[1..], caps[|here|..], n - 1);
      assert forall i :: 0 < i < n ==> parts[i] == parts[1..][i - 1];
    }
  }
}
