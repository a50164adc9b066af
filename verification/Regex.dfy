/** The fragment of PCRE that route patterns use, with the captures each match makes. */
module Regex {
  import opened Text

  datatype CharClass = NotSlash | AnyChar | Digit

  predicate InClass(cls: CharClass, c: char) {
    match cls
    case NotSlash => c != '/' && c != '\n'
    case AnyChar => c != '\n'
    case Digit => '0' <= c <= '9'
  }

  datatype Regex =
    | Eps
    | Chr(c: char)
    | Plus(cls: CharClass)
    | End
    | Cat(l: Regex, r: Regex)
    | Alt(l: Regex, r: Regex)
    | Paren(r: Regex)
    | Named(name: string, r: Regex)

  type Captures = seq<(string, string)>

  /** `r` can match a prefix of `s`, leaving `t`, and capture `caps`, in pattern order. Letters
      match caselessly (`PCRE_CASELESS`); `$` also matches before a final newline. */
  ghost predicate Matches(r: Regex, s: string, t: string, caps: Captures)
    decreases r
  {
    match r
    case Eps => t == s && caps == []
    case Chr(c) => s != "" && LowerChar(s[0]) == LowerChar(c) && t == s[1..] && caps == []
    case Plus(cls) =>
      && |t| < |s| && t == s[|s| - |t|..] && caps == []
      && forall i :: 0 <= i < |s| - |t| ==> InClass(cls, s[i])
    case End => t == s && (s == "" || s == "\n") && caps == []
    case Cat(l, r') =>
      exists u: string, c1: Captures, c2: Captures ::
        Matches(l, s, u, c1) && Matches(r', u, t, c2) && caps == c1 + c2
    case Alt(l, r') => Matches(l, s, t, caps) || Matches(r', s, t, caps)
    case Paren(r') => Matches(r', s, t, caps)
    case Named(name, r') =>
      && |t| <= |s|
      && exists c: Captures :: Matches(r', s, t, c) && caps == [(name, s[..|s| - |t|])] + c
  }

  /** How the pattern is written. */
  function Render(r: Regex): string {
    match r
    case Eps => ""
    case Chr(c) => if c == '/' then "\\/" else [c]
    case Plus(NotSlash) => "[^\\/\\n]+"
    case Plus(AnyChar) => ".+"
    case Plus(Digit) => "\\d+"
    case End => "$"
    case Cat(l, r') => Render(l) + Render(r')
    case Alt(l, r') => Render(l) + "|" + Render(r')
    case Paren(r') => "(" + Render(r') + ")"
    case Named(name, r') => "(?<" + name + ">" + (Render(r') + ")")
  }

  lemma {:induction false} CatIntro(l: Regex, r: Regex, s: string, u: string, t: string, c1: Captures, c2: Captures)
    requires Matches(l, s, u, c1) && Matches(r, u, t, c2)
    ensures Matches(Cat(l, r), s, t, c1 + c2)
  {
  }

  lemma {:induction false} CatElim(l: Regex, r: Regex, s: string, t: string, caps: Captures)
    returns (u: string, c1: Captures, c2: Captures)
    requires Matches(Cat(l, r), s, t, caps)
    ensures Matches(l, s, u, c1) && Matches(r, u, t, c2) && caps == c1 + c2
  {
    u, c1, c2 :| Matches(l, s, u, c1) && Matches(r, u, t, c2) && caps == c1 + c2;
  }

  lemma {:induction false} CatToRight(a: Regex, b: Regex, c: Regex, s: string, t: string, caps: Captures)
    requires Matches(Cat(Cat(a, b), c), s, t, caps)
    ensures Matches(Cat(a, Cat(b, c)), s, t, caps)
  {
    var u, c12, c3 := CatElim(Cat(a, b), c, s, t, caps);
    var v, c1, c2 := CatElim(a, b, s, u, c12);
    CatIntro(b, c, v, u, t, c2, c3);
    CatIntro(a, Cat(b, c), s, v, t, c1, c2 + c3);
    Assoc(c1, c2, c3);
  }

  lemma {:induction false} CatToLeft(a: Regex, b: Regex, c: Regex, s: string, t: string, caps: Captures)
    requires Matches(Cat(a, Cat(b, c)), s, t, caps)
    ensures Matches(Cat(Cat(a, b), c), s, t, caps)
  {
    var v, c1, c23 := CatElim(a, Cat(b, c), s, t, caps);
    var u, c2, c3 := CatElim(b, c, v, t, c23);
    CatIntro(a, b, s, v, u, c1, c2);
    CatIntro(Cat(a, b), c, s, u, t, c1 + c2, c3);
    Assoc(c1, c2, c3);
  }
}
