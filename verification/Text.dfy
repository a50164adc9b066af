/** String primitives shared by the parsers: character search, splitting, trimming,
    case folding and the strict CRLF line cut. Bytes are modelled as characters. */
module Text {
  const CRLF: string := "\r\n"

  datatype Option<+T> = None | Some(value: T)

  type Byte = x: int | 0 <= x < 256

  /** `find_ch`: the first index of `c` at or after `from`, or -1. */
  function IndexOf(s: string, c: char, from: nat): (i: int)
    ensures i == -1 || from <= i < |s|
    ensures i >= 0 ==> s[i] == c
    ensures forall k :: from <= k < (if i < 0 then |s| else i) ==> s[k] != c
    decreases |s| - from
  {
    if from >= |s| then -1
    else if s[from] == c then from
    else IndexOf(s, c, from + 1)
  }

  lemma {:induction false} IndexOfIs(s: string, c: char, from: nat, i: nat)
    requires from <= i < |s| && s[i] == c
    requires forall k :: from <= k < i ==> s[k] != c
    ensures IndexOf(s, c, from) == i
  {
  }

  /** The first `c` after `a` in `a + p + [c] + b`. */
  lemma {:induction false} IndexAfter(a: string, p: string, c: char, b: string)
    requires c !in p
    ensures IndexOf(a + p + [c] + b, c, |a|) == |a| + |p|
  {
    var s := a + p + [c] + b;
    assert s[|a| + |p|] == c;
    assert forall k :: |a| <= k < |a| + |p| ==> s[k] == p[k - |a|];
    IndexOfIs(s, c, |a|, |a| + |p|);
  }

  /** `rfind_ch`: the last index of `c` before `to`, or -1. */
  function LastIndexOf(s: string, c: char, to: nat): (i: int)
    requires to <= |s|
    ensures -1 <= i < to
    ensures i >= 0 ==> s[i] == c
    ensures forall k :: i < k < to ==> s[k] != c
  {
    if to == 0 then -1 else if s[to - 1] == c then to - 1 else LastIndexOf(s, c, to - 1)
  }

  lemma {:induction false} LastIndexIs(s: string, c: char, to: nat, i: nat)
    requires i < to <= |s| && s[i] == c && forall k :: i < k < to ==> s[k] != c
    ensures LastIndexOf(s, c, to) == i
  {
  }

  /** The value of a hexadecimal digit of either case, or -1. */
  function HexValue(c: char): (d: int)
    ensures -1 <= d < 16
  {
    if '0' <= c <= '9' then c as int - '0' as int
    else if 'a' <= c <= 'f' then c as int - 'a' as int + 10
    else if 'A' <= c <= 'F' then c as int - 'A' as int + 10
    else -1
  }

  // ----- alphabets -----

  const UPPER: string := "ABCDEFGHIJKLMNOPQRSTUVWXYZ"
  const LOWER: string := "abcdefghijklmnopqrstuvwxyz"
  const DIGITS: string := "0123456789"
  const BLANKS: string := " \t\n\r\U{000b}\U{000c}"

  lemma {:induction false} UpperAt(i: nat)
    requires i < 26
    ensures UPPER[i] as int == 'A' as int + i
  {
  }

  lemma {:induction false} LowerAt(i: nat)
    requires i < 26
    ensures LOWER[i] as int == 'a' as int + i
  {
  }

  lemma {:induction false} DigitAt(i: nat)
    requires i < 10
    ensures DIGITS[i] as int == '0' as int + i
  {
  }

  lemma {:induction false} InUpper(c: char)
    ensures c in UPPER <==> 'A' <= c <= 'Z'
  {
    if 'A' <= c <= 'Z' {
      UpperAt(c as int - 'A' as int);
    }
    if c in UPPER {
      var i :| 0 <= i < |UPPER| && UPPER[i] == c;
      UpperAt(i);
    }
  }

  lemma {:induction false} InLower(c: char)
    ensures c in LOWER <==> 'a' <= c <= 'z'
  {
    if 'a' <= c <= 'z' {
      LowerAt(c as int - 'a' as int);
    }
    if c in LOWER {
      var i :| 0 <= i < |LOWER| && LOWER[i] == c;
      LowerAt(i);
    }
  }

  lemma {:induction false} InDigits(c: char)
    ensures c in DIGITS <==> '0' <= c <= '9'
  {
    if '0' <= c <= '9' {
      DigitAt(c as int - '0' as int);
    }
    if c in DIGITS {
      var i :| 0 <= i < |DIGITS| && DIGITS[i] == c;
      DigitAt(i);
    }
  }

  /** Folding takes each capital to the letter at the same place and nothing else anywhere. */
  lemma {:induction false} LowerMeaning(c: char)
    ensures forall i :: 0 <= i < 26 ==> LowerChar(UPPER[i]) == LOWER[i]
    ensures c !in UPPER ==> LowerChar(c) == c
  {
    forall i | 0 <= i < 26 ensures LowerChar(UPPER[i]) == LOWER[i] {
      UpperAt(i);
      LowerAt(i);
    }
    InUpper(c);
  }

  /** The digits of either case have their places as values, and no other character has one. */
  lemma {:induction false} HexMeaning(c: char)
    ensures forall i :: 0 <= i < 10 ==> HexValue(DIGITS[i]) == i
    ensures forall i :: 0 <= i < 6 ==> HexValue("abcdef"[i]) == HexValue("ABCDEF"[i]) == 10 + i
    ensures c !in DIGITS && c !in "abcdef" && c !in "ABCDEF" ==> HexValue(c) == -1
  {
    forall i | 0 <= i < 10 ensures HexValue(DIGITS[i]) == i {
      DigitAt(i);
    }
    InDigits(c);
    if 'a' <= c <= 'f' {
      assert "abcdef"[c as int - 'a' as int] == c;
    }
    if 'A' <= c <= 'F' {
      assert "ABCDEF"[c as int - 'A' as int] == c;
    }
  }

  // ----- lines -----

  predicate CrlfFree(s: string) {
    forall i :: 0 <= i < |s| - 1 ==> !(s[i] == '\r' && s[i + 1] == '\n')
  }

  datatype Cut = NoLine | Line(text: string, rest: string)

  /** `evbuffer_readln` with `EVBUFFER_EOL_CRLF_STRICT`: cut at the first CRLF, if there is one. */
  function CutLine(s: string): (r: Cut)
    ensures r.Line? ==> |s| == |r.text| + 2 + |r.rest|
  {
    if |s| < 2 then NoLine
    else if s[0] == '\r' && s[1] == '\n' then Line("", s[2..])
    else match CutLine(s[1..])
      case NoLine => NoLine
      case Line(t, rest) => Line([s[0]] + t, rest)
  }

  /** The line, its CRLF and the rest are the text, and there is no CRLF before. */
  lemma {:induction false} CutLineText(s: string)
    ensures CutLine(s).NoLine? ==> CrlfFree(s)
    ensures CutLine(s).Line? ==>
      CrlfFree(CutLine(s).text) && s == CutLine(s).text + CRLF + CutLine(s).rest
    decreases |s|
  {
    if |s| >= 2 && !(s[0] == '\r' && s[1] == '\n') {
      var c, more := s[0], s[1..];
      CutLineText(more);
      assert s == [c] + more;
      if CutLine(more).Line? {
        var Line(t, rest) := CutLine(more);
        assert t != "" ==> t[0] == more[0];
        ConsFree(c, t);
        ConsLine(c, t, rest);
      } else {
        ConsFree(c, more);
      }
    }
  }

  lemma {:induction false} ConsFree(c: char, t: string)
    requires CrlfFree(t) && (t == "" || !(c == '\r' && t[0] == '\n'))
    ensures CrlfFree([c] + t)
  {
    var s := [c] + t;
    forall i | 0 <= i < |s| - 1 ensures !(s[i] == '\r' && s[i + 1] == '\n') {
      assert s[i + 1] == t[i] && (i > 0 ==> s[i] == t[i - 1]);
    }
  }

  lemma {:induction false} ConsLine(c: char, t: string, rest: string)
    ensures [c] + (t + CRLF + rest) == [c] + t + CRLF + rest
  {
    Regroup([c], t, CRLF, rest);
  }

  lemma {:induction false} CutLineOf(t: string, rest: string)
    requires CrlfFree(t)
    ensures CutLine(t + CRLF + rest) == Line(t, rest)
  {
    var s := t + CRLF + rest;
    if t == "" {
      assert s[2..] == rest;
    } else {
      assert s[1..] == t[1..] + CRLF + rest;
      assert !(s[0] == '\r' && s[1] == '\n') by {
        if |t| == 1 { assert s[1] == '\r'; } else { assert s[0] == t[0] && s[1] == t[1]; }
      }
      assert CrlfFree(t[1..]) by {
        forall i | 0 <= i < |t[1..]| - 1
          ensures !(t[1..][i] == '\r' && t[1..][i + 1] == '\n')
        {
          assert t[1..][i] == t[i + 1] && t[1..][i + 1] == t[i + 2];
        }
      }
      CutLineOf(t[1..], rest);
      assert [t[0]] + t[1..] == t;
    }
  }

  lemma {:induction false} CutLineFree(s: string)
    ensures CutLine(s).NoLine? <==> CrlfFree(s)
  {
    CutLineText(s);
    if CutLine(s).Line? {
      var n := |CutLine(s).text|;
      assert s[n] == '\r' && s[n + 1] == '\n';
    }
  }

  lemma {:induction false} CutLineExtend(a: string, b: string)
    requires CutLine(a).Line?
    ensures CutLine(a + b) == Line(CutLine(a).text, CutLine(a).rest + b)
  {
    var Line(t, rest) := CutLine(a);
    CutLineText(a);
    Assoc(t + CRLF, rest, b);
    CutLineOf(t, rest + b);
  }

  lemma {:induction false} CutLinePast(a: string, b: string)
    requires CutLine(a + b).Line?
    ensures |a| <= |CutLine(a + b).text| + 1 || !CrlfFree(a)
  {
    var n := |CutLine(a + b).text|;
    CutLineText(a + b);
    if |a| > n + 1 {
      assert a[n] == (a + b)[n] && a[n + 1] == (a + b)[n + 1];
    }
  }

  lemma {:induction false} CrlfFreeConcat(a: string, b: string)
    requires CrlfFree(a) && CrlfFree(b)
    requires a == "" || b == "" || a[|a| - 1] != '\r' || b[0] != '\n'
    ensures CrlfFree(a + b)
  {
    var s := a + b;
    forall i | 0 <= i < |s| - 1
      ensures !(s[i] == '\r' && s[i + 1] == '\n')
    {
      if i + 1 < |a| {
        assert s[i] == a[i] && s[i + 1] == a[i + 1];
      } else if i >= |a| {
        assert s[i] == b[i - |a|] && s[i + 1] == b[i + 1 - |a|];
      }
    }
  }

  // ----- C strings, case folding, trimming, splitting -----

  /** What a C string function sees of a buffer: everything before the first NUL. */
  function CStr(s: string): (r: string)
    ensures r <= s && '\0' !in r
    ensures r == s || s[|r|] == '\0'
    ensures '\0' !in s ==> r == s
  {
    var i := IndexOf(s, '\0', 0);
    if i < 0 then s else s[..i]
  }

  function LowerChar(c: char): char {
    if 'A' <= c <= 'Z' then (c as int + 32) as char else c
  }

  function Lower(s: string): (r: string)
    ensures |r| == |s|
    ensures forall i :: 0 <= i < |s| ==> r[i] == LowerChar(s[i])
  {
    seq(|s|, i requires 0 <= i < |s| => LowerChar(s[i]))
  }

  predicate IsSpace(c: char) {
    c == ' ' || c == '\t' || c == '\n' || c == '\r' || c == 11 as char || c == 12 as char
  }

  function TrimLeft(s: string): string {
    if s != "" && IsSpace(s[0]) then TrimLeft(s[1..]) else s
  }

  function TrimRight(s: string): string {
    if s != "" && IsSpace(s[|s| - 1]) then TrimRight(s[..|s| - 1]) else s
  }

  function Trim(s: string): string {
    TrimRight(TrimLeft(s))
  }

  lemma {:induction false} TrimClean(s: string)
    requires s != "" && !IsSpace(s[0]) && !IsSpace(s[|s| - 1])
    ensures Trim(s) == s && Trim([' '] + s) == s
  {
    assert ([' '] + s)[1..] == s;
  }

  lemma {:induction false} SpaceMeaning(c: char)
    ensures IsSpace(c) <==> c in BLANKS
  {
    assert BLANKS[0] == ' ' && BLANKS[1] == '\t' && BLANKS[2] == '\n' && BLANKS[3] == '\r';
    assert BLANKS[4] == 11 as char && BLANKS[5] == 12 as char;
  }

  predicate AllBlank(s: string) {
    forall i :: 0 <= i < |s| ==> s[i] in BLANKS
  }

  /** Only blanks are trimmed, at both ends, and no blank is left there. */
  lemma {:induction false} TrimMeaning(s: string) returns (l: string, r: string)
    ensures s == l + Trim(s) + r && AllBlank(l) && AllBlank(r)
    ensures var t := Trim(s); t != "" ==> t[0] !in BLANKS && t[|t| - 1] !in BLANKS
  {
    l := TrimLeftMeaning(s);
    r := TrimRightMeaning(TrimLeft(s));
    var t := Trim(s);
    Assoc(l, t, r);
    if t != "" {
      assert TrimLeft(s)[0] == t[0];
    }
  }

  lemma {:induction false} TrimLeftMeaning(s: string) returns (l: string)
    ensures s == l + TrimLeft(s) && AllBlank(l)
    ensures TrimLeft(s) != "" ==> TrimLeft(s)[0] !in BLANKS
  {
    l := "";
    if s != "" {
      SpaceMeaning(s[0]);
      if IsSpace(s[0]) {
        l := TrimLeftMeaning(s[1..]);
        assert s == [s[0]] + s[1..];
        Assoc([s[0]], l, TrimLeft(s));
        l := [s[0]] + l;
      }
    }
  }

  lemma {:induction false} TrimRightMeaning(s: string) returns (r: string)
    ensures s == TrimRight(s) + r && AllBlank(r)
    ensures TrimRight(s) != "" ==> TrimRight(s)[|TrimRight(s)| - 1] !in BLANKS
  {
    if s == "" {
      return "";
    }
    var front, last := s[..|s| - 1], s[|s| - 1];
    SpaceMeaning(last);
    if !IsSpace(last) {
      return "";
    }
    r := TrimRightMeaning(front);
    assert s == front + [last];
    Assoc(TrimRight(front), r, [last]);
    BlankMore(r, last);
    r := r + [last];
  }

  lemma {:induction false} BlankMore(r: string, c: char)
    requires AllBlank(r) && c in BLANKS
    ensures AllBlank(r + [c])
  {
  }

  /** `boost::split` on one separator, empty pieces kept. */
  function Split(s: string, c: char): (r: seq<string>)
    ensures |r| >= 1
    decreases |s|
  {
    var i := IndexOf(s, c, 0);
    if i < 0 then [s] else [s[..i]] + Split(s[i + 1..], c)
  }

  lemma {:induction false} SplitCons(a: string, c: char, b: string)
    requires c !in a
    ensures Split(a + [c] + b, c) == [a] + Split(b, c)
  {
    var s := a + [c] + b;
    assert s[|a|] == c;
    assert forall k :: 0 <= k < |a| ==> s[k] == a[k];
    IndexOfIs(s, c, 0, |a|);
    assert s[..|a|] == a && s[|a| + 1..] == b;
  }

  lemma {:induction false} SplitNone(a: string, c: char)
    requires c !in a
    ensures Split(a, c) == [a]
  {
  }

  /** `find` of one string in another, as a yes/no question. */
  predicate Contains(s: string, sub: string) {
    sub <= s || (s != "" && Contains(s[1..], sub))
  }

  /** Around what is found there is the rest of the text; */
  lemma {:induction false} Found(s: string, sub: string) returns (a: string, b: string)
    requires Contains(s, sub)
    ensures s == a + sub + b
  {
    if sub <= s {
      a, b := "", s[|sub|..];
      assert s == sub + b;
      assert "" + sub == sub;
    } else {
      a, b := Found(s[1..], sub);
      assert s == [s[0]] + s[1..];
      Regroup([s[0]], a, sub, b);
      a := [s[0]] + a;
    }
  }

  /** and what stands in a text is found there. */
  lemma {:induction false} Finds(a: string, sub: string, b: string)
    ensures Contains(a + sub + b, sub)
    decreases |a|
  {
    if a == "" {
      assert "" + sub + b == sub + b;
    } else {
      Finds(a[1..], sub, b);
      assert a == [a[0]] + a[1..];
      Regroup([a[0]], a[1..], sub, b);
      TailOfCons(a[0], a[1..] + sub + b);
    }
  }

  /** The one associativity step that the solver does not take by itself. */
  lemma {:induction false} Assoc<T>(a: seq<T>, b: seq<T>, c: seq<T>)
    ensures a + b + c == a + (b + c)
  {
  }

  lemma {:induction false} TailOfCons<T>(x: T, xs: seq<T>)
    ensures ([x] + xs)[0] == x && ([x] + xs)[1..] == xs
  {
  }

  lemma {:induction false} SliceOf(a: string, b: string, c: string)
    ensures (a + b + c)[|a|..|a| + |b|] == b
  {
  }

  lemma {:induction false} Regroup(a: string, b: string, c: string, d: string)
    ensures a + (b + c + d) == a + b + c + d
  {
  }

  function Concat(chunks: seq<string>): string {
    if chunks == [] then "" else chunks[0] + Concat(chunks[1..])
  }
}
