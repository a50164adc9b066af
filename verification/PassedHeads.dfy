/** A request head behind lines that are passed over, arriving over several calls: each such line
    leaves two more bytes behind. */
module PassedHeads {
  import opened Text
  import opened HeaderMaps
  import opened HeadLines
  import opened HeadCalls

  // ----- calls that do not end inside -----

  /** The first line of the text. */
  function FirstOf(js: seq<string>, r: string): string {
    if js == [] then r else js[0]
  }

  function Sent(js: seq<string>, r: string, ls: seq<string>, rest: string): string {
    Lines(js) + (HeadText(r, ls) + rest)
  }

  lemma {:induction false} StartsWithFirst(js: seq<string>, r: string, ls: seq<string>, rest: string)
    returns (more: string)
    ensures Sent(js, r, ls, rest) == FirstOf(js, r) + CRLF + more
  {
    if js == [] {
      HeadTextTail(r, ls, rest);
      more := Lines(ls) + (CRLF + rest);
      assert "" + (HeadText(r, ls) + rest) == HeadText(r, ls) + rest;
    } else {
      more := Lines(js[1..]) + (HeadText(r, ls) + rest);
      Assoc(js[0] + CRLF, Lines(js[1..]), HeadText(r, ls) + rest);
    }
  }

  /** A call that completes no line counts nothing. */
  lemma {:induction false} NothingYet(g: Grammar, l: string, more: string, p: nat, pieces: seq<string>)
    requires CrlfFree(l) && pieces != [] && p + |pieces[0]| < |l| + 2
    requires l + CRLF + more == (l + CRLF + more)[..p] + Concat(pieces)
    ensures var d := l + CRLF + more;
      var q := p + |pieces[0]|;
      && q <= |d| && d == d[..q] + Concat(pieces[1..])
      && Arrive(g, ReqLine, d[..p], pieces) == Arrive(g, ReqLine, d[..q], pieces[1..])
  {
    var d := l + CRLF + more;
    var q := p + |pieces[0]|;
    TakeMore(d, p, pieces[0], Concat(pieces[1..]));
    CutInLine(l, more, q);
    NoMoreLines(g, ReqLine, d[..q], 0);
    assert d[..q][0..] == d[..q];
    ArriveGoes(g, ReqLine, d[..p], pieces, ReqLine, 0);
  }

  /** A call that completes the head. */
  lemma {:induction false} AllAtOnce(g: Grammar, js: seq<string>, r: string, ls: seq<string>, rest: string, p: nat, pieces: seq<string>)
    requires ArePassedOver(g, js) && IsReqLine(g, r) && AreFields(g, ls) && pieces != []
    requires p <= |Sent(js, r, ls, rest)| && Sent(js, r, ls, rest) == Sent(js, r, ls, rest)[..p] + Concat(pieces)
    requires |Lines(js)| + |HeadText(r, ls)| <= p + |pieces[0]|
    ensures var out := Arrive(g, ReqLine, Sent(js, r, ls, rest)[..p], pieces);
      out.Blank? && out.req == g.req(r).value && out.hdrs == AddAll(g, map[], ls) && out.rest == rest
  {
    var d, later, q := Sent(js, r, ls, rest), Concat(pieces[1..]), p + |pieces[0]|;
    TakeMore(d, p, pieces[0], later);
    var a, h := Lines(js), HeadText(r, ls);
    var k := q - |a| - |h|;
    PrefixOfText(a, h, rest, k);
    WholeHead(g, js, r, ls, rest[..k]);
    RestOfText(a, h, rest, k, later);
    ArriveEnds(g, ReqLine, d[..p], pieces);
  }

  lemma {:induction false} RestOfText(a: string, b: string, c: string, k: nat, y: string)
    requires k <= |c| && a + (b + c) == (a + (b + c))[..|a| + |b| + k] + y
    ensures c == c[..k] + y
  {
    var d := a + (b + c);
    assert d[|a| + |b| + k..] == y;
    assert d[|a| + |b| + k..] == c[k..];
  }

  lemma {:induction false} PrefixOfText(a: string, b: string, c: string, k: nat)
    requires k <= |c|
    ensures (a + (b + c))[..|a| + |b| + k] == a + (b + c[..k])
  {
  }

  /** Whatever lines are passed over: if the call that completes the first line also completes the
      head, the head is read as in one call. */
  lemma {:induction false} UnbrokenFrom(g: Grammar, js: seq<string>, r: string, ls: seq<string>, rest: string, p: nat, pieces: seq<string>)
    requires ArePassedOver(g, js) && IsReqLine(g, r) && AreFields(g, ls)
    requires p < |FirstOf(js, r)| + 2 && p <= |Sent(js, r, ls, rest)|
    requires Sent(js, r, ls, rest) == Sent(js, r, ls, rest)[..p] + Concat(pieces)
    requires NoCallEndsIn(pieces, p, |FirstOf(js, r)| + 2, |Lines(js)| + |HeadText(r, ls)|)
    ensures var out := Arrive(g, ReqLine, Sent(js, r, ls, rest)[..p], pieces);
      out.Blank? && out.req == g.req(r).value && out.hdrs == AddAll(g, map[], ls) && out.rest == rest
    decreases |pieces|
  {
    var f, d := FirstOf(js, r), Sent(js, r, ls, rest);
    var more := StartsWithFirst(js, r, ls, rest);
    assert pieces != [] by {
      assert |d| >= |f| + 2;
    }
    var q := p + |pieces[0]|;
    if q < |f| + 2 {
      NothingYet(g, f, more, p, pieces);
      UnbrokenFrom(g, js, r, ls, rest, q, pieces[1..]);
    } else {
      AllAtOnce(g, js, r, ls, rest, p, pieces);
    }
  }

  lemma {:induction false} UnbrokenArrives(g: Grammar, js: seq<string>, r: string, ls: seq<string>, rest: string, pieces: seq<string>)
    requires ArePassedOver(g, js) && IsReqLine(g, r) && AreFields(g, ls)
    requires Concat(pieces) == Sent(js, r, ls, rest)
    requires NoCallEndsIn(pieces, 0, |FirstOf(js, r)| + 2, |Lines(js)| + |HeadText(r, ls)|)
    ensures SameHead(Arrive(g, ReqLine, "", pieces), ReadHead(g, ReqLine, Sent(js, r, ls, rest), 0))
  {
    var d := Sent(js, r, ls, rest);
    assert d[..0] == "" && "" + d == d;
    UnbrokenFrom(g, js, r, ls, rest, 0, pieces);
    WholeHead(g, js, r, ls, rest);
  }

  // ----- header lines without a debt -----

  lemma {:induction false} AddAllSplit(g: Grammar, h: HeaderMap, ls: seq<string>, k: nat)
    requires AreFields(g, ls) && k <= |ls|
    ensures AddAll(g, h, ls) == AddAll(g, AddAll(g, h, ls[..k]), ls[k..])
    decreases k
  {
    if k == 0 {
      assert ls[..0] == [] && ls[0..] == ls;
    } else {
      AddAllSplit(g, Add(h, g.field(ls[0]).value), ls[1..], k - 1);
      assert ls[..k][1..] == ls[1..][..k - 1] && ls[1..][k - 1..] == ls[k..];
    }
  }

  /** One call among the header lines, with nothing owed: it ends the head or leaves a piece without
      CRLF. */
  lemma {:induction false} FieldCall(g: Grammar, req: Request, h: HeaderMap, ls: seq<string>, rest: string, q: nat)
    returns (k: nat)
    requires AreFields(g, ls) && q <= |Lines(ls) + (CRLF + rest)|
    ensures k <= |ls| && |Lines(ls[..k])| <= q
    ensures var d := Lines(ls) + (CRLF + rest);
      ReadHead(g, InHeaders(req, h), d[..q], 0) ==
      if q < |Lines(ls)| + 2 then More(InHeaders(req, AddAll(g, h, ls[..k])), |Lines(ls[..k])|)
      else Blank(req, AddAll(g, h, ls), |Lines(ls)|, rest[..q - |Lines(ls)| - 2])
  {
    var d := Lines(ls) + (CRLF + rest);
    if q < |Lines(ls)| + 2 {
      var left;
      k, left := FindCut(ls, rest, q);
      FieldLines(g, req, h, ls[..k], left, 0);
      NoMoreLines(g, InHeaders(req, AddAll(g, h, ls[..k])), left, |Lines(ls[..k])|);
    } else {
      k := 0;
      assert ls[..0] == [];
      LastFieldCall(g, req, h, ls, rest, q - |Lines(ls)| - 2);
    }
  }

  lemma {:induction false} LastFieldCall(g: Grammar, req: Request, h: HeaderMap, ls: seq<string>, rest: string, k: nat)
    requires AreFields(g, ls) && k <= |rest|
    ensures ReadHead(g, InHeaders(req, h), (Lines(ls) + (CRLF + rest))[..|Lines(ls)| + 2 + k], 0)
      == Blank(req, AddAll(g, h, ls), |Lines(ls)|, rest[..k])
  {
    PrefixOfText(Lines(ls), CRLF, rest, k);
    FieldLines(g, req, h, ls, CRLF + rest[..k], 0);
    AtBlank(g, req, AddAll(g, h, ls), rest[..k], |Lines(ls)|);
  }

  /** Among the header lines, with nothing owed, cuts never show. */
  lemma {:induction false} FieldsArrive(g: Grammar, req: Request, h: HeaderMap, ls: seq<string>, rest: string, p: nat, pieces: seq<string>)
    requires AreFields(g, ls) && p <= |Lines(ls) + (CRLF + rest)| && pieces != []
    requires Lines(ls) + (CRLF + rest) == (Lines(ls) + (CRLF + rest))[..p] + Concat(pieces)
    ensures var out := Arrive(g, InHeaders(req, h), (Lines(ls) + (CRLF + rest))[..p], pieces);
      out.Blank? && out.hdrs == AddAll(g, h, ls)
    decreases |pieces|
  {
    var d, later := Lines(ls) + (CRLF + rest), pieces[1..];
    var q := p + |pieces[0]|;
    TakeMore(d, p, pieces[0], Concat(later));
    var k := FieldCall(g, req, h, ls, rest, q);
    if q < |Lines(ls)| + 2 {
      var n, h' := |Lines(ls[..k])|, AddAll(g, h, ls[..k]);
      DropLines(ls, k, rest, q, Concat(later));
      assert later != [];
      ArriveGoes(g, InHeaders(req, h), d[..p], pieces, InHeaders(req, h'), n);
      FieldsArrive(g, req, h', ls[k..], rest, q - n, later);
      AddAllSplit(g, h, ls, k);
    } else {
      ArriveEnds(g, InHeaders(req, h), d[..p], pieces);
    }
  }

  /** What is left once the first `k` lines are dropped. */
  lemma {:induction false} DropLines(ls: seq<string>, k: nat, rest: string, q: nat, y: string)
    requires k <= |ls| && |Lines(ls[..k])| <= q <= |Lines(ls) + (CRLF + rest)|
    requires Lines(ls) + (CRLF + rest) == (Lines(ls) + (CRLF + rest))[..q] + y
    ensures var d, e, n := Lines(ls) + (CRLF + rest), Lines(ls[k..]) + (CRLF + rest), |Lines(ls[..k])|;
      q - n <= |e| && d[..q][n..] == e[..q - n] && e == e[..q - n] + y
  {
    var a, e := Lines(ls[..k]), Lines(ls[k..]) + (CRLF + rest);
    var d := Lines(ls) + (CRLF + rest);
    LinesSplit(ls, k);
    Assoc(a, Lines(ls[k..]), CRLF + rest);
    DropPrefix(a, e, q, y);
  }

  lemma {:induction false} DropPrefix(a: string, e: string, q: nat, y: string)
    requires |a| <= q <= |a + e| && a + e == (a + e)[..q] + y
    ensures (a + e)[..q][|a|..] == e[..q - |a|] && e == e[..q - |a|] + y
  {
    assert (a + e)[..q] == a + e[..q - |a|];
    assert (a + e)[|a|..] == e;
    Assoc(a, e[..q - |a|], y);
    assert (a + (e[..q - |a|] + y))[|a|..] == e[..q - |a|] + y;
  }

  // ----- one line passed over -----

  /** The two characters before the end of the last line. */
  lemma {:induction false} LastTwo(j: string, l: string, ks: seq<string>) returns (w: string)
    requires CrlfFree(l) && l != "" && forall i :: 0 <= i < |ks| ==> CrlfFree(ks[i]) && ks[i] != ""
    ensures |w| == 2 && CrlfFree(w)
    ensures var b := j + CRLF + l + CRLF + Lines(ks); b[|b| - 4..] == w + CRLF
    decreases |ks|
  {
    var b, x := j + CRLF + l + CRLF + Lines(ks), j + CRLF + l;
    if ks == [] {
      w := x[|x| - 2..];
      assert b == x + CRLF;
      assert x[|x| - 1] == l[|l| - 1] && x[|x| - 2] == if |l| > 1 then l[|l| - 2] else '\n';
    } else {
      w := LastTwo(x, ks[0], ks[1..]);
      Assoc(x + CRLF, ks[0] + CRLF, Lines(ks[1..]));
      Assoc(x + CRLF, ks[0], CRLF);
    }
  }

  /** A call that ends among the header lines leaves four bytes, two of them of the last line. */
  lemma {:induction false} PassedStop(g: Grammar, j: string, r: string, ls: seq<string>, rest: string, q: nat)
    returns (k: nat, n: nat, w: string)
    requires ArePassedOver(g, [j]) && IsReqLine(g, r) && AreFields(g, ls)
    requires |j| + |r| + 4 <= q < |j| + 2 + |HeadText(r, ls)|
    ensures k <= |ls| && n + 4 <= q && |w| == 2 && CrlfFree(w)
    ensures q <= |Sent([j], r, ls, rest)|
    ensures Sent([j], r, ls, rest)[n..] == w + CRLF + (Lines(ls[k..]) + (CRLF + rest))
    ensures ReadHead(g, ReqLine, Sent([j], r, ls, rest)[..q], 0)
      == More(InHeaders(g.req(r).value, AddAll(g, map[], ls[..k])), n)
  {
    var h, d := HeadText(r, ls) + rest, Sent([j], r, ls, rest);
    OnePassed(j, h);
    HeadTextTail(r, ls, rest);
    var left;
    k, left := FindCut(ls, rest, q - |j| - |r| - 4);
    CutAfterLine(j, h, q);
    CutAfterLine(r, Lines(ls) + (CRLF + rest), q - |j| - 2);
    var ks := ls[..k];
    n := |j| + |r| + |Lines(ks)|;
    PassedPartly(g, j, r, ks, left);
    w := LastTwo(j, r, ks);
    DropToLastTwo(j, r, ls, k, rest, w);
    assert |d[..q]| == |j| + 2 + (|r| + 2 + (|Lines(ks)| + |left|));
  }

  lemma {:induction false} OnePassed(j: string, h: string)
    ensures Lines([j]) + h == j + CRLF + h
  {
    var one := [j];
    assert one[1..] == [] && Lines(one) == j + CRLF + "";
  }

  lemma {:induction false} PassedPartly(g: Grammar, j: string, r: string, ks: seq<string>, left: string)
    requires ArePassedOver(g, [j]) && IsReqLine(g, r) && AreFields(g, ks) && CrlfFree(left)
    ensures ReadHead(g, ReqLine, j + CRLF + (r + CRLF + (Lines(ks) + left)), 0)
      == More(InHeaders(g.req(r).value, AddAll(g, map[], ks)), |j| + |r| + |Lines(ks)|)
  {
    var more := r + CRLF + (Lines(ks) + left);
    PassedLines(g, [j], more, 0);
    OnePassed(j, more);
    assert |Lines([j])| == |j| + 2;
    ReqAndFields(g, r, ks, left, |j|);
    NoMoreLines(g, InHeaders(g.req(r).value, AddAll(g, map[], ks)), left, |j| + |r| + |Lines(ks)|);
  }

  lemma {:induction false} DropToLastTwo(j: string, r: string, ls: seq<string>, k: nat, rest: string, w: string)
    requires k <= |ls| && |w| == 2
    requires var b := j + CRLF + r + CRLF + Lines(ls[..k]); b[|b| - 4..] == w + CRLF
    ensures var n := |j| + |r| + |Lines(ls[..k])|;
      n <= |Sent([j], r, ls, rest)|
      && Sent([j], r, ls, rest)[n..] == w + CRLF + (Lines(ls[k..]) + (CRLF + rest))
  {
    var b, e := j + CRLF + r + CRLF + Lines(ls[..k]), Lines(ls[k..]) + (CRLF + rest);
    OnePassed(j, HeadText(r, ls) + rest);
    HeadTextTail(r, ls, rest);
    LinesSplit(ls, k);
    Assoc(Lines(ls[..k]), Lines(ls[k..]), CRLF + rest);
    GroupText(j + CRLF, r, Lines(ls[..k]), e);
    DropShort(b, e, |b| - 4);
  }

  lemma {:induction false} GroupText(a: string, r: string, x: string, e: string)
    ensures a + (r + CRLF + (x + e)) == a + r + CRLF + x + e
  {
    Assoc(r + CRLF, x, e);
    Assoc(a, r + CRLF + x, e);
    Assoc(a, r + CRLF, x);
    Assoc(a, r, CRLF);
  }

  /** One field more makes another map. */
  lemma {:induction false} ExtraFieldShows(g: Grammar, h: HeaderMap, w: string, ls: seq<string>)
    requires AreFields(g, ls) && AreFields(g, [w] + ls)
    ensures AddAll(g, h, [w] + ls) != AddAll(g, h, ls)
  {
    var all := [w] + ls;
    TailOfCons(w, ls);
    assert g.field(all[0]).Some?;
    var f, fs := g.field(w).value, FieldsIn(g, ls);
    var key := Lower(f.name);
    AddAllCollects(g, h, all);
    AddAllCollects(g, h, ls);
    CollectMeaning(h, [f] + fs, key);
    CollectMeaning(h, fs, key);
    assert ([f] + fs)[1..] == fs;
    assert |ValuesOf([f] + fs, key)| == 1 + |ValuesOf(fs, key)|;
  }

  lemma {:induction false} NoFieldFails(g: Grammar, req: Request, h: HeaderMap, w: string, e: string, p: nat, pieces: seq<string>)
    requires w != "" && CrlfFree(w) && g.field(w).None? && pieces != []
    requires |w| + 2 <= p <= |w + CRLF + e| && w + CRLF + e == (w + CRLF + e)[..p] + Concat(pieces)
    ensures Arrive(g, InHeaders(req, h), (w + CRLF + e)[..p], pieces) == Failed
  {
    var d, q := w + CRLF + e, p + |pieces[0]|;
    TakeMore(d, p, pieces[0], Concat(pieces[1..]));
    CutAfterLine(w, e, q);
    CutLineOf(w, e[..q - |w| - 2]);
    assert ReadHead(g, InHeaders(req, h), d[..q], 0) == Failed;
  }

  /** A call that ends among the header lines: afterwards the head fails or holds a field more. */
  lemma {:induction false} HeaderDebt(g: Grammar, j: string, r: string, ls: seq<string>, rest: string, p: nat, pieces: seq<string>)
    requires ArePassedOver(g, [j]) && IsReqLine(g, r) && AreFields(g, ls) && pieces != []
    requires p <= |Sent([j], r, ls, rest)| && Sent([j], r, ls, rest) == Sent([j], r, ls, rest)[..p] + Concat(pieces)
    requires |j| + |r| + 4 <= p + |pieces[0]| < |j| + 2 + |HeadText(r, ls)|
    ensures var out := Arrive(g, ReqLine, Sent([j], r, ls, rest)[..p], pieces);
      out.Blank? ==> out.hdrs != AddAll(g, map[], ls)
  {
    var d, later, q := Sent([j], r, ls, rest), pieces[1..], p + |pieces[0]|;
    TakeMore(d, p, pieces[0], Concat(later));
    var k, n, w := PassedStop(g, j, r, ls, rest, q);
    assert d[..q][n..] == d[n..q];
    ArriveGoes(g, ReqLine, d[..p], pieces, InHeaders(g.req(r).value, AddAll(g, map[], ls[..k])), n);
    if later != [] {
      AddAllSplit(g, map[], ls, k);
      AfterDebt(g, g.req(r).value, AddAll(g, map[], ls[..k]), w, ls[k..], rest, d, n, q, later);
    }
  }

  lemma {:induction false} AfterDebt(
    g: Grammar, req: Request, h: HeaderMap, w: string, ls: seq<string>, rest: string, d: string, n: nat, q: nat, pieces: seq<string>)
    requires AreFields(g, ls) && |w| == 2 && CrlfFree(w) && pieces != []
    requires n + 4 <= q <= |d| && d[n..] == w + CRLF + (Lines(ls) + (CRLF + rest)) && d == d[..q] + Concat(pieces)
    ensures var out := Arrive(g, InHeaders(req, h), d[n..q], pieces);
      out.Blank? ==> out.hdrs != AddAll(g, h, ls)
  {
    RestAfter(d, n, q, w + CRLF + (Lines(ls) + (CRLF + rest)), Concat(pieces));
    if g.field(w).None? {
      NoFieldFails(g, req, h, w, Lines(ls) + (CRLF + rest), q - n, pieces);
    } else {
      OneFieldMore(g, w, ls, rest);
      FieldsArrive(g, req, h, [w] + ls, rest, q - n, pieces);
      ExtraFieldShows(g, h, w, ls);
    }
  }

  lemma {:induction false} RestAfter(d: string, n: nat, q: nat, e: string, y: string)
    requires n <= q <= |d| && d[n..] == e && d == d[..q] + y
    ensures q - n <= |e| && d[n..q] == e[..q - n] && e == e[..q - n] + y
  {
    assert d[n..q] == d[n..][..q - n];
    assert d[q..] == y && d[n..][q - n..] == d[q..];
  }

  lemma {:induction false} OneFieldMore(g: Grammar, w: string, ls: seq<string>, rest: string)
    requires AreFields(g, ls) && CrlfFree(w) && w != "" && g.field(w).Some?
    ensures AreFields(g, [w] + ls)
    ensures Lines([w] + ls) + (CRLF + rest) == w + CRLF + (Lines(ls) + (CRLF + rest))
  {
    TailOfCons(w, ls);
    Assoc(w + CRLF, Lines(ls), CRLF + rest);
  }

  /** A call that ends after the passed line and before the request line is complete: the next one
      sees an empty request line. */
  lemma {:induction false} LineDebt(g: Grammar, j: string, r: string, ls: seq<string>, rest: string, p: nat, pieces: seq<string>)
    requires ArePassedOver(g, [j]) && IsReqLine(g, r) && pieces != []
    requires p <= |Sent([j], r, ls, rest)| && Sent([j], r, ls, rest) == Sent([j], r, ls, rest)[..p] + Concat(pieces)
    requires |j| + 2 <= p + |pieces[0]| < |j| + |r| + 4
    ensures !Arrive(g, ReqLine, Sent([j], r, ls, rest)[..p], pieces).Blank?
  {
    var d, later, q := Sent([j], r, ls, rest), pieces[1..], p + |pieces[0]|;
    TakeMore(d, p, pieces[0], Concat(later));
    StopsBetween(g, j, r, ls, rest, q);
    ArriveGoes(g, ReqLine, d[..p], pieces, ReqLine, |j|);
    if later != [] {
      EmptyLineFails(g, d, |j|, q, HeadText(r, ls) + rest, later);
    }
  }

  lemma {:induction false} StopsBetween(g: Grammar, j: string, r: string, ls: seq<string>, rest: string, q: nat)
    requires ArePassedOver(g, [j]) && IsReqLine(g, r) && |j| + 2 <= q < |j| + |r| + 4
    ensures var d := Sent([j], r, ls, rest);
      && q <= |d| && d[|j|..] == CRLF + (HeadText(r, ls) + rest)
      && ReadHead(g, ReqLine, d[..q], 0) == More(ReqLine, |j|)
  {
    var h := HeadText(r, ls) + rest;
    var left := h[..q - |j| - 2];
    OnePassed(j, h);
    HeadTextTail(r, ls, rest);
    CutAfterLine(j, h, q);
    CutInLine(r, Lines(ls) + (CRLF + rest), |left|);
    PassedAlone(g, j, left);
    Assoc(j, CRLF, h);
    DropShort(j, CRLF + h, |j|);
    assert j[|j|..] + (CRLF + h) == CRLF + h;
  }

  lemma {:induction false} PassedAlone(g: Grammar, j: string, left: string)
    requires ArePassedOver(g, [j]) && CrlfFree(left)
    ensures ReadHead(g, ReqLine, j + CRLF + left, 0) == More(ReqLine, |j|)
  {
    PassedLines(g, [j], left, 0);
    OnePassed(j, left);
    assert |Lines([j])| == |j| + 2;
    NoMoreLines(g, ReqLine, left, |j|);
  }

  lemma {:induction false} EmptyLineFails(g: Grammar, d: string, n: nat, q: nat, h: string, pieces: seq<string>)
    requires n + 2 <= q <= |d| && d[n..] == CRLF + h && pieces != [] && d == d[..q] + Concat(pieces)
    ensures Arrive(g, ReqLine, d[..q][n..], pieces) == Failed
  {
    var x, y := pieces[0], Concat(pieces[1..]);
    TakeMore(d, q, x, y);
    var e := q + |x|;
    assert d[..q][n..] == d[n..q];
    HeldGrows(d, n, q, e, x);
    SplitRest(d, n, e, h, y);
    CutLineOf("", h[..e - n - 2]);
    assert "" + CRLF + h[..e - n - 2] == CRLF + h[..e - n - 2];
  }

  lemma {:induction false} BrokenFrom(g: Grammar, j: string, r: string, ls: seq<string>, rest: string, p: nat, pieces: seq<string>)
    requires ArePassedOver(g, [j]) && IsReqLine(g, r) && AreFields(g, ls) && p < |j| + 2
    requires p <= |Sent([j], r, ls, rest)| && Sent([j], r, ls, rest) == Sent([j], r, ls, rest)[..p] + Concat(pieces)
    requires !NoCallEndsIn(pieces, p, |j| + 2, |j| + 2 + |HeadText(r, ls)|)
    ensures var out := Arrive(g, ReqLine, Sent([j], r, ls, rest)[..p], pieces);
      out.Blank? ==> out.hdrs != AddAll(g, map[], ls)
    decreases |pieces|
  {
    var q := p + |pieces[0]|;
    var h := HeadText(r, ls) + rest;
    OnePassed(j, h);
    if q < |j| + 2 {
      NothingYet(g, j, h, p, pieces);
      BrokenFrom(g, j, r, ls, rest, q, pieces[1..]);
    } else if q < |j| + |r| + 4 {
      LineDebt(g, j, r, ls, rest, p, pieces);
    } else if q < |j| + 2 + |HeadText(r, ls)| {
      HeaderDebt(g, j, r, ls, rest, p, pieces);
    } else {
      EndsAreLate(pieces[1..], q, |j| + 2, |j| + 2 + |HeadText(r, ls)|);
    }
  }

  /** Behind one line that is passed over, a head is read as in one call if and only if the call that
      completes that line also completes the head. */
  lemma {:induction false} PassedShowsIff(g: Grammar, j: string, r: string, ls: seq<string>, rest: string, pieces: seq<string>)
    requires ArePassedOver(g, [j]) && IsReqLine(g, r) && AreFields(g, ls)
    requires Concat(pieces) == Sent([j], r, ls, rest)
    ensures SameHead(Arrive(g, ReqLine, "", pieces), ReadHead(g, ReqLine, Sent([j], r, ls, rest), 0))
      <==> NoCallEndsIn(pieces, 0, |j| + 2, |j| + 2 + |HeadText(r, ls)|)
  {
    var d := Sent([j], r, ls, rest);
    OnePassed(j, "");
    assert |Lines([j])| == |j| + 2;
    if NoCallEndsIn(pieces, 0, |j| + 2, |j| + 2 + |HeadText(r, ls)|) {
      UnbrokenArrives(g, [j], r, ls, rest, pieces);
    } else {
      assert d[..0] == "" && "" + d == d;
      WholeHead(g, [j], r, ls, rest);
      BrokenFrom(g, j, r, ls, rest, 0, pieces);
    }
  }

  /** With two lines passed over that is no longer so: a call may end behind both of them, when the
      two characters of the second that are read again are passed over as well. */
  lemma {:induction false} TwoPassedHide(g: Grammar, j: string, l: string, r: string, ls: seq<string>, rest: string)
    requires ArePassedOver(g, [j, l]) && |l| >= 2 && g.req(l[|l| - 2..]).None? && IsReqLine(g, r) && AreFields(g, ls)
    ensures var pieces := [j + CRLF + (l + CRLF), HeadText(r, ls) + rest];
      && Concat(pieces) == Sent([j, l], r, ls, rest)
      && !NoCallEndsIn(pieces, 0, |j| + 2, |Lines([j, l])| + |HeadText(r, ls)|)
      && SameHead(Arrive(g, ReqLine, "", pieces), ReadHead(g, ReqLine, Sent([j, l], r, ls, rest), 0))
  {
    var a, h, w := j + CRLF + (l + CRLF), HeadText(r, ls) + rest, l[|l| - 2..];
    TwoLines(j, l);
    FirstOfTwo(g, j, l);
    SecondOfTwo(g, w, r, ls, rest);
    ArriveTwo(g, a, h, |j| + |l|);
    WholeHead(g, [j, l], r, ls, rest);
  }

  /** Two calls, the first of which completes no head. */
  lemma {:induction false} ArriveTwo(g: Grammar, a: string, h: string, n: nat)
    requires n <= |a| && ReadHead(g, ReqLine, a, 0) == More(ReqLine, n)
    requires ReadHead(g, ReqLine, a[n..] + h, 0).Blank?
    ensures Concat([a, h]) == a + h
    ensures Arrive(g, ReqLine, "", [a, h]) == ReadHead(g, ReqLine, a[n..] + h, 0)
  {
    var pieces, one := [a, h], [h];
    assert pieces[1..] == one && one[1..] == [] && "" + a == a;
    assert Concat(one) == h + "" == h;
    var out := ReadHead(g, ReqLine, a[n..] + h, 0);
    assert out.rest + "" == out.rest;
    assert Arrive(g, ReqLine, "", pieces) == Arrive(g, ReqLine, a[n..], one);
  }

  lemma {:induction false} FirstOfTwo(g: Grammar, j: string, l: string)
    requires ArePassedOver(g, [j, l]) && |l| >= 2
    ensures var a := j + CRLF + (l + CRLF);
      ReadHead(g, ReqLine, a, 0) == More(ReqLine, |j| + |l|) && a[|j| + |l|..] == l[|l| - 2..] + CRLF
  {
    var a, b := j + CRLF + (l + CRLF), j + CRLF + l;
    TwoLines(j, l);
    PassedLines(g, [j, l], "", 0);
    assert a + "" == a;
    NoMoreLines(g, ReqLine, "", |j| + |l|);
    Assoc(j + CRLF, l, CRLF);
    DropShort(b, CRLF, |j| + |l|);
    assert b[|j| + |l|..] == l[|l| - 2..];
  }

  lemma {:induction false} SecondOfTwo(g: Grammar, w: string, r: string, ls: seq<string>, rest: string)
    requires CrlfFree(w) && w != "" && g.req(w).None? && IsReqLine(g, r) && AreFields(g, ls)
    ensures var out := ReadHead(g, ReqLine, w + CRLF + (HeadText(r, ls) + rest), 0);
      out.Blank? && out.req == g.req(r).value && out.hdrs == AddAll(g, map[], ls) && out.rest == rest
  {
    WholeHead(g, [w], r, ls, rest);
    OnePassed(w, HeadText(r, ls) + rest);
  }

  lemma {:induction false} TwoLines(j: string, l: string)
    ensures Lines([j, l]) == j + CRLF + (l + CRLF)
  {
    var js, one := [j, l], [l];
    assert js[1..] == one && one[1..] == [];
    assert Lines(one) == l + CRLF + "" == l + CRLF;
  }
}
