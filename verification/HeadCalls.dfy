/** A request head that arrives over several calls: what the bytes owed between the request line and
    the blank line do to it. */
module HeadCalls {
  import opened Text
  import opened HeaderMaps
  import opened HeadLines

  // ----- a head cut between two calls -----

  lemma {:induction false} LinesSplit(ls: seq<string>, k: nat)
    requires k <= |ls|
    ensures Lines(ls) == Lines(ls[..k]) + Lines(ls[k..])
    decreases k
  {
    if k == 0 {
      assert ls[..0] == [] && ls[0..] == ls;
      assert "" + Lines(ls) == Lines(ls);
    } else {
      var a, b := ls[1..][..k - 1], ls[1..][k - 1..];
      LinesSplit(ls[1..], k - 1);
      assert ls[..k][1..] == a && b == ls[k..];
      Assoc(ls[0] + CRLF, Lines(a), Lines(b));
    }
  }

  lemma {:induction false} CutInLine(l: string, more: string, q: nat)
    requires CrlfFree(l) && q < |l| + 2
    ensures q <= |l + CRLF + more| && CrlfFree((l + CRLF + more)[..q])
  {
    var s := l + CRLF + more;
    forall i | 0 <= i < q - 1
      ensures !(s[..q][i] == '\r' && s[..q][i + 1] == '\n')
    {
      assert s[i] == l[i];
      if i + 1 < |l| {
        assert s[i + 1] == l[i + 1];
      } else {
        assert s[i + 1] == '\r';
      }
    }
  }

  lemma {:induction false} CutAfterLine(l: string, more: string, q: nat)
    requires |l| + 2 <= q <= |l + CRLF + more|
    ensures (l + CRLF + more)[..q] == l + CRLF + more[..q - |l| - 2]
  {
  }

  /** A cut anywhere before the end of the blank line leaves whole header lines and a piece that
      holds no CRLF. */
  lemma {:induction false} FindCut(ls: seq<string>, rest: string, q: nat) returns (k: nat, left: string)
    requires forall i :: 0 <= i < |ls| ==> CrlfFree(ls[i])
    requires q < |Lines(ls)| + 2
    ensures k <= |ls| && CrlfFree(left)
    ensures (Lines(ls) + (CRLF + rest))[..q] == Lines(ls[..k]) + left
    decreases |ls|
  {
    var s := Lines(ls) + (CRLF + rest);
    if ls == [] {
      assert s == "" + CRLF + rest;
      CutInLine("", rest, q);
      k, left := 0, s[..q];
    } else {
      var l, more := ls[0], Lines(ls[1..]) + (CRLF + rest);
      Assoc(l + CRLF, Lines(ls[1..]), CRLF + rest);
      if q < |l| + 2 {
        CutInLine(l, more, q);
        k, left := 0, s[..q];
      } else {
        CutAfterLine(l, more, q);
        var j, left' := FindCut(ls[1..], rest, q - |l| - 2);
        k, left := j + 1, left';
        assert ls[..k][0] == l && ls[..k][1..] == ls[1..][..j];
        Assoc(l + CRLF, Lines(ls[1..][..j]), left);
      }
    }
    if k == 0 {
      assert ls[..0] == [];
    }
  }

  lemma {:induction false} AfterCut(r: string, ls: seq<string>, k: nat, rest: string)
    requires k <= |ls|
    ensures var n := |r| + |Lines(ls[..k])|;
      n <= |HeadText(r, ls) + rest|
      && (HeadText(r, ls) + rest)[n..] == CRLF + (Lines(ls[k..]) + (CRLF + rest))
  {
    var a, b, tail := Lines(ls[..k]), Lines(ls[k..]), CRLF + rest;
    HeadTextTail(r, ls, rest);
    LinesSplit(ls, k);
    Assoc(a, b, tail);
    Assoc(r + CRLF, a, b + tail);
    EndsInCrlf(r, ls[..k]);
    DropShort(r + CRLF + a, b + tail, |r| + |a|);
  }

  lemma {:induction false} DropShort(x: string, y: string, n: nat)
    requires n <= |x|
    ensures (x + y)[n..] == x[n..] + y
  {
  }

  lemma {:induction false} EndsInCrlf(r: string, ls: seq<string>)
    ensures (r + CRLF + Lines(ls))[|r| + |Lines(ls)|..] == CRLF
    decreases |ls|
  {
    var s := r + CRLF + Lines(ls);
    if ls == [] {
      assert s == r + CRLF;
    } else {
      var l, more := ls[0], Lines(ls[1..]);
      assert s == r + CRLF + l + CRLF + more;
      EndsInCrlf(r + CRLF + l, ls[1..]);
    }
  }

  /** What a head gives the rest of the parser: request, header map and the bytes that follow. */
  predicate SameHead(a: Head, b: Head) {
    a.Blank? && b.Blank? && a.req == b.req && a.hdrs == b.hdrs && a.rest == b.rest
  }

  /** The two calls of a head cut at `p`, the bytes that the first one counts being dropped. */
  function TwoCalls(g: Grammar, d: string, p: nat): Head
    requires p <= |d|
  {
    match ReadHead(g, ReqLine, d[..p], 0)
    case More(st, n) => if n <= |d| then ReadHead(g, st, d[n..], 0) else Failed
    case h => h
  }

  /** Cut in the header lines, the two bytes owed make the second call see a blank line at once:
      the head ends with the header lines complete at the cut, and all later lines, the blank one
      included, are handed on as body. */
  lemma {:induction false} CutEndsHead(g: Grammar, r: string, ls: seq<string>, rest: string, p: nat) returns (k: nat)
    requires IsReqLine(g, r) && AreFields(g, ls) && |r| + 2 <= p < |HeadText(r, ls)|
    ensures k <= |ls|
    ensures TwoCalls(g, HeadText(r, ls) + rest, p)
      == Blank(g.req(r).value, AddAll(g, map[], ls[..k]), 0, Lines(ls[k..]) + (CRLF + rest))
  {
    var d, s := HeadText(r, ls) + rest, Lines(ls) + (CRLF + rest);
    HeadTextTail(r, ls, rest);
    CutAfterLine(r, s, p);
    var left;
    k, left := FindCut(ls, rest, p - |r| - 2);
    FirstCall(g, r, ls[..k], left, d, p);
    AfterCut(r, ls, k, rest);
    SecondCall(g, g.req(r).value, AddAll(g, map[], ls[..k]), d, p, |r| + |Lines(ls[..k])|, Lines(ls[k..]) + (CRLF + rest));
  }

  lemma {:induction false} FirstCall(g: Grammar, r: string, ls: seq<string>, left: string, d: string, p: nat)
    requires IsReqLine(g, r) && AreFields(g, ls) && CrlfFree(left)
    requires p <= |d| && d[..p] == r + CRLF + (Lines(ls) + left)
    ensures ReadHead(g, ReqLine, d[..p], 0) == More(InHeaders(g.req(r).value, AddAll(g, map[], ls)), |r| + |Lines(ls)|)
  {
    PartialHead(g, r, ls, left);
  }

  lemma {:induction false} SecondCall(g: Grammar, req: Request, hdrs: HeaderMap, d: string, p: nat, n: nat, more: string)
    requires p <= |d| && n <= |d| && d[n..] == CRLF + more
    requires ReadHead(g, ReqLine, d[..p], 0) == More(InHeaders(req, hdrs), n)
    ensures TwoCalls(g, d, p) == Blank(req, hdrs, 0, more)
  {
    AtBlank(g, req, hdrs, more, 0);
  }

  /** A head that arrives in two pieces is read as in one exactly when the first piece does not
      complete the request line. */
  lemma {:induction false} CutShowsIff(g: Grammar, r: string, ls: seq<string>, rest: string, p: nat)
    requires IsReqLine(g, r) && AreFields(g, ls) && p < |HeadText(r, ls)|
    ensures SameHead(TwoCalls(g, HeadText(r, ls) + rest, p), ReadHead(g, ReqLine, HeadText(r, ls) + rest, 0))
      <==> p < |r| + 2
  {
    OneHead(g, r, ls, rest, 0);
    if p < |r| + 2 {
      var d := HeadText(r, ls) + rest;
      HeadTextTail(r, ls, rest);
      CutInLine(r, Lines(ls) + (CRLF + rest), p);
      NoMoreLines(g, ReqLine, d[..p], 0);
      assert d[0..] == d;
    } else {
      var k := CutEndsHead(g, r, ls, rest, p);
    }
  }

  // ----- a head over any number of calls -----

  /** The calls of a connection: each sees the bytes that were not dropped yet and the new ones, and
      what it counts is dropped. The bytes that follow the head are those of its call and all later
      ones. */
  function Arrive(g: Grammar, st: State, held: string, pieces: seq<string>): Head
    decreases |pieces|
  {
    if pieces == [] then More(st, 0)
    else
      match ReadHead(g, st, held + pieces[0], 0)
      case Failed => Failed
      case Blank(req, hdrs, n, rest) => Blank(req, hdrs, n, rest + Concat(pieces[1..]))
      case More(st', n) =>
        if n <= |held + pieces[0]| then Arrive(g, st', (held + pieces[0])[n..], pieces[1..]) else Failed
  }

  /** A call that ends the head, */
  lemma {:induction false} ArriveEnds(g: Grammar, st: State, held: string, pieces: seq<string>)
    requires pieces != [] && ReadHead(g, st, held + pieces[0], 0).Blank?
    ensures var h := ReadHead(g, st, held + pieces[0], 0);
      Arrive(g, st, held, pieces) == Blank(h.req, h.hdrs, h.count, h.rest + Concat(pieces[1..]))
  {
  }

  /** and one that does not. */
  lemma {:induction false} ArriveGoes(g: Grammar, st: State, held: string, pieces: seq<string>, st': State, n: nat)
    requires pieces != [] && ReadHead(g, st, held + pieces[0], 0) == More(st', n) && n <= |held + pieces[0]|
    ensures Arrive(g, st, held, pieces) == Arrive(g, st', (held + pieces[0])[n..], pieces[1..])
  {
  }

  /** No call ends at a position from `lo` up to `hi`, the first one starting at `at`. */
  predicate NoCallEndsIn(pieces: seq<string>, at: nat, lo: nat, hi: nat)
    decreases |pieces|
  {
    pieces == [] ||
    (!(lo <= at + |pieces[0]| < hi) && NoCallEndsIn(pieces[1..], at + |pieces[0]|, lo, hi))
  }

  lemma {:induction false} TakeMore(d: string, p: nat, x: string, y: string)
    requires p <= |d| && d == d[..p] + (x + y)
    ensures p + |x| <= |d| && d[..p] + x == d[..p + |x|] && d == d[..p + |x|] + y
  {
    Assoc(d[..p], x, y);
    var a := d[..p] + x;
    assert (a + y)[..|a|] == a;
  }

  /** A call that completes the head. */
  lemma {:induction false} CallCompletes(g: Grammar, r: string, ls: seq<string>, rest: string, q: nat)
    requires IsReqLine(g, r) && AreFields(g, ls) && |HeadText(r, ls)| <= q <= |HeadText(r, ls) + rest|
    ensures ReadHead(g, ReqLine, (HeadText(r, ls) + rest)[..q], 0)
      == Blank(g.req(r).value, AddAll(g, map[], ls), |r| + |Lines(ls)|, rest[..q - |HeadText(r, ls)|])
  {
    var h := HeadText(r, ls);
    assert (h + rest)[..q] == h + rest[..q - |h|];
    OneHead(g, r, ls, rest[..q - |h|], 0);
  }

  /** A call that completes the request line but not the head. */
  lemma {:induction false} CallStopsShort(g: Grammar, r: string, ls: seq<string>, rest: string, q: nat)
    returns (k: nat, n: nat, more: string)
    requires IsReqLine(g, r) && AreFields(g, ls) && |r| + 2 <= q < |HeadText(r, ls)|
    ensures k <= |ls| && n + 2 <= q && |more| > |rest|
    ensures (HeadText(r, ls) + rest)[n..] == CRLF + more
    ensures ReadHead(g, ReqLine, (HeadText(r, ls) + rest)[..q], 0)
      == More(InHeaders(g.req(r).value, AddAll(g, map[], ls[..k])), n)
  {
    var d, s := HeadText(r, ls) + rest, Lines(ls) + (CRLF + rest);
    HeadTextTail(r, ls, rest);
    CutAfterLine(r, s, q);
    var left;
    k, left := FindCut(ls, rest, q - |r| - 2);
    FirstCall(g, r, ls[..k], left, d, q);
    AfterCut(r, ls, k, rest);
    n, more := |r| + |Lines(ls[..k])|, Lines(ls[k..]) + (CRLF + rest);
    assert |d[..q]| == |r| + 2 + |Lines(ls[..k])| + |left|;
  }

  /** The two bytes it owes end the head at the next call. */
  lemma {:induction false} NextCallEnds(g: Grammar, req: Request, hdrs: HeaderMap, d: string, n: nat, q: nat, pieces: seq<string>, more: string)
    requires n + 2 <= q <= |d| && d[n..] == CRLF + more && pieces != [] && d == d[..q] + Concat(pieces)
    ensures var h := Arrive(g, InHeaders(req, hdrs), d[n..q], pieces);
      h.Blank? && h.rest == more
  {
    var x, y := pieces[0], Concat(pieces[1..]);
    TakeMore(d, q, x, y);
    var e := q + |x|;
    HeldGrows(d, n, q, e, x);
    SplitRest(d, n, e, more, y);
    AtBlank(g, req, hdrs, more[..e - n - 2], 0);
  }

  lemma {:induction false} HeldGrows(d: string, n: nat, q: nat, e: nat, x: string)
    requires n <= q <= e <= |d| && d[..q] + x == d[..e]
    ensures d[n..q] + x == d[n..e]
  {
    assert d[..q][n..] == d[n..q] && d[..e][n..] == d[n..e];
    DropShort(d[..q], x, n);
  }

  lemma {:induction false} SplitRest(d: string, n: nat, e: nat, more: string, y: string)
    requires n + 2 <= e <= |d| && d[n..] == CRLF + more && d == d[..e] + y
    ensures d[n..e] == CRLF + more[..e - n - 2] && more == more[..e - n - 2] + y
  {
    assert d[n..e] == d[n..][..e - n];
    assert d[e..] == y && d[n..][e - n..] == d[e..];
    assert more[e - n - 2..] == (CRLF + more)[e - n..];
  }

  /** A call that does not complete the request line counts nothing. */
  lemma {:induction false} EarlyCall(g: Grammar, r: string, ls: seq<string>, rest: string, p: nat, pieces: seq<string>)
    requires IsReqLine(g, r) && pieces != [] && p + |pieces[0]| < |r| + 2
    requires HeadText(r, ls) + rest == (HeadText(r, ls) + rest)[..p] + Concat(pieces)
    ensures var d := HeadText(r, ls) + rest;
      var q := p + |pieces[0]|;
      && d == d[..q] + Concat(pieces[1..])
      && Arrive(g, ReqLine, d[..p], pieces) == Arrive(g, ReqLine, d[..q], pieces[1..])
  {
    var d := HeadText(r, ls) + rest;
    var q := p + |pieces[0]|;
    TakeMore(d, p, pieces[0], Concat(pieces[1..]));
    HeadTextTail(r, ls, rest);
    CutInLine(r, Lines(ls) + (CRLF + rest), q);
    NoMoreLines(g, ReqLine, d[..q], 0);
    assert d[..q][0..] == d[..q];
  }

  lemma {:induction false} CompletingCall(g: Grammar, r: string, ls: seq<string>, rest: string, p: nat, pieces: seq<string>)
    requires IsReqLine(g, r) && AreFields(g, ls) && pieces != [] && p <= |HeadText(r, ls) + rest|
    requires HeadText(r, ls) + rest == (HeadText(r, ls) + rest)[..p] + Concat(pieces)
    requires |HeadText(r, ls)| <= p + |pieces[0]|
    ensures Arrive(g, ReqLine, (HeadText(r, ls) + rest)[..p], pieces)
      == Blank(g.req(r).value, AddAll(g, map[], ls), |r| + |Lines(ls)|, rest)
  {
    var h, d := HeadText(r, ls), HeadText(r, ls) + rest;
    var y, q := Concat(pieces[1..]), p + |pieces[0]|;
    TakeMore(d, p, pieces[0], y);
    CallCompletes(g, r, ls, rest, q);
    RestOfHead(h, rest, q, y);
    ArriveEnds(g, ReqLine, d[..p], pieces);
  }

  lemma {:induction false} RestOfHead(h: string, rest: string, q: nat, y: string)
    requires |h| <= q <= |h + rest| && h + rest == (h + rest)[..q] + y
    ensures rest == rest[..q - |h|] + y
  {
    assert (h + rest)[q..] == y;
    assert (h + rest)[q..] == rest[q - |h|..];
  }

  lemma {:induction false} ArriveFrom(g: Grammar, r: string, ls: seq<string>, rest: string, p: nat, pieces: seq<string>)
    requires IsReqLine(g, r) && AreFields(g, ls) && p < |r| + 2
    requires HeadText(r, ls) + rest == (HeadText(r, ls) + rest)[..p] + Concat(pieces)
    ensures SameHead(Arrive(g, ReqLine, (HeadText(r, ls) + rest)[..p], pieces),
                     Blank(g.req(r).value, AddAll(g, map[], ls), |r| + |Lines(ls)|, rest))
      <==> NoCallEndsIn(pieces, p, |r| + 2, |HeadText(r, ls)|)
    decreases |pieces|
  {
    if pieces != [] {
      var q := p + |pieces[0]|;
      if q < |r| + 2 {
        EarlyCall(g, r, ls, rest, p, pieces);
        ArriveFrom(g, r, ls, rest, q, pieces[1..]);
      } else if q < |HeadText(r, ls)| {
        MiddleCall(g, r, ls, rest, p, pieces);
      } else {
        CompletingCall(g, r, ls, rest, p, pieces);
        EndsAreLate(pieces[1..], q, |r| + 2, |HeadText(r, ls)|);
      }
    }
  }

  lemma {:induction false} EndsAreLate(pieces: seq<string>, at: nat, lo: nat, hi: nat)
    requires at >= hi
    ensures NoCallEndsIn(pieces, at, lo, hi)
    decreases |pieces|
  {
    if pieces != [] {
      EndsAreLate(pieces[1..], at + |pieces[0]|, lo, hi);
    }
  }

  lemma {:induction false} MiddleCall(g: Grammar, r: string, ls: seq<string>, rest: string, p: nat, pieces: seq<string>)
    requires IsReqLine(g, r) && AreFields(g, ls) && pieces != []
    requires p <= |HeadText(r, ls) + rest|
    requires HeadText(r, ls) + rest == (HeadText(r, ls) + rest)[..p] + Concat(pieces)
    requires |r| + 2 <= p + |pieces[0]| < |HeadText(r, ls)|
    ensures var out := Arrive(g, ReqLine, (HeadText(r, ls) + rest)[..p], pieces);
      out.Blank? ==> |out.rest| > |rest|
  {
    var d := HeadText(r, ls) + rest;
    var x, later := pieces[0], pieces[1..];
    var q := p + |x|;
    TakeMore(d, p, x, Concat(later));
    var k, n, more := CallStopsShort(g, r, ls, rest, q);
    var hdrs := AddAll(g, map[], ls[..k]);
    assert d[..q][n..] == d[n..q];
    if later != [] {
      NextCallEnds(g, g.req(r).value, hdrs, d, n, q, later, more);
    }
  }

  /** However many calls bring the head: it is read as in one call if and only if no call ends after
      the request line is complete and before the head is, that is, if the call that completes the
      request line also completes the head. */
  lemma {:induction false} CallsShowIff(g: Grammar, r: string, ls: seq<string>, rest: string, pieces: seq<string>)
    requires IsReqLine(g, r) && AreFields(g, ls) && Concat(pieces) == HeadText(r, ls) + rest
    ensures SameHead(Arrive(g, ReqLine, "", pieces), ReadHead(g, ReqLine, HeadText(r, ls) + rest, 0))
      <==> NoCallEndsIn(pieces, 0, |r| + 2, |HeadText(r, ls)|)
  {
    var d := HeadText(r, ls) + rest;
    assert d[..0] == "" && "" + d == d;
    OneHead(g, r, ls, rest, 0);
    ArriveFrom(g, r, ls, rest, 0, pieces);
  }
}
