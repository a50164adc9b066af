/** The body of a request with a content length: how much is taken from each chunk, when the
    request becomes ready and which parameters it then carries. */
module RequestBody {
  import opened Text

  datatype Kind = Raw | UrlEncoded | TextPlain

  type Params = seq<(string, string)>

  datatype Body = Reading(kind: Kind, size: nat, got: string) | Ready(params: Params)

  function Min(a: nat, b: nat): nat {
    if a <= b then a else b
  }

  /** `init_body` */
  function Init(kind: Kind, size: nat): Body {
    if size == 0 then Ready([]) else Reading(kind, size, "")
  }

  /** What a complete body adds to the request's parameters; a `text/plain` form adds nothing. */
  function Deliver(kind: Kind, s: string): Params {
    match kind
    case Raw => [("", s)]
    case UrlEncoded => FormPairs(s)
    case TextPlain => []
  }

  /** One call with a chunk, and how many of its bytes the call takes. */
  function Feed(b: Body, chunk: string): (Body, nat) {
    match b
    case Ready(_) => (b, 0)
    case Reading(kind, size, got) =>
      var n := if |got| + |chunk| > size && size >= |got| then size - |got| else |chunk|;
      var all := got + chunk[..n];
      (if |all| >= size then Ready(Deliver(kind, all)) else Reading(kind, size, all), n)
  }

  function FeedAll(b: Body, chunks: seq<string>): (Body, nat)
    decreases chunks
  {
    if chunks == [] then (b, 0)
    else
      var (b1, n) := Feed(b, chunks[0]);
      var (b2, m) := FeedAll(b1, chunks[1..]);
      (b2, n + m)
  }

  lemma {:induction false} ReadyTakesNothing(params: Params, chunks: seq<string>)
    ensures FeedAll(Ready(params), chunks) == (Ready(params), 0)
    decreases chunks
  {
    if chunks != [] {
      ReadyTakesNothing(params, chunks[1..]);
    }
  }

  /** The first `size` bytes of `got + c + more`, taken in two steps. */
  lemma {:induction false} TakeInSteps(got: string, c: string, more: string, size: nat)
    requires |got| < size
    ensures |got| + |c| >= size ==>
      got + c[..size - |got|] == (got + (c + more))[..size]
    ensures got + c + more == got + (c + more)
  {
    Assoc(got, c, more);
    if |got| + |c| >= size {
      var n := size - |got|;
      assert (c + more)[..n] == c[..n];
    }
  }

  lemma {:induction false} FeedAllFrom(kind: Kind, size: nat, got: string, chunks: seq<string>)
    requires |got| < size
    ensures var all := got + Concat(chunks);
      FeedAll(Reading(kind, size, got), chunks)
      == (if |all| >= size then Ready(Deliver(kind, all[..size])) else Reading(kind, size, all),
          Min(|Concat(chunks)|, size - |got|))
    decreases chunks
  {
    if chunks == [] {
      assert got + "" == got;
    } else {
      var c, more := chunks[0], Concat(chunks[1..]);
      TakeInSteps(got, c, more, size);
      if |got| + |c| >= size {
        ReadyTakesNothing(Deliver(kind, got + c[..size - |got|]), chunks[1..]);
        assert |got| + |c| == size ==> c[..size - |got|] == c;
      } else {
        assert c[..|c|] == c;
        FeedAllFrom(kind, size, got + c, chunks[1..]);
      }
    }
  }

  /** Over any sequence of chunks: as many bytes are taken as are offered, up to the content
      length; the request is ready exactly when that many arrived, wherever the chunks were cut. A raw
      body is then one parameter without a name, a form one per piece between ampersands, and a
      `text/plain` form none. */
  lemma {:induction false} BodyIsConserved(kind: Kind, size: nat, chunks: seq<string>)
    ensures var all := Concat(chunks);
      FeedAll(Init(kind, size), chunks).1 == Min(|all|, size)
      && (FeedAll(Init(kind, size), chunks).0.Ready? <==> |all| >= size)
      && (size > 0 && |all| >= size ==>
            FeedAll(Init(kind, size), chunks).0 == match kind
              case Raw => Ready([("", all[..size])])
              case UrlEncoded => Ready(PairsOf(Split(PlusToSpace(all[..size]), '&')))
              case TextPlain => Ready([]))
      && (|all| < size ==> FeedAll(Init(kind, size), chunks).0 == Reading(kind, size, all))
      && (size == 0 ==> FeedAll(Init(kind, size), chunks).0 == Ready([]))
  {
    if size == 0 {
      ReadyTakesNothing([], chunks);
    } else {
      var all := Concat(chunks);
      FeedAllFrom(kind, size, "", chunks);
      assert "" + all == all;
      if |all| >= size {
        ScanIsPieces(PlusToSpace(all[..size]));
      }
    }
  }

  // ----- urlencoded forms -----

  function PlusToSpace(s: string): (r: string)
    ensures |r| == |s|
    ensures forall i :: 0 <= i < |s| ==> r[i] == if s[i] == '+' then ' ' else s[i]
  {
    seq(|s|, i requires 0 <= i < |s| => if s[i] == '+' then ' ' else s[i])
  }

  function PercentDecode(s: string): string {
    if s == "" then ""
    else if s[0] == '%' && |s| >= 3 && HexValue(s[1]) >= 0 && HexValue(s[2]) >= 0 then
      [(16 * HexValue(s[1]) + HexValue(s[2])) as char] + PercentDecode(s[3..])
    else [s[0]] + PercentDecode(s[1..])
  }

  /** `unescape`: a C string decoded into a C string. */
  function Unescape(s: string): string {
    CStr(PercentDecode(CStr(s)))
  }

  /** The loop over the characters, as it stands before `s`. */
  function Scan(s: string, inKey: bool, k: string, v: string): Params {
    if s == "" then if k != "" || v != "" then [(Unescape(k), Unescape(v))] else []
    else if s[0] == '=' then Scan(s[1..], false, k, v)
    else if s[0] == '&' then [(Unescape(k), Unescape(v))] + Scan(s[1..], true, "", "")
    else if inKey then Scan(s[1..], true, k + [s[0]], v)
    else Scan(s[1..], false, k, v + [s[0]])
  }

  function FormPairs(s: string): Params {
    Scan(PlusToSpace(s), true, "", "")
  }

  // ----- the pairs are those of the pieces between ampersands -----

  /** Every `c` taken out. */
  function Removed(s: string, c: char): string {
    if s == "" then "" else (if s[0] == c then "" else [s[0]]) + Removed(s[1..], c)
  }

  /** The key before the first `=`; every later `=` is dropped from the value. */
  function PairOf(piece: string): (string, string) {
    var i := IndexOf(piece, '=', 0);
    if i < 0 then (piece, "") else (piece[..i], Removed(piece[i + 1..], '='))
  }

  /** One pair for each piece, except that an empty last one is not reported. */
  function PairsOf(pieces: seq<string>): Params
    requires pieces != []
  {
    var (k, v) := PairOf(pieces[0]);
    if |pieces| > 1 then [(Unescape(k), Unescape(v))] + PairsOf(pieces[1..])
    else if k != "" || v != "" then [(Unescape(k), Unescape(v))]
    else []
  }

  lemma {:induction false} ScanKey(a: string, tail: string, k: string, v: string)
    requires '=' !in a && '&' !in a
    ensures Scan(a + tail, true, k, v) == Scan(tail, true, k + a, v)
    decreases |a|
  {
    if a == "" {
      assert a + tail == tail && k + a == k;
    } else {
      assert (a + tail)[1..] == a[1..] + tail;
      ScanKey(a[1..], tail, k + [a[0]], v);
      assert k + [a[0]] + a[1..] == k + a;
    }
  }

  lemma {:induction false} ScanValue(a: string, tail: string, k: string, v: string)
    requires '&' !in a
    ensures Scan(a + tail, false, k, v) == Scan(tail, false, k, v + Removed(a, '='))
    decreases |a|
  {
    if a == "" {
      assert a + tail == tail && v + "" == v;
    } else {
      assert (a + tail)[1..] == a[1..] + tail;
      if a[0] == '=' {
        ScanValue(a[1..], tail, k, v);
        assert "" + Removed(a[1..], '=') == Removed(a[1..], '=');
      } else {
        ScanValue(a[1..], tail, k, v + [a[0]]);
        Assoc(v, [a[0]], Removed(a[1..], '='));
      }
    }
  }

  lemma {:induction false} ScanPiece(p: string, tail: string)
    requires '&' !in p
    ensures Scan(p + tail, true, "", "") == Scan(tail, '=' !in p, PairOf(p).0, PairOf(p).1)
  {
    var i := IndexOf(p, '=', 0);
    if i < 0 {
      ScanKey(p, tail, "", "");
      assert "" + p == p;
    } else {
      assert p == p[..i] + ['='] + p[i + 1..];
      ScanAround(p[..i], p[i + 1..], tail);
    }
  }

  lemma {:induction false} ScanAround(a: string, b: string, tail: string)
    requires '=' !in a && '&' !in a && '&' !in b
    ensures Scan(a + ['='] + b + tail, true, "", "") == Scan(tail, false, a, Removed(b, '='))
  {
    var more := ['='] + (b + tail);
    Assoc(a + ['='], b, tail);
    Assoc(a, ['='], b + tail);
    ScanKey(a, more, "", "");
    assert more[1..] == b + tail;
    ScanValue(b, tail, a, "");
    assert "" + a == a && "" + Removed(b, '=') == Removed(b, '=');
  }

  lemma {:induction false} ScanFirstPiece(p: string, rest: string)
    requires '&' !in p
    ensures Scan(p + ['&'] + rest, true, "", "")
      == [(Unescape(PairOf(p).0), Unescape(PairOf(p).1))] + Scan(rest, true, "", "")
  {
    Assoc(p, ['&'], rest);
    ScanPiece(p, ['&'] + rest);
    assert (['&'] + rest)[1..] == rest;
  }

  lemma {:induction false} ScanLastPiece(p: string)
    requires '&' !in p
    ensures Scan(p, true, "", "") == PairsOf([p])
  {
    ScanPiece(p, "");
    assert p + "" == p;
  }

  lemma {:induction false} PairsOfMore(p: string, pieces: seq<string>)
    requires pieces != []
    ensures PairsOf([p] + pieces) == [(Unescape(PairOf(p).0), Unescape(PairOf(p).1))] + PairsOf(pieces)
  {
    assert ([p] + pieces)[1..] == pieces;
  }

  /** The character loop reports the pairs of the pieces between ampersands, in order. */
  lemma {:induction false} ScanIsPieces(s: string)
    ensures Scan(s, true, "", "") == PairsOf(Split(s, '&'))
    decreases |s|
  {
    var i := IndexOf(s, '&', 0);
    if i < 0 {
      ScanLastPiece(s);
      SplitNone(s, '&');
    } else {
      var p, rest := s[..i], s[i + 1..];
      assert s == p + ['&'] + rest;
      ScanFirstPiece(p, rest);
      ScanIsPieces(rest);
      SplitCons(p, '&', rest);
      PairsOfMore(p, Split(rest, '&'));
    }
  }

  // ----- what a form sends is what arrives -----

  /** `e` writes `s` for a form: each character as itself, as a percent escape in either case, or
      as `+` for a space; `=`, `&`, `+` and `%` never as themselves. */
  ghost predicate Spells(e: string, s: string)
    decreases |s|
  {
    if s == "" || e == "" then s == e
    else if e[0] == '%' then SpellsEscape(e, s[0]) && Spells(e[3..], s[1..])
    else SpellsPlain(e[0], s[0]) && Spells(e[1..], s[1..])
  }

  predicate SpellsPlain(e: char, c: char) {
    (e == c && c !in "=&+%\0") || (e == '+' && c == ' ')
  }

  /** The digit of value `v`, in either case. */
  predicate IsDigitOf(c: char, v: nat) {
    v < 16 && (c == "0123456789abcdef"[v] || c == "0123456789ABCDEF"[v])
  }

  predicate SpellsEscape(e: string, c: char) {
    && |e| >= 3 && e[0] == '%' && c != '\0'
    && var high := c as int / 16;
    IsDigitOf(e[1], high) && IsDigitOf(e[2], c as int - 16 * high)
  }

  lemma {:induction false} DigitValue(c: char, v: nat)
    requires IsDigitOf(c, v)
    ensures HexValue(c) == v && c !in "=&\0"
  {
  }

  lemma {:induction false} EscapeReads(e: string, c: char)
    requires SpellsEscape(e, c)
    ensures HexValue(e[1]) >= 0 && HexValue(e[2]) >= 0 && 16 * HexValue(e[1]) + HexValue(e[2]) == c as int
    ensures e[1] !in "=&\0" && e[2] !in "=&\0"
  {
    var high := c as int / 16;
    DigitValue(e[1], high);
    DigitValue(e[2], c as int - 16 * high);
  }

  lemma {:induction false} PlusToSpaceTail(s: string, n: nat)
    requires n <= |s|
    ensures PlusToSpace(s)[n..] == PlusToSpace(s[n..])
  {
    var a, b := PlusToSpace(s)[n..], PlusToSpace(s[n..]);
    assert forall i :: 0 <= i < |b| ==> a[i] == PlusToSpace(s)[n + i] && s[n..][i] == s[n + i];
  }

  lemma {:induction false} SpellingIsClean(e: string, s: string)
    requires Spells(e, s)
    ensures '=' !in e && '&' !in e && '\0' !in e && '\0' !in s
    ensures e == "" <==> s == ""
    decreases |s|
  {
    if s != "" {
      if e[0] == '%' {
        EscapeReads(e, s[0]);
        assert e == [e[0], e[1], e[2]] + e[3..];
        SpellingIsClean(e[3..], s[1..]);
      } else {
        assert e == [e[0]] + e[1..];
        SpellingIsClean(e[1..], s[1..]);
      }
      assert s == [s[0]] + s[1..];
    }
  }

  lemma {:induction false} DecodeEscape(h: char, l: char, more: string)
    requires HexValue(h) >= 0 && HexValue(l) >= 0
    ensures PercentDecode(['%', h, l] + more) == [(16 * HexValue(h) + HexValue(l)) as char] + PercentDecode(more)
  {
    assert (['%', h, l] + more)[3..] == more;
  }

  /** A character that does not start an escape stands for itself; so does a percent sign that no
      two digits follow. */
  lemma {:induction false} PlainStays(c: char, more: string)
    requires c != '%' || |more| < 2 || HexValue(more[0]) < 0 || HexValue(more[1]) < 0
    ensures PercentDecode([c] + more) == [c] + PercentDecode(more)
  {
    assert ([c] + more)[1..] == more;
    assert |more| >= 2 ==> ([c] + more)[1] == more[0] && ([c] + more)[2] == more[1];
  }

  lemma {:induction false} EscapeFront(e: string)
    requires |e| >= 3 && e[0] == '%' && e[1] != '+' && e[2] != '+'
    ensures PlusToSpace(e) == ['%', e[1], e[2]] + PlusToSpace(e[3..])
  {
    PlusToSpaceTail(e, 3);
    assert PlusToSpace(e)[..3] == ['%', e[1], e[2]];
  }

  lemma {:induction false} PlainFront(e: string)
    requires e != ""
    ensures PlusToSpace(e) == [if e[0] == '+' then ' ' else e[0]] + PlusToSpace(e[1..])
  {
    PlusToSpaceTail(e, 1);
  }

  /** Written text is decoded to what it was written from, whatever follows. */
  lemma {:induction false} SpellingDecodes(e: string, s: string, tail: string)
    requires Spells(e, s)
    ensures PercentDecode(PlusToSpace(e) + tail) == s + PercentDecode(tail)
    decreases |s|
  {
    if s == "" {
      assert PlusToSpace("") + tail == tail && "" + PercentDecode(tail) == PercentDecode(tail);
    } else if e[0] == '%' {
      EscapeReads(e, s[0]);
      SpellingDecodes(e[3..], s[1..], tail);
      EscapeFront(e);
      Assoc(['%', e[1], e[2]], PlusToSpace(e[3..]), tail);
      DecodeEscape(e[1], e[2], PlusToSpace(e[3..]) + tail);
      HeadFirst(s, PercentDecode(tail));
    } else {
      SpellingDecodes(e[1..], s[1..], tail);
      PlainFront(e);
      Assoc([s[0]], PlusToSpace(e[1..]), tail);
      PlainStays(s[0], PlusToSpace(e[1..]) + tail);
      HeadFirst(s, PercentDecode(tail));
    }
  }

  lemma {:induction false} HeadFirst(s: string, tail: string)
    requires s != ""
    ensures [s[0]] + (s[1..] + tail) == s + tail
  {
  }

  lemma {:induction false} SpellingReads(e: string, s: string)
    requires Spells(e, s)
    ensures '=' !in e && '&' !in e && '\0' !in e && '\0' !in s
    ensures e == "" <==> s == ""
    ensures PercentDecode(PlusToSpace(e)) == s
  {
    SpellingIsClean(e, s);
    SpellingDecodes(e, s, "");
    assert PlusToSpace(e) + "" == PlusToSpace(e) && s + "" == s;
  }

  /** An escaped NUL ends the decoded text. */
  lemma {:induction false} NulEndsText(e: string, s: string, more: string)
    requires Spells(e, s) && '\0' !in more
    ensures Unescape(PlusToSpace(e) + "%00" + more) == s
  {
    SpellingIsClean(e, s);
    var r := PlusToSpace(e) + "%00" + more;
    assert CStr(r) == r;
    Assoc(PlusToSpace(e), "%00", more);
    SpellingDecodes(e, s, "%00" + more);
    assert "%00" == ['%', '0', '0'];
    DecodeEscape('0', '0', more);
    CStrAt(s, PercentDecode(more));
  }

  lemma {:induction false} CStrAt(s: string, more: string)
    requires '\0' !in s
    ensures CStr(s + (['\0'] + more)) == s
  {
    var t := s + (['\0'] + more);
    assert t[|s|] == '\0' && forall k :: 0 <= k < |s| ==> t[k] == s[k];
    IndexOfIs(t, '\0', 0, |s|);
  }

  lemma {:induction false} SpellingUnescapes(e: string, s: string)
    requires Spells(e, s)
    ensures Unescape(PlusToSpace(e)) == s
  {
    SpellingReads(e, s);
  }

  /** The form text of already written keys and values. */
  function Print(es: Params): string {
    if es == [] then ""
    else es[0].0 + "=" + es[0].1 + if |es| == 1 then "" else "&" + Print(es[1..])
  }

  ghost predicate SpellsAll(es: Params, ps: Params) {
    |es| == |ps| && forall i :: 0 <= i < |es| ==> Spells(es[i].0, ps[i].0) && Spells(es[i].1, ps[i].1)
  }

  lemma {:induction false} PlusToSpaceConcat(a: string, b: string)
    ensures PlusToSpace(a + b) == PlusToSpace(a) + PlusToSpace(b)
  {
  }

  lemma {:induction false} RemovedNone(s: string, c: char)
    requires c !in s
    ensures Removed(s, c) == s
  {
    if s != "" {
      RemovedNone(s[1..], c);
    }
  }

  lemma {:induction false} RemovedConcat(a: string, b: string, c: char)
    ensures Removed(a + b, c) == Removed(a, c) + Removed(b, c)
    decreases |a|
  {
    if a == "" {
      assert a + b == b && "" + Removed(b, c) == Removed(b, c);
    } else {
      assert (a + b)[1..] == a[1..] + b;
      RemovedConcat(a[1..], b, c);
      Assoc(if a[0] == c then "" else [a[0]], Removed(a[1..], c), Removed(b, c));
    }
  }

  /** In a piece, the key ends at the first `=`, and any later `=` vanishes from the value. */
  lemma {:induction false} LaterEqualsVanish(k: string, v: string, w: string)
    requires '=' !in k && '=' !in v && '=' !in w
    ensures PairOf(k) == (k, "") && PairOf(k + "=" + v) == (k, v) && PairOf(k + "=" + (v + "=" + w)) == (k, v + w)
  {
    PairAt(k, v);
    RemovedNone(v, '=');
    PairAt(k, v + "=" + w);
    RemovedConcat(v + "=", w, '=');
    RemovedConcat(v, "=", '=');
    RemovedNone(w, '=');
    assert Removed("=", '=') == "" && v + "" == v;
  }

  lemma {:induction false} PairAt(k: string, x: string)
    requires '=' !in k
    ensures PairOf(k + "=" + x) == (k, Removed(x, '='))
  {
    var piece := k + "=" + x;
    assert piece[|k|] == '=' && forall j :: 0 <= j < |k| ==> piece[j] == k[j];
    IndexOfIs(piece, '=', 0, |k|);
    assert piece[..|k|] == k && piece[|k| + 1..] == x;
  }

  /** One written pair, followed by whatever `tail` is. */
  lemma {:induction false} ScanPair(ek: string, ev: string, tail: string)
    requires '=' !in ek && '&' !in ek && '=' !in ev && '&' !in ev
    ensures Scan(ek + "=" + ev + tail, true, "", "") == Scan(tail, false, ek, ev)
  {
    var piece := ek + "=" + ev;
    assert piece[|ek|] == '=';
    assert forall j :: 0 <= j < |ek| ==> piece[j] == ek[j];
    IndexOfIs(piece, '=', 0, |ek|);
    assert piece[..|ek|] == ek && piece[|ek| + 1..] == ev;
    RemovedNone(ev, '=');
    assert '&' !in piece;
    ScanPiece(piece, tail);
  }

  lemma {:induction false} PairPlus(ek: string, ev: string, tail: string)
    ensures PlusToSpace(ek + "=" + ev + tail) == PlusToSpace(ek) + "=" + PlusToSpace(ev) + PlusToSpace(tail)
  {
    PlusToSpaceConcat(ek + "=" + ev, tail);
    PlusToSpaceConcat(ek + "=", ev);
    PlusToSpaceConcat(ek, "=");
    assert PlusToSpace("=") == "=";
  }

  lemma {:induction false} SpelledPair(ek: string, ev: string, k: string, v: string, tail: string)
    requires Spells(ek, k) && Spells(ev, v)
    ensures tail == "" ==>
      FormPairs(ek + "=" + ev + tail) == if k != "" || v != "" then [(k, v)] else []
    ensures tail != "" && tail[0] == '&' ==>
      FormPairs(ek + "=" + ev + tail) == [(k, v)] + FormPairs(tail[1..])
  {
    var rk, rv, rt := PlusToSpace(ek), PlusToSpace(ev), PlusToSpace(tail);
    SpellingReads(ek, k);
    SpellingReads(ev, v);
    SpellingUnescapes(ek, k);
    SpellingUnescapes(ev, v);
    PairPlus(ek, ev, tail);
    ScanPair(rk, rv, rt);
    if tail != "" {
      PlusToSpaceTail(tail, 1);
    }
  }

  lemma {:induction false} FormReads(es: Params, ps: Params)
    requires SpellsAll(es, ps)
    ensures FormPairs(Print(es))
      == if ps != [] && ps[|ps| - 1] == ("", "") then ps[..|ps| - 1] else ps
    decreases |ps|
  {
    if ps == [] {
      assert PlusToSpace("") == "";
    } else {
      var (ek, ev) := es[0];
      var (k, v) := ps[0];
      if |ps| == 1 {
        SpelledPair(ek, ev, k, v, "");
      } else {
        SpelledMore(ek, ev, k, v, Print(es[1..]));
        FormReads(es[1..], ps[1..]);
        DropLastCons(ps);
      }
    }
  }

  lemma {:induction false} SpelledMore(ek: string, ev: string, k: string, v: string, more: string)
    requires Spells(ek, k) && Spells(ev, v)
    ensures FormPairs(ek + "=" + ev + ("&" + more)) == [(k, v)] + FormPairs(more)
  {
    var tail := "&" + more;
    SpelledPair(ek, ev, k, v, tail);
    assert tail[1..] == more;
  }

  lemma {:induction false} DropLastCons(ps: Params)
    requires |ps| > 1
    ensures ps == [ps[0]] + ps[1..] && ps[1..][|ps| - 2] == ps[|ps| - 1]
    ensures ps[..|ps| - 1] == [ps[0]] + ps[1..][..|ps| - 2]
  {
  }

  /** However its keys and values are escaped, a form arrives as it was sent exactly when it is
      empty or its last pair is not the empty one. */
  lemma {:induction false} FormRoundTripIff(es: Params, ps: Params)
    requires SpellsAll(es, ps)
    ensures FormPairs(Print(es)) == ps <==> ps == [] || ps[|ps| - 1] != ("", "")
  {
    FormReads(es, ps);
  }

  /** The same over any cutting of the form into chunks, of which anything after it is left. */
  lemma {:induction false} FormArrives(es: Params, ps: Params, chunks: seq<string>, next: string)
    requires SpellsAll(es, ps) && ps != [] && ps[|ps| - 1] != ("", "")
    requires Concat(chunks) == Print(es) + next
    ensures FeedAll(Init(UrlEncoded, |Print(es)|), chunks) == (Ready(ps), |Print(es)|)
  {
    BodyIsConserved(UrlEncoded, |Print(es)|, chunks);
    ScanIsPieces(PlusToSpace(Print(es)));
    assert (Print(es) + next)[..|Print(es)|] == Print(es);
    FormRoundTripIff(es, ps);
    assert Print(es) != "";
  }

  // ----- the object -----

  /** The character at `i`, with the pairs reported so far. */
  lemma {:induction false} ScanStep(s: string, i: nat, inKey: bool, k: string, v: string, out: Params)
    requires i < |s|
    ensures out + Scan(s[i..], inKey, k, v)
      == if s[i] == '=' then out + Scan(s[i + 1..], false, k, v)
         else if s[i] == '&' then out + [(Unescape(k), Unescape(v))] + Scan(s[i + 1..], true, "", "")
         else if inKey then out + Scan(s[i + 1..], true, k + [s[i]], v)
         else out + Scan(s[i + 1..], false, k, v + [s[i]])
  {
    assert s[i..][1..] == s[i + 1..];
    if s[i] == '&' {
      Assoc(out, [(Unescape(k), Unescape(v))], Scan(s[i + 1..], true, "", ""));
    }
  }

  class BodyReader {
    const kind: Kind
    var bodySize: nat
    var uploaded: nat
    var buf: string
    var completed: bool
    // parser_state::ready_to_exec has been reached
    var ready: bool
    var params: Params

    ghost function View(): Body
      reads this
    {
      if ready then Ready(params) else Reading(kind, bodySize, buf)
    }

    ghost predicate Valid()
      reads this
    {
      !completed && (!ready ==> uploaded == |buf| < bodySize && params == [])
    }

    constructor (kind: Kind, size: nat)
      ensures Valid() && View() == Init(kind, size)
    {
      this.kind, bodySize, uploaded, buf, params := kind, size, 0, "", [];
      completed, ready := false, size == 0;
    }

    method ReadBody(data: string) returns (n: nat)
      requires Valid() && !ready
      modifies this`uploaded, this`buf, this`completed
      ensures n == Min(|data|, bodySize - old(uploaded))
      ensures buf == old(buf) + data[..n] && uploaded == |buf|
      ensures completed <==> uploaded >= bodySize
    {
      n := |data|;
      if uploaded + n > bodySize {
        n := bodySize - uploaded;
      }
      uploaded := uploaded + n;
      buf := buf + data[..n];
      completed := uploaded >= bodySize;
    }

    /** `parse_form_urlenc`'s loop over the completed body. */
    method ReadPairs(sbody: string) returns (out: Params)
      ensures out == FormPairs(sbody)
    {
      var s := PlusToSpace(sbody);
      var inKey, k, v := true, "", "";
      out := [];
      assert s[0..] == s;
      assert [] + Scan(s, true, "", "") == Scan(s, true, "", "");
      for i := 0 to |s|
        invariant out + Scan(s[i..], inKey, k, v) == Scan(s, true, "", "")
      {
        var c := s[i];
        ScanStep(s, i, inKey, k, v, out);
        if c == '=' {
          inKey := false;
        } else if c == '&' {
          out := out + [(Unescape(k), Unescape(v))];
          inKey, k, v := true, "", "";
        } else if inKey {
          k := k + [c];
        } else {
          v := v + [c];
        }
      }
      if k != "" || v != "" {
        out := out + [(Unescape(k), Unescape(v))];
      }
    }

    /** `parse_body`, `parse_form_urlenc` and `parse_form_txtpln`. */
    method Parse(data: string) returns (n: nat)
      requires Valid()
      modifies this
      ensures Valid() && Feed(old(View()), data) == (View(), n)
    {
      if ready {
        return 0;
      }
      n := ReadBody(data);
      if completed {
        match kind {
          case Raw => params := params + [("", buf)];
          case UrlEncoded =>
            var pairs := ReadPairs(buf);
            params := params + pairs;
          case TextPlain =>
        }
        assert params == Deliver(kind, buf);
        uploaded, buf, completed, ready := 0, "", false, true;
      }
    }
  }
}
