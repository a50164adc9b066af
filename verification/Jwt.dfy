/** The compact form of a token (section 7.1 of RFC 7515): unpadded base64url, dot framing, and the
    signature step of verification. JSON and the signing function are parameters. */
module Jwt {
  import opened Text
  import opened Base64

  // ----- padding removed and restored -----

  /** `std::string::find` of a substring, or -1. */
  function FindText(s: string, sub: string): int {
    if sub <= s then 0
    else if s == "" then -1
    else var i := FindText(s[1..], sub); if i < 0 then -1 else i + 1
  }

  /** The tail of `builder::sign`'s encoder: cut at the first fill. */
  function StripPadding(a: Alphabet, s: string): string {
    var i := FindText(s, a.fill);
    if 0 <= i <= |s| then s[..i] else s
  }

  /** The fall-through switch of `fix_padding`. */
  function FixPadding(a: Alphabet, s: string): string {
    s + Repeat(a.fill, if |s| % 4 == 0 then 0 else 4 - |s| % 4)
  }

  lemma {:induction false} FindFill(a: Alphabet, body: string, n: nat)
    requires Shaped(a) && AllInAlphabet(a, body)
    ensures FindText(body + Repeat(a.fill, n), a.fill) == if n == 0 then -1 else |body|
    decreases |body|
  {
    var s := body + Repeat(a.fill, n);
    if body == "" {
      assert s == Repeat(a.fill, n);
      if n > 0 {
        assert s == a.fill + Repeat(a.fill, n - 1);
      }
    } else {
      assert s[0] == body[0] && s[1..] == body[1..] + Repeat(a.fill, n);
      assert forall i :: 0 <= i < |body[1..]| ==> body[1..][i] == body[i + 1];
      FindFill(a, body[1..], n);
    }
  }

  lemma {:induction false} StripEncoded(a: Alphabet, b: seq<Byte>)
    requires Shaped(a)
    ensures StripPadding(a, Encoded(a, b)) == Chars(a, Pack(b))
  {
    var body, n := Chars(a, Pack(b)), FillCount(|b|);
    FindFill(a, body, n);
    if n == 0 {
      assert body + "" == body;
    } else {
      assert Encoded(a, b)[..|body|] == body;
    }
  }

  /** Re-padding by length mod 4 gives the fills back. */
  lemma {:induction false} PaddingCount(n: nat, fills: nat)
    requires Fits(n, fills)
    ensures fills == if n % 4 == 0 then 0 else 4 - n % 4
  {
    if n >= 4 {
      PaddingCount(n - 4, fills);
    }
  }

  lemma {:induction false} FixRestores(a: Alphabet, b: seq<Byte>)
    requires Shaped(a)
    ensures FixPadding(a, Chars(a, Pack(b))) == Encoded(a, b)
  {
    PackFits(b);
    PaddingCount(|Pack(b)|, FillCount(|b|));
  }

  /** Stripping at the first fill and re-padding by length loses nothing. */
  lemma {:induction false} UnpaddedRoundTrip(a: Alphabet, b: seq<Byte>)
    requires Valid(a)
    ensures Decoded(a, FixPadding(a, StripPadding(a, Encoded(a, b)))) == Some(b)
  {
    StripEncoded(a, b);
    FixRestores(a, b);
    RoundTrip(a, b);
  }

  /** An unpadded text of length 1 mod 4 gets three fills and is refused, whatever it holds. */
  lemma {:induction false} LengthOneIsRejected(a: Alphabet, s: string)
    requires Shaped(a) && |s| % 4 == 1
    ensures Decoded(a, FixPadding(a, s)) == None
  {
    assert FixPadding(a, s) == s + Repeat(a.fill, 3);
    ThreeFills(a, s);
  }

  lemma {:induction false} ThreeFills(a: Alphabet, s: string)
    requires Shaped(a) && s != ""
    ensures Decoded(a, s + Repeat(a.fill, 3)) == None
  {
    StripsThree(a.fill, s);
  }

  lemma {:induction false} StripsThree(f: string, s: string)
    requires f != "" && s != ""
    ensures StripFills(f, s + Repeat(f, 3), 0) == None
  {
    StripsOne(f, s, 0, 2);
    StripsOne(f, s, 1, 1);
    StripsOne(f, s, 2, 0);
  }

  lemma {:induction false} StripsOne(f: string, s: string, n: nat, count: nat)
    requires f != "" && s != ""
    ensures StripFills(f, s + Repeat(f, n + 1), count) ==
            if count + 1 > 2 then None else StripFills(f, s + Repeat(f, n), count + 1)
  {
    RepeatSnoc(f, n);
    Assoc(s, Repeat(f, n), f);
    var t := s + Repeat(f, n) + f;
    assert t[|t| - |f|..] == f && t[..|t| - |f|] == s + Repeat(f, n);
  }

  // ----- tokens -----

  datatype Claim = Text(text: string) | Other(raw: string)

  type Claims = map<string, Claim>

  /** JSON as the token code uses it: an object is dumped to bytes and parsed back. */
  datatype Json = Json(dump: Claims -> seq<Byte>, parse: seq<Byte> -> Option<Claims>)

  ghost predicate Faithful(json: Json) {
    forall c :: json.parse(json.dump(c)) == Some(c)
  }

  datatype Algorithm = Algorithm(name: string, sign: string -> seq<Byte>)

  function EncodePart(b: seq<Byte>): string {
    StripPadding(BASE64URL, Encoded(BASE64URL, b))
  }

  function DecodePart(s: string): Option<seq<Byte>> {
    Decoded(BASE64URL, FixPadding(BASE64URL, s))
  }

  /** The text that is signed, and rebuilt by the verifier: header, dot, payload. */
  function SignedText(json: Json, header: Claims, payload: Claims): string {
    EncodePart(json.dump(header)) + ['.'] + EncodePart(json.dump(payload))
  }

  function WithAlgorithm(header: Claims, alg: Algorithm): Claims {
    header["alg" := Text(alg.name)]
  }

  function Token(json: Json, alg: Algorithm, header: Claims, payload: Claims): string {
    var text := SignedText(json, WithAlgorithm(header, alg), payload);
    text + ['.'] + EncodePart(alg.sign(text))
  }

  datatype DecodedJwt = DecodedJwt(header64: string, payload64: string,
                                   header: Claims, payload: Claims, signature: seq<Byte>)

  /** The text before the first dot, between the first two, and after the second. */
  function Frame(token: string): Option<(string, string, string)> {
    var dot := IndexOf(token, '.', 0);
    if dot < 0 then None
    else
      var dot2 := IndexOf(token, '.', dot + 1);
      if dot2 < 0 then None else Some((token[..dot], token[dot + 1..dot2], token[dot2 + 1..]))
  }

  function ParseParts(json: Json, h64: string, p64: string, s64: string): Option<DecodedJwt> {
    var h, p, s := DecodePart(h64), DecodePart(p64), DecodePart(s64);
    if h.None? || p.None? || s.None? then None
    else
      var hc, pc := json.parse(h.value), json.parse(p.value);
      if hc.None? || pc.None? then None
      else Some(DecodedJwt(h64, p64, hc.value, pc.value, s.value))
  }

  /** The constructor of `decoded_jwt`. */
  function Parse(json: Json, token: string): Option<DecodedJwt> {
    match Frame(token)
    case None => None
    case Some((h64, p64, s64)) => ParseParts(json, h64, p64, s64)
  }

  datatype Verification = Accepted | WrongAlgorithm | BadSignature | NoAlgorithm

  /** The signature step of `verifier::verify`, for algorithms that sign and compare. */
  function Verify(algs: map<string, Algorithm>, t: DecodedJwt): Verification {
    if "alg" !in t.header || !t.header["alg"].Text? then NoAlgorithm
    else if t.header["alg"].text !in algs then WrongAlgorithm
    else if algs[t.header["alg"].text].sign(t.header64 + ['.'] + t.payload64) == t.signature then Accepted
    else BadSignature
  }

  lemma {:induction false} PartRoundTrip(b: seq<Byte>)
    ensures DecodePart(EncodePart(b)) == Some(b)
    ensures '.' !in EncodePart(b)
  {
    AlphabetsAreValid();
    UnpaddedRoundTrip(BASE64URL, b);
    StripEncoded(BASE64URL, b);
    LettersDistinct('-', '_');
    var s := Chars(BASE64URL, Pack(b));
    assert forall i :: 0 <= i < |s| ==> s[i] in BASE64URL.data;
  }

  /** A part is the url alphabet's letters of its sextets, without any fill. */
  lemma {:induction false} PartText(b: seq<Byte>)
    ensures EncodePart(b) == Chars(Alphabet(UPPER + LOWER + DIGITS + ['-', '_'], "%3d"), Pack(b))
  {
    AlphabetsAreValid();
    StripEncoded(BASE64URL, b);
  }

  lemma {:induction false} TokenText(h: string, p: string, s: string)
    ensures h + ['.'] + p + ['.'] + s == "" + h + ['.'] + (p + ['.'] + s)
  {
    assert "" + h == h;
    assert h + ['.'] + p + ['.'] + s == h + ['.'] + (p + ['.'] + s);
  }

  lemma {:induction false} FrameOf(h: string, p: string, s: string)
    requires '.' !in h && '.' !in p
    ensures Frame(h + ['.'] + p + ['.'] + s) == Some((h, p, s))
  {
    var token := h + ['.'] + p + ['.'] + s;
    IndexAfter(h + ['.'], p, '.', s);
    TokenText(h, p, s);
    IndexAfter("", h, '.', p + ['.'] + s);
    assert token[..|h|] == h && token[|h| + 1..|h| + 1 + |p|] == p && token[|h| + 1 + |p| + 1..] == s;
  }

  /** The frame is exact: the token is its three parts with dots between them. */
  lemma {:induction false} FrameIsExact(token: string)
    ensures Frame(token).Some? ==>
            var (h, p, s) := Frame(token).value;
            token == h + ['.'] + p + ['.'] + s && '.' !in h && '.' !in p
  {
    if Frame(token).Some? {
      var dot := IndexOf(token, '.', 0);
      var dot2 := IndexOf(token, '.', dot + 1);
      assert token == token[..dot] + ['.'] + token[dot + 1..dot2] + ['.'] + token[dot2 + 1..];
    }
  }

  /** There is a frame exactly when there are two dots. */
  lemma {:induction false} FrameIff(token: string)
    ensures Frame(token).Some? <==> exists i, j :: 0 <= i < j < |token| && token[i] == '.' && token[j] == '.'
  {
    var dot := IndexOf(token, '.', 0);
    if Frame(token).Some? {
      var dot2 := IndexOf(token, '.', dot + 1);
      assert 0 <= dot < dot2 < |token| && token[dot] == '.' && token[dot2] == '.';
    }
  }

  /** Any token, whoever made it. It is read exactly when its three parts decode and the first two are
      JSON, and it is then accepted exactly when its header names a known algorithm that signs the
      text before the second dot with what stands behind it. */
  lemma {:induction false} VerifyIff(json: Json, algs: map<string, Algorithm>, h: string, p: string, s: string)
    requires '.' !in h && '.' !in p
    ensures var t := Parse(json, h + ['.'] + p + ['.'] + s);
      var hb, pb, sb := DecodePart(h), DecodePart(p), DecodePart(s);
      && (t.Some? <==> hb.Some? && pb.Some? && sb.Some? && json.parse(hb.value).Some? && json.parse(pb.value).Some?)
      && (t.Some? ==>
            var header := json.parse(hb.value).value;
            && t.value.header == header && t.value.payload == json.parse(pb.value).value && t.value.signature == sb.value
            && (Verify(algs, t.value) == Accepted <==>
                  exists name :: name in algs && "alg" in header && header["alg"] == Text(name)
                    && algs[name].sign(h + ['.'] + p) == sb.value)
            && (Verify(algs, t.value) == WrongAlgorithm <==>
                  exists name :: name !in algs && "alg" in header && header["alg"] == Text(name))
            && (Verify(algs, t.value) == NoAlgorithm <==>
                  "alg" !in header || forall name :: header["alg"] != Text(name)))
  {
    FrameOf(h, p, s);
    var t := Parse(json, h + ['.'] + p + ['.'] + s);
    if t.Some? {
      AlgorithmIff(algs, t.value);
    }
  }

  lemma {:induction false} AlgorithmIff(algs: map<string, Algorithm>, t: DecodedJwt)
    ensures Verify(algs, t) == Accepted <==>
      exists name :: name in algs && "alg" in t.header && t.header["alg"] == Text(name)
        && algs[name].sign(t.header64 + ['.'] + t.payload64) == t.signature
    ensures Verify(algs, t) == WrongAlgorithm <==>
      exists name :: name !in algs && "alg" in t.header && t.header["alg"] == Text(name)
    ensures Verify(algs, t) == NoAlgorithm <==> "alg" !in t.header || forall name :: t.header["alg"] != Text(name)
  {
    if "alg" in t.header && t.header["alg"].Text? {
      var name := t.header["alg"].text;
      assert t.header["alg"] == Text(name);
      assert forall other :: t.header["alg"] == Text(other) ==> other == name;
    }
  }

  /** A signed token parses back to both claim maps and to the very text that was signed, and its
      signature is accepted by any verifier that knows the algorithm. */
  lemma {:induction false} TokenRoundTrip(json: Json, alg: Algorithm, header: Claims, payload: Claims, algs: map<string, Algorithm>)
    requires Faithful(json) && alg.name in algs && algs[alg.name] == alg
    ensures var t := Parse(json, Token(json, alg, header, payload));
            && t.Some?
            && t.value.header == WithAlgorithm(header, alg) && t.value.payload == payload
            && t.value.header64 + ['.'] + t.value.payload64 == SignedText(json, WithAlgorithm(header, alg), payload)
            && t.value.signature == alg.sign(SignedText(json, WithAlgorithm(header, alg), payload))
            && Verify(algs, t.value) == Accepted
  {
    var hc := WithAlgorithm(header, alg);
    var h, p := EncodePart(json.dump(hc)), EncodePart(json.dump(payload));
    var text := SignedText(json, hc, payload);
    PartRoundTrip(json.dump(hc));
    PartRoundTrip(json.dump(payload));
    PartRoundTrip(alg.sign(text));
    FrameOf(h, p, EncodePart(alg.sign(text)));
    assert ParseParts(json, h, p, EncodePart(alg.sign(text))) ==
           Some(DecodedJwt(h, p, hc, payload, alg.sign(text)));
  }

  /** The data the verifier checks is the token's own text before its second dot. */
  lemma {:induction false} VerifiedTextIsPrefix(json: Json, token: string)
    requires Parse(json, token).Some?
    ensures var t := Parse(json, token).value;
            t.header64 + ['.'] + t.payload64 + ['.'] <= token &&
            DecodePart(token[|t.header64| + |t.payload64| + 2..]) == Some(t.signature)
  {
    FrameIsExact(token);
    var (h, p, s) := Frame(token).value;
    AfterSecondDot(h, p, s);
  }

  lemma {:induction false} AfterSecondDot(h: string, p: string, s: string)
    ensures var token := h + ['.'] + p + ['.'] + s;
      h + ['.'] + p + ['.'] <= token && token[|h| + |p| + 2..] == s
  {
    var a := h + ['.'] + p + ['.'];
    assert (a + s)[|a|..] == s && (a + s)[..|a|] == a;
  }

  /** The byte comparison of `hmacsha::verify`. */
  method VerifyHmac(sign: string -> seq<Byte>, data: string, signature: seq<Byte>) returns (matched: bool)
    ensures matched <==> sign(data) == signature
  {
    var res := sign(data);
    matched := true;
    var i := 0;
    while i < |res| && i < |signature|
      invariant 0 <= i <= |res| && i <= |signature|
      invariant matched <==> res[..i] == signature[..i]
    {
      if res[i] != signature[i] {
        matched := false;
      }
      assert res[..i + 1] == res[..i] + [res[i]] && signature[..i + 1] == signature[..i] + [signature[i]];
      i := i + 1;
    }
    assert |res| == |signature| ==> res[..i] == res && signature[..i] == signature;
    if |res| != |signature| {
      matched := false;
    }
  }

  class Builder {
    var header: Claims
    var payload: Claims

    constructor ()
      ensures header == map[] && payload == map[]
    {
      header, payload := map[], map[];
    }

    method SetHeaderClaim(id: string, c: Claim)
      modifies `header
      ensures header == old(header)[id := c]
    {
      header := header[id := c];
    }

    method SetPayloadClaim(id: string, c: Claim)
      modifies `payload
      ensures payload == old(payload)[id := c]
    {
      payload := payload[id := c];
    }

    /** `builder::sign`: the algorithm's name goes into the header first. */
    method Sign(json: Json, alg: Algorithm) returns (token: string)
      modifies `header
      ensures header == WithAlgorithm(old(header), alg)
      ensures token == Token(json, alg, old(header), payload)
    {
      SetHeaderClaim("alg", Text(alg.name));
      var h := EncodePart(json.dump(header));
      var p := EncodePart(json.dump(payload));
      token := h + ['.'] + p;
      token := token + ['.'] + EncodePart(alg.sign(token));
    }
  }
}
