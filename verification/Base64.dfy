/** The base64 codec of `jwt.h` (sections 4 and 5 of RFC 4648), for any alphabet and any fill: the
    url alphabet uses the three characters `%3d`. */
module Base64 {
  import opened Text

  type Sextet = x: int | 0 <= x < 64

  datatype Alphabet = Alphabet(data: string, fill: string)

  /** 64 characters, and a fill that none of them can start. */
  predicate Shaped(a: Alphabet) {
    |a.data| == 64 && a.fill != "" && a.fill[0] !in a.data
  }

  predicate Distinct(s: string) {
    forall i, j :: 0 <= i < j < |s| ==> s[i] != s[j]
  }

  predicate Valid(a: Alphabet) {
    Shaped(a) && Distinct(a.data)
  }

  /** `A`-`Z`, `a`-`z`, `0`-`9` and two more characters, in that order. */
  function LetterOf(i: Sextet, c62: char, c63: char): char {
    if i < 26 then (65 + i) as char
    else if i < 52 then (71 + i) as char
    else if i < 62 then (i - 4) as char
    else if i == 62 then c62 else c63
  }

  function Letters(c62: char, c63: char): string {
    seq(64, i requires 0 <= i < 64 => LetterOf(i, c62, c63))
  }

  const BASE64: Alphabet := Alphabet(Letters('+', '/'), "=")
  const BASE64URL: Alphabet := Alphabet(Letters('-', '_'), "%3d")

  // ----- 24-bit packing -----

  function Triple(a: Byte, b: Byte, c: Byte): nat {
    (a * 256 + b) * 256 + c
  }

  /** `(triple >> (3 - k) * 6) & 0x3F` */
  function SextetOf(t: nat, k: nat): Sextet
    requires k < 4
  {
    if k == 0 then t / 64 / 64 / 64 % 64
    else if k == 1 then t / 64 / 64 % 64
    else if k == 2 then t / 64 % 64
    else t % 64
  }

  function Quad(p: Sextet, q: Sextet, r: Sextet, s: Sextet): nat {
    ((p * 64 + q) * 64 + r) * 64 + s
  }

  /** `(triple >> (2 - k) * 8) & 0xFF` */
  function ByteOf(t: nat, k: nat): Byte
    requires k < 3
  {
    if k == 0 then t / 256 / 256 % 256
    else if k == 1 then t / 256 % 256
    else t % 256
  }

  lemma {:induction false} Div64(x: nat, y: Sextet)
    ensures (x * 64 + y) / 64 == x && (x * 64 + y) % 64 == y
  {
  }

  lemma {:induction false} Div256(x: nat, y: Byte)
    ensures (x * 256 + y) / 256 == x && (x * 256 + y) % 256 == y
  {
  }

  lemma {:induction false} QuadOfSextets(t: nat)
    requires t / 64 / 64 / 64 < 64
    ensures Quad(SextetOf(t, 0), SextetOf(t, 1), SextetOf(t, 2), SextetOf(t, 3)) == t
  {
  }

  lemma {:induction false} BytesOfTriple(a: Byte, b: Byte, c: Byte)
    ensures var t := Triple(a, b, c); ByteOf(t, 0) == a && ByteOf(t, 1) == b && ByteOf(t, 2) == c
  {
    Div256(a * 256 + b, c);
    Div256(a, b);
  }

  lemma {:induction false} TripleOfBytes(t: nat)
    requires t / 256 / 256 < 256
    ensures Triple(ByteOf(t, 0), ByteOf(t, 1), ByteOf(t, 2)) == t
  {
  }

  lemma {:induction false} SextetsOfQuad(p: Sextet, q: Sextet, r: Sextet, s: Sextet)
    ensures var t := Quad(p, q, r, s);
            SextetOf(t, 0) == p && SextetOf(t, 1) == q && SextetOf(t, 2) == r && SextetOf(t, 3) == s
  {
    Div64((p * 64 + q) * 64 + r, s);
    Div64(p * 64 + q, r);
    Div64(p, q);
  }

  /** Both packings hold 24 bits. */
  lemma {:induction false} Bits24(t: nat)
    ensures t / 64 / 64 / 64 < 64 <==> t < 0x1000000
    ensures t / 256 / 256 < 256 <==> t < 0x1000000
  {
  }

  // ----- bytes to sextets and back -----

  function Pack(b: seq<Byte>): seq<Sextet> {
    if b == [] then []
    else if |b| == 1 then
      var t := Triple(b[0], 0, 0); [SextetOf(t, 0), SextetOf(t, 1)]
    else if |b| == 2 then
      var t := Triple(b[0], b[1], 0); [SextetOf(t, 0), SextetOf(t, 1), SextetOf(t, 2)]
    else
      var t := Triple(b[0], b[1], b[2]);
      [SextetOf(t, 0), SextetOf(t, 1), SextetOf(t, 2), SextetOf(t, 3)] + Pack(b[3..])
  }

  /** A number of sextets that whole bytes fill: not one more than a multiple of four. */
  predicate Sized(n: nat) {
    if n >= 4 then Sized(n - 4) else n != 1
  }

  lemma {:induction false} SizedIsMod(n: nat)
    ensures Sized(n) <==> n % 4 != 1
  {
    if n >= 4 {
      SizedIsMod(n - 4);
    }
  }

  function Unpack(q: seq<Sextet>): seq<Byte>
    requires Sized(|q|)
  {
    if q == [] then []
    else if |q| == 2 then
      [ByteOf(Quad(q[0], q[1], 0, 0), 0)]
    else if |q| == 3 then
      var t := Quad(q[0], q[1], q[2], 0); [ByteOf(t, 0), ByteOf(t, 1)]
    else
      var t := Quad(q[0], q[1], q[2], q[3]);
      [ByteOf(t, 0), ByteOf(t, 1), ByteOf(t, 2)] + Unpack(q[4..])
  }

  lemma {:induction false} PackSized(b: seq<Byte>)
    ensures Sized(|Pack(b)|)
  {
    if |b| > 2 {
      PackSized(b[3..]);
    }
  }

  /** Read as one number, the four and the three are the same 24 bits. */
  predicate SameBits(p: int, q: int, r: int, s: int, a: int, b: int, c: int) {
    ((p * 64 + q) * 64 + r) * 64 + s == (a * 256 + b) * 256 + c
  }

  /** Where the bits go: four sextets are the three bytes they come from, most significant first; the
      last two bytes are followed by two zero bits, a last single one by four. */
  lemma {:induction false} PackMeaning(b: seq<Byte>)
    ensures var q := Pack(b);
      && (|b| == 0 ==> q == [])
      && (|b| == 1 ==> |q| == 2 && SameBits(q[0], q[1], 0, 0, b[0], 0, 0))
      && (|b| == 2 ==> |q| == 3 && SameBits(q[0], q[1], q[2], 0, b[0], b[1], 0))
      && (|b| >= 3 ==> |q| >= 4 && SameBits(q[0], q[1], q[2], q[3], b[0], b[1], b[2]) && q[4..] == Pack(b[3..]))
  {
    if b != [] {
      var y: Byte := if |b| > 1 then b[1] else 0;
      var z: Byte := if |b| > 2 then b[2] else 0;
      BlockRoundTrip(b[0], y, z);
    }
  }

  /** A block of three bytes survives; the last sextets of a shorter block are zero. */
  lemma {:induction false} BlockRoundTrip(a: Byte, b: Byte, c: Byte)
    ensures var t := Triple(a, b, c);
            && Quad(SextetOf(t, 0), SextetOf(t, 1), SextetOf(t, 2), SextetOf(t, 3)) == t
            && (c == 0 ==> SextetOf(t, 3) == 0)
            && (b == 0 && c == 0 ==> SextetOf(t, 2) == 0 && SextetOf(t, 3) == 0)
  {
    var t := Triple(a, b, c);
    Bits24(t);
    QuadOfSextets(t);
    if c == 0 {
      Div64((a * 256 + b) * 4, 0);
      if b == 0 {
        Div64(a * 16, 0);
      }
    }
  }

  lemma {:induction false} UnpackPack(b: seq<Byte>)
    ensures Sized(|Pack(b)|) && Unpack(Pack(b)) == b
  {
    PackSized(b);
    if b == [] {
    } else if |b| == 1 {
      BlockRoundTrip(b[0], 0, 0);
      BytesOfTriple(b[0], 0, 0);
    } else if |b| == 2 {
      BlockRoundTrip(b[0], b[1], 0);
      BytesOfTriple(b[0], b[1], 0);
    } else {
      BlockRoundTrip(b[0], b[1], b[2]);
      BytesOfTriple(b[0], b[1], b[2]);
      UnpackPack(b[3..]);
      assert Pack(b)[4..] == Pack(b[3..]);
      assert b == [b[0], b[1], b[2]] + b[3..];
    }
  }

  /** The bits of the last sextet that no byte uses: 4 after two sextets, 2 after three
      (section 3.5 of RFC 4648). */
  function Slack(n: nat): (d: nat)
    ensures d > 0
  {
    if n >= 4 then Slack(n - 4) else if n == 2 then 16 else if n == 3 then 4 else 1
  }

  predicate SameUpToSlack(q: seq<Sextet>, q': seq<Sextet>) {
    && |q| == |q'|
    && (q != [] ==> q[..|q| - 1] == q'[..|q| - 1] && q[|q| - 1] / Slack(|q|) == q'[|q| - 1] / Slack(|q|))
  }

  /** Where the bits of a block go. */
  lemma {:induction false} QuadBytes(p: Sextet, q: Sextet, r: Sextet, s: Sextet)
    ensures var t := Quad(p, q, r, s);
            && ByteOf(t, 0) == p * 4 + q / 16
            && ByteOf(t, 1) == q % 16 * 16 + r / 4
            && ByteOf(t, 2) == r % 4 * 64 + s
  {
    var a: Byte, b: Byte, c: Byte := p * 4 + q / 16, q % 16 * 16 + r / 4, r % 4 * 64 + s;
    assert q == q / 16 * 16 + q % 16 && r == r / 4 * 4 + r % 4;
    assert Quad(p, q, r, s) == Triple(a, b, c);
    BytesOfTriple(a, b, c);
  }

  /** The number of bytes tells the number of sextets. */
  lemma {:induction false} UnpackLengths(q: seq<Sextet>, q': seq<Sextet>)
    requires Sized(|q|) && Sized(|q'|) && |Unpack(q)| == |Unpack(q')|
    ensures |q| == |q'|
  {
    if |q| >= 4 && |q'| >= 4 {
      UnpackLengths(q[4..], q'[4..]);
    }
  }

  lemma {:induction false} UnpackEqualIff(q: seq<Sextet>, q': seq<Sextet>)
    requires Sized(|q|) && Sized(|q'|)
    ensures Unpack(q) == Unpack(q') <==> SameUpToSlack(q, q')
  {
    if Unpack(q) == Unpack(q') {
      UnpackLengths(q, q');
    }
    if |q| == |q'| {
      UnpackEqualSameLength(q, q');
    }
  }

  lemma {:induction false} Digits4(x: nat, y: nat, x': nat, y': nat)
    requires y < 4 && y' < 4
    ensures x * 4 + y == x' * 4 + y' <==> x == x' && y == y'
  {
  }

  lemma {:induction false} Digits16(x: nat, y: nat, x': nat, y': nat)
    requires y < 16 && y' < 16
    ensures x * 16 + y == x' * 16 + y' <==> x == x' && y == y'
  {
  }

  lemma {:induction false} Nibbles(q: Sextet, q': Sextet)
    ensures q == q' <==> q / 16 == q' / 16 && q % 16 == q' % 16
  {
    assert q == q / 16 * 16 + q % 16 && q' == q' / 16 * 16 + q' % 16;
  }

  lemma {:induction false} TwoBytes(p: Sextet, q: Sextet)
    ensures Unpack([p, q]) == [p * 4 + q / 16]
  {
    QuadBytes(p, q, 0, 0);
  }

  lemma {:induction false} ThreeBytes(p: Sextet, q: Sextet, r: Sextet)
    ensures Unpack([p, q, r]) == [p * 4 + q / 16, q % 16 * 16 + r / 4]
  {
    QuadBytes(p, q, r, 0);
  }

  lemma {:induction false} TwoEqual(p: Sextet, q: Sextet, p': Sextet, q': Sextet)
    ensures Unpack([p, q]) == Unpack([p', q']) <==> p == p' && q / 16 == q' / 16
  {
    TwoBytes(p, q);
    TwoBytes(p', q');
    Digits4(p, q / 16, p', q' / 16);
    assert Unpack([p, q])[0] == p * 4 + q / 16;
  }

  lemma {:induction false} ThreeEqual(p: Sextet, q: Sextet, r: Sextet, p': Sextet, q': Sextet, r': Sextet)
    ensures Unpack([p, q, r]) == Unpack([p', q', r']) <==> p == p' && q == q' && r / 4 == r' / 4
  {
    ThreeBytes(p, q, r);
    ThreeBytes(p', q', r');
    Digits4(p, q / 16, p', q' / 16);
    Digits16(q % 16, r / 4, q' % 16, r' / 4);
    Nibbles(q, q');
    var x := Unpack([p, q, r]);
    assert x[0] == p * 4 + q / 16 && x[1] == q % 16 * 16 + r / 4;
  }

  lemma {:induction false} ConsBlock<T>(a: seq<T>, b: seq<T>, c: seq<T>, d: seq<T>)
    requires |a| == |c|
    ensures a + b == c + d <==> a == c && b == d
  {
    assert (a + b)[..|a|] == a && (a + b)[|a|..] == b && (c + d)[..|a|] == c && (c + d)[|a|..] == d;
  }

  lemma {:induction false} UnpackEqualSameLength(q: seq<Sextet>, q': seq<Sextet>)
    requires |q| == |q'| && Sized(|q|)
    ensures Unpack(q) == Unpack(q') <==> SameUpToSlack(q, q')
  {
    if q == [] {
    } else if |q| == 2 {
      TwoEqual(q[0], q[1], q'[0], q'[1]);
      assert q == [q[0], q[1]] && q' == [q'[0], q'[1]] && q[..1] == [q[0]] && q'[..1] == [q'[0]];
    } else if |q| == 3 {
      ThreeEqual(q[0], q[1], q[2], q'[0], q'[1], q'[2]);
      assert q == [q[0], q[1], q[2]] && q' == [q'[0], q'[1], q'[2]];
      assert q[..2] == [q[0], q[1]] && q'[..2] == [q'[0], q'[1]];
    } else {
      BlockEqual(q[0], q[1], q[2], q[3], q'[0], q'[1], q'[2], q'[3]);
      UnpackEqualSameLength(q[4..], q'[4..]);
      SlackOfTail(q, q');
      var t, t' := Quad(q[0], q[1], q[2], q[3]), Quad(q'[0], q'[1], q'[2], q'[3]);
      ConsBlock([ByteOf(t, 0), ByteOf(t, 1), ByteOf(t, 2)], Unpack(q[4..]),
                [ByteOf(t', 0), ByteOf(t', 1), ByteOf(t', 2)], Unpack(q'[4..]));
    }
  }

  lemma {:induction false} BlockEqual(p: Sextet, q: Sextet, r: Sextet, s: Sextet, p': Sextet, q': Sextet, r': Sextet, s': Sextet)
    ensures var t, t' := Quad(p, q, r, s), Quad(p', q', r', s');
            (ByteOf(t, 0) == ByteOf(t', 0) && ByteOf(t, 1) == ByteOf(t', 1) && ByteOf(t, 2) == ByteOf(t', 2))
            <==> (p == p' && q == q' && r == r' && s == s')
  {
    var t, t' := Quad(p, q, r, s), Quad(p', q', r', s');
    if ByteOf(t, 0) == ByteOf(t', 0) && ByteOf(t, 1) == ByteOf(t', 1) && ByteOf(t, 2) == ByteOf(t', 2) {
      Bits24(t);
      Bits24(t');
      TripleOfBytes(t);
      TripleOfBytes(t');
      SextetsOfQuad(p, q, r, s);
      SextetsOfQuad(p', q', r', s');
    }
  }

  lemma {:induction false} SlackOfTail(q: seq<Sextet>, q': seq<Sextet>)
    requires |q| == |q'| >= 4
    ensures SameUpToSlack(q, q') <==>
            q[0] == q'[0] && q[1] == q'[1] && q[2] == q'[2] && q[3] == q'[3] && SameUpToSlack(q[4..], q'[4..])
  {
    var n := |q|;
    if n == 4 {
      assert q[..3] == [q[0], q[1], q[2]] && q'[..3] == [q'[0], q'[1], q'[2]];
    } else {
      var a, b, c, d := q[..n - 1], q'[..n - 1], q[4..][..n - 5], q'[4..][..n - 5];
      assert a == q[..4] + c && b == q'[..4] + d;
      assert q[..4] == [q[0], q[1], q[2], q[3]] && q'[..4] == [q'[0], q'[1], q'[2], q'[3]];
      assert a[4..] == c && b[4..] == d && a[..4] == q[..4] && b[..4] == q'[..4];
    }
  }

  // ----- text -----

  function Repeat(s: string, n: nat): string {
    if n == 0 then "" else s + Repeat(s, n - 1)
  }

  function Chars(a: Alphabet, q: seq<Sextet>): (s: string)
    requires |a.data| == 64
    ensures |s| == |q| && forall i :: 0 <= i < |q| ==> s[i] == a.data[q[i]]
  {
    seq(|q|, i requires 0 <= i < |q| => a.data[q[i]])
  }

  predicate AllInAlphabet(a: Alphabet, s: string) {
    forall i :: 0 <= i < |s| ==> s[i] in a.data
  }

  function Sextets(a: Alphabet, s: string): (q: seq<Sextet>)
    requires |a.data| == 64 && AllInAlphabet(a, s)
    ensures |q| == |s| && forall i :: 0 <= i < |s| ==> a.data[q[i]] == s[i]
  {
    seq(|s|, i requires 0 <= i < |s| => IndexOf(a.data, s[i], 0))
  }

  lemma {:induction false} SextetsOfChars(a: Alphabet, q: seq<Sextet>)
    requires Valid(a)
    ensures AllInAlphabet(a, Chars(a, q)) && Sextets(a, Chars(a, q)) == q
  {
    var q' := Sextets(a, Chars(a, q));
    forall i | 0 <= i < |q| ensures q'[i] == q[i] {
      assert a.data[q'[i]] == a.data[q[i]];
    }
  }

  function FillCount(n: nat): nat {
    if n >= 3 then FillCount(n - 3) else if n == 0 then 0 else 3 - n
  }

  lemma {:induction false} FillCountIsMod(n: nat)
    ensures FillCount(n) == if n % 3 == 0 then 0 else 3 - n % 3
  {
    if n >= 3 {
      FillCountIsMod(n - 3);
    }
  }

  function Encoded(a: Alphabet, b: seq<Byte>): string
    requires |a.data| == 64
  {
    Chars(a, Pack(b)) + Repeat(a.fill, FillCount(|b|))
  }

  /** The loop that takes fills off the end: a third one is an error, and the text never shrinks
      to nothing. Returns what is left and how many were taken. */
  function StripFills(fill: string, s: string, count: nat): Option<(string, nat)>
    requires fill != ""
    decreases |s|
  {
    if |s| > |fill| && s[|s| - |fill|..] == fill then
      if count + 1 > 2 then None else StripFills(fill, s[..|s| - |fill|], count + 1)
    else Some((s, count))
  }

  function Decoded(a: Alphabet, s: string): Option<seq<Byte>>
    requires |a.data| == 64 && a.fill != ""
  {
    match StripFills(a.fill, s, 0)
    case None => None
    case Some((body, fills)) =>
      if !Fits(|body|, fills) || !AllInAlphabet(a, body) then None
      else Some(Unpack(Sextets(a, body)))
  }

  /** What decoding accepts: letters, then at most two fills, to a multiple of four. */
  predicate IsText(a: Alphabet, s: string, body: string, fills: nat) {
    s == body + Repeat(a.fill, fills) && AllInAlphabet(a, body) && Fits(|body|, fills)
  }

  predicate Fits(n: nat, fills: nat)
    ensures Fits(n, fills) ==> Sized(n)
  {
    if n >= 4 then Fits(n - 4, fills)
    else (n == 0 && fills == 0) || (n == 3 && fills == 1) || (n == 2 && fills == 2)
  }

  /** The test the source makes, after at most two fills were taken off. */
  lemma {:induction false} FitsIsMod(n: nat, fills: nat)
    requires fills <= 2
    ensures Fits(n, fills) <==> (n + fills) % 4 == 0
  {
    if n >= 4 {
      FitsIsMod(n - 4, fills);
      FourMore(n - 4 + fills);
    }
  }

  lemma {:induction false} FourMore(n: nat)
    ensures (n + 4) % 4 == n % 4
  {
  }

  lemma {:induction false} RepeatSnoc(s: string, n: nat)
    ensures Repeat(s, n + 1) == Repeat(s, n) + s
    ensures |Repeat(s, n)| == n * |s|
  {
    if n > 0 {
      RepeatSnoc(s, n - 1);
      Assoc(s, Repeat(s, n - 1), s);
    }
  }

  lemma {:induction false} StripFinds(a: Alphabet, body: string, fills: nat, count: nat)
    requires Shaped(a) && AllInAlphabet(a, body) && count + fills <= 2
    requires fills > 0 ==> body != ""
    ensures StripFills(a.fill, body + Repeat(a.fill, fills), count) == Some((body, count + fills))
    decreases fills
  {
    if fills == 0 {
      assert body + "" == body;
      if |body| > |a.fill| {
        assert body[|body| - |a.fill|..][0] == body[|body| - |a.fill|] != a.fill[0];
      }
    } else {
      var s := body + Repeat(a.fill, fills);
      RepeatSnoc(a.fill, fills - 1);
      Assoc(body, Repeat(a.fill, fills - 1), a.fill);
      var s' := body + Repeat(a.fill, fills - 1);
      assert s[|s| - |a.fill|..] == a.fill && s[..|s| - |a.fill|] == s';
      StripFinds(a, body, fills - 1, count + 1);
    }
  }

  lemma {:induction false} StripGives(fill: string, s: string, count: nat)
    requires fill != "" && count <= 2
    ensures match StripFills(fill, s, count)
            case None => true
            case Some((body, n)) => count <= n <= 2 && s == body + Repeat(fill, n - count)
    decreases |s|
  {
    if |s| > |fill| && s[|s| - |fill|..] == fill && count + 1 <= 2 {
      var s' := s[..|s| - |fill|];
      StripGives(fill, s', count + 1);
      match StripFills(fill, s', count + 1)
      case None =>
      case Some((body, n)) =>
        RepeatSnoc(fill, n - count - 1);
        assert s == s' + fill;
        Assoc(body, Repeat(fill, n - count - 1), fill);
    } else {
      assert s + "" == s;
    }
  }

  lemma {:induction false} FitsShape(n: nat, fills: nat)
    requires Fits(n, fills)
    ensures fills <= 2 && (fills > 0 ==> n > 0)
    ensures forall f :: Fits(n, f) ==> f == fills
  {
    if n >= 4 {
      FitsShape(n - 4, fills);
    }
  }

  /** Decoding succeeds exactly on such texts, and the body and the fill count are then unique. */
  lemma {:induction false} DecodedMeaning(a: Alphabet, s: string, body: string, fills: nat)
    requires Shaped(a) && IsText(a, s, body, fills)
    ensures Decoded(a, s) == Some(Unpack(Sextets(a, body)))
    ensures StripFills(a.fill, s, 0) == Some((body, fills))
  {
    TextStrips(a, body, fills);
    DecodedFrom(a, s, body, fills);
  }

  lemma {:induction false} TextStrips(a: Alphabet, body: string, fills: nat)
    requires Shaped(a) && AllInAlphabet(a, body) && Fits(|body|, fills)
    ensures StripFills(a.fill, body + Repeat(a.fill, fills), 0) == Some((body, fills))
  {
    FitsShape(|body|, fills);
    StripFinds(a, body, fills, 0);
  }

  lemma {:induction false} DecodedFrom(a: Alphabet, s: string, body: string, fills: nat)
    requires Shaped(a) && StripFills(a.fill, s, 0) == Some((body, fills))
    requires Fits(|body|, fills) && AllInAlphabet(a, body)
    ensures Decoded(a, s) == Some(Unpack(Sextets(a, body)))
  {
  }

  predicate IsAccepted(a: Alphabet, s: string, body: string, fills: nat) {
    s == body + Repeat(a.fill, fills) && AllInAlphabet(a, body) && fills <= 2 && (|body| + fills) % 4 == 0
  }

  lemma {:induction false} DecodeAccepted(a: Alphabet, s: string) returns (body: string, fills: nat)
    requires Shaped(a) && Decoded(a, s).Some?
    ensures IsAccepted(a, s, body, fills)
  {
    body, fills := DecodedText(a, s);
    FitsIsMod(|body|, fills);
  }

  lemma {:induction false} DecodedText(a: Alphabet, s: string) returns (body: string, fills: nat)
    requires Shaped(a) && Decoded(a, s).Some?
    ensures IsText(a, s, body, fills) && fills <= 2
  {
    StripGives(a.fill, s, 0);
    body, fills := StripFills(a.fill, s, 0).value.0, StripFills(a.fill, s, 0).value.1;
  }

  lemma {:induction false} AcceptedDecodes(a: Alphabet, s: string, body: string, fills: nat)
    requires Shaped(a) && IsAccepted(a, s, body, fills)
    ensures Decoded(a, s).Some?
  {
    FitsIsMod(|body|, fills);
    DecodedMeaning(a, s, body, fills);
  }

  lemma {:induction false} DecodeAcceptsIff(a: Alphabet, s: string)
    requires Shaped(a)
    ensures Decoded(a, s).Some? <==> exists body: string, fills: nat :: IsAccepted(a, s, body, fills)
  {
    if Decoded(a, s).Some? {
      var body, fills := DecodeAccepted(a, s);
    }
    if exists body: string, fills: nat :: IsAccepted(a, s, body, fills) {
      var body: string, fills: nat :| IsAccepted(a, s, body, fills);
      AcceptedDecodes(a, s, body, fills);
    }
  }

  lemma {:induction false} PackFits(b: seq<Byte>)
    ensures Fits(|Pack(b)|, FillCount(|b|))
  {
    if |b| > 2 {
      PackFits(b[3..]);
    }
  }

  /** Every byte string comes back. */
  lemma {:induction false} RoundTrip(a: Alphabet, b: seq<Byte>)
    requires Valid(a)
    ensures Decoded(a, Encoded(a, b)) == Some(b)
  {
    UnpackPack(b);
    SextetsOfChars(a, Pack(b));
    PackFits(b);
    DecodedMeaning(a, Encoded(a, b), Chars(a, Pack(b)), FillCount(|b|));
  }

  /** Two accepted texts mean the same bytes exactly when they have as many fills and agree up to
      the unused low bits of the last letter. */
  lemma {:induction false} DecodeEqualIff(a: Alphabet, s: string, body: string, fills: nat, s': string, body': string, fills': nat)
    requires Shaped(a) && IsText(a, s, body, fills) && IsText(a, s', body', fills')
    ensures Decoded(a, s) == Decoded(a, s') <==>
            fills == fills' && SameUpToSlack(Sextets(a, body), Sextets(a, body'))
  {
    DecodedMeaning(a, s, body, fills);
    DecodedMeaning(a, s', body', fills');
    UnpackEqualIff(Sextets(a, body), Sextets(a, body'));
    if |body| == |body'| {
      FitsShape(|body|, fills);
    }
  }

  // ----- the two alphabets -----

  predicate IsAlnum(c: char) {
    '0' <= c <= '9' || 'A' <= c <= 'Z' || 'a' <= c <= 'z'
  }

  lemma {:induction false} LettersDistinct(c62: char, c63: char)
    requires c62 != c63 && !IsAlnum(c62) && !IsAlnum(c63)
    ensures Distinct(Letters(c62, c63))
    ensures forall c :: c in Letters(c62, c63) ==> IsAlnum(c) || c == c62 || c == c63
  {
    var data := Letters(c62, c63);
    forall i, j | 0 <= i < j < 64 ensures data[i] != data[j] {
      assert data[i] == LetterOf(i, c62, c63) && data[j] == LetterOf(j, c62, c63);
    }
  }

  lemma {:induction false} AtOfFour(a: string, b: string, c: string, d: string, i: nat)
    requires i < |a + b + c + d|
    ensures (a + b + c + d)[i]
      == if i < |a| then a[i]
         else if i < |a + b| then b[i - |a|]
         else if i < |a + b + c| then c[i - |a + b|] else d[i - |a + b + c|]
  {
  }

  lemma {:induction false} LetterAt(c62: char, c63: char, i: nat)
    requires i < 64
    ensures LetterOf(i, c62, c63)
      == if i < 26 then UPPER[i] else if i < 52 then LOWER[i - 26] else if i < 62 then DIGITS[i - 52] else [c62, c63][i - 62]
  {
    if i < 26 {
      UpperAt(i);
    } else if i < 52 {
      LowerAt(i - 26);
    } else if i < 62 {
      DigitAt(i - 52);
    }
  }

  lemma {:induction false} SizesOfThree()
    ensures |UPPER| == 26 && |UPPER + LOWER| == 52 && |UPPER + LOWER + DIGITS| == 62
  {
  }

  /** Capitals, small letters, digits, each in their order, then two more characters. */
  lemma {:induction false} LettersAre(c62: char, c63: char)
    ensures Letters(c62, c63) == UPPER + LOWER + DIGITS + [c62, c63]
  {
    SizesOfThree();
    forall i | 0 <= i < 64 ensures LetterOf(i, c62, c63) == (UPPER + LOWER + DIGITS + [c62, c63])[i] {
      LetterAt(c62, c63, i);
      AtOfFour(UPPER, LOWER, DIGITS, [c62, c63], i);
    }
  }

  lemma {:induction false} AlphabetsAreValid()
    ensures Valid(BASE64) && Valid(BASE64URL)
    ensures BASE64 == Alphabet(UPPER + LOWER + DIGITS + ['+', '/'], "=")
    ensures BASE64URL == Alphabet(UPPER + LOWER + DIGITS + ['-', '_'], "%3d")
  {
    LettersAre('+', '/');
    LettersAre('-', '_');
    LettersDistinct('+', '/');
    LettersDistinct('-', '_');
  }

  // ----- the loops -----

  lemma {:induction false} EncodedStep(a: Alphabet, b: seq<Byte>)
    requires |a.data| == 64 && |b| >= 3
    ensures var t := Triple(b[0], b[1], b[2]);
            Encoded(a, b) ==
            [a.data[SextetOf(t, 0)], a.data[SextetOf(t, 1)], a.data[SextetOf(t, 2)], a.data[SextetOf(t, 3)]]
            + Encoded(a, b[3..])
  {
    var t := Triple(b[0], b[1], b[2]);
    var four := [SextetOf(t, 0), SextetOf(t, 1), SextetOf(t, 2), SextetOf(t, 3)];
    assert Pack(b) == four + Pack(b[3..]);
    assert Chars(a, Pack(b)) == Chars(a, four) + Chars(a, Pack(b[3..]));
    Assoc(Chars(a, four), Chars(a, Pack(b[3..])), Repeat(a.fill, FillCount(|b|)));
  }

  /** `base::encode` */
  method Encode(a: Alphabet, bin: seq<Byte>) returns (res: string)
    requires |a.data| == 64
    ensures res == Encoded(a, bin)
  {
    var size := |bin|;
    res := "";
    var fast := size - size % 3;
    var i := 0;
    ghost var k := size / 3;
    while i < fast
      invariant 0 <= i <= fast <= size < fast + 3 && fast - i == 3 * k && k >= 0
      invariant res + Encoded(a, bin[i..]) == Encoded(a, bin)
    {
      EncodedStep(a, bin[i..]);
      assert bin[i..][3..] == bin[i + 3..];
      var triple := Triple(bin[i], bin[i + 1], bin[i + 2]);
      var four := [a.data[SextetOf(triple, 0)], a.data[SextetOf(triple, 1)],
                   a.data[SextetOf(triple, 2)], a.data[SextetOf(triple, 3)]];
      Assoc(res, four, Encoded(a, bin[i + 3..]));
      res := res + four;
      i := i + 3;
      k := k - 1;
    }
    res := EncodeTail(a, res, bin[i..]);
  }

  lemma {:induction false} EncodedOne(a: Alphabet, x: Byte)
    requires |a.data| == 64
    ensures var t := Triple(x, 0, 0);
      Encoded(a, [x]) == [a.data[SextetOf(t, 0)], a.data[SextetOf(t, 1)]] + (a.fill + a.fill)
  {
    assert Repeat(a.fill, 1) == a.fill + "" == a.fill;
    assert Repeat(a.fill, 2) == a.fill + Repeat(a.fill, 1);
  }

  lemma {:induction false} EncodedTwo(a: Alphabet, x: Byte, y: Byte)
    requires |a.data| == 64
    ensures var t := Triple(x, y, 0);
      Encoded(a, [x, y]) == [a.data[SextetOf(t, 0)], a.data[SextetOf(t, 1)], a.data[SextetOf(t, 2)]] + a.fill
  {
    assert Repeat(a.fill, 1) == a.fill + "" == a.fill;
  }

  lemma {:induction false} AppendOneByOne(head: string, p: char, q: char, r: string, s: string)
    ensures head + [p] + [q] + r + s == head + ([p, q] + (r + s))
  {
    var h := head + [p] + [q];
    assert h == head + [p, q];
    Assoc(h, r, s);
    Assoc(head, [p, q], r + s);
  }

  /** The incomplete block, if there is one. */
  method EncodeTail(a: Alphabet, head: string, tail: seq<Byte>) returns (res: string)
    requires |a.data| == 64 && |tail| < 3
    ensures res == head + Encoded(a, tail)
  {
    res := head;
    if tail == [] {
      assert Encoded(a, tail) == "" + "";
      return;
    }
    var triple := Triple(tail[0], if |tail| > 1 then tail[1] else 0, 0);
    res := res + [a.data[SextetOf(triple, 0)]];
    res := res + [a.data[SextetOf(triple, 1)]];
    if |tail| == 1 {
      res := res + a.fill;
      res := res + a.fill;
      AppendOneByOne(head, a.data[SextetOf(triple, 0)], a.data[SextetOf(triple, 1)], a.fill, a.fill);
      EncodedOne(a, tail[0]);
      assert tail == [tail[0]];
    } else {
      res := res + [a.data[SextetOf(triple, 2)]];
      res := res + a.fill;
      var third := [a.data[SextetOf(triple, 2)]];
      AppendOneByOne(head, a.data[SextetOf(triple, 0)], a.data[SextetOf(triple, 1)], third, a.fill);
      EncodedTwo(a, tail[0], tail[1]);
      assert tail == [tail[0], tail[1]];
      Assoc([a.data[SextetOf(triple, 0)], a.data[SextetOf(triple, 1)]], third, a.fill);
    }
  }

  /** The search for a character in the alphabet. */
  method GetSextet(a: Alphabet, c: char) returns (q: Option<Sextet>)
    requires |a.data| == 64
    ensures q == if c in a.data then Some(IndexOf(a.data, c, 0)) else None
  {
    var i := 0;
    while i < 64
      invariant 0 <= i <= 64
      invariant forall k :: 0 <= k < i ==> a.data[k] != c
    {
      if a.data[i] == c {
        IndexOfIs(a.data, c, 0, i);
        return Some(i);
      }
      i := i + 1;
    }
    return None;
  }

  /** The first `n` letters of a block, or nothing if one is not in the alphabet. */
  method GetSextets(a: Alphabet, s: string) returns (q: Option<seq<Sextet>>)
    requires |a.data| == 64
    ensures q == if AllInAlphabet(a, s) then Some(Sextets(a, s)) else None
  {
    var res: seq<Sextet> := [];
    var i := 0;
    while i < |s|
      invariant 0 <= i <= |s| && AllInAlphabet(a, s[..i]) && res == Sextets(a, s[..i])
    {
      var x := GetSextet(a, s[i]);
      if x.None? {
        return None;
      }
      assert s[..i + 1] == s[..i] + [s[i]];
      res := res + [x.value];
      i := i + 1;
    }
    assert s[..i] == s;
    return Some(res);
  }

  /** What decoding still yields with `res` written and the letters `t` ahead. */
  function Remaining(a: Alphabet, res: seq<Byte>, t: string): Option<seq<Byte>>
    requires |a.data| == 64 && Sized(|t|)
  {
    if AllInAlphabet(a, t) then Some(res + Unpack(Sextets(a, t))) else None
  }

  function BlockBytes(q: seq<Sextet>): seq<Byte>
    requires |q| == 4
  {
    var t := Quad(q[0], q[1], q[2], q[3]);
    [ByteOf(t, 0), ByteOf(t, 1), ByteOf(t, 2)]
  }

  lemma {:induction false} AllInSplit(a: Alphabet, t: string)
    requires |t| >= 4
    ensures AllInAlphabet(a, t) <==> AllInAlphabet(a, t[..4]) && AllInAlphabet(a, t[4..])
  {
    assert forall i :: 0 <= i < 4 ==> t[..4][i] == t[i];
    assert forall i :: 0 <= i < |t[4..]| ==> t[4..][i] == t[i + 4];
    assert forall i :: 4 <= i < |t| ==> t[i] == t[4..][i - 4];
  }

  lemma {:induction false} RemainingStep(a: Alphabet, res: seq<Byte>, t: string)
    requires |a.data| == 64 && Sized(|t|) && |t| >= 4
    ensures AllInAlphabet(a, t[..4]) ==>
              Remaining(a, res, t) == Remaining(a, res + BlockBytes(Sextets(a, t[..4])), t[4..])
    ensures !AllInAlphabet(a, t[..4]) ==> Remaining(a, res, t) == None
  {
    AllInSplit(a, t);
    if AllInAlphabet(a, t) {
      var q := Sextets(a, t);
      assert q[4..] == Sextets(a, t[4..]) && q[..4] == Sextets(a, t[..4]);
      Assoc(res, BlockBytes(Sextets(a, t[..4])), Unpack(q[4..]));
    }
  }

  /** The loop that takes fills off. */
  method CountFills(fill: string, base: string) returns (r: Option<(nat, nat)>)
    requires fill != ""
    ensures match StripFills(fill, base, 0)
            case None => r == None
            case Some((body, n)) => r == Some((|body|, n)) && |body| <= |base| && base[..|body|] == body
  {
    var size, count := |base|, 0;
    assert base[..size] == base;
    while size > |fill|
      invariant 0 <= size <= |base| && count <= 2
      invariant StripFills(fill, base[..size], count) == StripFills(fill, base, 0)
    {
      if base[size - |fill|..size] == fill {
        assert base[..size][size - |fill|..] == base[size - |fill|..size];
        assert base[..size][..size - |fill|] == base[..size - |fill|];
        count := count + 1;
        size := size - |fill|;
        if count > 2 {
          return None;
        }
      } else {
        assert base[..size][size - |fill|..] == base[size - |fill|..size];
        break;
      }
    }
    return Some((size, count));
  }

  /** `base::decode` */
  method Decode(a: Alphabet, base: string) returns (res: Option<seq<Byte>>)
    requires |a.data| == 64 && a.fill != ""
    ensures res == Decoded(a, base)
  {
    StripGives(a.fill, base, 0);
    var counted := CountFills(a.fill, base);
    if counted.None? {
      return None;
    }
    var (size, fills) := counted.value;
    FitsIsMod(size, fills);
    if (size + fills) % 4 != 0 {
      return None;
    }
    res := DecodeBody(a, base[..size]);
  }

  lemma {:induction false} RemainingAll(a: Alphabet, body: string)
    requires |a.data| == 64 && Sized(|body|)
    ensures Remaining(a, [], body) == if AllInAlphabet(a, body) then Some(Unpack(Sextets(a, body))) else None
  {
    if AllInAlphabet(a, body) {
      assert [] + Unpack(Sextets(a, body)) == Unpack(Sextets(a, body));
    }
  }

  lemma {:induction false} SizedLess(n: nat)
    requires n >= 4
    ensures Sized(n) <==> Sized(n - 4)
  {
  }

  method DecodeBody(a: Alphabet, body: string) returns (res: Option<seq<Byte>>)
    requires |a.data| == 64 && Sized(|body|)
    ensures res == if AllInAlphabet(a, body) then Some(Unpack(Sextets(a, body))) else None
  {
    var out: seq<Byte> := [];
    var i := 0;
    ghost var rest := body;
    while i + 4 <= |body|
      invariant 0 <= i <= |body| && rest == body[i..] && Sized(|rest|)
      invariant Remaining(a, [], body) == Remaining(a, out, rest)
    {
      RemainingStep(a, out, rest);
      assert rest[..4] == body[i..i + 4];
      SizedLess(|rest|);
      rest := rest[4..];
      var q := GetSextets(a, body[i..i + 4]);
      if q.None? {
        return None;
      }
      out := out + BlockBytes(q.value);
      i := i + 4;
    }
    res := DecodeTail(a, out, body[i..]);
    RemainingAll(a, body);
  }

  /** The incomplete block, if there is one. */
  method DecodeTail(a: Alphabet, head: seq<Byte>, tail: string) returns (res: Option<seq<Byte>>)
    requires |a.data| == 64 && |tail| < 4 && Sized(|tail|)
    ensures res == Remaining(a, head, tail)
  {
    var q := GetSextets(a, tail);
    if q.None? {
      return None;
    }
    if |tail| == 3 {
      var t := Quad(q.value[0], q.value[1], q.value[2], 0);
      return Some(head + [ByteOf(t, 0), ByteOf(t, 1)]);
    } else if |tail| == 2 {
      return Some(head + [ByteOf(Quad(q.value[0], q.value[1], 0, 0), 0)]);
    }
    assert head + [] == head;
    return Some(head);
  }
}
