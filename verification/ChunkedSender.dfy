/** The uncompressed file sender of `connection`: every write event reads a block of the file and
    emits it as one chunk (section 4.1 of RFC 7230). */
module ChunkedSender {
  import opened Text

  const READ_BUF_SIZE: nat := 10240

  // ----- chunk sizes -----

  function HexDigit(d: nat): char
    requires d < 16
  {
    if d < 10 then ('0' as int + d) as char else ('a' as int + d - 10) as char
  }

  /** `printf("%x")` */
  function Hex(n: nat): (s: string)
    ensures s != ""
  {
    if n < 16 then [HexDigit(n)] else Hex(n / 16) + [HexDigit(n % 16)]
  }

  function ParseHex(s: string): Option<nat> {
    if s == "" then None
    else
      var d := HexValue(s[|s| - 1]);
      if d < 0 then None
      else if |s| == 1 then Some(d)
      else
        match ParseHex(s[..|s| - 1])
        case None => None
        case Some(hi) => Some(hi * 16 + d)
  }

  lemma {:induction false} ParseHexOfHex(n: nat)
    ensures ParseHex(Hex(n)) == Some(n) && CrlfFree(Hex(n)) && Hex(n)[|Hex(n)| - 1] != '\r'
  {
    if n >= 16 {
      ParseHexOfHex(n / 16);
      var hi, d := Hex(n / 16), HexDigit(n % 16);
      assert (hi + [d])[..|hi|] == hi;
      CrlfFreeConcat(hi, [d]);
    }
  }

  // ----- what is sent -----

  function ChunkText(data: string): string {
    Hex(|data|) + CRLF + data + CRLF
  }

  const LAST_CHUNK: string := "0\r\n\r\n"

  /** The blocks `fread` returns. */
  function Blocks(file: string): (r: seq<string>)
    ensures forall b :: b in r ==> 1 <= |b| <= 10240
    decreases |file|
  {
    if file == "" then []
    else if |file| < READ_BUF_SIZE then [file]
    else [file[..READ_BUF_SIZE]] + Blocks(file[READ_BUF_SIZE..])
  }

  function Framed(blocks: seq<string>): string {
    if blocks == [] then LAST_CHUNK else ChunkText(blocks[0]) + Framed(blocks[1..])
  }

  lemma {:induction false} BlocksCover(file: string)
    ensures Concat(Blocks(file)) == file
    decreases |file|
  {
    if |file| >= READ_BUF_SIZE {
      BlocksCover(file[READ_BUF_SIZE..]);
      var head, rest := file[..READ_BUF_SIZE], file[READ_BUF_SIZE..];
      assert ([head] + Blocks(rest))[1..] == Blocks(rest);
      assert head + rest == file;
    } else if file != "" {
      assert [file][1..] == [] && file + "" == file;
    }
  }

  // ----- a receiver -----

  /** A chunked body and what follows it. */
  function Receive(s: string): Option<(string, string)>
    decreases |s|
  {
    match CutLine(s)
    case NoLine => None
    case Line(size, rest) =>
      var n := ParseHex(size);
      if n.None? then None
      else if n.value == 0 then
        if CRLF <= rest then Some(("", rest[2..])) else None
      else if |rest| < n.value + 2 || rest[n.value..n.value + 2] != CRLF then None
      else
        assert |s| == |size| + 2 + |rest|;
        match Receive(rest[n.value + 2..])
        case None => None
        case Some((data, after)) => Some((rest[..n.value] + data, after))
  }

  lemma {:induction false} ReceiveChunk(data: string, more: string)
    requires data != ""
    ensures Receive(ChunkText(data) + more) ==
            match Receive(more) case None => None case Some((d, after)) => Some((data + d, after))
  {
    var n := |data|;
    var rest := data + CRLF + more;
    ParseHexOfHex(n);
    ChunkShape(Hex(n), data, more);
    CutLineOf(Hex(n), rest);
    SliceOf("", data, CRLF + more);
    RestShape(data, more);
  }

  lemma {:induction false} ChunkShape(size: string, data: string, more: string)
    ensures size + CRLF + data + CRLF + more == size + CRLF + (data + CRLF + more)
  {
    Assoc(size + CRLF, data, CRLF);
    Assoc(size + CRLF, data + CRLF, more);
  }

  lemma {:induction false} RestShape(data: string, more: string)
    ensures var rest := data + CRLF + more; var n := |data|;
            rest[..n] == data && rest[n..n + 2] == CRLF && rest[n + 2..] == more
  {
  }

  lemma {:induction false} ReceiveLast(more: string)
    ensures Receive(LAST_CHUNK + more) == Some(("", more))
  {
    assert LAST_CHUNK + more == "0" + CRLF + (CRLF + more);
    CutLineOf("0", CRLF + more);
    assert ParseHex("0") == Some(0);
    assert (CRLF + more)[2..] == more;
  }

  lemma {:induction false} ReceiveFramed(blocks: seq<string>, more: string)
    requires forall i :: 0 <= i < |blocks| ==> |blocks[i]| > 0
    ensures Receive(Framed(blocks) + more) == Some((Concat(blocks), more))
    decreases blocks
  {
    if blocks == [] {
      ReceiveLast(more);
    } else {
      Assoc(ChunkText(blocks[0]), Framed(blocks[1..]), more);
      ReceiveFramed(blocks[1..], more);
      ReceiveChunk(blocks[0], Framed(blocks[1..]) + more);
    }
  }

  /** A receiver gets exactly the file, and stops right after the one terminating chunk. */
  lemma {:induction false} FileArrives(file: string, more: string)
    ensures Receive(Framed(Blocks(file)) + more) == Some((file, more))
  {
    BlocksCover(file);
    assert forall i :: 0 <= i < |Blocks(file)| ==> Blocks(file)[i] in Blocks(file);
    ReceiveFramed(Blocks(file), more);
  }

  // ----- the write events -----

  class Sender {
    var rest: string
    var eof: bool
    var out: string
    var sending: bool

    constructor (file: string, out: string)
      ensures rest == file && !eof && this.out == out && sending
    {
      rest, eof, this.out, sending := file, false, out, true;
    }

    /** `fread`: a short count means the end of the file was seen. */
    method Read() returns (data: string)
      modifies `rest, `eof
      ensures data == if |old(rest)| < READ_BUF_SIZE then old(rest) else old(rest)[..READ_BUF_SIZE]
      ensures rest == old(rest)[|data|..]
      ensures eof == (old(eof) || |data| < READ_BUF_SIZE)
    {
      var n := if |rest| < READ_BUF_SIZE then |rest| else READ_BUF_SIZE;
      data := rest[..n];
      rest := rest[n..];
      if n < READ_BUF_SIZE {
        eof := true;
      }
    }

    method SendChunk(chunk: string)
      modifies `out
      ensures out == if chunk == "" then old(out) else old(out) + ChunkText(chunk)
    {
      if |chunk| == 0 {
        return;
      }
      out := out + (Hex(|chunk|) + CRLF);
      out := out + chunk;
      out := out + CRLF;
      assert out == old(out) + ChunkText(chunk);
    }

    /** One write event. */
    method SendFileChunk()
      requires sending && !eof
      modifies this
      ensures sending == !eof
      ensures eof <==> |old(rest)| < READ_BUF_SIZE
      ensures !eof ==> rest == old(rest)[READ_BUF_SIZE..]
      ensures out + (if sending then Framed(Blocks(rest)) else "") == old(out) + Framed(Blocks(old(rest)))
    {
      ghost var out0, file := out, rest;
      SendBlock();
      if eof {
        out := out + LAST_CHUNK;
        sending := false;
        ShortFramed(out0, file);
      } else {
        LongFramed(out0, file);
      }
    }

    /** The block that is read, framed. */
    method SendBlock()
      requires !eof
      modifies `rest, `eof, `out
      ensures eof <==> |old(rest)| < READ_BUF_SIZE
      ensures eof ==> out == if old(rest) == "" then old(out) else old(out) + ChunkText(old(rest))
      ensures !eof ==>
        out == old(out) + ChunkText(old(rest)[..READ_BUF_SIZE]) && rest == old(rest)[READ_BUF_SIZE..]
    {
      var data := Read();
      if data != "" {
        SendChunk(data);
      }
    }

    /** All the write events of one file: the stream is the framed file, after
        floor(size / 10240) + 1 events. */
    method SendFile() returns (events: nat)
      requires sending && !eof
      modifies this
      ensures !sending && out == old(out) + Framed(Blocks(old(rest)))
      ensures events == |old(rest)| / 10240 + 1
    {
      events := 0;
      while sending
        invariant sending == !eof
        invariant out + (if sending then Framed(Blocks(rest)) else "") == old(out) + Framed(Blocks(old(rest)))
        invariant sending ==> |old(rest)| == |rest| + events * READ_BUF_SIZE
        invariant !sending ==> events == |old(rest)| / READ_BUF_SIZE + 1
        decreases sending, |rest|
      {
        ghost var n := |rest|;
        SendFileChunk();
        if !sending {
          Quotient(events, n);
        }
        events := events + 1;
      }
      assert out + "" == out;
    }
  }

  lemma {:induction false} Quotient(k: nat, r: nat)
    requires r < READ_BUF_SIZE
    ensures (r + k * READ_BUF_SIZE) / READ_BUF_SIZE == k
  {
  }

  lemma {:induction false} ShortFramed(out: string, file: string)
    requires |file| < READ_BUF_SIZE
    ensures (if file == "" then out else out + ChunkText(file)) + LAST_CHUNK + "" == out + Framed(Blocks(file))
  {
    BlocksShort(file);
    Assoc(out, ChunkText(file), LAST_CHUNK);
    var s := (if file == "" then out else out + ChunkText(file)) + LAST_CHUNK;
    assert s + "" == s;
  }

  lemma {:induction false} LongFramed(out: string, file: string)
    requires |file| >= READ_BUF_SIZE
    ensures out + ChunkText(file[..READ_BUF_SIZE]) + Framed(Blocks(file[READ_BUF_SIZE..])) == out + Framed(Blocks(file))
  {
    BlocksLong(file);
    Assoc(out, ChunkText(file[..READ_BUF_SIZE]), Framed(Blocks(file[READ_BUF_SIZE..])));
  }

  lemma {:induction false} BlocksShort(file: string)
    requires |file| < READ_BUF_SIZE
    ensures Framed(Blocks(file)) == if file == "" then LAST_CHUNK else ChunkText(file) + LAST_CHUNK
  {
    if file != "" {
      var one := [file];
      assert one[1..] == [] && Framed(one) == ChunkText(one[0]) + Framed(one[1..]);
    }
  }

  lemma {:induction false} BlocksLong(file: string)
    requires |file| >= READ_BUF_SIZE
    ensures Framed(Blocks(file)) == ChunkText(file[..READ_BUF_SIZE]) + Framed(Blocks(file[READ_BUF_SIZE..]))
  {
    assert Blocks(file)[1..] == Blocks(file[READ_BUF_SIZE..]);
  }
}
