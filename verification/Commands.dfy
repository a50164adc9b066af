/** `command`: typed values written to a byte buffer and read back through a cursor. */
module Commands {
  import opened Text

  type Bytes = seq<Byte>

  /** `sizeof(size_t)` */
  const SIZE_T: nat := 8

  datatype Type = IntT(width: nat) | StrT | IntListT(width: nat) | StrListT

  datatype Value =
    | IntV(width: nat, n: nat)
    | StrV(text: Bytes)
    | IntListV(width: nat, ns: seq<nat>)
    | StrListV(texts: seq<Bytes>)

  function TypeOf(v: Value): Type {
    match v
    case IntV(w, _) => IntT(w)
    case StrV(_) => StrT
    case IntListV(w, _) => IntListT(w)
    case StrListV(_) => StrListT
  }

  function Pow256(w: nat): (r: nat)
    ensures r > 0
  {
    if w == 0 then 1 else 256 * Pow256(w - 1)
  }

  /** A value that fits its type; every length fits a `size_t`. */
  predicate Fits(v: Value) {
    match v
    case IntV(w, n) => w > 0 && n < Pow256(w)
    case StrV(t) => |t| < Pow256(SIZE_T)
    case IntListV(w, ns) => w > 0 && |ns| < Pow256(SIZE_T) && forall i :: 0 <= i < |ns| ==> ns[i] < Pow256(w)
    case StrListV(ts) => |ts| < Pow256(SIZE_T) && forall i :: 0 <= i < |ts| ==> |ts[i]| < Pow256(SIZE_T)
  }

  // ----- bytes of a value -----

  /** The object representation of an unsigned integer, least significant byte first. */
  function LittleEndian(n: nat, w: nat): (b: Bytes)
    ensures |b| == w
  {
    if w == 0 then [] else [n % 256] + LittleEndian(n / 256, w - 1)
  }

  function FromLittleEndian(b: Bytes): nat {
    if b == [] then 0 else b[0] + 256 * FromLittleEndian(b[1..])
  }

  lemma {:induction false} LittleEndianRoundTrip(n: nat, w: nat)
    requires n < Pow256(w)
    ensures FromLittleEndian(LittleEndian(n, w)) == n
  {
    if w > 0 {
      LittleEndianRoundTrip(n / 256, w - 1);
      assert LittleEndian(n, w)[1..] == LittleEndian(n / 256, w - 1);
    }
  }

  /** The last byte is the most significant one. */
  lemma {:induction false} LastIsHighest(b: Bytes, x: Byte)
    ensures FromLittleEndian(b + [x]) == FromLittleEndian(b) + Pow256(|b|) * x
  {
    if b == [] {
      assert b + [x] == [x] && [x][1..] == [];
    } else {
      assert (b + [x])[1..] == b[1..] + [x];
      LastIsHighest(b[1..], x);
      Scaled(FromLittleEndian(b[1..]), Pow256(|b| - 1), x);
    }
  }

  lemma {:induction false} Scaled(f: nat, p: nat, x: nat)
    ensures 256 * (f + p * x) == 256 * f + 256 * p * x
  {
    assert 256 * (p * x) == 256 * p * x;
  }

  /** A text is preceded by its length in eight bytes, and a list by its count. */
  lemma {:induction false} LengthComesFirst(t: Bytes, w: nat, ns: seq<nat>, ts: seq<Bytes>)
    requires Fits(StrV(t)) && Fits(IntListV(w, ns)) && Fits(StrListV(ts))
    ensures var b := BytesOf(StrV(t)); |b| == 8 + |t| && FromLittleEndian(b[..8]) == |t| && b[8..] == t
    ensures var b := BytesOf(IntListV(w, ns)); |b| == 8 + |ns| * w && FromLittleEndian(b[..8]) == |ns|
    ensures var b := BytesOf(StrListV(ts)); |b| >= 8 && FromLittleEndian(b[..8]) == |ts|
  {
    Prefix8(|t|, t);
    Prefix8(|ns|, IntsBytes(w, ns));
    Prefix8(|ts|, StrsBytes(ts));
    IntsLength(w, ns);
  }

  lemma {:induction false} Prefix8(n: nat, rest: Bytes)
    requires n < Pow256(SIZE_T)
    ensures var b := LittleEndian(n, SIZE_T) + rest; |b| == 8 + |rest| && FromLittleEndian(b[..8]) == n && b[8..] == rest
  {
    LittleEndianRoundTrip(n, SIZE_T);
    var b := LittleEndian(n, SIZE_T) + rest;
    assert b[..8] == LittleEndian(n, SIZE_T);
  }

  lemma {:induction false} IntsLength(w: nat, ns: seq<nat>)
    ensures |IntsBytes(w, ns)| == |ns| * w
  {
    if ns != [] {
      IntsLength(w, ns[1..]);
      assert |ns| * w == (|ns| - 1) * w + w;
    }
  }

  function StrBytes(t: Bytes): Bytes {
    LittleEndian(|t|, SIZE_T) + t
  }

  function IntsBytes(w: nat, ns: seq<nat>): Bytes {
    if ns == [] then [] else LittleEndian(ns[0], w) + IntsBytes(w, ns[1..])
  }

  function StrsBytes(ts: seq<Bytes>): Bytes {
    if ts == [] then [] else StrBytes(ts[0]) + StrsBytes(ts[1..])
  }

  function BytesOf(v: Value): Bytes {
    match v
    case IntV(w, n) => LittleEndian(n, w)
    case StrV(t) => StrBytes(t)
    case IntListV(w, ns) => LittleEndian(|ns|, SIZE_T) + IntsBytes(w, ns)
    case StrListV(ts) => LittleEndian(|ts|, SIZE_T) + StrsBytes(ts)
  }

  // ----- taking a value off the unread bytes -----

  function TakeInt(w: nat, s: Bytes): Option<(nat, Bytes)> {
    if |s| < w then None else Some((FromLittleEndian(s[..w]), s[w..]))
  }

  function TakeStr(s: Bytes): Option<(Bytes, Bytes)> {
    match TakeInt(SIZE_T, s)
    case None => None
    case Some((n, rest)) => if |rest| < n then None else Some((rest[..n], rest[n..]))
  }

  function TakeInts(w: nat, k: nat, s: Bytes): Option<(seq<nat>, Bytes)> {
    if k == 0 then Some(([], s))
    else match TakeInt(w, s)
      case None => None
      case Some((n, rest)) =>
        match TakeInts(w, k - 1, rest)
        case None => None
        case Some((ns, rest')) => Some(([n] + ns, rest'))
  }

  function TakeStrs(k: nat, s: Bytes): Option<(seq<Bytes>, Bytes)> {
    if k == 0 then Some(([], s))
    else match TakeStr(s)
      case None => None
      case Some((t, rest)) =>
        match TakeStrs(k - 1, rest)
        case None => None
        case Some((ts, rest')) => Some(([t] + ts, rest'))
  }

  function Take(t: Type, s: Bytes): Option<(Value, Bytes)> {
    match t
    case IntT(w) => (match TakeInt(w, s) case None => None case Some((n, r)) => Some((IntV(w, n), r)))
    case StrT => (match TakeStr(s) case None => None case Some((b, r)) => Some((StrV(b), r)))
    case IntListT(w) =>
      (match TakeInt(SIZE_T, s)
       case None => None
       case Some((k, r)) =>
         match TakeInts(w, k, r) case None => None case Some((ns, r')) => Some((IntListV(w, ns), r')))
    case StrListT =>
      (match TakeInt(SIZE_T, s)
       case None => None
       case Some((k, r)) =>
         match TakeStrs(k, r) case None => None case Some((ts, r')) => Some((StrListV(ts), r')))
  }

  lemma {:induction false} TakeIntBack(w: nat, n: nat, rest: Bytes)
    requires n < Pow256(w)
    ensures TakeInt(w, LittleEndian(n, w) + rest) == Some((n, rest))
  {
    LittleEndianRoundTrip(n, w);
    var s := LittleEndian(n, w) + rest;
    assert s[..w] == LittleEndian(n, w) && s[w..] == rest;
  }

  lemma {:induction false} TakeStrBack(t: Bytes, rest: Bytes)
    requires |t| < Pow256(SIZE_T)
    ensures TakeStr(StrBytes(t) + rest) == Some((t, rest))
  {
    Assoc(LittleEndian(|t|, SIZE_T), t, rest);
    TakeIntBack(SIZE_T, |t|, t + rest);
    assert (t + rest)[..|t|] == t && (t + rest)[|t|..] == rest;
  }

  lemma {:induction false} TakeIntsBack(w: nat, ns: seq<nat>, rest: Bytes)
    requires forall i :: 0 <= i < |ns| ==> ns[i] < Pow256(w)
    ensures TakeInts(w, |ns|, IntsBytes(w, ns) + rest) == Some((ns, rest))
  {
    if ns == [] {
      assert [] + rest == rest;
    } else {
      Assoc(LittleEndian(ns[0], w), IntsBytes(w, ns[1..]), rest);
      TakeIntBack(w, ns[0], IntsBytes(w, ns[1..]) + rest);
      TakeIntsBack(w, ns[1..], rest);
      assert [ns[0]] + ns[1..] == ns;
    }
  }

  lemma {:induction false} TakeStrsBack(ts: seq<Bytes>, rest: Bytes)
    requires forall i :: 0 <= i < |ts| ==> |ts[i]| < Pow256(SIZE_T)
    ensures TakeStrs(|ts|, StrsBytes(ts) + rest) == Some((ts, rest))
  {
    if ts == [] {
      assert [] + rest == rest;
    } else {
      Assoc(StrBytes(ts[0]), StrsBytes(ts[1..]), rest);
      TakeStrBack(ts[0], StrsBytes(ts[1..]) + rest);
      TakeStrsBack(ts[1..], rest);
      assert [ts[0]] + ts[1..] == ts;
    }
  }

  /** A value is taken back by its type, and nothing of what follows it. */
  lemma {:induction false} TakeBack(v: Value, rest: Bytes)
    requires Fits(v)
    ensures Take(TypeOf(v), BytesOf(v) + rest) == Some((v, rest))
  {
    match v
    case IntV(w, n) => TakeIntBack(w, n, rest);
    case StrV(t) => TakeStrBack(t, rest);
    case IntListV(w, ns) =>
      Assoc(LittleEndian(|ns|, SIZE_T), IntsBytes(w, ns), rest);
      TakeIntBack(SIZE_T, |ns|, IntsBytes(w, ns) + rest);
      TakeIntsBack(w, ns, rest);
    case StrListV(ts) =>
      Assoc(LittleEndian(|ts|, SIZE_T), StrsBytes(ts), rest);
      TakeIntBack(SIZE_T, |ts|, StrsBytes(ts) + rest);
      TakeStrsBack(ts, rest);
  }

  // ----- any run of writes, reads and drains is a queue -----

  datatype Cmd = Cmd(buf: Bytes, rpos: nat)

  datatype Op = Put(v: Value) | Get(t: Type) | Drain

  function Unread(c: Cmd): Bytes {
    if c.rpos <= |c.buf| then c.buf[c.rpos..] else []
  }

  /** One call on the buffer, and the value it returns, if it reads one. */
  function Step(c: Cmd, op: Op): Option<(Cmd, seq<Value>)> {
    match op
    case Put(v) => Some((c.(buf := c.buf + BytesOf(v)), []))
    case Drain => Some((Cmd(Unread(c), 0), []))
    case Get(t) =>
      match Take(t, Unread(c))
      case None => None
      case Some((v, rest)) => if |rest| > |c.buf| then None else Some((c.(rpos := |c.buf| - |rest|), [v]))
  }

  function Run(c: Cmd, ops: seq<Op>): Option<seq<Value>>
    decreases ops
  {
    if ops == [] then Some([])
    else match Step(c, ops[0])
      case None => None
      case Some((c', out)) => match Run(c', ops[1..]) case None => None case Some(more) => Some(out + more)
  }

  /** The same calls on a queue of values: a read takes the first, a drain does nothing. There is
      no answer when the first value has another type. */
  function QueueRun(q: seq<Value>, ops: seq<Op>): Option<seq<Value>>
    decreases ops
  {
    if ops == [] then Some([])
    else match ops[0]
      case Put(v) => QueueRun(q + [v], ops[1..])
      case Drain => QueueRun(q, ops[1..])
      case Get(t) =>
        if q == [] || TypeOf(q[0]) != t then None
        else match QueueRun(q[1..], ops[1..]) case None => None case Some(more) => Some([q[0]] + more)
  }

  function QueueBytes(q: seq<Value>): Bytes {
    if q == [] then [] else BytesOf(q[0]) + QueueBytes(q[1..])
  }

  /** The unread bytes are those of the queue. */
  predicate Holds(c: Cmd, q: seq<Value>) {
    c.rpos <= |c.buf| && Unread(c) == QueueBytes(q) && forall i :: 0 <= i < |q| ==> Fits(q[i])
  }

  lemma {:induction false} QueueSnoc(q: seq<Value>, v: Value)
    ensures QueueBytes(q + [v]) == QueueBytes(q) + BytesOf(v)
  {
    if q == [] {
      var one := [v];
      assert q + [v] == one && one[1..] == [];
      assert QueueBytes(one) == BytesOf(v) + [];
    } else {
      assert (q + [v])[1..] == q[1..] + [v];
      QueueSnoc(q[1..], v);
      Assoc(BytesOf(q[0]), QueueBytes(q[1..]), BytesOf(v));
    }
  }

  lemma {:induction false} AppendUnread(b: Bytes, r: nat, x: Bytes)
    requires r <= |b|
    ensures (b + x)[r..] == b[r..] + x
  {
  }

  lemma {:induction false} PutHolds(c: Cmd, q: seq<Value>, v: Value)
    requires Holds(c, q) && Fits(v)
    ensures Holds(c.(buf := c.buf + BytesOf(v)), q + [v])
  {
    var x := BytesOf(v);
    QueueSnoc(q, v);
    AppendUnread(c.buf, c.rpos, x);
  }

  lemma {:induction false} DropTwice(b: Bytes, i: nat, j: nat)
    requires i <= j <= |b|
    ensures b[i..][j - i..] == b[j..]
  {
  }

  lemma {:induction false} GetHolds(c: Cmd, q: seq<Value>)
    requires Holds(c, q) && q != []
    ensures Step(c, Get(TypeOf(q[0]))).Some?
    ensures var (c', out) := Step(c, Get(TypeOf(q[0]))).value; Holds(c', q[1..]) && out == [q[0]]
  {
    var rest := QueueBytes(q[1..]);
    TakeBack(q[0], rest);
    var n := |c.buf| - |rest|;
    assert |Unread(c)| == |BytesOf(q[0])| + |rest|;
    DropTwice(c.buf, c.rpos, n);
    assert (BytesOf(q[0]) + rest)[|BytesOf(q[0])|..] == rest;
  }

  /** Whatever the interleaving of writes, typed reads and drains, the reads return what a queue
      of the written values would: every value once, in write order. */
  lemma {:induction false} CommandIsQueue(c: Cmd, q: seq<Value>, ops: seq<Op>)
    requires Holds(c, q) && forall i :: 0 <= i < |ops| && ops[i].Put? ==> Fits(ops[i].v)
    requires QueueRun(q, ops).Some?
    ensures Run(c, ops) == QueueRun(q, ops)
    decreases ops
  {
    if ops != [] {
      match ops[0]
      case Put(v) =>
        var c' := c.(buf := c.buf + BytesOf(v));
        PutHolds(c, q, v);
        CommandIsQueue(c', q + [v], ops[1..]);
        NothingFirst(QueueRun(q + [v], ops[1..]).value);
      case Drain =>
        var c' := Cmd(Unread(c), 0);
        assert Unread(c') == Unread(c);
        CommandIsQueue(c', q, ops[1..]);
        NothingFirst(QueueRun(q, ops[1..]).value);
      case Get(t) =>
        GetHolds(c, q);
        CommandIsQueue(Step(c, Get(t)).value.0, q[1..], ops[1..]);
    }
  }

  lemma {:induction false} NothingFirst(vs: seq<Value>)
    ensures [] + vs == vs
  {
  }

  // ----- a drain never shows -----

  predicate SameUnread(c: Cmd, d: Cmd) {
    c.rpos <= |c.buf| && d.rpos <= |d.buf| && Unread(c) == Unread(d)
  }

  /** What is taken leaves a suffix of the unread bytes. */
  lemma {:induction false} TakeIntsLeaves(w: nat, k: nat, s: Bytes)
    requires TakeInts(w, k, s).Some?
    ensures var r := TakeInts(w, k, s).value.1; |r| <= |s| && r == s[|s| - |r|..]
    decreases k
  {
    if k > 0 {
      TakeIntsLeaves(w, k - 1, s[w..]);
    }
  }

  lemma {:induction false} TakeStrsLeaves(k: nat, s: Bytes)
    requires TakeStrs(k, s).Some?
    ensures var r := TakeStrs(k, s).value.1; |r| <= |s| && r == s[|s| - |r|..]
    decreases k
  {
    if k > 0 {
      TakeStrsLeaves(k - 1, TakeStr(s).value.1);
    }
  }

  lemma {:induction false} TakeLeaves(t: Type, s: Bytes)
    requires Take(t, s).Some?
    ensures var r := Take(t, s).value.1; |r| <= |s| && r == s[|s| - |r|..]
  {
    match t
    case IntT(w) =>
    case StrT =>
    case IntListT(w) => TakeIntsLeaves(w, TakeInt(SIZE_T, s).value.0, s[SIZE_T..]);
    case StrListT => TakeStrsLeaves(TakeInt(SIZE_T, s).value.0, s[SIZE_T..]);
  }

  /** After a read the unread bytes are what the read left. */
  lemma {:induction false} GetUnread(c: Cmd, t: Type)
    requires c.rpos <= |c.buf|
    ensures Step(c, Get(t)).Some? <==> Take(t, Unread(c)).Some?
    ensures Step(c, Get(t)).Some? ==>
      var (c', out) := Step(c, Get(t)).value;
      var (v, rest) := Take(t, Unread(c)).value;
      c'.rpos <= |c'.buf| && Unread(c') == rest && out == [v]
  {
    if Take(t, Unread(c)).Some? {
      TakeLeaves(t, Unread(c));
      var rest := Take(t, Unread(c)).value.1;
      var n := |c.buf| - |rest|;
      DropTwice(c.buf, c.rpos, n);
    }
  }

  /** Later reads depend on the unread bytes alone, whatever was read or drained before. */
  lemma {:induction false} OnlyUnreadMatters(c: Cmd, d: Cmd, ops: seq<Op>)
    requires SameUnread(c, d)
    ensures Run(c, ops) == Run(d, ops)
    decreases ops
  {
    if ops != [] {
      match ops[0]
      case Put(v) =>
        AppendUnread(c.buf, c.rpos, BytesOf(v));
        AppendUnread(d.buf, d.rpos, BytesOf(v));
        OnlyUnreadMatters(c.(buf := c.buf + BytesOf(v)), d.(buf := d.buf + BytesOf(v)), ops[1..]);
      case Drain =>
        OnlyUnreadMatters(Cmd(Unread(c), 0), Cmd(Unread(d), 0), ops[1..]);
      case Get(t) =>
        GetUnread(c, t);
        GetUnread(d, t);
        if Step(c, Get(t)).Some? {
          OnlyUnreadMatters(Step(c, Get(t)).value.0, Step(d, Get(t)).value.0, ops[1..]);
        }
    }
  }

  function WithoutDrains(ops: seq<Op>): seq<Op> {
    if ops == [] then []
    else (if ops[0].Drain? then [] else [ops[0]]) + WithoutDrains(ops[1..])
  }

  /** Draining at any points of any run, on any bytes, changes nothing that is read. */
  lemma {:induction false} DrainsNeverShow(c: Cmd, ops: seq<Op>)
    requires c.rpos <= |c.buf|
    ensures Run(c, ops) == Run(c, WithoutDrains(ops))
    decreases ops
  {
    if ops != [] {
      var rest := WithoutDrains(ops[1..]);
      if ops[0].Drain? {
        var d := Cmd(Unread(c), 0);
        assert Unread(d) == Unread(c);
        DrainsNeverShow(d, ops[1..]);
        OnlyUnreadMatters(d, c, rest);
        assert [] + rest == rest;
        if Run(c, rest).Some? {
          NothingFirst(Run(c, rest).value);
        }
      } else {
        assert ([ops[0]] + rest)[1..] == rest;
        if ops[0].Get? {
          GetUnread(c, ops[0].t);
        }
        if Step(c, ops[0]).Some? {
          DrainsNeverShow(Step(c, ops[0]).value.0, ops[1..]);
        }
      }
    }
  }

  // ----- the class -----

  ghost predicate Appends<T>(done: seq<T>, more: Option<(seq<T>, Bytes)>, all: Option<(seq<T>, Bytes)>) {
    more.Some? && all == Some((done + more.value.0, more.value.1))
  }

  lemma {:induction false} NoneYet<T>(all: Option<(seq<T>, Bytes)>)
    requires all.Some?
    ensures Appends([], all, all)
  {
    assert [] + all.value.0 == all.value.0;
  }

  lemma {:induction false} OneMore<T>(
    done: seq<T>, x: T, more: Option<(seq<T>, Bytes)>, now: Option<(seq<T>, Bytes)>,
    all: Option<(seq<T>, Bytes)>)
    requires Appends(done, now, all) && more.Some?
    requires now == Some(([x] + more.value.0, more.value.1))
    ensures Appends(done + [x], more, all)
  {
    assert done + ([x] + more.value.0) == done + [x] + more.value.0;
  }

  /** With `ns` read of the `k` integers at `s0`, the other `left` start at `s`. */
  ghost predicate IntsSoFar(w: nat, ns: seq<nat>, left: nat, s: Bytes, k: nat, s0: Bytes) {
    Appends(ns, TakeInts(w, left, s), TakeInts(w, k, s0))
  }

  lemma {:induction false} IntsNext(w: nat, ns: seq<nat>, left: nat, s: Bytes, k: nat, s0: Bytes)
    requires left > 0 && IntsSoFar(w, ns, left, s, k, s0)
    ensures Take(IntT(w), s).Some?
    ensures var (v, rest) := Take(IntT(w), s).value; IntsSoFar(w, ns + [v.n], left - 1, rest, k, s0)
  {
    var (v, rest) := Take(IntT(w), s).value;
    OneMore(ns, v.n, TakeInts(w, left - 1, rest), TakeInts(w, left, s), TakeInts(w, k, s0));
  }

  /** With `ts` read of the `k` strings at `s0`, the other `left` start at `s`. */
  ghost predicate StrsSoFar(ts: seq<Bytes>, left: nat, s: Bytes, k: nat, s0: Bytes) {
    Appends(ts, TakeStrs(left, s), TakeStrs(k, s0))
  }

  lemma {:induction false} StrsStart(k: nat, s0: Bytes)
    requires TakeStrs(k, s0).Some?
    ensures StrsSoFar([], k, s0, k, s0)
  {
    NoneYet(TakeStrs(k, s0));
  }

  lemma {:induction false} StrsNext(ts: seq<Bytes>, left: nat, s: Bytes, k: nat, s0: Bytes)
    requires left > 0 && StrsSoFar(ts, left, s, k, s0)
    ensures Take(StrT, s).Some?
    ensures var (v, rest) := Take(StrT, s).value; StrsSoFar(ts + [v.text], left - 1, rest, k, s0)
  {
    var (v, rest) := Take(StrT, s).value;
    OneMore(ts, v.text, TakeStrs(left - 1, rest), TakeStrs(left, s), TakeStrs(k, s0));
  }

  lemma {:induction false} StrsEnd(ts: seq<Bytes>, s: Bytes, k: nat, s0: Bytes)
    requires StrsSoFar(ts, 0, s, k, s0)
    ensures TakeStrs(k, s0) == Some((ts, s))
  {
    assert ts + [] == ts;
  }

  /** The byte buffer and its read cursor. A read copies without a bounds check, so a caller must
      ask only for what the unread bytes hold; on an empty buffer it throws (`None`). */
  class Command {
    var buf: Bytes
    var rpos: nat

    constructor ()
      ensures State() == Cmd([], 0)
    {
      buf, rpos := [], 0;
    }

    ghost function State(): Cmd
      reads this
    {
      Cmd(buf, rpos)
    }

    ghost predicate CanTake(t: Type)
      reads this
    {
      buf == [] || (rpos <= |buf| && Take(t, Unread(State())).Some?)
    }

    method WriteInt(w: nat, n: nat)
      modifies this
      ensures Step(old(State()), Put(IntV(w, n))) == Some((State(), []))
    {
      buf := buf + LittleEndian(n, w);
    }

    method WriteStr(t: Bytes)
      modifies this
      ensures Step(old(State()), Put(StrV(t))) == Some((State(), []))
    {
      WriteInt(SIZE_T, |t|);
      Assoc(old(buf), LittleEndian(|t|, SIZE_T), t);
      buf := buf + t;
    }

    method WriteIntList(w: nat, ns: seq<nat>)
      modifies this
      ensures Step(old(State()), Put(IntListV(w, ns))) == Some((State(), []))
    {
      WriteInt(SIZE_T, |ns|);
      ghost var all := buf + IntsBytes(w, ns);
      Assoc(old(buf), LittleEndian(|ns|, SIZE_T), IntsBytes(w, ns));
      for i := 0 to |ns|
        invariant rpos == old(rpos)
        invariant buf + IntsBytes(w, ns[i..]) == all
      {
        assert ns[i..][1..] == ns[i + 1..];
        Assoc(buf, LittleEndian(ns[i], w), IntsBytes(w, ns[i + 1..]));
        WriteInt(w, ns[i]);
      }
      assert buf + [] == buf;
    }

    method WriteStrList(ts: seq<Bytes>)
      modifies this
      ensures Step(old(State()), Put(StrListV(ts))) == Some((State(), []))
    {
      WriteInt(SIZE_T, |ts|);
      ghost var all := buf + StrsBytes(ts);
      Assoc(old(buf), LittleEndian(|ts|, SIZE_T), StrsBytes(ts));
      for i := 0 to |ts|
        invariant rpos == old(rpos)
        invariant buf + StrsBytes(ts[i..]) == all
      {
        assert ts[i..][1..] == ts[i + 1..];
        Assoc(buf, StrBytes(ts[i]), StrsBytes(ts[i + 1..]));
        WriteStr(ts[i]);
      }
      assert buf + [] == buf;
    }

    method ReadInt(w: nat) returns (r: Option<nat>)
      requires CanTake(IntT(w))
      modifies this`rpos
      ensures r.None? <==> buf == []
      ensures r.None? ==> rpos == old(rpos)
      ensures r.Some? ==> rpos <= |buf|
      ensures r.Some? ==>
        Take(IntT(w), old(Unread(State()))) == Some((IntV(w, r.value), Unread(State())))
    {
      if buf == [] {
        return None;
      }
      var b := buf[rpos..rpos + w];
      ghost var s := buf[rpos..];
      assert s[..w] == b && s[w..] == buf[rpos + w..];
      rpos := rpos + w;
      return Some(FromLittleEndian(b));
    }

    method ReadStr() returns (r: Option<Bytes>)
      requires CanTake(StrT)
      modifies this`rpos
      ensures r.None? <==> buf == []
      ensures r.None? ==> rpos == old(rpos)
      ensures r.Some? ==> rpos <= |buf|
      ensures r.Some? ==>
        Take(StrT, old(Unread(State()))) == Some((StrV(r.value), Unread(State())))
    {
      var l := ReadInt(SIZE_T);
      if l.None? {
        return None;
      }
      ghost var rest := Unread(State());
      r := Some(buf[rpos..rpos + l.value]);
      assert rest[..l.value] == r.value;
      rpos := rpos + l.value;
      assert rest[l.value..] == Unread(State());
    }

    method ReadIntList(w: nat) returns (r: Option<seq<nat>>)
      requires CanTake(IntListT(w))
      modifies this`rpos
      ensures r.None? <==> buf == []
      ensures r.None? ==> rpos == old(rpos)
      ensures r.Some? ==> rpos <= |buf|
      ensures r.Some? ==>
        Take(IntListT(w), old(Unread(State()))) == Some((IntListV(w, r.value), Unread(State())))
    {
      var k := ReadInt(SIZE_T);
      if k.None? {
        return None;
      }
      var ns := ReadInts(w, k.value);
      return Some(ns);
    }

    /** The loop of `read_list` over integers. */
    method ReadInts(w: nat, k: nat) returns (ns: seq<nat>)
      requires buf != [] && rpos <= |buf| && TakeInts(w, k, Unread(State())).Some?
      modifies this`rpos
      ensures rpos <= |buf|
      ensures TakeInts(w, k, old(Unread(State()))) == Some((ns, Unread(State())))
    {
      ghost var s0 := Unread(State());
      ns := [];
      NoneYet(TakeInts(w, k, s0));
      for i := 0 to k
        invariant rpos <= |buf|
        invariant IntsSoFar(w, ns, k - i, Unread(State()), k, s0)
      {
        IntsNext(w, ns, k - i, Unread(State()), k, s0);
        var n := ReadInt(w);
        ns := ns + [n.value];
      }
      assert ns + [] == ns;
    }

    method ReadStrList() returns (r: Option<seq<Bytes>>)
      requires CanTake(StrListT)
      modifies this`rpos
      ensures r.None? <==> buf == []
      ensures r.None? ==> rpos == old(rpos)
      ensures r.Some? ==> rpos <= |buf|
      ensures r.Some? ==>
        Take(StrListT, old(Unread(State()))) == Some((StrListV(r.value), Unread(State())))
    {
      var k := ReadInt(SIZE_T);
      if k.None? {
        return None;
      }
      var ts := ReadStrs(k.value);
      return Some(ts);
    }

    /** The loop of `read_list` over strings. */
    method ReadStrs(k: nat) returns (ts: seq<Bytes>)
      requires buf != [] && rpos <= |buf| && TakeStrs(k, Unread(State())).Some?
      modifies this`rpos
      ensures rpos <= |buf|
      ensures TakeStrs(k, old(Unread(State()))) == Some((ts, Unread(State())))
    {
      ghost var s0 := Unread(State());
      ghost var s := s0;
      ts := [];
      StrsStart(k, s0);
      for i := 0 to k
        invariant rpos <= |buf| && s == Unread(State()) && StrsSoFar(ts, k - i, s, k, s0)
      {
        StrsNext(ts, k - i, s, k, s0);
        var t := ReadStr();
        s := Take(StrT, s).value.1;
        ts := ts + [t.value];
      }
      StrsEnd(ts, s, k, s0);
    }

    /** `evbuffer_drain` of more than there is empties the buffer. */
    method DropRead()
      modifies this
      ensures Step(old(State()), Drain) == Some((State(), []))
    {
      buf := if rpos <= |buf| then buf[rpos..] else [];
      rpos := 0;
    }
  }
}
