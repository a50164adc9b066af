/** `view_base`: nested `begin_write`/`commit_write` blocks on two stacks, against the rendering of
    the block tree they trace. */
module Views {
  import opened Text

  /** `view_engine::parse_language`: what committing a block of a language makes of its text. */
  type Transform = (string, string) -> string

  datatype State = State(out: string, buffers: seq<string>, langs: seq<string>, sections: map<string, string>)

  datatype Op = Begin(lang: string) | Write(text: string) | Commit(lang: string)

  function Top<T>(s: seq<T>): T
    requires s != []
  {
    s[|s| - 1]
  }

  function Pop<T>(s: seq<T>): seq<T>
    requires s != []
  {
    s[..|s| - 1]
  }

  predicate IsSection(lang: string) {
    lang != "" && lang[0] == '$'
  }

  /** Text goes to the innermost open block, or to the page when none is open. */
  function Append(s: State, text: string): State {
    if s.buffers == [] then s.(out := s.out + text)
    else s.(buffers := Pop(s.buffers) + [Top(s.buffers) + text])
  }

  function Committed(tr: Transform, lang: string, text: string): string {
    tr(if IsSection(lang) then "html" else lang, text)
  }

  /** `_pop_buffer`, for a block of that language on top. */
  function Closed(tr: Transform, s: State, lang: string): State
    requires s.buffers != [] && s.langs != []
  {
    var text := Committed(tr, lang, Top(s.buffers));
    var s' := s.(buffers := Pop(s.buffers), langs := Pop(s.langs));
    if IsSection(lang) then s'.(sections := s'.sections[lang := text]) else Append(s', text)
  }

  /** One call. There is no answer for a call the source does not allow: writing or committing
      with no open block, or committing another language than the one on top. */
  function Exec1(tr: Transform, s: State, op: Op): Option<State> {
    match op
    case Begin(lang) => Some(s.(buffers := s.buffers + [""], langs := s.langs + [lang]))
    case Write(text) => if s.buffers == [] then None else Some(Append(s, text))
    case Commit(lang) =>
      if s.buffers == [] || s.langs == [] || Top(s.langs) != lang then None else Some(Closed(tr, s, lang))
  }

  function Exec(tr: Transform, s: State, ops: seq<Op>): Option<State>
    decreases ops
  {
    if ops == [] then Some(s)
    else match Exec1(tr, s, ops[0])
      case None => None
      case Some(s') => Exec(tr, s', ops[1..])
  }

  // ----- block trees -----

  datatype Node = Raw(text: string) | Block(lang: string, kids: seq<Node>)

  function Trace(nodes: seq<Node>): seq<Op>
    decreases nodes
  {
    if nodes == [] then [] else TraceOne(nodes[0]) + Trace(nodes[1..])
  }

  function TraceOne(n: Node): seq<Op>
    decreases n
  {
    match n
    case Raw(text) => [Write(text)]
    case Block(lang, kids) => [Begin(lang)] + Trace(kids) + [Commit(lang)]
  }

  function Render(tr: Transform, nodes: seq<Node>): string
    decreases nodes
  {
    if nodes == [] then "" else RenderOne(tr, nodes[0]) + Render(tr, nodes[1..])
  }

  /** A block of a language that starts with `$` is a section: it renders to nothing where it stands. */
  function RenderOne(tr: Transform, n: Node): string
    decreases n
  {
    match n
    case Raw(text) => text
    case Block(lang, kids) => if "$" <= lang then "" else tr(lang, Render(tr, kids))
  }

  /** The sections a tree commits, in order: inner ones before the one around them. */
  function Sections(tr: Transform, nodes: seq<Node>): seq<(string, string)>
    decreases nodes
  {
    if nodes == [] then [] else SectionsOne(tr, nodes[0]) + Sections(tr, nodes[1..])
  }

  function SectionsOne(tr: Transform, n: Node): seq<(string, string)>
    decreases n
  {
    match n
    case Raw(_) => []
    case Block(lang, kids) =>
      Sections(tr, kids) + if "$" <= lang then [(lang, tr("html", Render(tr, kids)))] else []
  }

  function Updated(m: map<string, string>, commits: seq<(string, string)>): map<string, string>
    decreases commits
  {
    if commits == [] then m else Updated(m[commits[0].0 := commits[0].1], commits[1..])
  }

  /** What a tree does to a state: one text where it stands, and its sections. */
  function Drawn(tr: Transform, s: State, nodes: seq<Node>): State {
    Append(s, Render(tr, nodes)).(sections := Updated(s.sections, Sections(tr, nodes)))
  }

  predicate AllBlocks(nodes: seq<Node>) {
    forall n :: n in nodes ==> n.Block?
  }

  // ----- executing a trace draws the tree -----

  lemma {:induction false} ExecConcat(tr: Transform, s: State, a: seq<Op>, b: seq<Op>)
    ensures Exec(tr, s, a + b) == match Exec(tr, s, a) case None => None case Some(s') => Exec(tr, s', b)
    decreases a
  {
    if a == [] {
      assert a + b == b;
    } else {
      assert (a + b)[1..] == a[1..] + b;
      match Exec1(tr, s, a[0])
      case None =>
      case Some(s') => ExecConcat(tr, s', a[1..], b);
    }
  }

  lemma {:induction false} UpdatedConcat(m: map<string, string>, a: seq<(string, string)>, b: seq<(string, string)>)
    ensures Updated(m, a + b) == Updated(Updated(m, a), b)
    decreases a
  {
    if a == [] {
      assert a + b == b;
    } else {
      assert (a + b)[1..] == a[1..] + b;
      UpdatedConcat(m[a[0].0 := a[0].1], a[1..], b);
    }
  }

  lemma {:induction false} AppendTwice(s: State, a: string, b: string)
    ensures Append(Append(s, a), b) == Append(s, a + b)
  {
    if s.buffers == [] {
      Assoc(s.out, a, b);
    } else {
      Assoc(Top(s.buffers), a, b);
      assert Pop(Append(s, a).buffers) == Pop(s.buffers);
    }
  }

  lemma {:induction false} AppendNothing(s: State)
    ensures Append(s, "") == s
  {
    if s.buffers == [] {
      assert s.out + "" == s.out;
    } else {
      assert Top(s.buffers) + "" == Top(s.buffers);
      assert Pop(s.buffers) + [Top(s.buffers)] == s.buffers;
    }
  }

  lemma {:induction false} DrawnOne(tr: Transform, s: State, n: Node)
    requires s.buffers != [] || n.Block?
    ensures Exec(tr, s, TraceOne(n)) ==
            Some(Append(s, RenderOne(tr, n)).(sections := Updated(s.sections, SectionsOne(tr, n))))
    decreases n, 0
  {
    match n
    case Raw(text) =>
      assert [Write(text)][1..] == [];
      assert Exec(tr, s, [Write(text)]) == Exec(tr, Append(s, text), []);
    case Block(lang, kids) =>
      var s1 := s.(buffers := s.buffers + [""], langs := s.langs + [lang]);
      var s2 := Drawn(tr, s1, kids);
      TraceDraws(tr, s1, kids);
      BlockOps(tr, s, lang, Trace(kids), s1, s2);
      CloseDrawn(tr, s, lang, kids);
  }

  lemma {:induction false} BlockOps(tr: Transform, s: State, lang: string, ops: seq<Op>, s1: State, s2: State)
    requires Exec1(tr, s, Begin(lang)) == Some(s1) && Exec(tr, s1, ops) == Some(s2)
    ensures Exec(tr, s, [Begin(lang)] + ops + [Commit(lang)]) == Exec1(tr, s2, Commit(lang))
  {
    ExecConcat(tr, s, [Begin(lang)] + ops, [Commit(lang)]);
    assert ([Begin(lang)] + ops)[1..] == ops;
    assert [Commit(lang)][1..] == [];
    match Exec1(tr, s2, Commit(lang))
    case None =>
    case Some(s3) => assert Exec(tr, s2, [Commit(lang)]) == Exec(tr, s3, []);
  }

  lemma {:induction false} SectionMark(lang: string)
    ensures IsSection(lang) <==> "$" <= lang
  {
    assert lang != "" ==> lang[..1] == [lang[0]];
  }

  lemma {:induction false} CloseDrawn(tr: Transform, s: State, lang: string, kids: seq<Node>)
    ensures var s1 := s.(buffers := s.buffers + [""], langs := s.langs + [lang]);
            Exec1(tr, Drawn(tr, s1, kids), Commit(lang)) ==
            Some(Append(s, RenderOne(tr, Block(lang, kids))).(
                   sections := Updated(s.sections, SectionsOne(tr, Block(lang, kids)))))
  {
    var s1 := s.(buffers := s.buffers + [""], langs := s.langs + [lang]);
    var text := Render(tr, kids);
    var s2 := Drawn(tr, s1, kids);
    assert s1.buffers != [] && Top(s1.buffers) == "" && Pop(s1.buffers) == s.buffers;
    assert "" + text == text;
    assert s2.buffers == s.buffers + [text] && Pop(s2.buffers) == s.buffers && Top(s2.buffers) == text;
    assert Pop(s2.langs) == s.langs && Top(s2.langs) == lang;
    SectionMark(lang);
    var own := if IsSection(lang) then [(lang, tr("html", text))] else [];
    UpdatedConcat(s.sections, Sections(tr, kids), own);
    if IsSection(lang) {
      AppendNothing(s);
      assert own[1..] == [];
      assert Updated(Updated(s.sections, Sections(tr, kids)), own) ==
             Updated(s.sections, Sections(tr, kids))[lang := tr("html", text)];
    }
  }

  /** Executing the trace of any list of block trees, inside a block or, for blocks, at the top,
      appends exactly their rendering, records their sections in order and restores both stacks. */
  lemma {:induction false} TraceDraws(tr: Transform, s: State, nodes: seq<Node>)
    requires s.buffers != [] || AllBlocks(nodes)
    ensures Exec(tr, s, Trace(nodes)) == Some(Drawn(tr, s, nodes))
    decreases nodes, 1
  {
    if nodes == [] {
      AppendNothing(s);
    } else {
      var n, rest := nodes[0], nodes[1..];
      assert n in nodes;
      DrawnOne(tr, s, n);
      var s1 := Append(s, RenderOne(tr, n)).(sections := Updated(s.sections, SectionsOne(tr, n)));
      ExecConcat(tr, s, TraceOne(n), Trace(rest));
      TraceDraws(tr, s1, rest);
      AppendTwice(s, RenderOne(tr, n), Render(tr, rest));
      UpdatedConcat(s.sections, SectionsOne(tr, n), Sections(tr, rest));
    }
  }

  /** A section holds its last committed text; one that was not committed is as before. */
  lemma {:induction false} LastCommitStays(m: map<string, string>, commits: seq<(string, string)>, i: int, name: string)
    requires -1 <= i < |commits|
    requires i >= 0 ==> commits[i].0 == name
    requires forall j :: i < j < |commits| ==> commits[j].0 != name
    ensures i >= 0 ==> name in Updated(m, commits) && Updated(m, commits)[name] == commits[i].1
    ensures i == -1 ==> (name in Updated(m, commits) <==> name in m) &&
                        (name in m ==> Updated(m, commits)[name] == m[name])
    decreases commits
  {
    if commits != [] {
      var m', rest := m[commits[0].0 := commits[0].1], commits[1..];
      assert forall j :: 0 <= j < |rest| ==> rest[j] == commits[j + 1];
      LastCommitStays(m', rest, if i > 0 then i - 1 else -1, name);
    }
  }

  /** Every call keeps the two stacks equally high. */
  lemma {:induction false} HeightsAgree(tr: Transform, s: State, ops: seq<Op>)
    requires |s.buffers| == |s.langs|
    ensures Exec(tr, s, ops).Some? ==> |Exec(tr, s, ops).value.buffers| == |Exec(tr, s, ops).value.langs|
    decreases ops
  {
    if ops != [] && Exec1(tr, s, ops[0]).Some? {
      HeightsAgree(tr, Exec1(tr, s, ops[0]).value, ops[1..]);
    }
  }

  // ----- only traces of trees execute -----

  /** A block that is still open, with the nodes finished inside it. */
  datatype Open = Open(lang: string, kids: seq<Node>)

  /** The calls that lead to a page with some blocks open. */
  function OpenTrace(base: seq<Node>, open: seq<Open>): seq<Op> {
    if open == [] then Trace(base)
    else OpenTrace(base, Pop(open)) + ([Begin(Top(open).lang)] + Trace(Top(open).kids))
  }

  function Langs(open: seq<Open>): (r: seq<string>)
    ensures |r| == |open| && forall i :: 0 <= i < |open| ==> r[i] == open[i].lang
  {
    seq(|open|, i requires 0 <= i < |open| => open[i].lang)
  }

  lemma {:induction false} TraceSnoc(nodes: seq<Node>, n: Node)
    ensures Trace(nodes + [n]) == Trace(nodes) + TraceOne(n)
  {
    if nodes == [] {
      var one := [n];
      assert nodes + [n] == one && one[1..] == [];
      assert Trace(one) == TraceOne(n) + [];
    } else {
      assert (nodes + [n])[1..] == nodes[1..] + [n];
      TraceSnoc(nodes[1..], n);
      Assoc(TraceOne(nodes[0]), Trace(nodes[1..]), TraceOne(n));
    }
  }

  /** One more call, seen on the open blocks. */
  lemma {:induction false} OpenStep(base: seq<Node>, open: seq<Open>, op: Op) returns (base': seq<Node>, open': seq<Open>)
    requires !op.Begin? ==> open != []
    requires op.Commit? ==> Top(open).lang == op.lang
    ensures OpenTrace(base', open') == OpenTrace(base, open) + [op]
    ensures Langs(open') == match op
                            case Begin(lang) => Langs(open) + [lang]
                            case Write(_) => Langs(open)
                            case Commit(_) => Langs(Pop(open))
    ensures AllBlocks(base) ==> AllBlocks(base')
  {
    base' := base;
    match op
    case Begin(lang) =>
      open' := open + [Open(lang, [])];
      BeginStep(base, open, lang);
    case Write(text) =>
      open' := Pop(open) + [Grown(Top(open), Raw(text))];
      WriteStep(base, open, text);
    case Commit(lang) =>
      base', open' := CommitStep(base, open);
  }

  lemma {:induction false} BeginStep(base: seq<Node>, open: seq<Open>, lang: string)
    ensures OpenTrace(base, open + [Open(lang, [])]) == OpenTrace(base, open) + [Begin(lang)]
    ensures Langs(open + [Open(lang, [])]) == Langs(open) + [lang]
  {
    var open' := open + [Open(lang, [])];
    assert Pop(open') == open && [Begin(lang)] + Trace([]) == [Begin(lang)];
  }

  lemma {:induction false} WriteStep(base: seq<Node>, open: seq<Open>, text: string)
    requires open != []
    ensures var open' := Pop(open) + [Grown(Top(open), Raw(text))];
      OpenTrace(base, open') == OpenTrace(base, open) + [Write(text)] && Langs(open') == Langs(open)
  {
    GrownTrace(base, Pop(open), Top(open), Raw(text));
    assert Pop(open) + [Top(open)] == open;
  }

  function Grown(o: Open, n: Node): Open {
    Open(o.lang, o.kids + [n])
  }

  lemma {:induction false} GrownTrace(base: seq<Node>, below: seq<Open>, o: Open, n: Node)
    ensures OpenTrace(base, below + [Grown(o, n)]) == OpenTrace(base, below + [o]) + TraceOne(n)
  {
    assert Pop(below + [Grown(o, n)]) == below && Pop(below + [o]) == below;
    TraceSnoc(o.kids, n);
    Assoc([Begin(o.lang)], Trace(o.kids), TraceOne(n));
    Assoc(OpenTrace(base, below), [Begin(o.lang)] + Trace(o.kids), TraceOne(n));
  }

  lemma {:induction false} CommitStep(base: seq<Node>, open: seq<Open>) returns (base': seq<Node>, open': seq<Open>)
    requires open != []
    ensures OpenTrace(base', open') == OpenTrace(base, open) + [Commit(Top(open).lang)]
    ensures Langs(open') == Langs(Pop(open))
    ensures AllBlocks(base) ==> AllBlocks(base')
  {
    var o, below := Top(open), Pop(open);
    var n := Block(o.lang, o.kids);
    Assoc(OpenTrace(base, below), [Begin(o.lang)] + Trace(o.kids), [Commit(o.lang)]);
    if below == [] {
      base', open' := base + [n], [];
      TraceSnoc(base, n);
    } else {
      base', open' := base, Pop(below) + [Grown(Top(below), n)];
      GrownTrace(base, Pop(below), Top(below), n);
      assert Pop(below) + [Top(below)] == below;
    }
  }

  lemma {:induction false} ExecutedIsNested(tr: Transform, s: State, ops: seq<Op>, base: seq<Node>, open: seq<Open>)
    returns (nodes: seq<Node>)
    requires s.langs == Langs(open) && |s.buffers| == |s.langs| && AllBlocks(base)
    requires Exec(tr, s, ops).Some? && Exec(tr, s, ops).value.langs == []
    ensures AllBlocks(nodes) && Trace(nodes) == OpenTrace(base, open) + ops
    decreases ops
  {
    if ops == [] {
      nodes := base;
      assert OpenTrace(base, open) + [] == OpenTrace(base, open);
    } else {
      var base', open' := OpenStep(base, open, ops[0]);
      var s' := Exec1(tr, s, ops[0]).value;
      assert s'.langs == Langs(open');
      nodes := ExecutedIsNested(tr, s', ops[1..], base', open');
      Assoc(OpenTrace(base, open), [ops[0]], ops[1..]);
      assert [ops[0]] + ops[1..] == ops;
    }
  }

  /** A sequence of calls on a fresh view succeeds and leaves no block open exactly when it is the
      trace of a list of block trees. */
  lemma {:induction false} RunsIffNested(tr: Transform, s: State, ops: seq<Op>)
    requires s.buffers == [] && s.langs == []
    ensures (Exec(tr, s, ops).Some? && Exec(tr, s, ops).value.langs == []) <==>
            exists nodes :: AllBlocks(nodes) && Trace(nodes) == ops
  {
    if Exec(tr, s, ops).Some? && Exec(tr, s, ops).value.langs == [] {
      var nodes := ExecutedIsNested(tr, s, ops, [], []);
      assert OpenTrace([], []) + ops == ops;
    }
    if exists nodes :: AllBlocks(nodes) && Trace(nodes) == ops {
      var nodes :| AllBlocks(nodes) && Trace(nodes) == ops;
      TraceDraws(tr, s, nodes);
    }
  }

  // ----- the object -----

  class View {
    var out: string
    var buffers: seq<string>
    var langs: seq<string>
    var sections: map<string, string>

    ghost function View(): State
      reads this
    {
      State(out, buffers, langs, sections)
    }

    ghost predicate Valid()
      reads this
    {
      |buffers| == |langs|
    }

    constructor ()
      ensures Valid() && View() == State("", [], [], map[])
    {
      out, buffers, langs, sections := "", [], [], map[];
    }

    method BeginWrite(lang: string)
      requires Valid()
      modifies this
      ensures Valid() && View() == old(View()).(buffers := old(buffers) + [""], langs := old(langs) + [lang])
    {
      buffers := buffers + [""];
      langs := langs + [lang];
    }

    method WriteRaw(text: string)
      requires Valid() && buffers != []
      modifies `buffers
      ensures Valid() && View() == Append(old(View()), text)
    {
      buffers := Pop(buffers) + [Top(buffers) + text];
    }

    /** `commit_write`: refused, and without effect, when another language is on top. */
    method CommitWrite(tr: Transform, lang: string) returns (ok: bool)
      requires Valid() && buffers != []
      modifies this
      ensures Valid()
      ensures Exec1(tr, old(View()), Commit(lang)) == if ok then Some(View()) else None
      ensures !ok ==> View() == old(View())
    {
      if Top(langs) != lang {
        return false;
      }
      var language := lang;
      var inSection := lang != "" && lang[0] == '$';
      if inSection {
        language := "html";
      }
      buffers := Pop(buffers) + [tr(language, Top(buffers))];
      var text := Top(buffers);
      buffers := Pop(buffers);
      langs := Pop(langs);
      if inSection {
        sections := sections[lang := text];
      } else if buffers == [] {
        out := out + text;
      } else {
        buffers := Pop(buffers) + [Top(buffers) + text];
      }
      return true;
    }
  }
}
