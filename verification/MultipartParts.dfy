/** What the header lines of a part make of it, and what is collected from nested parts. */
module MultipartParts {
  import opened Text
  import opened HeaderMaps
  import opened MultipartMachine

  predicate Nests(ct: string) {
    Contains(ct, "multipart/mixed") || Contains(ct, "multipart/alternative") || Contains(ct, "multipart/digest")
  }

  /** The blank line decides by two headers alone: one of the three nesting types makes a part with
      parts of its own, otherwise a file name makes a file and its absence a form field, whatever
      other type there is. */
  lemma {:induction false} PartMeaning(bd: Bounds, c: Core)
    requires c.mode == Headers && c.current.Unset?
    ensures var h, c' := c.current.headers, OnLine(bd, c, "");
      var ct, cd := GetHeader(h, "Content-Type"), GetHeader(h, "Content-Disposition");
      var p, name, filename := c'.current, GetHeaderAttribute(cd, "name"), GetHeaderAttribute(cd, "filename");
      && c'.done == c.done && !c'.completed
      && (p.Sub? <==> Nests(ct)) && (p.Form? <==> !Nests(ct) && filename == "") && (p.File? <==> !Nests(ct) && filename != "")
      && c'.mode == (if Nests(ct) then Headers else Content)
      && (p.Form? || p.File? ==> p.headers == h && p.name == name && p.mime == if ct == "" then "text/plain" else Trim(ct))
      && (p.Form? ==> p.value == "")
      && (p.File? ==> p.filename == filename && p.written == "" && !p.appendCrlf)
  {
    TrimClean("text/plain");
  }

  /** Which nesting type it is, and its boundary: that of the form where none is given. */
  lemma {:induction false} NestedMeaning(bd: Bounds, c: Core)
    requires c.mode == Headers && c.current.Unset?
    requires Nests(GetHeader(c.current.headers, "Content-Type"))
    ensures var h, p := c.current.headers, OnLine(bd, c, "").current;
      var ct := GetHeader(h, "Content-Type");
      && p.Sub? && p.headers == h && p.contents == []
      && p.name == GetHeaderAttribute(GetHeader(h, "Content-Disposition"), "name")
      && (p.kind.Mixed? <==> Contains(ct, "multipart/mixed"))
      && (p.kind.Digest? <==> !Contains(ct, "multipart/mixed") && !Contains(ct, "multipart/alternative"))
      && p.bounds == if GetBoundary(ct) == "" then bd else Bounds("--" + GetBoundary(ct), "--" + GetBoundary(ct) + "--")
  {
  }

  /** Among the headers of a part a line without a colon before its first NUL is refused. */
  lemma {:induction false} HeaderLineIff(bd: Bounds, c: Core, line: string)
    requires c.mode == Headers && c.current.Unset? && line != ""
    ensures OnLine(bd, c, line).mode == Failed(400) <==> ':' !in CStr(line)
    ensures forall key, value :: CStr(line) == key + [':'] + value && ':' !in key ==>
      OnLine(bd, c, line) == c.(current := Unset(AddHeader(c.current.headers, key, value)))
  {
    forall key, value | CStr(line) == key + [':'] + value && ':' !in key
      ensures OnLine(bd, c, line) == c.(current := Unset(AddHeader(c.current.headers, key, value)))
    {
      ColonAt(CStr(line), key, value);
    }
  }

  lemma {:induction false} ColonAt(hdr: string, key: string, value: string)
    requires hdr == key + [':'] + value && ':' !in key
    ensures IndexOf(hdr, ':', 0) == |key| && hdr[..|key|] == key && hdr[|key| + 1..] == value
  {
    assert hdr[|key|] == ':' && forall k :: 0 <= k < |key| ==> hdr[k] == key[k];
    IndexOfIs(hdr, ':', 0, |key|);
  }

  // ----- leaves -----

  /** `p` is among the parts or inside one of them, at any depth. */
  predicate LiesIn(p: Part, parts: seq<Part>)
    decreases parts
  {
    parts != [] &&
    (p == parts[0] || (parts[0].Sub? && LiesIn(p, parts[0].contents)) || LiesIn(p, parts[1..]))
  }

  /** The leaves are exactly the parts without parts of their own, at any depth. */
  lemma {:induction false} LeavesIff(parts: seq<Part>, p: Part)
    ensures p in Leaves(parts) <==> LiesIn(p, parts) && !p.Sub?
    decreases parts
  {
    if parts != [] {
      if parts[0].Sub? {
        LeavesIff(parts[0].contents, p);
      }
      LeavesIff(parts[1..], p);
    }
  }

  /** They are collected from left to right: a part with parts of its own gives way to its leaves. */
  lemma {:induction false} LeavesInOrder(a: seq<Part>, b: seq<Part>)
    ensures Leaves(a + b) == Leaves(a) + Leaves(b)
    decreases |a|
  {
    if a == [] {
      assert a + b == b && [] + Leaves(b) == Leaves(b);
    } else {
      assert (a + b)[1..] == a[1..] + b;
      LeavesInOrder(a[1..], b);
      var one := if a[0].Sub? then Leaves(a[0].contents) else [a[0]];
      Assoc(one, Leaves(a[1..]), Leaves(b));
    }
  }
}
