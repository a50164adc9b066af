/** `router_t`: a tree of routers that may be re-registered elsewhere at any time, and the dispatch
    of a URL down that tree. */
module RouterTree {
  import opened Text
  import Routes

  /** One registered route: whether it has handlers, the segments of its text (none for the empty
      text, which has no pattern), and what the regular expression engine answers for a path. */
  datatype Route = Route(id: nat, hasCallbacks: bool, segs: Option<seq<Routes.Seg>>, accepts: string -> bool)

  /** Longest first. */
  predicate LengthSorted(paths: seq<string>) {
    paths == [] || ((forall q :: q in paths[1..] ==> |q| <= |paths[0]|) && LengthSorted(paths[1..]))
  }

  predicate NoDuplicates(paths: seq<string>) {
    paths == [] || (paths[0] !in paths[1..] && NoDuplicates(paths[1..]))
  }

  lemma {:induction false} InCons(q: string, p: string, rest: seq<string>)
    ensures q in [p] + rest <==> q == p || q in rest
  {
  }

  lemma {:induction false} InSplit(q: string, paths: seq<string>)
    requires paths != []
    ensures q in paths <==> q == paths[0] || q in paths[1..]
  {
    assert paths == [paths[0]] + paths[1..];
  }

  /** `erase` of the first element equal to `p`. */
  function Without(paths: seq<string>, p: string): seq<string> {
    if paths == [] then []
    else if paths[0] == p then paths[1..]
    else [paths[0]] + Without(paths[1..], p)
  }

  lemma {:induction false} WithoutMembers(paths: seq<string>, p: string, q: string)
    requires NoDuplicates(paths)
    ensures q in Without(paths, p) <==> q in paths && q != p
  {
    if paths != [] {
      InSplit(q, paths);
      if paths[0] != p {
        WithoutMembers(paths[1..], p, q);
        InCons(q, paths[0], Without(paths[1..], p));
      }
    }
  }

  lemma {:induction false} WithoutKeeps(paths: seq<string>, p: string)
    requires LengthSorted(paths) && NoDuplicates(paths)
    ensures LengthSorted(Without(paths, p)) && NoDuplicates(Without(paths, p))
  {
    if paths != [] && paths[0] != p {
      WithoutKeeps(paths[1..], p);
      var r := Without(paths[1..], p);
      assert ([paths[0]] + r)[1..] == r;
      forall q ensures q in r ==> q in paths[1..] {
        WithoutMembers(paths[1..], p, q);
      }
    }
  }

  /** `std::sort` by decreasing length, of a list whose new element was appended last. */
  function InsertByLength(paths: seq<string>, p: string): seq<string> {
    if paths == [] then [p]
    else if |p| > |paths[0]| then [p] + paths
    else [paths[0]] + InsertByLength(paths[1..], p)
  }

  lemma {:induction false} InsertMembers(paths: seq<string>, p: string, q: string)
    ensures q in InsertByLength(paths, p) <==> q in paths || q == p
  {
    if paths != [] {
      InSplit(q, paths);
      InCons(q, p, paths);
      InsertMembers(paths[1..], p, q);
      InCons(q, paths[0], InsertByLength(paths[1..], p));
    }
  }

  lemma {:induction false} InsertKeeps(paths: seq<string>, p: string)
    requires LengthSorted(paths)
    ensures LengthSorted(InsertByLength(paths, p))
    ensures |InsertByLength(paths, p)| == |paths| + 1
  {
    if paths == [] {
    } else if |p| > |paths[0]| {
      assert ([p] + paths)[1..] == paths;
      forall q ensures q in paths ==> |q| <= |p| {
        InSplit(q, paths);
      }
    } else {
      InsertKeeps(paths[1..], p);
      var r := InsertByLength(paths[1..], p);
      assert ([paths[0]] + r)[1..] == r;
      forall q ensures q in r ==> |q| <= |paths[0]| {
        InsertMembers(paths[1..], p, q);
      }
    }
  }

  lemma {:induction false} InsertDistinct(paths: seq<string>, p: string)
    requires NoDuplicates(paths)
    ensures NoDuplicates(InsertByLength(paths, p)) <==> p !in paths
  {
    if paths == [] {
    } else if |p| > |paths[0]| {
      assert ([p] + paths)[1..] == paths;
    } else {
      InsertDistinct(paths[1..], p);
      InsertMembers(paths[1..], p, paths[0]);
      InSplit(p, paths);
      assert ([paths[0]] + InsertByLength(paths[1..], p))[1..] == InsertByLength(paths[1..], p);
    }
  }

  /** The path list of a router agrees with the keys of its map. */
  ghost predicate ListOk(paths: seq<string>, keys: set<string>) {
    LengthSorted(paths) && NoDuplicates(paths) && forall p :: p in paths <==> p in keys
  }

  lemma {:induction false} RemoveKeepsListOk(paths: seq<string>, keys: set<string>, p: string)
    requires ListOk(paths, keys)
    ensures ListOk(Without(paths, p), keys - {p})
  {
    WithoutKeeps(paths, p);
    forall q ensures q in Without(paths, p) <==> q in keys - {p} {
      WithoutMembers(paths, p, q);
    }
  }

  lemma {:induction false} InsertKeepsListOk(paths: seq<string>, keys: set<string>, p: string)
    requires ListOk(paths, keys)
    ensures ListOk(InsertByLength(paths, p), keys + {p}) <==> p !in keys
  {
    InsertKeeps(paths, p);
    InsertDistinct(paths, p);
    forall q ensures q in InsertByLength(paths, p) <==> q in keys + {p} {
      InsertMembers(paths, p, q);
    }
  }

  // ----- choosing a child -----

  /** The child mounted at `p` takes the URL: something is left after its path. */
  predicate Covers(local: string, p: string) {
    |local| > |p| && local[..|p|] == p
  }

  /** The scan of `resolve_url` over the path list. */
  function FirstCovering(paths: seq<string>, local: string): Option<string> {
    if paths == [] then None
    else if Covers(local, paths[0]) then Some(paths[0])
    else FirstCovering(paths[1..], local)
  }

  /** `p` is the longest of the registered paths that are proper prefixes of the URL. */
  predicate IsLongestPrefix(paths: set<string>, local: string, p: string) {
    p in paths && p < local && forall q :: q in paths && q < local ==> |q| <= |p|
  }

  function SetOf(paths: seq<string>): set<string> {
    set p | p in paths
  }

  lemma {:induction false} FirstIsSome(paths: seq<string>, local: string)
    requires LengthSorted(paths)
    ensures FirstCovering(paths, local).None? ==> forall q :: q in paths ==> !(q < local)
    ensures FirstCovering(paths, local).Some? ==> IsLongestPrefix(SetOf(paths), local, FirstCovering(paths, local).value)
  {
    if paths != [] {
      FirstIsSome(paths[1..], local);
      forall q ensures q in paths <==> q == paths[0] || q in paths[1..] {
        InSplit(q, paths);
      }
    }
  }

  /** In a length-sorted list the first covering path is the longest, and the only longest. */
  lemma {:induction false} FirstIsLongest(paths: seq<string>, local: string, p: string)
    requires LengthSorted(paths)
    ensures FirstCovering(paths, local) == Some(p) <==> IsLongestPrefix(SetOf(paths), local, p)
  {
    FirstIsSome(paths, local);
    if IsLongestPrefix(SetOf(paths), local, p) {
      var q := FirstCovering(paths, local).value;
      assert q == local[..|q|] && p == local[..|p|];
    }
  }

  // ----- routes of one router -----

  function FirstMatch(routes: seq<Route>, url: string): Option<Route> {
    if routes == [] then None
    else if routes[0].hasCallbacks && routes[0].accepts(url) then Some(routes[0])
    else FirstMatch(routes[1..], url)
  }

  ghost predicate SomeMatch(routes: seq<Route>, url: string) {
    exists r :: r in routes && r.hasCallbacks && r.accepts(url)
  }

  lemma {:induction false} FirstMatchFinds(routes: seq<Route>, url: string)
    ensures FirstMatch(routes, url).Some? <==> SomeMatch(routes, url)
    ensures FirstMatch(routes, url).Some? ==> IsFirst(routes, url, FirstMatch(routes, url).value)
  {
    if routes != [] {
      FirstMatchFinds(routes[1..], url);
      assert forall r :: r in routes <==> r == routes[0] || r in routes[1..];
      if routes[0].hasCallbacks && routes[0].accepts(url) {
        assert IsFirstAt(routes, url, 0);
      } else if FirstMatch(routes[1..], url).Some? {
        var i: nat :| IsFirstAt(routes[1..], url, i) && routes[1..][i] == FirstMatch(routes[1..], url).value;
        FirstBehind(routes, url, i);
      }
    }
  }

  /** The route at `i` takes the URL, and none before it does. */
  predicate IsFirstAt(routes: seq<Route>, url: string, i: nat) {
    && i < |routes| && routes[i].hasCallbacks && routes[i].accepts(url)
    && forall j :: 0 <= j < i ==> !(routes[j].hasCallbacks && routes[j].accepts(url))
  }

  lemma {:induction false} FirstBehind(routes: seq<Route>, url: string, i: nat)
    requires routes != [] && !(routes[0].hasCallbacks && routes[0].accepts(url)) && IsFirstAt(routes[1..], url, i)
    ensures IsFirstAt(routes, url, i + 1) && routes[i + 1] == routes[1..][i]
  {
    assert forall j :: 0 < j < |routes| ==> routes[j] == routes[1..][j - 1];
  }

  ghost predicate IsFirst(routes: seq<Route>, url: string, r: Route) {
    exists i: nat :: IsFirstAt(routes, url, i) && routes[i] == r
  }

  const ALL: string := "ALL"

  type VerbMap = map<string, seq<Route>>

  function RoutesFor(verbs: VerbMap, verb: string): seq<Route> {
    if verb in verbs then verbs[verb] else []
  }

  /** What a router answers for a URL that none of its children takes. */
  function LocalResolve(verbs: VerbMap, verb: string, url: string): Option<Route> {
    match FirstMatch(RoutesFor(verbs, verb), url)
    case Some(r) => Some(r)
    case None => FirstMatch(RoutesFor(verbs, ALL), url)
  }

  /** The verb's own routes come first, and there is an answer exactly when a route with handlers,
      under the verb or under `ALL`, accepts the URL. */
  lemma {:induction false} LocalResolveMeaning(verbs: VerbMap, verb: string, url: string)
    ensures LocalResolve(verbs, verb, url).Some? <==>
            SomeMatch(RoutesFor(verbs, verb), url) || SomeMatch(RoutesFor(verbs, "ALL"), url)
    ensures LocalResolve(verbs, verb, url).Some? ==>
      var own := RoutesFor(verbs, if SomeMatch(RoutesFor(verbs, verb), url) then verb else "ALL");
      IsFirst(own, url, LocalResolve(verbs, verb, url).value)
  {
    FirstMatchFinds(RoutesFor(verbs, verb), url);
    FirstMatchFinds(RoutesFor(verbs, ALL), url);
  }

  // ----- the tree -----

  /** Routers point at each other; a pointer is a name in one table of all routers. */
  type Name = nat

  datatype Node = Node(path: string, index: string, parent: Option<Name>,
                       paths: seq<string>, kids: map<string, Name>, verbs: VerbMap)

  type Table = map<Name, Node>

  /** A router's own lists agree: the paths are length-sorted and are the keys of the map. */
  ghost predicate ListsAgree(n: Node) {
    n.path != "" && ListOk(n.paths, n.kids.Keys)
  }

  /** Each child is filed under its path and knows its parent. */
  ghost predicate KnowsChildren(t: Table, r: Name)
    requires r in t
  {
    forall p :: p in t[r].kids ==>
      t[r].kids[p] in t && t[t[r].kids[p]].path == p && t[t[r].kids[p]].parent == Some(r)
  }

  /** A router with a parent is filed there, under its path. */
  ghost predicate KnownToParent(t: Table, c: Name)
    requires c in t
  {
    match t[c].parent
    case None => true
    case Some(p) => p in t && t[c].path in t[p].kids && t[p].kids[t[c].path] == c
  }

  /** The invariant of every table of routers. */
  ghost predicate Forest(t: Table) {
    forall r :: r in t ==> ListsAgree(t[r]) && KnowsChildren(t, r) && KnownToParent(t, r)
  }

  function Detached(t: Table, c: Name): Table
    requires c in t
  {
    match t[c].parent
    case None => t
    case Some(p) =>
      if p !in t then t
      else
        var t1 := t[p := t[p].(paths := Without(t[p].paths, t[c].path), kids := t[p].kids - {t[c].path})];
        t1[c := t1[c].(parent := None)]
  }

  function Attached(t: Table, r: Name, c: Name): Table
    requires r in t && c in t
  {
    var t1 := t[c := t[c].(parent := Some(r))];
    var n := t1[r];
    var kids := if t[c].path in n.kids then n.kids else n.kids[t[c].path := c];
    t1[r := n.(paths := InsertByLength(n.paths, t[c].path), kids := kids)]
  }

  /** `register_router`: taken out of its old parent, if any, then filed under the new one. */
  function Registered(t: Table, r: Name, c: Name): Table
    requires r in t && c in t
  {
    Attached(Detached(t, c), r, c)
  }

  /** No other child of `r` has the path of `c`. */
  predicate HasRoom(t: Table, r: Name, c: Name)
    requires r in t && c in t
  {
    t[c].path in t[r].kids ==> t[r].kids[t[c].path] == c
  }

  lemma {:induction false} DetachLists(t: Table, c: Name, x: Name)
    requires c in t && x in t && ListsAgree(t[x])
    ensures ListsAgree(Detached(t, c)[x])
  {
    if t[c].parent == Some(x) {
      RemoveKeepsListOk(t[x].paths, t[x].kids.Keys, t[c].path);
      assert Detached(t, c)[x].kids.Keys == t[x].kids.Keys - {t[c].path};
    }
  }

  lemma {:induction false} DetachChildren(t: Table, c: Name, x: Name)
    requires c in t && x in t && KnowsChildren(t, x) && KnownToParent(t, c)
    ensures KnowsChildren(Detached(t, c), x)
  {
    var t' := Detached(t, c);
    forall p | p in t'[x].kids
      ensures t'[x].kids[p] in t' && t'[t'[x].kids[p]].path == p && t'[t'[x].kids[p]].parent == Some(x)
    {
      assert t'[x].kids[p] == t[x].kids[p];
    }
  }

  lemma {:induction false} DetachParent(t: Table, c: Name, x: Name)
    requires c in t && x in t && KnownToParent(t, x) && KnownToParent(t, c)
    ensures KnownToParent(Detached(t, c), x)
  {
    match t[x].parent
    case None =>
    case Some(p) => assert x == c || t[x].path != t[c].path || t[c].parent != Some(p);
  }

  lemma {:induction false} DetachKeepsForest(t: Table, c: Name)
    requires Forest(t) && c in t
    ensures Forest(Detached(t, c)) && Detached(t, c)[c].parent == None
    ensures Detached(t, c).Keys == t.Keys && Detached(t, c)[c].path == t[c].path
  {
    assert KnownToParent(t, c);
    forall x | x in t
      ensures ListsAgree(Detached(t, c)[x])
      ensures KnowsChildren(Detached(t, c), x) && KnownToParent(Detached(t, c), x)
    {
      assert ListsAgree(t[x]) && KnowsChildren(t, x) && KnownToParent(t, x);
      DetachLists(t, c, x);
      DetachChildren(t, c, x);
      DetachParent(t, c, x);
    }
  }

  lemma {:induction false} AttachLists(t: Table, r: Name, c: Name, x: Name)
    requires r in t && c in t && x in t && t[c].path !in t[r].kids && ListsAgree(t[x])
    ensures ListsAgree(Attached(t, r, c)[x])
  {
    if x == r {
      InsertKeepsListOk(t[r].paths, t[r].kids.Keys, t[c].path);
      assert Attached(t, r, c)[r].kids.Keys == t[r].kids.Keys + {t[c].path};
    }
  }

  lemma {:induction false} AttachChildren(t: Table, r: Name, c: Name, x: Name)
    requires r in t && c in t && x in t && t[c].parent == None && t[c].path !in t[r].kids
    requires KnowsChildren(t, x)
    ensures KnowsChildren(Attached(t, r, c), x)
  {
    var t' := Attached(t, r, c);
    forall p | p in t'[x].kids
      ensures t'[x].kids[p] in t' && t'[t'[x].kids[p]].path == p && t'[t'[x].kids[p]].parent == Some(x)
    {
      if !(x == r && p == t[c].path) { assert t'[x].kids[p] == t[x].kids[p] != c; }
    }
  }

  lemma {:induction false} AttachParent(t: Table, r: Name, c: Name, x: Name)
    requires r in t && c in t && x in t && t[c].path !in t[r].kids && KnownToParent(t, x)
    ensures KnownToParent(Attached(t, r, c), x)
  {
    match t[x].parent
    case None =>
    case Some(p) => assert p == r ==> t[x].path != t[c].path;
  }

  lemma {:induction false} AttachKeepsForest(t: Table, r: Name, c: Name)
    requires Forest(t) && r in t && c in t && t[c].parent == None
    ensures Forest(Attached(t, r, c)) <==> t[c].path !in t[r].kids
  {
    var t', p := Attached(t, r, c), t[c].path;
    if p !in t[r].kids {
      AttachRoom(t, r, c);
    } else {
      assert KnowsChildren(t, r) && t[r].kids[p] != c;
      assert !KnownToParent(t', c);
    }
  }

  lemma {:induction false} AttachRoom(t: Table, r: Name, c: Name)
    requires Forest(t) && r in t && c in t && t[c].parent == None && t[c].path !in t[r].kids
    ensures Forest(Attached(t, r, c))
  {
    var t' := Attached(t, r, c);
    forall x | x in t ensures ListsAgree(t'[x]) && KnowsChildren(t', x) && KnownToParent(t', x) {
      assert ListsAgree(t[x]) && KnowsChildren(t, x) && KnownToParent(t, x);
      AttachLists(t, r, c, x);
      AttachChildren(t, r, c, x);
      AttachParent(t, r, c, x);
    }
  }

  lemma {:induction false} RoomAfterDetach(t: Table, r: Name, c: Name)
    requires Forest(t) && r in t && c in t
    ensures HasRoom(t, r, c) <==> t[c].path !in Detached(t, c)[r].kids
  {
    assert KnownToParent(t, c) && KnowsChildren(t, r);
  }

  /** A registration keeps the tree well-linked exactly when no sibling has the same path. */
  lemma {:induction false} RegisterKeepsForest(t: Table, r: Name, c: Name)
    requires Forest(t) && r in t && c in t
    ensures Forest(Registered(t, r, c)) <==> HasRoom(t, r, c)
  {
    DetachKeepsForest(t, c);
    RoomAfterDetach(t, r, c);
    AttachKeepsForest(Detached(t, c), r, c);
  }

  // ----- every run of registrations -----

  datatype Registration = Registration(parent: Name, child: Name)

  /** `register_router` refuses the root path by throwing; the tree is then as it was. */
  function Apply(t: Table, op: Registration): Table
    requires op.parent in t && op.child in t
  {
    if t[op.child].path == "/" then t else Registered(t, op.parent, op.child)
  }

  /** What a registration with room changes: the child leaves the list it was in, is filed under its
      path at the new parent and points there; every other child, and every path, index and route,
      stays. A router with the root path is not registered. */
  lemma {:induction false} RegistrationMeaning(t: Table, r: Name, c: Name, x: Name, p: string)
    requires Forest(t) && r in t && c in t && x in t && HasRoom(t, r, c)
    ensures var t' := Apply(t, Registration(r, c));
      && (t[c].path == "/" ==> t' == t)
      && (t[c].path != "/" ==>
            && t'.Keys == t.Keys
            && t'[x].path == t[x].path && t'[x].index == t[x].index && t'[x].verbs == t[x].verbs
            && t'[x].parent == (if x == c then Some(r) else t[x].parent)
            && var here := x == r && p == t[c].path;
            && (p in t'[x].kids <==> here || (p in t[x].kids && t[x].kids[p] != c))
            && (p in t'[x].kids ==> t'[x].kids[p] == if here then c else t[x].kids[p]))
  {
    assert KnownToParent(t, c) && KnowsChildren(t, x) && KnowsChildren(t, r);
    DetachMeaning(t, c, x, p);
    DetachMeaning(t, c, r, t[c].path);
    AttachMeaning(Detached(t, c), r, c, x, p);
  }

  lemma {:induction false} DetachMeaning(t: Table, c: Name, x: Name, p: string)
    requires c in t && x in t && KnownToParent(t, c) && KnowsChildren(t, x)
    ensures var d := Detached(t, c);
      && d.Keys == t.Keys
      && d[x].path == t[x].path && d[x].index == t[x].index && d[x].verbs == t[x].verbs
      && d[x].parent == (if x == c then None else t[x].parent)
      && (p in d[x].kids <==> p in t[x].kids && t[x].kids[p] != c)
      && (p in d[x].kids ==> d[x].kids[p] == t[x].kids[p])
  {
    if p in t[x].kids {
      assert t[t[x].kids[p]].path == p && t[t[x].kids[p]].parent == Some(x);
    }
  }

  lemma {:induction false} AttachMeaning(t: Table, r: Name, c: Name, x: Name, p: string)
    requires r in t && c in t && x in t && t[c].path !in t[r].kids
    ensures var a := Attached(t, r, c);
      && a.Keys == t.Keys
      && a[x].path == t[x].path && a[x].index == t[x].index && a[x].verbs == t[x].verbs
      && a[x].parent == (if x == c then Some(r) else t[x].parent)
      && var here := x == r && p == t[c].path;
      && (p in a[x].kids <==> here || p in t[x].kids)
      && (p in a[x].kids ==> a[x].kids[p] == if here then c else t[x].kids[p])
  {
  }

  lemma {:induction false} ApplyKeys(t: Table, op: Registration)
    requires op.parent in t && op.child in t
    ensures Apply(t, op).Keys == t.Keys
  {
  }

  /** Every registration names routers of the table and, when it happens, finds room. */
  ghost predicate RunsWithRoom(t: Table, ops: seq<Registration>)
    decreases ops
  {
    ops == [] ||
    (ops[0].parent in t && ops[0].child in t && HasRoom(t, ops[0].parent, ops[0].child) &&
     RunsWithRoom(Apply(t, ops[0]), ops[1..]))
  }

  function RunAll(t: Table, ops: seq<Registration>): Table
    requires forall op :: op in ops ==> op.parent in t && op.child in t
    decreases ops
  {
    if ops == [] then t
    else
      ApplyKeys(t, ops[0]);
      RunAll(Apply(t, ops[0]), ops[1..])
  }

  /** Any sequence of registrations and moves of routers with distinct sibling paths keeps every
      path list length-sorted and equal to the map keys, and every link two-sided. */
  lemma {:induction false} RunsKeepForest(t: Table, ops: seq<Registration>)
    requires Forest(t) && RunsWithRoom(t, ops)
    requires forall op :: op in ops ==> op.parent in t && op.child in t
    ensures Forest(RunAll(t, ops))
    decreases ops
  {
    if ops != [] {
      ApplyKeys(t, ops[0]);
      RegisterKeepsForest(t, ops[0].parent, ops[0].child);
      RunsKeepForest(Apply(t, ops[0]), ops[1..]);
    }
  }

  // ----- dispatch -----

  /** Where a URL ends up, and the URL that router sees. Every step removes a path, so the descent
      ends even when routers are registered into a cycle. */
  ghost function Target(t: Table, r: Name, url: string): (res: (Name, string))
    requires Forest(t) && r in t && |url| >= |t[r].path|
    ensures res.0 in t && |res.1| >= |t[res.0].path|
    decreases |url|
  {
    assert ListsAgree(t[r]) && KnowsChildren(t, r);
    var local := url[|t[r].path|..];
    FirstIsSome(t[r].paths, local);
    match FirstCovering(t[r].paths, local)
    case None => (r, url)
    case Some(p) => Target(t, t[r].kids[p], local)
  }

  /** The descent takes, at every router, the longest registered path that is a proper prefix of
      what is left, and stops where there is none. The verb plays no part. */
  lemma {:induction false} TargetIsLongestPrefix(t: Table, r: Name, url: string, p: string)
    requires Forest(t) && r in t && |url| >= |t[r].path|
    ensures var local := url[|t[r].path|..];
            && (IsLongestPrefix(t[r].kids.Keys, local, p) ==>
                  && t[r].kids[p] in t && |local| >= |t[t[r].kids[p]].path|
                  && Target(t, r, url) == Target(t, t[r].kids[p], local))
            && ((forall q :: q in t[r].kids ==> !(q < local)) ==> Target(t, r, url) == (r, url))
  {
    assert ListsAgree(t[r]) && KnowsChildren(t, r);
    var local := url[|t[r].path|..];
    assert SetOf(t[r].paths) == t[r].kids.Keys;
    FirstIsLongest(t[r].paths, local, p);
    FirstIsSome(t[r].paths, local);
  }

  /** The path a router matches its routes against: from the slash that ends its own path. */
  function RoutePath(n: Node, url: string): string
    requires n.path != "" && |url| >= |n.path|
  {
    var local := url[|n.path| - 1..];
    if |local| == 1 then n.index else local
  }

  ghost function Resolve(t: Table, r: Name, verb: string, url: string): Option<Route>
    requires Forest(t) && r in t && |url| >= |t[r].path|
  {
    var (n, u) := Target(t, r, url);
    assert ListsAgree(t[n]);
    LocalResolve(t[n].verbs, verb, RoutePath(t[n], u))
  }

  lemma {:induction false} AskedPath(n: Node, u: string)
    requires 0 < |n.path| <= |u|
    ensures RoutePath(n, u) == if u[|n.path|..] == "" then n.index else [u[|n.path| - 1]] + u[|n.path|..]
  {
  }

  /** A URL resolves exactly when, at the end of the descent, some route with handlers accepts what is
      left of it under the verb or under `ALL`; the verb's own routes are preferred. Where nothing is
      left the routes are asked for the router's index, otherwise for what is left behind the last
      character of the router's own path. */
  lemma {:induction false} ResolveMeaning(t: Table, r: Name, verb: string, url: string)
    requires Forest(t) && r in t && |url| >= |t[r].path|
    ensures var (n, u) := Target(t, r, url);
            && 0 < |t[n].path| <= |u|
            && var last, rest := u[|t[n].path| - 1], u[|t[n].path|..];
            var path := if rest == "" then t[n].index else [last] + rest;
            var own, any := RoutesFor(t[n].verbs, verb), RoutesFor(t[n].verbs, "ALL");
            && (Resolve(t, r, verb, url).Some? <==> SomeMatch(own, path) || SomeMatch(any, path))
            && (Resolve(t, r, verb, url).Some? ==>
                  IsFirst(if SomeMatch(own, path) then own else any, path, Resolve(t, r, verb, url).value))
  {
    var (n, u) := Target(t, r, url);
    assert ListsAgree(t[n]);
    AskedPath(t[n], u);
    LocalResolveMeaning(t[n].verbs, verb, RoutePath(t[n], u));
  }

  /** Where the descent ends, the URL still starts with the router's own path, and it is the end of
      the URL that came in. */
  lemma {:induction false} TargetIsSuffix(t: Table, r: Name, url: string)
    requires Forest(t) && r in t && t[r].path <= url
    ensures var (n, u) := Target(t, r, url); t[n].path <= u && EndsIn(url, u)
    decreases |url|
  {
    var next := Descend(t, r, url);
    if next.Some? {
      var local := url[|t[r].path|..];
      TargetIsSuffix(t, next.value, local);
      EndOfEnd(url, |t[r].path|, Target(t, next.value, local).1);
    }
  }

  predicate EndsIn(url: string, u: string) {
    |u| <= |url| && url[|url| - |u|..] == u
  }

  lemma {:induction false} EndOfEnd(url: string, k: nat, u: string)
    requires k <= |url| && EndsIn(url[k..], u)
    ensures EndsIn(url, u)
  {
  }

  /** One step of the descent. */
  lemma {:induction false} Descend(t: Table, r: Name, url: string) returns (next: Option<Name>)
    requires Forest(t) && r in t && t[r].path <= url
    ensures next.None? ==> Target(t, r, url) == (r, url)
    ensures next.Some? ==>
      && next.value in t && t[r].path != "" && t[next.value].path <= url[|t[r].path|..]
      && Target(t, r, url) == Target(t, next.value, url[|t[r].path|..])
  {
    assert ListsAgree(t[r]) && KnowsChildren(t, r);
    var local := url[|t[r].path|..];
    FirstIsSome(t[r].paths, local);
    next := match FirstCovering(t[r].paths, local) case None => None case Some(p) => Some(t[r].kids[p]);
  }

  /** In the text of the URL: behind a router mounted at a path that ends in a slash, the routes are
      asked for a slash and what follows the mount path, or for the index where nothing follows. */
  lemma {:induction false} RoutesAreAskedFor(t: Table, r: Name, verb: string, url: string, rest: string)
    requires Forest(t) && r in t && |url| >= |t[r].path|
    requires var (n, u) := Target(t, r, url); u == t[n].path + rest && t[n].path[|t[n].path| - 1..] == "/"
    ensures var n := Target(t, r, url).0;
      Resolve(t, r, verb, url) == LocalResolve(t[n].verbs, verb, if rest == "" then t[n].index else "/" + rest)
  {
    var (n, u) := Target(t, r, url);
    assert ListsAgree(t[n]);
    DropFront(t[n].path, rest);
  }

  lemma {:induction false} DropFront(path: string, rest: string)
    requires path != ""
    ensures (path + rest)[|path| - 1..] == path[|path| - 1..] + rest
  {
  }

  /** A root router without children, mounted at `/`: the URL itself is asked for, the bare slash
      being the index. */
  lemma {:induction false} RootIsAskedFor(t: Table, r: Name, verb: string, rest: string)
    requires Forest(t) && r in t && t[r].path == "/" && t[r].kids == map[]
    ensures Resolve(t, r, verb, "/" + rest)
      == LocalResolve(t[r].verbs, verb, if rest == "" then t[r].index else "/" + rest)
  {
    assert ListsAgree(t[r]);
    var url := "/" + rest;
    assert url[1..] == rest && url[0..] == url;
    FirstIsSome(t[r].paths, rest);
  }

  // ----- resolution by segments -----

  /** Segment by segment the path matches; a route without a pattern takes any path. */
  ghost predicate MatchesPath(route: Route, path: string) {
    route.segs.None? ||
    (Routes.IsPath(path) && exists caps :: Routes.SegmentsMatch(route.segs.value, Routes.Parts(path), caps))
  }

  /** The engine answers for the compiled pattern of these segments. */
  ghost predicate IsCompiled(route: Route) {
    match route.segs
    case None => forall path :: route.accepts(path)
    case Some(segs) =>
      && Routes.WellFormed(segs)
      && forall path :: route.accepts(path) <==> exists caps :: Routes.RouteMatches(segs, path, caps)
  }

  lemma {:induction false} AcceptsIff(route: Route, path: string)
    requires IsCompiled(route) && '\n' !in path
    ensures route.accepts(path) <==> MatchesPath(route, path)
  {
    if route.segs.Some? {
      var segs := route.segs.value;
      forall caps
        ensures Routes.RouteMatches(segs, path, caps) <==>
          Routes.IsPath(path) && Routes.SegmentsMatch(segs, Routes.Parts(path), caps)
      {
        Routes.RouteMeaning(segs, path, caps);
      }
    }
  }

  ghost predicate SomeRouteFits(routes: seq<Route>, path: string) {
    exists r :: r in routes && r.hasCallbacks && MatchesPath(r, path)
  }

  ghost predicate AreCompiled(routes: seq<Route>) {
    forall r :: r in routes ==> IsCompiled(r)
  }

  lemma {:induction false} SomeMatchIff(routes: seq<Route>, path: string)
    requires AreCompiled(routes) && '\n' !in path
    ensures SomeMatch(routes, path) <==> SomeRouteFits(routes, path)
  {
    forall r | r in routes ensures r.accepts(path) <==> MatchesPath(r, path) {
      AcceptsIff(r, path);
    }
  }

  /** With compiled routes, a URL resolves exactly when the segments of some route with handlers,
      under the verb or under `ALL`, match a slash and what the URL holds behind the path of the router
      where the descent ends, or its index where nothing is left; the route returned is such a one. */
  lemma {:induction false} ResolveBySegments(t: Table, r: Name, verb: string, url: string)
    requires Forest(t) && r in t && |url| >= |t[r].path|
    ensures var (n, u) := Target(t, r, url);
      && 0 < |t[n].path| <= |u|
      && var last, rest := u[|t[n].path| - 1], u[|t[n].path|..];
      && (t[r].path <= url && t[n].path[|t[n].path| - 1] == '/' ==> u == t[n].path + rest && last == '/')
      && var path := if rest == "" then t[n].index else [last] + rest;
      var own, any := RoutesFor(t[n].verbs, verb), RoutesFor(t[n].verbs, "ALL");
      AreCompiled(own) && AreCompiled(any) && '\n' !in path ==>
        && (Resolve(t, r, verb, url).Some? <==> SomeRouteFits(own, path) || SomeRouteFits(any, path))
        && (Resolve(t, r, verb, url).Some? ==>
              var route := Resolve(t, r, verb, url).value;
              route in (if SomeRouteFits(own, path) then own else any) && route.hasCallbacks && MatchesPath(route, path))
  {
    var (n, u) := Target(t, r, url);
    assert ListsAgree(t[n]);
    if t[r].path <= url {
      TargetIsSuffix(t, r, url);
      PathThenRest(t[n].path, u);
    }
    NodeBySegments(t[n], verb, u);
  }

  lemma {:induction false} PathThenRest(path: string, u: string)
    requires path != "" && path <= u
    ensures u == path + u[|path|..] && u[|path| - 1] == path[|path| - 1]
  {
  }

  lemma {:induction false} NodeBySegments(n: Node, verb: string, u: string)
    requires 0 < |n.path| <= |u|
    ensures var last, rest := u[|n.path| - 1], u[|n.path|..];
      var path := if rest == "" then n.index else [last] + rest;
      var own, any := RoutesFor(n.verbs, verb), RoutesFor(n.verbs, "ALL");
      AreCompiled(own) && AreCompiled(any) && '\n' !in path ==>
        && (LocalResolve(n.verbs, verb, RoutePath(n, u)).Some? <==> SomeRouteFits(own, path) || SomeRouteFits(any, path))
        && (LocalResolve(n.verbs, verb, RoutePath(n, u)).Some? ==>
              var route := LocalResolve(n.verbs, verb, RoutePath(n, u)).value;
              route in (if SomeRouteFits(own, path) then own else any) && route.hasCallbacks && MatchesPath(route, path))
  {
    AskedPath(n, u);
    var path := RoutePath(n, u);
    if AreCompiled(RoutesFor(n.verbs, verb)) && AreCompiled(RoutesFor(n.verbs, "ALL")) && '\n' !in path {
      LocalBySegments(n.verbs, verb, path);
    }
  }

  lemma {:induction false} LocalBySegments(verbs: VerbMap, verb: string, path: string)
    requires AreCompiled(RoutesFor(verbs, verb)) && AreCompiled(RoutesFor(verbs, "ALL")) && '\n' !in path
    ensures var own, any := RoutesFor(verbs, verb), RoutesFor(verbs, "ALL");
      && (LocalResolve(verbs, verb, path).Some? <==> SomeRouteFits(own, path) || SomeRouteFits(any, path))
      && (LocalResolve(verbs, verb, path).Some? ==>
            var route := LocalResolve(verbs, verb, path).value;
            route in (if SomeRouteFits(own, path) then own else any) && route.hasCallbacks && MatchesPath(route, path))
  {
    var own, any := RoutesFor(verbs, verb), RoutesFor(verbs, "ALL");
    SomeMatchIff(own, path);
    SomeMatchIff(any, path);
    LocalResolveMeaning(verbs, verb, path);
    forall x | x in own || x in any ensures x.accepts(path) <==> MatchesPath(x, path) {
      AcceptsIff(x, path);
    }
  }

  class Routers {
    var nodes: Table

    constructor ()
      ensures Forest(nodes) && nodes == map[]
    {
      nodes := map[];
    }

    /** A new router, not registered anywhere yet. */
    method Create(name: Name, path: string, index: string)
      requires Forest(nodes) && name !in nodes && path != ""
      modifies this
      ensures Forest(nodes)
      ensures nodes == old(nodes)[name := Node(path, index, None, [], map[], map[])]
    {
      var n := Node(path, index, None, [], map[], map[]);
      nodes := nodes[name := n];
      assert ListsAgree(n);
      forall x | x in nodes ensures ListsAgree(nodes[x]) && KnowsChildren(nodes, x) && KnownToParent(nodes, x) {
        if x != name {
          assert old(ListsAgree(nodes[x]) && KnowsChildren(nodes, x) && KnownToParent(nodes, x));
        }
      }
    }

    method DetachFromParent(c: Name)
      requires c in nodes && (nodes[c].parent.Some? ==> nodes[c].parent.value in nodes)
      modifies this
      ensures nodes == Detached(old(nodes), c)
    {
      if nodes[c].parent.Some? {
        var p := nodes[c].parent.value;
        var path := nodes[c].path;
        nodes := nodes[p := nodes[p].(paths := Without(nodes[p].paths, path), kids := nodes[p].kids - {path})];
        nodes := nodes[c := nodes[c].(parent := None)];
      }
    }

    method FileUnder(r: Name, c: Name)
      requires r in nodes && c in nodes
      modifies this
      ensures nodes == Attached(old(nodes), r, c)
    {
      var path := nodes[c].path;
      nodes := nodes[c := nodes[c].(parent := Some(r))];
      var n := nodes[r];
      if path !in n.kids {
        n := n.(kids := n.kids[path := c]);
      }
      nodes := nodes[r := n.(paths := InsertByLength(n.paths, path))];
    }

    method RegisterRouter(r: Name, c: Name) returns (ok: bool)
      requires Forest(nodes) && r in nodes && c in nodes
      modifies this
      ensures ok <==> old(nodes)[c].path != "/"
      ensures nodes == Apply(old(nodes), Registration(r, c))
      ensures Forest(nodes) <==> !ok || HasRoom(old(nodes), r, c)
    {
      RegisterKeepsForest(nodes, r, c);
      if nodes[c].path == "/" {
        return false;
      }
      assert KnownToParent(nodes, c);
      DetachFromParent(c);
      FileUnder(r, c);
      ok := true;
    }

    /** The child scan of `resolve_url`. */
    method FindChild(paths: seq<string>, local: string) returns (p: Option<string>)
      ensures p == FirstCovering(paths, local)
    {
      var i := 0;
      assert paths[0..] == paths;
      while i < |paths|
        invariant 0 <= i <= |paths|
        invariant FirstCovering(paths[i..], local) == FirstCovering(paths, local)
      {
        assert paths[i..][0] == paths[i] && paths[i..][1..] == paths[i + 1..];
        if Covers(local, paths[i]) {
          return Some(paths[i]);
        }
        i := i + 1;
      }
      return None;
    }

    /** The route scan of `resolve_url`. */
    method FindRoute(routes: seq<Route>, path: string) returns (route: Option<Route>)
      ensures route == FirstMatch(routes, path)
    {
      var j := 0;
      assert routes[0..] == routes;
      while j < |routes|
        invariant 0 <= j <= |routes|
        invariant FirstMatch(routes[j..], path) == FirstMatch(routes, path)
      {
        assert routes[j..][0] == routes[j] && routes[j..][1..] == routes[j + 1..];
        if routes[j].hasCallbacks && routes[j].accepts(path) {
          return Some(routes[j]);
        }
        j := j + 1;
      }
      return None;
    }

    /** `substr` throws on a URL shorter than the router's own path. */
    method ResolveUrl(r: Name, verb: string, url: string) returns (threw: bool, route: Option<Route>)
      requires Forest(nodes) && r in nodes
      ensures threw <==> |url| < |nodes[r].path|
      ensures !threw ==> route == Resolve(nodes, r, verb, url)
      decreases |url|, if verb == ALL then 0 else 1
    {
      var n := nodes[r];
      if |url| < |n.path| {
        return true, None;
      }
      assert ListsAgree(n) && KnowsChildren(nodes, r);
      var local := url[|n.path|..];
      FirstIsSome(n.paths, local);
      var p := FindChild(n.paths, local);
      if p.Some? {
        threw, route := ResolveUrl(n.kids[p.value], verb, local);
        return;
      }
      threw := false;
      route := FindRoute(RoutesFor(n.verbs, verb), RoutePath(n, url));
      if route.None? && verb != ALL {
        threw, route := ResolveUrl(r, ALL, url);
      }
    }
  }
}
