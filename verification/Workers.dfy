/** The master process's choice of the worker that serves an accepted connection. */
module Workers {
  import opened Text

  /** A worker can serve a connection when it is an http worker and still valid. */
  datatype Worker = Worker(http: bool, valid: bool)

  predicate HasEligible(ws: seq<Worker>) {
    exists i :: 0 <= i < |ws| && ws[i].http && ws[i].valid
  }

  function Wrap(i: nat, n: nat): nat {
    if i >= n then 0 else i
  }

  /** How many steps of the wrap-around scan lead from `a` to `b`. */
  function Dist(a: nat, b: nat, n: nat): nat
    requires a < n && b < n
  {
    if b >= a then b - a else n - a + b
  }

  /** `j` is the first eligible worker at or cyclically after `start`. */
  ghost predicate IsFirst(ws: seq<Worker>, start: nat, j: nat)
    requires start < |ws|
  {
    j < |ws| && ws[j].http && ws[j].valid
    && forall v :: 0 <= v < |ws| && ws[v].http && ws[v].valid ==> Dist(start, j, |ws|) <= Dist(start, v, |ws|)
  }

  // ----- the scan, one probe at a time -----

  datatype Scan = At(idx: nat) | Found(idx: nat) | GaveUp(idx: nat)

  function Probe(ws: seq<Worker>, start: nat, i: nat): Scan
    requires start < |ws| && i < |ws|
  {
    if ws[i].http && ws[i].valid then Found(i)
    else
      var j := Wrap(i + 1, |ws|);
      if j == start && !ws[j].http then GaveUp(j) else At(j)
  }

  function Probes(ws: seq<Worker>, start: nat, i: nat, k: nat): Scan
    requires start < |ws| && i < |ws|
    decreases k
  {
    if k == 0 then At(i)
    else match Probe(ws, start, i)
      case At(j) => Probes(ws, start, j, k - 1)
      case s => s
  }

  lemma {:induction false} ScanFinds(ws: seq<Worker>, start: nat, i: nat, k: nat, e: nat)
    requires start < |ws| && i < |ws| && e < |ws| && ws[e].http && ws[e].valid
    requires forall v :: 0 <= v < |ws| && ws[v].http && ws[v].valid ==> Dist(start, i, |ws|) <= Dist(start, v, |ws|)
    requires k + Dist(start, i, |ws|) >= |ws|
    ensures Probes(ws, start, i, k).Found? && IsFirst(ws, start, Probes(ws, start, i, k).idx)
    decreases k
  {
    if !(ws[i].http && ws[i].valid) {
      var j := Wrap(i + 1, |ws|);
      assert Dist(start, i, |ws|) < Dist(start, e, |ws|);
      forall v | 0 <= v < |ws| && ws[v].http && ws[v].valid
        ensures Dist(start, j, |ws|) <= Dist(start, v, |ws|)
      {
        assert v != i;
      }
      ScanFinds(ws, start, j, k - 1, e);
    }
  }

  lemma {:induction false} ScanGivesUp(ws: seq<Worker>, start: nat, i: nat, k: nat)
    requires start < |ws| && i < |ws| && !HasEligible(ws) && !ws[start].http
    requires k + Dist(start, i, |ws|) >= |ws|
    ensures Probes(ws, start, i, k) == GaveUp(start)
    decreases k
  {
    var j := Wrap(i + 1, |ws|);
    if j != start {
      ScanGivesUp(ws, start, j, k - 1);
    }
  }

  lemma {:induction false} ScanGoesOn(ws: seq<Worker>, start: nat, i: nat, k: nat)
    requires start < |ws| && i < |ws| && !HasEligible(ws) && ws[start].http
    ensures Probes(ws, start, i, k).At?
    decreases k
  {
    if k > 0 {
      ScanGoesOn(ws, start, Wrap(i + 1, |ws|), k - 1);
    }
  }

  /** The scan ends exactly when a worker is eligible or the one it starts at is not an http
      worker, and then within as many probes as there are workers: with the cyclically first
      eligible worker, or with none. Started at an http worker with no eligible one it never ends. */
  lemma {:induction false} ScanEndsIff(ws: seq<Worker>, start: nat)
    requires start < |ws|
    ensures (exists k: nat :: !Probes(ws, start, start, k).At?) <==> HasEligible(ws) || !ws[start].http
    ensures HasEligible(ws) ==>
      Probes(ws, start, start, |ws|).Found? && IsFirst(ws, start, Probes(ws, start, start, |ws|).idx)
    ensures !HasEligible(ws) && !ws[start].http ==> Probes(ws, start, start, |ws|) == GaveUp(start)
  {
    if HasEligible(ws) {
      var e :| 0 <= e < |ws| && ws[e].http && ws[e].valid;
      ScanFinds(ws, start, start, |ws|, e);
    } else if !ws[start].http {
      ScanGivesUp(ws, start, start, |ws|);
    } else {
      forall k: nat ensures Probes(ws, start, start, k).At? {
        ScanGoesOn(ws, start, start, k);
      }
    }
  }

  // ----- successive picks -----

  /** The workers picked by successive connections, the set of eligible ones staying as it is. */
  ghost predicate IsRun(ws: seq<Worker>, ps: seq<nat>) {
    (forall i :: 0 <= i < |ps| ==> ps[i] < |ws| && ws[ps[i]].http && ws[ps[i]].valid)
    && forall i :: 1 <= i < |ps| ==> Follows(ws, ps, i)
  }

  ghost predicate Follows(ws: seq<Worker>, ps: seq<nat>, i: nat)
    requires 1 <= i < |ps| && ps[i - 1] < |ws|
  {
    IsFirst(ws, Wrap(ps[i - 1] + 1, |ws|), ps[i])
  }

  /** Seen from an eligible worker `w`, a pick moves on to the next eligible worker and skips none,
      or comes back to `w` once no other is left. */
  lemma {:induction false} PickMovesOn(ws: seq<Worker>, w: nat, p: nat, q: nat)
    requires w < |ws| && p < |ws| && ws[w].http && ws[w].valid
    requires IsFirst(ws, Wrap(p + 1, |ws|), q)
    ensures q == w || Dist(w, p, |ws|) < Dist(w, q, |ws|)
    ensures forall v :: 0 <= v < |ws| && ws[v].http && ws[v].valid && Dist(w, p, |ws|) < Dist(w, v, |ws|) ==>
      q != w && Dist(w, q, |ws|) <= Dist(w, v, |ws|)
  {
    var s := Wrap(p + 1, |ws|);
    assert Dist(s, q, |ws|) <= Dist(s, w, |ws|);
    forall v | 0 <= v < |ws| && ws[v].http && ws[v].valid && Dist(w, p, |ws|) < Dist(w, v, |ws|)
      ensures q != w && Dist(w, q, |ws|) <= Dist(w, v, |ws|)
    {
      assert Dist(s, q, |ws|) <= Dist(s, v, |ws|);
    }
  }

  function Count(ps: seq<nat>, u: nat): nat {
    if ps == [] then 0
    else Count(ps[..|ps| - 1], u) + if ps[|ps| - 1] == u then 1 else 0
  }

  /** 1 when a round that started at `s` and last picked `p` has passed `u`. */
  function Reached(s: nat, u: nat, p: nat, n: nat): nat
    requires s < n && u < n && p < n
  {
    if Dist(s, u, n) <= Dist(s, p, n) then 1 else 0
  }

  lemma {:induction false} OnePick(ws: seq<Worker>, s: nat, u: nat, p: nat, q: nat)
    requires s < |ws| && u < |ws| && p < |ws| && ws[s].http && ws[s].valid && ws[u].http && ws[u].valid
    requires IsFirst(ws, Wrap(p + 1, |ws|), q)
    ensures Reached(s, u, q, |ws|) + (if q == s then 1 else 0)
      == Reached(s, u, p, |ws|) + if q == u then 1 else 0
  {
    PickMovesOn(ws, s, p, q);
  }

  lemma {:induction false} PrefixIsRun(ws: seq<Worker>, ps: seq<nat>)
    requires ps != [] && IsRun(ws, ps)
    ensures IsRun(ws, ps[..|ps| - 1])
  {
    var before := ps[..|ps| - 1];
    forall i | 1 <= i < |before| ensures Follows(ws, before, i) {
      assert Follows(ws, ps, i);
    }
  }

  /** After any run every eligible worker was picked once per completed round, and once more
      when the current round has reached it. */
  lemma {:induction false} CountIsRounds(ws: seq<Worker>, ps: seq<nat>, u: nat)
    requires ps != [] && IsRun(ws, ps) && u < |ws| && ws[u].http && ws[u].valid
    ensures Count(ps, u) + 1 == Count(ps, ps[0]) + Reached(ps[0], u, ps[|ps| - 1], |ws|)
    decreases |ps|
  {
    var n := |ps|;
    var before := ps[..n - 1];
    if n == 1 {
      assert before == [];
    } else {
      PrefixIsRun(ws, ps);
      CountIsRounds(ws, before, u);
      assert Follows(ws, ps, n - 1);
      OnePick(ws, ps[0], u, ps[n - 2], ps[n - 1]);
    }
  }

  /** No eligible worker is ever ahead of another by more than one connection. */
  lemma {:induction false} LoadsAreBalanced(ws: seq<Worker>, ps: seq<nat>, u: nat, v: nat)
    requires IsRun(ws, ps) && u < |ws| && v < |ws| && ws[u].http && ws[u].valid && ws[v].http && ws[v].valid
    ensures Count(ps, u) <= Count(ps, v) + 1
  {
    if ps != [] {
      CountIsRounds(ws, ps, u);
      CountIsRounds(ws, ps, v);
    }
  }

  /** Until `ps[a]` is picked again the picks move strictly away from it. */
  lemma {:induction false} PicksRise(ws: seq<Worker>, ps: seq<nat>, a: nat, i: nat, j: nat)
    requires IsRun(ws, ps) && a <= i < j < |ps|
    requires forall t :: a < t <= j ==> ps[t] != ps[a]
    ensures Dist(ps[a], ps[i], |ws|) + (j - i) <= Dist(ps[a], ps[j], |ws|)
    decreases j
  {
    assert Follows(ws, ps, j);
    PickMovesOn(ws, ps[a], ps[j - 1], ps[j]);
    if i < j - 1 {
      PicksRise(ws, ps, a, i, j - 1);
    }
  }

  /** A picked worker is picked again within as many connections as there are workers. */
  lemma {:induction false} PickedAgain(ws: seq<Worker>, ps: seq<nat>, a: nat)
    requires IsRun(ws, ps) && a + |ws| < |ps|
    ensures exists b :: a < b <= a + |ws| && ps[b] == ps[a]
  {
    if forall t :: a < t <= a + |ws| ==> ps[t] != ps[a] {
      PicksRise(ws, ps, a, a, a + |ws|);
    }
  }

  lemma {:induction false} PickReaches(ws: seq<Worker>, ps: seq<nat>, a: nat, i: nat, b: nat, v: nat)
    requires IsRun(ws, ps) && a <= i < b < |ps| && ps[a] == ps[b] && v < |ws| && ws[v].http && ws[v].valid
    requires forall t :: a < t < b ==> ps[t] != ps[a]
    requires Dist(ps[a], ps[i], |ws|) < Dist(ps[a], v, |ws|)
    ensures exists t :: a < t < b && ps[t] == v
    decreases b - i
  {
    assert Follows(ws, ps, i + 1);
    PickMovesOn(ws, ps[a], ps[i], ps[i + 1]);
    if ps[i + 1] != v {
      PickReaches(ws, ps, a, i + 1, b, v);
    }
  }

  /** Between two successive picks of one worker every other eligible worker is picked exactly
      once. */
  lemma {:induction false} EachOnceBetween(ws: seq<Worker>, ps: seq<nat>, a: nat, b: nat, v: nat)
    requires IsRun(ws, ps) && a < b < |ps| && ps[a] == ps[b]
    requires forall t :: a < t < b ==> ps[t] != ps[a]
    requires v < |ws| && ws[v].http && ws[v].valid && v != ps[a]
    ensures exists t :: a < t < b && ps[t] == v
    ensures forall s, t :: a < s < b && a < t < b && ps[s] == v && ps[t] == v ==> s == t
  {
    PickReaches(ws, ps, a, a, b, v);
    forall s, t | a < s < b && a < t < b && ps[s] == v && ps[t] == v
      ensures s == t
    {
      if s < t {
        PicksRise(ws, ps, a, s, t);
      } else if t < s {
        PicksRise(ws, ps, a, t, s);
      }
    }
  }

  // ----- the listener callback's state -----

  class Master {
    var workers: seq<Worker>
    var rridx: nat

    constructor (ws: seq<Worker>)
      ensures workers == ws && rridx == 100000
    {
      workers, rridx := ws, 100000;
    }

    /** The index the next scan starts at. */
    ghost function Start(): nat
      reads this
    {
      Wrap(rridx + 1, |workers|)
    }

    /** One accepted connection. The scan ends under the precondition and only then
        (`ScanEndsIff`). */
    method Select() returns (pw: Option<nat>)
      requires workers == [] || HasEligible(workers) || !workers[Start()].http
      modifies this`rridx
      ensures workers == [] ==> pw.None? && rridx == old(rridx)
      ensures pw.Some? <==> HasEligible(workers)
      ensures pw.Some? ==> IsFirst(workers, old(Start()), pw.value) && rridx == pw.value
      ensures pw.None? && workers != [] ==> rridx == old(Start())
    {
      if workers == [] {
        return None;
      }
      rridx := rridx + 1;
      if rridx >= |workers| {
        rridx := 0;
      }
      var cur := rridx;
      pw := None;
      ghost var probes: nat := 0;
      ScanEndsIff(workers, cur);
      while pw.None?
        invariant cur < |workers| && rridx < |workers| && probes <= |workers|
        invariant pw.Some? ==> pw.value == rridx
        invariant pw.Some? ==> Probes(workers, cur, cur, |workers|) == Found(rridx)
        invariant pw.None? ==>
          Probes(workers, cur, cur, |workers|) == Probes(workers, cur, rridx, |workers| - probes)
        decreases pw.None?, |workers| - probes
      {
        if workers[rridx].http && workers[rridx].valid {
          pw := Some(rridx);
        } else {
          rridx := rridx + 1;
          if rridx >= |workers| {
            rridx := 0;
          }
          if rridx == cur && !workers[rridx].http {
            break;
          }
          probes := probes + 1;
        }
      }
    }
  }
}
