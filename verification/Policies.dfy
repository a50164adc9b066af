/** Access policies: `validate_access` passes continuations from router to parent router, from
    policy to policy and from rule to rule. Each closure of the source is one constructor of
    `Kont`; a rule answers, once, by resuming the continuation it was given. */
module Policies {
  import opened Text

  datatype FilterType = Access | MultipartForm | MultipartFile

  datatype Rule = Rule(id: nat, kind: FilterType)

  type Policy = seq<Rule>
  type Error = string

  // ----- the source's closures and calls -----

  datatype Kont =
    | Done
    // filter_policy_t::_validate, after rule `idx`
    | AfterRule(rules: Policy, kind: FilterType, idx: nat, k: Kont)
    // _validate_router_policies and _validate_route_policies, after policy `idx`
    | AfterPolicy(policies: seq<Policy>, kind: FilterType, idx: nat, k: Kont)
    // validate_access of a router or a route, once everything above it has passed
    | AfterParents(policies: seq<Policy>, k: Kont)

  datatype State = Waiting(rule: Rule, k: Kont) | Finished(verdict: Option<Error>)

  function Left(n: nat, idx: nat): nat {
    if idx < n then n - idx else 0
  }

  function PolicyCost(policies: seq<Policy>, idx: nat): nat
    decreases Left(|policies|, idx)
  {
    if idx >= |policies| then 1 else 3 + 2 * |policies[idx]| + PolicyCost(policies, idx + 1)
  }

  /** A bound on the synchronous steps a continuation can still take. */
  function Cost(k: Kont): nat {
    match k
    case Done => 0
    case AfterRule(rules, _, idx, k') => 2 + 2 * Left(|rules|, idx) + Cost(k')
    case AfterPolicy(policies, _, idx, k') => 1 + PolicyCost(policies, idx + 1) + Cost(k')
    case AfterParents(policies, k') => 1 + PolicyCost(policies, 0) + Cost(k')
  }

  /** `filter_policy_t::_validate` */
  function ValidateRules(rules: Policy, kind: FilterType, idx: nat, k: Kont): State
    decreases 1 + 2 * Left(|rules|, idx) + Cost(k)
  {
    if idx >= |rules| then Resume(k, None)
    else if rules[idx].kind != kind then ValidateRules(rules, kind, idx + 1, k)
    else Waiting(rules[idx], AfterRule(rules, kind, idx, k))
  }

  /** `_validate_router_policies`, `_validate_route_policies` */
  function ValidatePolicies(policies: seq<Policy>, kind: FilterType, idx: nat, k: Kont): State
    decreases PolicyCost(policies, idx) + Cost(k)
  {
    if idx >= |policies| then Resume(k, None)
    else ValidateRules(policies[idx], kind, 0, AfterPolicy(policies, kind, idx, k))
  }

  /** Calling a continuation with the answer of the rule, policy or router it waits for. */
  function Resume(k: Kont, err: Option<Error>): State
    decreases Cost(k)
  {
    match k
    case Done => Finished(err)
    case AfterRule(rules, kind, idx, k') =>
      if err.Some? then Resume(k', err)
      else if idx + 1 >= |rules| then Resume(k', None)
      else ValidateRules(rules, kind, idx + 1, k')
    case AfterPolicy(policies, kind, idx, k') =>
      if err.Some? then Resume(k', err)
      else if idx + 1 >= |policies| then Resume(k', None)
      else ValidatePolicies(policies, kind, idx + 1, k')
    case AfterParents(policies, k') =>
      if err.Some? then Resume(k', err)
      else if policies == [] then Resume(k', None)
      else ValidatePolicies(policies, Access, 0, k')
  }

  /** `router_t::validate_access` on the last router of a root-to-leaf chain. */
  function ValidateRouter(chain: seq<seq<Policy>>, k: Kont): State
    requires chain != []
  {
    var own := chain[|chain| - 1];
    if |chain| > 1 then ValidateRouter(chain[..|chain| - 1], AfterParents(own, k))
    else if own == [] then Resume(k, None)
    else ValidatePolicies(own, Access, 0, k)
  }

  /** `route_t::validate_access` */
  function ValidateRoute(chain: seq<seq<Policy>>, route: seq<Policy>): State
    requires chain != []
  {
    ValidateRouter(chain, AfterParents(route, Done))
  }

  /** A run: each answer goes to the rule that is waiting. Returns the rules that were invoked. */
  function Run(s: State, answers: seq<Option<Error>>): (seq<Rule>, State)
    decreases answers
  {
    match s
    case Finished(_) => ([], s)
    case Waiting(rule, k) =>
      if answers == [] then ([rule], s)
      else var (more, end) := Run(Resume(k, answers[0]), answers[1..]); ([rule] + more, end)
  }

  // ----- the reference: one list, folded from the left -----

  function OfKind(rules: Policy, kind: FilterType): seq<Rule> {
    if rules == [] then []
    else (if rules[0].kind == kind then [rules[0]] else []) + OfKind(rules[1..], kind)
  }

  function Flatten(policies: seq<Policy>, kind: FilterType): seq<Rule> {
    if policies == [] then [] else OfKind(policies[0], kind) + Flatten(policies[1..], kind)
  }

  function ChainRules(chain: seq<seq<Policy>>): seq<Rule> {
    if chain == [] then [] else Flatten(chain[0], Access) + ChainRules(chain[1..])
  }

  /** Root router first, the route last. */
  function AllRules(chain: seq<seq<Policy>>, route: seq<Policy>): seq<Rule> {
    ChainRules(chain) + Flatten(route, Access)
  }

  datatype Outcome = Unanswered | Verdict(err: Option<Error>)

  function Fold(rules: seq<Rule>, answers: seq<Option<Error>>): (seq<Rule>, Outcome)
    decreases rules
  {
    if rules == [] then ([], Verdict(None))
    else if answers == [] then ([rules[0]], Unanswered)
    else if answers[0].Some? then ([rules[0]], Verdict(answers[0]))
    else var (more, out) := Fold(rules[1..], answers[1..]); ([rules[0]] + more, out)
  }

  function OutcomeOf(s: State): Outcome {
    if s.Waiting? then Unanswered else Verdict(s.verdict)
  }

  // ----- what a continuation still has to ask -----

  function Pending(k: Kont): seq<Rule> {
    match k
    case Done => []
    case AfterRule(rules, kind, idx, k') => OfKind(From(rules, idx + 1), kind) + Pending(k')
    case AfterPolicy(policies, kind, idx, k') => Flatten(From(policies, idx + 1), kind) + Pending(k')
    case AfterParents(policies, k') => Flatten(policies, Access) + Pending(k')
  }

  function From<T>(s: seq<T>, i: nat): seq<T> {
    if i <= |s| then s[i..] else []
  }

  /** The state asks exactly the rules of `todo`, in order, as long as they pass. */
  predicate Asks(s: State, todo: seq<Rule>) {
    if todo == [] then s == Finished(None)
    else s.Waiting? && s.rule == todo[0] && Pending(s.k) == todo[1..]
  }

  lemma {:induction false} WaitingAsks(rule: Rule, k: Kont, more: seq<Rule>, rest: seq<Rule>)
    requires Pending(k) == more + rest
    ensures Asks(Waiting(rule, k), [rule] + more + rest)
  {
    Assoc([rule], more, rest);
    TailOfCons(rule, more + rest);
  }

  lemma {:induction false} OfKindStep(rules: Policy, kind: FilterType, idx: nat)
    requires idx < |rules|
    ensures OfKind(From(rules, idx), kind) ==
            (if rules[idx].kind == kind then [rules[idx]] else []) + OfKind(From(rules, idx + 1), kind)
  {
    assert From(rules, idx)[0] == rules[idx] && From(rules, idx)[1..] == From(rules, idx + 1);
  }

  lemma {:induction false} RulesAsk(rules: Policy, kind: FilterType, idx: nat, k: Kont)
    ensures Asks(ValidateRules(rules, kind, idx, k), OfKind(From(rules, idx), kind) + Pending(k))
    decreases 1 + 2 * Left(|rules|, idx) + Cost(k)
  {
    if idx >= |rules| {
      assert From(rules, idx) == [];
      assert [] + Pending(k) == Pending(k);
      ResumeAsks(k);
    } else {
      OfKindStep(rules, kind, idx);
      var more := OfKind(From(rules, idx + 1), kind);
      if rules[idx].kind != kind {
        assert [] + more == more;
        RulesAsk(rules, kind, idx + 1, k);
      } else {
        WaitingAsks(rules[idx], AfterRule(rules, kind, idx, k), more, Pending(k));
      }
    }
  }

  lemma {:induction false} PoliciesAsk(policies: seq<Policy>, kind: FilterType, idx: nat, k: Kont)
    ensures Asks(ValidatePolicies(policies, kind, idx, k), Flatten(From(policies, idx), kind) + Pending(k))
    decreases PolicyCost(policies, idx) + Cost(k)
  {
    if idx >= |policies| {
      assert From(policies, idx) == [];
      assert [] + Pending(k) == Pending(k);
      ResumeAsks(k);
    } else {
      var here := From(policies, idx);
      assert here[0] == policies[idx] && here[1..] == From(policies, idx + 1);
      RulesAsk(policies[idx], kind, 0, AfterPolicy(policies, kind, idx, k));
      Assoc(OfKind(policies[idx], kind), Flatten(here[1..], kind), Pending(k));
    }
  }

  lemma {:induction false} ResumeAsks(k: Kont)
    ensures Asks(Resume(k, None), Pending(k))
    decreases Cost(k)
  {
    match k
    case Done =>
    case AfterRule(rules, kind, idx, k') =>
      if idx + 1 >= |rules| {
        assert From(rules, idx + 1) == [] && [] + Pending(k') == Pending(k');
        ResumeAsks(k');
      } else {
        RulesAsk(rules, kind, idx + 1, k');
      }
    case AfterPolicy(policies, kind, idx, k') =>
      if idx + 1 >= |policies| {
        assert From(policies, idx + 1) == [] && [] + Pending(k') == Pending(k');
        ResumeAsks(k');
      } else {
        PoliciesAsk(policies, kind, idx + 1, k');
      }
    case AfterParents(policies, k') =>
      if policies == [] {
        assert [] + Pending(k') == Pending(k');
        ResumeAsks(k');
      } else {
        assert From(policies, 0) == policies;
        PoliciesAsk(policies, Access, 0, k');
      }
  }

  /** An error goes straight to the caller, past everything that was still to be asked. */
  lemma {:induction false} ResumeFails(k: Kont, err: Option<Error>)
    requires err.Some?
    ensures Resume(k, err) == Finished(err)
    decreases Cost(k)
  {
    if !k.Done? {
      ResumeFails(k.k, err);
    }
  }

  lemma {:induction false} ChainSnoc(chain: seq<seq<Policy>>)
    requires chain != []
    ensures ChainRules(chain) == ChainRules(chain[..|chain| - 1]) + Flatten(chain[|chain| - 1], Access)
  {
    if |chain| == 1 {
      assert chain[1..] == [] && chain[..0] == [];
    } else {
      var init := chain[..|chain| - 1];
      ChainSnoc(chain[1..]);
      assert chain[1..][..|chain| - 2] == init[1..];
      Assoc(Flatten(chain[0], Access), ChainRules(init[1..]), Flatten(chain[|chain| - 1], Access));
    }
  }

  lemma {:induction false} RouterAsks(chain: seq<seq<Policy>>, k: Kont)
    requires chain != []
    ensures Asks(ValidateRouter(chain, k), ChainRules(chain) + Pending(k))
    decreases |chain|
  {
    var init, own := chain[..|chain| - 1], chain[|chain| - 1];
    ChainSnoc(chain);
    Assoc(ChainRules(init), Flatten(own, Access), Pending(k));
    if |chain| > 1 {
      RouterAsks(init, AfterParents(own, k));
    } else {
      assert ChainRules(init) == [] && [] + (Flatten(own, Access) + Pending(k)) == Flatten(own, Access) + Pending(k);
      assert From(own, 0) == own;
      if own == [] {
        assert [] + Pending(k) == Pending(k);
        ResumeAsks(k);
      } else {
        PoliciesAsk(own, Access, 0, k);
      }
    }
  }

  lemma {:induction false} RunFolds(s: State, todo: seq<Rule>, answers: seq<Option<Error>>)
    requires Asks(s, todo)
    ensures Run(s, answers).0 == Fold(todo, answers).0
    ensures OutcomeOf(Run(s, answers).1) == Fold(todo, answers).1
    decreases answers
  {
    if todo != [] && answers != [] {
      if answers[0].Some? {
        ResumeFails(s.k, answers[0]);
        assert [s.rule] + [] == [s.rule];
      } else {
        ResumeAsks(s.k);
        RunFolds(Resume(s.k, None), todo[1..], answers[1..]);
      }
    }
  }

  /** For a tree of any depth and any answers, the rules invoked and the verdict are those of a
      left fold over one list: the access rules of the routers from the root down, then the
      route's. */
  lemma {:induction false} ChainRefinesFold(chain: seq<seq<Policy>>, route: seq<Policy>, answers: seq<Option<Error>>)
    requires chain != []
    ensures Run(ValidateRoute(chain, route), answers).0 == Fold(AllRules(chain, route), answers).0
    ensures OutcomeOf(Run(ValidateRoute(chain, route), answers).1) == Fold(AllRules(chain, route), answers).1
  {
    var k := AfterParents(route, Done);
    RouterAsks(chain, k);
    assert Pending(k) == Flatten(route, Access) + [] == Flatten(route, Access);
    RunFolds(ValidateRoute(chain, route), AllRules(chain, route), answers);
  }

  /** The first error among the answers that are asked for, if there is one. */
  predicate FirstErrorAt(answers: seq<Option<Error>>, i: int) {
    0 <= i < |answers| && answers[i].Some? && forall j :: 0 <= j < i ==> answers[j].None?
  }

  lemma {:induction false} PrefixCons(rules: seq<Rule>, n: nat)
    requires 1 <= n <= |rules|
    ensures [rules[0]] + rules[1..][..n - 1] == rules[..n]
    ensures n == |rules| ==> [rules[0]] + rules[1..] == rules
  {
  }

  /** The fold asks a prefix: up to and including the first error, or everything. */
  lemma {:induction false} FoldIsPrefix(rules: seq<Rule>, answers: seq<Option<Error>>)
    ensures forall i :: FirstErrorAt(answers, i) && i < |rules| ==>
              Fold(rules, answers) == (rules[..i + 1], Verdict(answers[i]))
    ensures (forall j :: 0 <= j < |answers| && j < |rules| ==> answers[j].None?) ==>
              Fold(rules, answers) ==
              if |answers| < |rules| then (rules[..|answers| + 1], Unanswered) else (rules, Verdict(None))
    decreases rules
  {
    if rules != [] && answers != [] && answers[0].None? {
      FoldIsPrefix(rules[1..], answers[1..]);
      var (more, out) := Fold(rules[1..], answers[1..]);
      assert Fold(rules, answers) == ([rules[0]] + more, out);
      forall i | FirstErrorAt(answers, i) && i < |rules|
        ensures Fold(rules, answers) == (rules[..i + 1], Verdict(answers[i]))
      {
        assert FirstErrorAt(answers[1..], i - 1);
        PrefixCons(rules, i + 1);
      }
      if forall j :: 0 <= j < |answers| && j < |rules| ==> answers[j].None? {
        assert forall j :: 0 <= j < |answers[1..]| && j < |rules[1..]| ==> answers[1..][j] == answers[j + 1];
        PrefixCons(rules, if |answers| < |rules| then |answers| + 1 else |rules|);
      }
    } else if rules != [] {
      assert rules[..1] == [rules[0]];
    }
  }

  /** `r` is an access rule of one of the policies. */
  ghost predicate IsAccessRuleOf(r: Rule, policies: seq<Policy>) {
    r.kind == Access && exists p :: p in policies && r in p
  }

  lemma {:induction false} OfKindIff(rules: Policy, kind: FilterType, r: Rule)
    ensures r in OfKind(rules, kind) <==> r in rules && r.kind == kind
  {
    if rules != [] {
      OfKindIff(rules[1..], kind, r);
      assert rules == [rules[0]] + rules[1..];
    }
  }

  lemma {:induction false} FlattenIff(policies: seq<Policy>, r: Rule)
    ensures r in Flatten(policies, Access) <==> IsAccessRuleOf(r, policies)
  {
    if policies != [] {
      OfKindIff(policies[0], Access, r);
      FlattenIff(policies[1..], r);
      assert forall p :: p in policies <==> p == policies[0] || p in policies[1..];
    }
  }

  /** The rules that may be asked are exactly the access rules of the routers of the chain and of the
      route; the rules for form fields and files are never asked here. */
  lemma {:induction false} AllRulesIff(chain: seq<seq<Policy>>, route: seq<Policy>, r: Rule)
    ensures r in AllRules(chain, route) <==>
      IsAccessRuleOf(r, route) || exists i :: 0 <= i < |chain| && IsAccessRuleOf(r, chain[i])
  {
    FlattenIff(route, r);
    ChainIff(chain, r);
  }

  lemma {:induction false} ChainIff(chain: seq<seq<Policy>>, r: Rule)
    ensures r in ChainRules(chain) <==> exists i :: 0 <= i < |chain| && IsAccessRuleOf(r, chain[i])
  {
    if chain != [] {
      FlattenIff(chain[0], r);
      ChainIff(chain[1..], r);
      assert forall i :: 0 <= i < |chain| - 1 ==> chain[1..][i] == chain[i + 1];
      if exists i :: 0 <= i < |chain| && IsAccessRuleOf(r, chain[i]) && i > 0 {
        var i :| 0 <= i < |chain| && IsAccessRuleOf(r, chain[i]) && i > 0;
        assert IsAccessRuleOf(r, chain[1..][i - 1]);
      }
    }
  }

  // ----- the rules of a policy -----

  function WithoutId(rules: Policy, id: nat): Policy {
    if rules == [] then []
    else if rules[0].id == id then rules[1..]
    else [rules[0]] + WithoutId(rules[1..], id)
  }

  class FilterPolicy {
    var rules: Policy

    constructor ()
      ensures rules == []
    {
      rules := [];
    }

    method AddRule(rule: Rule)
      modifies this
      ensures rules == old(rules) + [rule]
    {
      rules := rules + [rule];
    }

    method RemoveRule(rule: Rule)
      modifies this
      ensures rules == WithoutId(old(rules), rule.id)
    {
      var i := 0;
      while i < |rules|
        invariant 0 <= i <= |rules| && rules == old(rules)
        invariant WithoutId(rules, rule.id) == rules[..i] + WithoutId(rules[i..], rule.id)
      {
        assert rules[i..][0] == rules[i] && rules[i..][1..] == rules[i + 1..];
        if rules[i].id == rule.id {
          rules := rules[..i] + rules[i + 1..];
          return;
        }
        assert rules[..i + 1] == rules[..i] + [rules[i]];
        Assoc(rules[..i], [rules[i]], WithoutId(rules[i + 1..], rule.id));
        i := i + 1;
      }
      assert rules[i..] == [] && rules[..i] == rules;
    }
  }

  /** Removing what was added last, under a fresh id, gives the policy back. */
  lemma {:induction false} RemoveUndoesAdd(rules: Policy, rule: Rule)
    requires forall r :: r in rules ==> r.id != rule.id
    ensures WithoutId(rules + [rule], rule.id) == rules
  {
    if rules == [] {
      assert rules + [rule] == [rule];
    } else {
      assert rules[0] in rules && (rules + [rule])[1..] == rules[1..] + [rule];
      RemoveUndoesAdd(rules[1..], rule);
    }
  }

  /** The first rule with the id goes, and every other one stays in its place. */
  lemma {:induction false} RemoveMeaning(a: Policy, rule: Rule, b: Policy)
    requires forall r :: r in a ==> r.id != rule.id
    ensures WithoutId(a, rule.id) == a && WithoutId(a + [rule] + b, rule.id) == a + b
  {
    if a == [] {
      assert a + [rule] + b == [rule] + b && a + b == b;
      TailOfCons(rule, b);
    } else {
      assert a[0] in a;
      RemoveMeaning(a[1..], rule, b);
      HeadOfThree(a, [rule], b);
    }
  }

  lemma {:induction false} HeadOfThree<T>(a: seq<T>, x: seq<T>, b: seq<T>)
    requires a != []
    ensures (a + x + b)[0] == a[0] && (a + x + b)[1..] == a[1..] + x + b
    ensures [a[0]] + a[1..] == a && [a[0]] + (a[1..] + b) == a + b
  {
  }
}
