/** Attribute rules evaluated in descending priority, layered over a gate. */
module Policy {
  import opened Entities
  import opened Sequences
  import opened Scopes
  import opened Verdicts
  import opened Gate

  datatype Effect = Permit | Deny

  /** Empty conditions match anything. */
  datatype PolicyRule = PolicyRule(
    effect: Effect,
    operations: seq<string>,
    actorPattern: string,
    resourceScope: string,
    priority: int)

  datatype PolicySet = PolicySet(name: string, rules: seq<PolicyRule>, defaultEffect: Effect)

  /** What a policy is asked: may `actor` perform `operation` on `resource`? */
  datatype Query = Query(actor: Entity, resource: Resource, operation: string)

  function Target(r: Resource): string { if r.scope != "" then r.scope else r.name }

  predicate RuleMatches(rule: PolicyRule, q: Query) {
    && (rule.operations != [] ==> q.operation in rule.operations)
    && (rule.actorPattern != "" ==> rule.actorPattern <= q.actor.name)
    && (rule.resourceScope != "" ==> ScopeContains(rule.resourceScope, Target(q.resource)))
  }

  // ----- Stable sorting

  function Insert(sorted: seq<PolicyRule>, rule: PolicyRule): seq<PolicyRule> {
    if sorted == [] || sorted[|sorted| - 1].priority >= rule.priority then sorted + [rule]
    else Insert(sorted[..|sorted| - 1], rule) + [sorted[|sorted| - 1]]
  }

  /** Descending by priority; rules of one priority keep their order. */
  function StableSort(rules: seq<PolicyRule>): seq<PolicyRule> {
    if rules == [] then [] else Insert(StableSort(rules[..|rules| - 1]), rules[|rules| - 1])
  }

  ghost predicate Descending(s: seq<PolicyRule>) {
    forall i, j :: 0 <= i < j < |s| ==> s[i].priority >= s[j].priority
  }

  /** The rules of one priority, in their order. */
  function Band(rules: seq<PolicyRule>, p: int): seq<PolicyRule> { Filter(rules, (r: PolicyRule) => r.priority == p) }

  ghost predicate IsStableSort(s: seq<PolicyRule>, rules: seq<PolicyRule>) {
    Descending(s) && forall p :: Band(s, p) == Band(rules, p)
  }

  lemma {:induction false} BandSnoc(rules: seq<PolicyRule>, rule: PolicyRule, p: int)
    ensures Band(rules + [rule], p) == if rule.priority == p then Band(rules, p) + [rule] else Band(rules, p)
  {
  }

  lemma {:induction false} InsertSorts(s: seq<PolicyRule>, rule: PolicyRule)
    requires Descending(s)
    ensures Descending(Insert(s, rule))
    ensures forall p :: Band(Insert(s, rule), p) == Band(s + [rule], p)
    ensures forall x :: x in Insert(s, rule) ==> x in s || x == rule
  {
    if s != [] && s[|s| - 1].priority < rule.priority {
      var init, last := s[..|s| - 1], s[|s| - 1];
      InsertSorts(init, rule);
      assert s == init + [last];
      forall p ensures Band(Insert(s, rule), p) == Band(s + [rule], p) {
        BandSnoc(Insert(init, rule), last, p);
        BandSnoc(init, rule, p);
        BandSnoc(init, last, p);
        BandSnoc(s, rule, p);
      }
      forall x | x in Insert(init, rule) ensures x.priority >= last.priority {
        assert x in init ==> x.priority >= last.priority;
      }
    }
  }

  lemma {:induction false} StableSortSorts(rules: seq<PolicyRule>)
    ensures IsStableSort(StableSort(rules), rules)
  {
    if rules != [] {
      var init, last := rules[..|rules| - 1], rules[|rules| - 1];
      StableSortSorts(init);
      InsertSorts(StableSort(init), last);
      assert rules == init + [last];
      forall p ensures Band(StableSort(rules), p) == Band(rules, p) {
        BandSnoc(StableSort(init), last, p);
        BandSnoc(init, last, p);
      }
    }
  }

  lemma {:induction false} SameMembers(s: seq<PolicyRule>, rules: seq<PolicyRule>, x: PolicyRule)
    requires IsStableSort(s, rules)
    ensures x in s <==> x in rules
  {
    var p := (r: PolicyRule) => r.priority == x.priority;
    FilterMember(s, p, x);
    FilterMember(rules, p, x);
    assert Band(s, x.priority) == Band(rules, x.priority);
  }

  // ----- First match

  function FirstMatch(rules: seq<PolicyRule>, q: Query): Option<PolicyRule> {
    match FirstIndex(rules, r => RuleMatches(r, q))
    case None => None
    case Some(i) => Some(rules[i])
  }

  /** The earliest-listed rule among the matching rules of greatest priority. */
  ghost predicate IsWinner(rules: seq<PolicyRule>, q: Query, i: nat) {
    && i < |rules| && RuleMatches(rules[i], q)
    && forall j :: 0 <= j < |rules| && RuleMatches(rules[j], q) ==>
         rules[j].priority < rules[i].priority || (rules[j].priority == rules[i].priority && i <= j)
  }

  lemma {:induction false} FirstOfFilter(rules: seq<PolicyRule>, g: PolicyRule -> bool, m: PolicyRule -> bool)
    ensures var f, d := FirstIndex(Filter(rules, g), m), FirstIndex(rules, r => g(r) && m(r));
      && (f.None? <==> d.None?)
      && (f.Some? ==> Filter(rules, g)[f.value] == rules[d.value])
  {
    if rules != [] {
      var n := |rules| - 1;
      FirstOfFilter(rules[..n], g, m);
      if g(rules[n]) {
        var kept := Filter(rules[..n], g);
        assert (kept + [rules[n]])[..|kept|] == kept;
      }
    }
  }

  /** A first match in a stable sort is a first match within its own band. */
  lemma {:induction false} FirstMatchInBand(s: seq<PolicyRule>, q: Query, k: nat)
    requires Descending(s) && IsFirst(s, r => RuleMatches(r, q), k)
    ensures var f := FirstIndex(Band(s, s[k].priority), r => RuleMatches(r, q));
      f.Some? && Band(s, s[k].priority)[f.value] == s[k]
  {
    var p := s[k].priority;
    var g, m := (r: PolicyRule) => r.priority == p, (r: PolicyRule) => RuleMatches(r, q);
    FirstOfFilter(s, g, m);
    FirstIndexUnique(s, r => g(r) && m(r), k);
  }

  /** Main theorem: scanning any stable sort for the first match finds the winner
      among the rules as listed, and finds nothing exactly when nothing matches. */
  lemma {:induction false} FirstMatchIsWinner(s: seq<PolicyRule>, rules: seq<PolicyRule>, q: Query)
    requires IsStableSort(s, rules)
    ensures match FirstMatch(s, q)
            case None => forall r :: r in rules ==> !RuleMatches(r, q)
            case Some(r) => exists i: nat :: IsWinner(rules, q, i) && rules[i] == r
  {
    var m := r => RuleMatches(r, q);
    match FirstIndex(s, m)
    case None =>
      forall r | r in rules ensures !RuleMatches(r, q) {
        SameMembers(s, rules, r);
      }
    case Some(k) =>
      var p := s[k].priority;
      FirstMatchInBand(s, q, k);
      var g := (r: PolicyRule) => r.priority == p;
      FirstOfFilter(rules, g, m);
      assert Band(s, p) == Band(rules, p);
      var i := FirstIndex(rules, r => g(r) && m(r)).value;
      forall j | 0 <= j < |rules| && RuleMatches(rules[j], q)
        ensures rules[j].priority < p || (rules[j].priority == p && i <= j)
      {
        SameMembers(s, rules, rules[j]);
        var l :| 0 <= l < |s| && s[l] == rules[j];
        assert m(s[l]);
      }
      assert IsWinner(rules, q, i);
  }

  lemma {:induction false} WinnerUnique(rules: seq<PolicyRule>, q: Query, i: nat, j: nat)
    requires IsWinner(rules, q, i) && IsWinner(rules, q, j)
    ensures i == j
  {
  }

  // ----- Evaluation

  datatype Evaluation = Evaluation(effect: Effect, matched: Option<PolicyRule>)

  function Decide(policy: PolicySet, q: Query): Evaluation {
    match FirstMatch(StableSort(policy.rules), q)
    case None => Evaluation(policy.defaultEffect, None)
    case Some(rule) => Evaluation(rule.effect, Some(rule))
  }

  method Evaluate(policy: PolicySet, q: Query) returns (e: Evaluation)
    ensures e == Decide(policy, q)
    ensures e.matched.None? ==> e.effect == policy.defaultEffect && forall r :: r in policy.rules ==> !RuleMatches(r, q)
    ensures e.matched.Some? ==> e.effect == e.matched.value.effect
                                && exists i: nat :: IsWinner(policy.rules, q, i) && policy.rules[i] == e.matched.value
  {
    var ordered := StableSort(policy.rules);
    StableSortSorts(policy.rules);
    FirstMatchIsWinner(ordered, policy.rules, q);
    for i := 0 to |ordered|
      invariant forall k :: 0 <= k < i ==> !RuleMatches(ordered[k], q)
    {
      if RuleMatches(ordered[i], q) {
        FirstIndexUnique(ordered, r => RuleMatches(r, q), i);
        return Evaluation(ordered[i].effect, Some(ordered[i]));
      }
    }
    return Evaluation(policy.defaultEffect, None);
  }

  /** Only the winner counts: a decision is pinned down by any winner. */
  lemma {:induction false} DecideByWinner(policy: PolicySet, q: Query, i: nat)
    requires IsWinner(policy.rules, q, i)
    ensures Decide(policy, q) == Evaluation(policy.rules[i].effect, Some(policy.rules[i]))
  {
    StableSortSorts(policy.rules);
    FirstMatchIsWinner(StableSort(policy.rules), policy.rules, q);
    assert policy.rules[i] in policy.rules;
    var k: nat :| IsWinner(policy.rules, q, k) && Some(policy.rules[k]) == FirstMatch(StableSort(policy.rules), q);
    WinnerUnique(policy.rules, q, i, k);
  }

  lemma {:induction false} StableSortsAgree(s: seq<PolicyRule>, s': seq<PolicyRule>, rules: seq<PolicyRule>, q: Query)
    requires IsStableSort(s, rules) && IsStableSort(s', rules)
    ensures FirstMatch(s, q) == FirstMatch(s', q)
  {
    FirstMatchIsWinner(s, rules, q);
    FirstMatchIsWinner(s', rules, q);
    forall i: nat | IsWinner(rules, q, i) ensures rules[i] in rules && RuleMatches(rules[i], q) {
    }
    if FirstMatch(s, q).Some? && FirstMatch(s', q).Some? {
      var i: nat :| IsWinner(rules, q, i) && rules[i] == FirstMatch(s, q).value;
      var j: nat :| IsWinner(rules, q, j) && rules[j] == FirstMatch(s', q).value;
      WinnerUnique(rules, q, i, j);
    }
  }

  /** Any reordering that keeps the order within each priority decides alike. */
  lemma {:induction false} ReorderingDecidesAlike(policy: PolicySet, rules: seq<PolicyRule>, q: Query)
    requires forall p :: Band(policy.rules, p) == Band(rules, p)
    ensures Decide(policy.(rules := rules), q) == Decide(policy, q)
  {
    StableSortSorts(policy.rules);
    StableSortSorts(rules);
    StableSortsAgree(StableSort(policy.rules), StableSort(rules), policy.rules, q);
  }

  lemma {:induction false} WinnerSurvivesInsertion(front: seq<PolicyRule>, back: seq<PolicyRule>, extra: PolicyRule, q: Query, i: nat)
    requires IsWinner(front + back, q, i) && extra.priority < (front + back)[i].priority
    ensures var i' := if i < |front| then i else i + 1;
      IsWinner(front + [extra] + back, q, i') && (front + [extra] + back)[i'] == (front + back)[i]
  {
    var rules, longer := front + back, front + [extra] + back;
    var i' := if i < |front| then i else i + 1;
    forall j | 0 <= j < |longer| && RuleMatches(longer[j], q)
      ensures longer[j].priority < rules[i].priority || (longer[j].priority == rules[i].priority && i' <= j)
    {
      if j != |front| {
        var j' := if j < |front| then j else j - 1;
        assert longer[j] == rules[j'];
      }
    }
  }

  /** A rule of lower priority than the winner may be inserted anywhere. */
  lemma {:induction false} LowerRuleIsIrrelevant(policy: PolicySet, front: seq<PolicyRule>, back: seq<PolicyRule>, extra: PolicyRule, q: Query)
    requires policy.rules == front + back
    requires Decide(policy, q).matched.Some? && extra.priority < Decide(policy, q).matched.value.priority
    ensures Decide(policy.(rules := front + [extra] + back), q) == Decide(policy, q)
  {
    StableSortSorts(policy.rules);
    FirstMatchIsWinner(StableSort(policy.rules), policy.rules, q);
    var i: nat :| IsWinner(policy.rules, q, i) && policy.rules[i] == Decide(policy, q).matched.value;
    hide StableSort, FirstMatch;
    WinnerSurvivesInsertion(front, back, extra, q, i);
    DecideByWinner(policy, q, i);
    DecideByWinner(policy.(rules := front + [extra] + back), q, if i < |front| then i else i + 1);
  }

  /** Rules cover whole subtrees, with one exception: a rule that matches a resource
      matches a resource below it, for the same actor and operation, unless the rule
      has a scope, the resource has neither scope nor name, and the other one's path
      is relative. */
  lemma {:induction false} RuleCoversSubtree(rule: PolicyRule, q: Query, below: Resource)
    requires RuleMatches(rule, q) && ScopeContains(Target(q.resource), Target(below))
    ensures RuleMatches(rule, q.(resource := below)) <==>
            rule.resourceScope == "" || Target(q.resource) != "" || Target(below) == "" || Target(below)[0] == '/'
  {
    if rule.resourceScope != "" {
      ScopeTransitive(rule.resourceScope, Target(q.resource), Target(below));
    }
  }

  // ----- The policy verifier

  function OpName(op: Operation): string {
    match op
    case Read => "read"
    case Write => "write"
    case Delegate => "delegate"
  }

  predicate Admits(policy: PolicySet, actor: Entity, q: AccessRequest) {
    Decide(policy, Query(actor, q.resource, OpName(q.op))).effect.Permit?
  }

  function Denials(policy: PolicySet, actor: Entity, requests: seq<AccessRequest>): seq<Violation> {
    if requests == [] then []
    else
      var init, q := requests[..|requests| - 1], requests[|requests| - 1];
      if Admits(policy, actor, q) then Denials(policy, actor, init)
      else Denials(policy, actor, init) + [PolicyDenied(q.op, TypeName(q.resource.rtype), q.resource.name, actor.name)]
  }

  lemma {:induction false} DenialsEmptyIff(policy: PolicySet, actor: Entity, requests: seq<AccessRequest>)
    ensures Denials(policy, actor, requests) == [] <==> forall q :: q in requests ==> Admits(policy, actor, q)
  {
    if requests != [] {
      var n := |requests| - 1;
      DenialsEmptyIff(policy, actor, requests[..n]);
      assert requests == requests[..n] + [requests[n]];
    }
  }

  lemma {:induction false} DenialsSnoc(policy: PolicySet, actor: Entity, requests: seq<AccessRequest>, q: AccessRequest)
    ensures Denials(policy, actor, requests + [q]) ==
            if Admits(policy, actor, q) then Denials(policy, actor, requests)
            else Denials(policy, actor, requests) + [PolicyDenied(q.op, TypeName(q.resource.rtype), q.resource.name, actor.name)]
  {
  }

  lemma {:induction false} DenialsConcat(policy: PolicySet, actor: Entity, a: seq<AccessRequest>, b: seq<AccessRequest>)
    ensures Denials(policy, actor, a + b) == Denials(policy, actor, a) + Denials(policy, actor, b)
  {
    if b == [] {
      hide Admits, Decide;
      assert a + b == a;
      assert Denials(policy, actor, b) == [];
    } else {
      var init, last := b[..|b| - 1], b[|b| - 1];
      assert b == init + [last];
      assert a + b == (a + init) + [last];
      hide *;
      DenialsConcat(policy, actor, a, init);
      DenialsSnoc(policy, actor, a + init, last);
      DenialsSnoc(policy, actor, init, last);
    }
  }

  method CheckAdmits(policy: PolicySet, actor: Entity, q: AccessRequest) returns (admitted: bool)
    ensures admitted == Admits(policy, actor, q)
  {
    var e := Evaluate(policy, Query(actor, q.resource, OpName(q.op)));
    admitted := e.effect != Deny;
  }

  lemma {:induction false} AskedSnoc(op: Operation, resources: seq<Resource>, i: nat)
    requires i < |resources|
    ensures Asked(op, resources[..i + 1]) == Asked(op, resources[..i]) + [AccessRequest(op, resources[i])]
  {
  }

  method DenialsFor(policy: PolicySet, actor: Entity, op: Operation, resources: seq<Resource>) returns (violations: seq<Violation>)
    ensures violations == Denials(policy, actor, Asked(op, resources))
  {
    violations := [];
    for i := 0 to |resources|
      invariant violations == Denials(policy, actor, Asked(op, resources[..i]))
    {
      AskedSnoc(op, resources, i);
      DenialsSnoc(policy, actor, Asked(op, resources[..i]), AccessRequest(op, resources[i]));
      hide Admits, Denials, Asked;
      var admitted := CheckAdmits(policy, actor, AccessRequest(op, resources[i]));
      if !admitted {
        violations := violations + [PolicyDenied(op, TypeName(resources[i].rtype), resources[i].name, actor.name)];
      }
    }
    assert resources[..|resources|] == resources;
  }

  /** Both must permit: the policy verifier permits exactly when the kernel permits
      and every requested operation evaluates to permit.  A kernel refusal is
      returned as it is; a policy refusal adds one violation per denied request. */
  method VerifyWithPolicy(kernel: Action -> VerificationResult, policy: PolicySet, a: Action) returns (r: VerificationResult)
    ensures r.permitted <==> kernel(a).permitted && forall q :: q in a.Requests() ==> Admits(policy, a.actor, q)
    ensures !kernel(a).permitted || r.permitted ==> r == kernel(a)
    ensures kernel(a).permitted && !r.permitted ==>
              && r.actionId == kernel(a).actionId
              && r.violations == kernel(a).violations + Denials(policy, a.actor, a.Requests())
              && r.warnings == kernel(a).warnings && r.confidence == 0.0 && r.requiresArbitration
  {
    hide Admits, Denials, Asked;
    var result := kernel(a);
    if !result.permitted {
      return result;
    }
    var onReads := DenialsFor(policy, a.actor, Read, a.resourcesRead);
    var onWrites := DenialsFor(policy, a.actor, Write, a.resourcesWrite);
    var onDelegations := DenialsFor(policy, a.actor, Delegate, a.resourcesDelegate);
    var violations := onReads + onWrites + onDelegations;
    var rd, wr, de := Asked(Read, a.resourcesRead), Asked(Write, a.resourcesWrite), Asked(Delegate, a.resourcesDelegate);
    DenialsConcat(policy, a.actor, rd, wr);
    DenialsConcat(policy, a.actor, rd + wr, de);
    DenialsEmptyIff(policy, a.actor, a.Requests());
    if violations == [] {
      return result;
    }
    return VerificationResult(result.actionId, false, result.violations + violations, result.warnings, 0.0, true);
  }
}
