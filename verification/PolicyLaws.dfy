/** Policies in plain terms: when a rule takes part in a decision, and what the words
    of the operations mean for an action. */
module PolicyLaws {
  import opened Entities
  import opened Sequences
  import opened Scopes
  import opened Verdicts
  import opened Gate
  import opened Policy

  // ----- The three conditions of a rule

  predicate OperationMet(rule: PolicyRule, operation: string) { |rule.operations| == 0 || operation in rule.operations }

  /** The pattern is empty or a prefix of the name. */
  predicate ActorMet(rule: PolicyRule, name: string) {
    |rule.actorPattern| == 0 || (|rule.actorPattern| <= |name| && name[..|rule.actorPattern|] == rule.actorPattern)
  }

  /** The scope is empty or contains the resource's scope, or its name if it has none. */
  predicate ScopeMet(rule: PolicyRule, r: Resource) {
    |rule.resourceScope| == 0 || ScopeContains(rule.resourceScope, if |r.scope| == 0 then r.name else r.scope)
  }

  predicate Meets(rule: PolicyRule, q: Query) {
    OperationMet(rule, q.operation) && ActorMet(rule, q.actor.name) && ScopeMet(rule, q.resource)
  }

  lemma {:induction false} MeetsIff(rule: PolicyRule, q: Query)
    ensures RuleMatches(rule, q) <==> Meets(rule, q)
  {
  }

  // ----- Decisions

  /** The rule at index `i` meets the query, no rule that does has greater priority,
      and none of the same priority comes before it. */
  ghost predicate Prevails(rules: seq<PolicyRule>, q: Query, i: nat) {
    && i < |rules| && Meets(rules[i], q)
    && (forall j :: 0 <= j < |rules| && Meets(rules[j], q) ==> rules[j].priority <= rules[i].priority)
    && (forall j :: 0 <= j < i && Meets(rules[j], q) ==> rules[j].priority < rules[i].priority)
  }

  lemma {:induction false} PrevailsIff(rules: seq<PolicyRule>, q: Query, i: nat)
    ensures IsWinner(rules, q, i) <==> Prevails(rules, q, i)
  {
    hide RuleMatches, Meets;
    forall j | 0 <= j < |rules| ensures RuleMatches(rules[j], q) <==> Meets(rules[j], q) {
      MeetsIff(rules[j], q);
    }
  }

  /** A decision is that of the rule that prevails, and the default when no rule
      meets all three conditions. */
  lemma {:induction false} DecisionMeaning(policy: PolicySet, q: Query)
    ensures forall i: nat :: Prevails(policy.rules, q, i) ==> Decide(policy, q) == Evaluation(policy.rules[i].effect, Some(policy.rules[i]))
    ensures (forall rule :: rule in policy.rules ==> !Meets(rule, q)) ==> Decide(policy, q) == Evaluation(policy.defaultEffect, None)
    ensures (exists rule :: rule in policy.rules && Meets(rule, q)) ==> exists i: nat :: Prevails(policy.rules, q, i)
  {
    StableSortSorts(policy.rules);
    FirstMatchIsWinner(StableSort(policy.rules), policy.rules, q);
    hide StableSort, FirstMatch, RuleMatches, Meets, IsWinner, Prevails, IsStableSort;
    forall i: nat | Prevails(policy.rules, q, i)
      ensures Decide(policy, q) == Evaluation(policy.rules[i].effect, Some(policy.rules[i]))
    {
      PrevailsIff(policy.rules, q, i);
      DecideByWinner(policy, q, i);
    }
    forall rule ensures RuleMatches(rule, q) <==> Meets(rule, q) {
      MeetsIff(rule, q);
    }
    match FirstMatch(StableSort(policy.rules), q)
    case None =>
    case Some(rule) =>
      var i: nat :| IsWinner(policy.rules, q, i) && policy.rules[i] == rule;
      PrevailsIff(policy.rules, q, i);
      WinnerMeets(policy.rules, q, i);
  }

  lemma {:induction false} WinnerMeets(rules: seq<PolicyRule>, q: Query, i: nat)
    requires Prevails(rules, q, i)
    ensures rules[i] in rules && Meets(rules[i], q)
  {
  }

  /** The rule that a decision names is one of the policy and meets all three conditions. */
  lemma {:induction false} MatchedRuleMeets(policy: PolicySet, q: Query)
    requires Decide(policy, q).matched.Some?
    ensures Decide(policy, q).matched.value in policy.rules && Meets(Decide(policy, q).matched.value, q)
    ensures Decide(policy, q).effect == Decide(policy, q).matched.value.effect
  {
    DecisionMeaning(policy, q);
    hide Decide, Meets;
    var i: nat :| Prevails(policy.rules, q, i);
  }

  lemma {:induction false} PrevailsBeside(front: seq<PolicyRule>, back: seq<PolicyRule>, extra: PolicyRule, q: Query, i: nat)
    requires Prevails(front + back, q, i) && !Meets(extra, q)
    ensures var i' := if i < |front| then i else i + 1;
      Prevails(front + [extra] + back, q, i') && (front + [extra] + back)[i'] == (front + back)[i]
  {
    hide Meets;
    var rules, longer := front + back, front + [extra] + back;
    var i' := if i < |front| then i else i + 1;
    forall j | 0 <= j < |longer| && Meets(longer[j], q)
      ensures longer[j].priority <= rules[i].priority && (j < i' ==> longer[j].priority < rules[i].priority)
    {
      var j' := if j < |front| then j else j - 1;
      assert j != |front| && longer[j] == rules[j'];
    }
  }

  /** A rule that fails one of the conditions may be inserted anywhere, at any
      priority, without changing the decision. */
  lemma {:induction false} FailingRuleIsIrrelevant(policy: PolicySet, front: seq<PolicyRule>, back: seq<PolicyRule>, extra: PolicyRule, q: Query)
    requires policy.rules == front + back && !Meets(extra, q)
    ensures Decide(policy.(rules := front + [extra] + back), q) == Decide(policy, q)
  {
    var longer := policy.(rules := front + [extra] + back);
    DecisionMeaning(policy, q);
    DecisionMeaning(longer, q);
    hide Decide, Meets, Prevails;
    if rule :| rule in policy.rules && Meets(rule, q) {
      var i: nat :| Prevails(policy.rules, q, i);
      PrevailsBeside(front, back, extra, q, i);
    } else {
      forall rule | rule in longer.rules ensures !Meets(rule, q) {
        assert rule in front ==> rule in policy.rules;
        assert rule in back ==> rule in policy.rules;
      }
    }
  }

  /** A rule that meets all three with a priority above every other decides. */
  lemma {:induction false} TopRuleDecides(policy: PolicySet, q: Query, i: nat)
    requires i < |policy.rules| && Meets(policy.rules[i], q)
    requires forall j :: 0 <= j < |policy.rules| && j != i ==> policy.rules[j].priority < policy.rules[i].priority
    ensures Decide(policy, q) == Evaluation(policy.rules[i].effect, Some(policy.rules[i]))
  {
    DecisionMeaning(policy, q);
    hide Decide, Meets;
    assert Prevails(policy.rules, q, i);
  }

  // ----- Denials of an action

  /** The resource may not be used so. */
  ghost predicate Refuses(policy: PolicySet, actor: Entity, r: Resource, word: string) {
    Decide(policy, Query(actor, r, word)).effect == Deny
  }

  ghost function RefusalOn(policy: PolicySet, actor: Entity, r: Resource, op: Operation, word: string): seq<Violation> {
    if Refuses(policy, actor, r, word) then [PolicyDenied(op, TypeName(r.rtype), r.name, actor.name)] else []
  }

  lemma {:induction false} DenialsFlat(policy: PolicySet, actor: Entity, op: Operation, word: string, rs: seq<Resource>)
    requires word == match op case Read => "read" case Write => "write" case Delegate => "delegate"
    ensures Denials(policy, actor, Asked(op, rs)) == Flat(rs, r => RefusalOn(policy, actor, r, op, word))
  {
    if rs != [] {
      var n := |rs| - 1;
      hide Decide;
      DenialsFlat(policy, actor, op, word, rs[..n]);
      assert Asked(op, rs) == Asked(op, rs[..n]) + [AccessRequest(op, rs[n])];
      DenialsSnoc(policy, actor, Asked(op, rs[..n]), AccessRequest(op, rs[n]));
      hide Denials, Asked;
    }
  }

  /** The violations that a policy adds: one for each resource, in the order of reads,
      writes and delegations, that it refuses under the word of the operation. */
  lemma {:induction false} ActionDenials(policy: PolicySet, a: Action)
    ensures Denials(policy, a.actor, a.Requests()) ==
            Flat(a.resourcesRead, r => RefusalOn(policy, a.actor, r, Read, "read"))
            + Flat(a.resourcesWrite, r => RefusalOn(policy, a.actor, r, Write, "write"))
            + Flat(a.resourcesDelegate, r => RefusalOn(policy, a.actor, r, Delegate, "delegate"))
  {
    hide Decide, Denials, Asked, Flat;
    DenialsFlat(policy, a.actor, Read, "read", a.resourcesRead);
    DenialsFlat(policy, a.actor, Write, "write", a.resourcesWrite);
    DenialsFlat(policy, a.actor, Delegate, "delegate", a.resourcesDelegate);
    var rd, wr, de := Asked(Read, a.resourcesRead), Asked(Write, a.resourcesWrite), Asked(Delegate, a.resourcesDelegate);
    DenialsConcat(policy, a.actor, rd, wr);
    DenialsConcat(policy, a.actor, rd + wr, de);
  }

  // ----- A policy that denies one word

  function DenyWord(word: string): PolicySet {
    PolicySet("deny", [PolicyRule(Deny, [word], "", "", 0)], Permit)
  }

  lemma {:induction false} DenyWordRefuses(word: string, actor: Entity, r: Resource, asked: string)
    ensures Refuses(DenyWord(word), actor, r, asked) <==> asked == word
  {
    var q := Query(actor, r, asked);
    var rules := DenyWord(word).rules;
    DecisionMeaning(DenyWord(word), q);
    hide Decide;
    if asked == word {
      assert Prevails(rules, q, 0);
    }
  }

  /** Under a kernel that permits, it refuses exactly the actions that do what the
      word says. */
  method RefuseWord(kernel: Action -> VerificationResult, op: Operation, a: Action) returns (r: VerificationResult)
    ensures op == Read ==> (r.permitted <==> kernel(a).permitted && a.resourcesRead == [])
    ensures op == Write ==> (r.permitted <==> kernel(a).permitted && a.resourcesWrite == [])
    ensures op == Delegate ==> (r.permitted <==> kernel(a).permitted && a.resourcesDelegate == [])
  {
    var word := match op case Read => "read" case Write => "write" case Delegate => "delegate";
    r := VerifyWithPolicy(kernel, DenyWord(word), a);
    ghost var policy := DenyWord(word);
    DenialsEmptyIff(policy, a.actor, a.Requests());
    ActionDenials(policy, a);
    hide Decide, Denials, Asked, DenyWord, Flat;
    RefusedIffAsked(word, a.actor, Read, "read", a.resourcesRead);
    RefusedIffAsked(word, a.actor, Write, "write", a.resourcesWrite);
    RefusedIffAsked(word, a.actor, Delegate, "delegate", a.resourcesDelegate);
  }

  lemma {:induction false} RefusedIffAsked(word: string, actor: Entity, op: Operation, asked: string, rs: seq<Resource>)
    ensures Flat(rs, r => RefusalOn(DenyWord(word), actor, r, op, asked)) == [] <==> asked != word || rs == []
  {
    hide Decide, DenyWord;
    if rs != [] {
      var n := |rs| - 1;
      RefusedIffAsked(word, actor, op, asked, rs[..n]);
      DenyWordRefuses(word, actor, rs[n], asked);
    }
  }
}
