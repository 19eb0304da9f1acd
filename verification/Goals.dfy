/** Goal trees whose subgoals must stay within the resources of their parent. */
module Goals {
  import opened Entities
  import opened Verdicts
  import opened Gate
  import Registry

  datatype GoalNode = GoalNode(
    goalId: string,
    actor: Entity,
    description: string,
    requiredRead: seq<Resource>,
    requiredWrite: seq<Resource>,
    subgoals: seq<GoalNode>)
  {
    function ToAction(): Action {
      Action(goalId, actor, description, requiredRead, requiredWrite, [], [], "", Quiet())
    }

    /** The node's own resources; a set of resources ignores their labels. */
    function Own(): set<ResourceKey> { Keys(requiredRead + requiredWrite) }
  }

  function Keys(rs: seq<Resource>): set<ResourceKey> { set r | r in rs :: r.Key() }

  datatype GoalResult = GoalResult(goalId: string, result: VerificationResult, subResults: seq<GoalResult>)

  /** The place of a node in a tree: the indices of the subgoals on the way to it. */
  type Place = seq<nat>

  /** The verifier that a tree is checked with.  Each node is verified once, so its
      place stands for the moment at which that happens: any gate, with any clock
      reading and any registry state at each node. */
  type Verifier = (Place, Action) -> VerificationResult

  // ----- Verification

  function Attenuated(node: GoalNode, verdict: VerificationResult, parent: Option<set<ResourceKey>>): VerificationResult {
    if parent.Some? && node.Own() - parent.value != {} then
      VerificationResult(node.goalId, false, [Violation.GoalAttenuation(node.goalId, node.Own() - parent.value)],
                         verdict.warnings, 0.0, true)
    else verdict
  }

  function CancelledGoal(sub: GoalNode, parentGoal: string): GoalResult {
    GoalResult(sub.goalId, VerificationResult(sub.goalId, false, [GoalCancelled(parentGoal)], [], 0.0, false), [])
  }

  function VerifyGoalTree(node: GoalNode, verifier: Verifier, at: Place, parent: Option<set<ResourceKey>>): GoalResult
    decreases node, 1
  {
    var result := Attenuated(node, verifier(at, node.ToAction()), parent);
    GoalResult(node.goalId, result,
               if result.permitted then VerifySubgoals(node.subgoals, verifier, at, node.Own()) else CancelAll(node.subgoals, node.goalId))
  }

  function VerifySubgoals(nodes: seq<GoalNode>, verifier: Verifier, at: Place, authorized: set<ResourceKey>): (r: seq<GoalResult>)
    ensures |r| == |nodes|
    decreases nodes, 0
  {
    if nodes == [] then []
    else
      var n := |nodes| - 1;
      VerifySubgoals(nodes[..n], verifier, at, authorized) + [VerifyGoalTree(nodes[n], verifier, at + [n], Some(authorized))]
  }

  function CancelAll(nodes: seq<GoalNode>, parentGoal: string): (r: seq<GoalResult>)
    ensures |r| == |nodes|
  {
    if nodes == [] then [] else CancelAll(nodes[..|nodes| - 1], parentGoal) + [CancelledGoal(nodes[|nodes| - 1], parentGoal)]
  }

  predicate FullyPermitted(r: GoalResult) {
    r.result.permitted && forall s :: s in r.subResults ==> FullyPermitted(s)
  }

  // ----- What a fully permitted tree means

  /** Every action of the tree is permitted on its own. */
  ghost predicate EveryActionPermitted(node: GoalNode, verifier: Verifier, at: Place)
    decreases node, 1
  {
    verifier(at, node.ToAction()).permitted && EveryActionPermittedIn(node.subgoals, verifier, at)
  }

  ghost predicate EveryActionPermittedIn(nodes: seq<GoalNode>, verifier: Verifier, at: Place)
    decreases nodes, 0
  {
    forall i :: 0 <= i < |nodes| ==> EveryActionPermitted(nodes[i], verifier, at + [i])
  }

  /** Every node's resources contain those of its children, all the way down. */
  ghost predicate Nested(node: GoalNode) {
    forall s :: s in node.subgoals ==> s.Own() <= node.Own() && Nested(s)
  }

  lemma {:induction false} NoExcessIff(own: set<ResourceKey>, allowed: set<ResourceKey>)
    ensures own - allowed == {} <==> own <= allowed
  {
    if own - allowed == {} {
      forall k | k in own ensures k in allowed {
        assert k !in own - allowed;
      }
    }
  }

  lemma {:induction false} FullyPermittedIff(node: GoalNode, verifier: Verifier, at: Place, parent: Option<set<ResourceKey>>)
    ensures FullyPermitted(VerifyGoalTree(node, verifier, at, parent)) <==>
            && (parent.Some? ==> node.Own() <= parent.value)
            && EveryActionPermitted(node, verifier, at) && Nested(node)
    decreases node, 1
  {
    var r := VerifyGoalTree(node, verifier, at, parent);
    if parent.Some? {
      NoExcessIff(node.Own(), parent.value);
    }
    if r.result.permitted {
      SubgoalsPermittedIff(node.subgoals, verifier, at, node.Own());
    }
  }

  lemma {:induction false} SubgoalsPermittedIff(nodes: seq<GoalNode>, verifier: Verifier, at: Place, authorized: set<ResourceKey>)
    ensures (forall r :: r in VerifySubgoals(nodes, verifier, at, authorized) ==> FullyPermitted(r)) <==>
            EveryActionPermittedIn(nodes, verifier, at) && forall s :: s in nodes ==> s.Own() <= authorized && Nested(s)
    decreases nodes, 0
  {
    if nodes != [] {
      hide EveryActionPermitted, EveryActionPermittedIn, GoalNode.Own, FullyPermitted, Nested, VerifyGoalTree;
      var n := |nodes| - 1;
      var init, last := nodes[..n], nodes[n];
      var rs, r := VerifySubgoals(init, verifier, at, authorized), VerifyGoalTree(last, verifier, at + [n], Some(authorized));
      assert VerifySubgoals(nodes, verifier, at, authorized) == rs + [r];
      assert nodes == init + [last];
      hide VerifySubgoals;
      SubgoalsPermittedIff(init, verifier, at, authorized);
      FullyPermittedIff(last, verifier, at + [n], Some(authorized));
      EveryActionSnoc(nodes, verifier, at);
      assert forall x :: x in rs + [r] <==> x in rs || x == r;
      assert forall x :: x in nodes <==> x in init || x == last;
    }
  }

  lemma {:induction false} EveryActionSnoc(nodes: seq<GoalNode>, verifier: Verifier, at: Place)
    requires nodes != []
    ensures var n := |nodes| - 1;
      EveryActionPermittedIn(nodes, verifier, at) <==>
      EveryActionPermittedIn(nodes[..n], verifier, at) && EveryActionPermitted(nodes[n], verifier, at + [n])
  {
    var n := |nodes| - 1;
    hide EveryActionPermitted;
    assert forall i :: 0 <= i < n ==> nodes[..n][i] == nodes[i];
  }

  /** Main theorem: a tree is fully permitted exactly when each of its actions is
      permitted and no goal needs a resource that its parent does not have. */
  lemma {:induction false} TreePermittedIff(root: GoalNode, verifier: Verifier)
    ensures FullyPermitted(VerifyGoalTree(root, verifier, [], None)) <==> EveryActionPermitted(root, verifier, []) && Nested(root)
  {
    FullyPermittedIff(root, verifier, [], None);
  }

  // ----- Resources of a whole tree

  function AllResources(node: GoalNode): set<ResourceKey>
    decreases node, 1
  {
    node.Own() + AllResourcesOf(node.subgoals)
  }

  function AllResourcesOf(nodes: seq<GoalNode>): set<ResourceKey>
    decreases nodes, 0
  {
    if nodes == [] then {} else AllResourcesOf(nodes[..|nodes| - 1]) + AllResources(nodes[|nodes| - 1])
  }

  /** The nodes of a tree, parents before their subgoals. */
  function Nodes(node: GoalNode): seq<GoalNode>
    decreases node, 1
  {
    [node] + NodesOf(node.subgoals)
  }

  function NodesOf(nodes: seq<GoalNode>): seq<GoalNode>
    decreases nodes, 0
  {
    if nodes == [] then [] else NodesOf(nodes[..|nodes| - 1]) + Nodes(nodes[|nodes| - 1])
  }

  /** A resource is required by a tree exactly when some node of it requires it. */
  lemma {:induction false} RequiredBySomeNode(node: GoalNode, key: ResourceKey)
    ensures key in AllResources(node) <==> exists n :: n in Nodes(node) && key in n.Own()
    decreases node, 1
  {
    hide GoalNode.Own;
    RequiredBySomeNodeOf(node.subgoals, key);
  }

  lemma {:induction false} RequiredBySomeNodeOf(nodes: seq<GoalNode>, key: ResourceKey)
    ensures key in AllResourcesOf(nodes) <==> exists n :: n in NodesOf(nodes) && key in n.Own()
    decreases nodes, 0
  {
    hide GoalNode.Own;
    if nodes != [] {
      RequiredBySomeNodeOf(nodes[..|nodes| - 1], key);
      RequiredBySomeNode(nodes[|nodes| - 1], key);
    }
  }

  method AllRequiredResources(node: GoalNode) returns (resources: set<ResourceKey>)
    ensures resources == AllResources(node)
    ensures forall key :: key in resources <==> exists n :: n in Nodes(node) && key in n.Own()
    decreases node
  {
    hide GoalNode.Own;
    resources := node.Own();
    for i := 0 to |node.subgoals|
      invariant resources == node.Own() + AllResourcesOf(node.subgoals[..i])
    {
      assert node.subgoals[..i + 1][..i] == node.subgoals[..i];
      var below := AllRequiredResources(node.subgoals[i]);
      resources := resources + below;
    }
    assert node.subgoals[..|node.subgoals|] == node.subgoals;
    forall key ensures key in resources <==> exists n :: n in Nodes(node) && key in n.Own() {
      RequiredBySomeNode(node, key);
    }
  }

  /** Attenuation is transitive: in a nested tree no goal at any depth needs more
      than the root. */
  lemma {:induction false} NestedTreeNeedsRootOnly(node: GoalNode)
    requires Nested(node)
    ensures AllResources(node) == node.Own()
    decreases node, 1
  {
    NestedSubgoalsStayBelow(node.subgoals, node.Own());
  }

  lemma {:induction false} NestedSubgoalsStayBelow(nodes: seq<GoalNode>, bound: set<ResourceKey>)
    requires forall s :: s in nodes ==> s.Own() <= bound && Nested(s)
    ensures AllResourcesOf(nodes) <= bound
    decreases nodes, 0
  {
    if nodes != [] {
      var n := |nodes| - 1;
      assert nodes[n] in nodes;
      NestedSubgoalsStayBelow(nodes[..n], bound);
      NestedTreeNeedsRootOnly(nodes[n]);
    }
  }

  /** A fully permitted tree requires exactly the resources of its root. */
  lemma {:induction false} PermittedTreeNeedsRootOnly(root: GoalNode, verifier: Verifier)
    requires FullyPermitted(VerifyGoalTree(root, verifier, [], None))
    ensures AllResources(root) == root.Own()
  {
    TreePermittedIff(root, verifier);
    NestedTreeNeedsRootOnly(root);
  }

  // ----- Violations of a whole tree

  function ViolationsIn(r: GoalResult): seq<(string, Violation)>
    decreases r, 1
  {
    Tagged(r.goalId, r.result.violations) + ViolationsInAll(r.subResults)
  }

  function ViolationsInAll(rs: seq<GoalResult>): seq<(string, Violation)>
    decreases rs, 0
  {
    if rs == [] then [] else ViolationsInAll(rs[..|rs| - 1]) + ViolationsIn(rs[|rs| - 1])
  }

  function Tagged(goalId: string, vs: seq<Violation>): (r: seq<(string, Violation)>)
    ensures |r| == |vs| && forall i :: 0 <= i < |r| ==> r[i] == (goalId, vs[i])
  {
    if vs == [] then [] else Tagged(goalId, vs[..|vs| - 1]) + [(goalId, vs[|vs| - 1])]
  }

  /** The results of a tree, parents before their subgoals. */
  function Results(r: GoalResult): seq<GoalResult>
    decreases r, 1
  {
    [r] + ResultsOf(r.subResults)
  }

  function ResultsOf(rs: seq<GoalResult>): seq<GoalResult>
    decreases rs, 0
  {
    if rs == [] then [] else ResultsOf(rs[..|rs| - 1]) + Results(rs[|rs| - 1])
  }

  /** The violations of the results one after the other, each with its goal. */
  function Listed(rs: seq<GoalResult>): seq<(string, Violation)> {
    if rs == [] then [] else Listed(rs[..|rs| - 1]) + Tagged(rs[|rs| - 1].goalId, rs[|rs| - 1].result.violations)
  }

  lemma {:induction false} ListedSnoc(rs: seq<GoalResult>, r: GoalResult)
    ensures Listed(rs + [r]) == Listed(rs) + Tagged(r.goalId, r.result.violations)
  {
    assert (rs + [r])[..|rs|] == rs;
  }

  lemma {:induction false} ListedConcat(a: seq<GoalResult>, b: seq<GoalResult>)
    ensures Listed(a + b) == Listed(a) + Listed(b)
  {
    if b == [] {
      assert a + b == a;
    } else {
      var init, last := b[..|b| - 1], b[|b| - 1];
      assert b == init + [last] && a + b == (a + init) + [last];
      hide *;
      ListedConcat(a, init);
      ListedSnoc(a + init, last);
      ListedSnoc(init, last);
    }
  }

  /** The violations of a tree are those of its results in pre-order. */
  lemma {:induction false} ViolationsInPreOrder(r: GoalResult)
    ensures ViolationsIn(r) == Listed(Results(r))
    decreases r, 1
  {
    ViolationsInPreOrderOf(r.subResults);
    ListedConcat([r], ResultsOf(r.subResults));
    assert [r][..0] == [];
    assert Listed([r]) == Tagged(r.goalId, r.result.violations);
  }

  lemma {:induction false} ViolationsInPreOrderOf(rs: seq<GoalResult>)
    ensures ViolationsInAll(rs) == Listed(ResultsOf(rs))
    decreases rs, 0
  {
    if rs != [] {
      var n := |rs| - 1;
      ViolationsInPreOrderOf(rs[..n]);
      ViolationsInPreOrder(rs[n]);
      ListedConcat(ResultsOf(rs[..n]), Results(rs[n]));
    }
  }

  method AllViolations(r: GoalResult) returns (violations: seq<(string, Violation)>)
    ensures violations == ViolationsIn(r) == Listed(Results(r))
    decreases r
  {
    hide Tagged, Listed, Results;
    ViolationsInPreOrder(r);
    violations := Tagged(r.goalId, r.result.violations);
    for i := 0 to |r.subResults|
      invariant violations == Tagged(r.goalId, r.result.violations) + ViolationsInAll(r.subResults[..i])
    {
      assert r.subResults[..i + 1][..i] == r.subResults[..i];
      var below := AllViolations(r.subResults[i]);
      violations := violations + below;
    }
    assert r.subResults[..|r.subResults|] == r.subResults;
  }

  /** A verdict is blocked exactly when it lists a violation, throughout the tree. */
  ghost predicate Honest(r: GoalResult) {
    (r.result.permitted <==> r.result.violations == []) && forall s :: s in r.subResults ==> Honest(s)
  }

  lemma {:induction false} NoViolationsIff(r: GoalResult)
    requires Honest(r)
    ensures ViolationsIn(r) == [] <==> FullyPermitted(r)
    decreases r, 1
  {
    NoViolationsInAllIff(r.subResults);
  }

  lemma {:induction false} NoViolationsInAllIff(rs: seq<GoalResult>)
    requires forall s :: s in rs ==> Honest(s)
    ensures ViolationsInAll(rs) == [] <==> forall s :: s in rs ==> FullyPermitted(s)
    decreases rs, 0
  {
    if rs != [] {
      var n := |rs| - 1;
      assert rs[n] in rs && rs == rs[..n] + [rs[n]];
      NoViolationsInAllIff(rs[..n]);
      NoViolationsIff(rs[n]);
    }
  }

  ghost predicate HonestVerifier(verifier: Verifier) {
    forall at, a :: verifier(at, a).permitted <==> verifier(at, a).violations == []
  }

  lemma {:induction false} VerificationHonest(node: GoalNode, verifier: Verifier, at: Place, parent: Option<set<ResourceKey>>)
    requires HonestVerifier(verifier)
    ensures Honest(VerifyGoalTree(node, verifier, at, parent))
    decreases node, 1
  {
    var r := VerifyGoalTree(node, verifier, at, parent);
    if r.result.permitted {
      SubgoalsHonest(node.subgoals, verifier, at, node.Own());
    } else {
      CancelledHonest(node.subgoals, node.goalId);
    }
  }

  lemma {:induction false} SubgoalsHonest(nodes: seq<GoalNode>, verifier: Verifier, at: Place, authorized: set<ResourceKey>)
    requires HonestVerifier(verifier)
    ensures forall r :: r in VerifySubgoals(nodes, verifier, at, authorized) ==> Honest(r)
    decreases nodes, 0
  {
    if nodes != [] {
      var n := |nodes| - 1;
      SubgoalsHonest(nodes[..n], verifier, at, authorized);
      VerificationHonest(nodes[n], verifier, at + [n], Some(authorized));
    }
  }

  lemma {:induction false} CancelledHonest(nodes: seq<GoalNode>, parentGoal: string)
    ensures forall r :: r in CancelAll(nodes, parentGoal) ==> Honest(r) && !r.result.permitted
  {
    if nodes != [] {
      CancelledHonest(nodes[..|nodes| - 1], parentGoal);
    }
  }

  /** The list of violations is empty exactly when the tree is fully permitted, so
      exactly when its actions are permitted and its resources are nested. */
  lemma {:induction false} NoViolationsIffPermitted(root: GoalNode, verifier: Verifier)
    requires HonestVerifier(verifier)
    ensures ViolationsIn(VerifyGoalTree(root, verifier, [], None)) == [] <==> EveryActionPermitted(root, verifier, []) && Nested(root)
  {
    VerificationHonest(root, verifier, [], None);
    NoViolationsIff(VerifyGoalTree(root, verifier, [], None));
    TreePermittedIff(root, verifier);
  }

  /** A blocked goal has only blocked goals below it. */
  lemma {:induction false} BlockedGoalCancelsSubgoals(node: GoalNode, verifier: Verifier, at: Place, parent: Option<set<ResourceKey>>)
    requires !VerifyGoalTree(node, verifier, at, parent).result.permitted
    ensures var r := VerifyGoalTree(node, verifier, at, parent);
      |r.subResults| == |node.subgoals| && forall s :: s in r.subResults ==> !s.result.permitted && s.subResults == []
  {
    CancelledLeaves(node.subgoals, node.goalId);
  }

  lemma {:induction false} CancelledLeaves(nodes: seq<GoalNode>, parentGoal: string)
    ensures forall r :: r in CancelAll(nodes, parentGoal) ==> !r.result.permitted && r.subResults == []
  {
    if nodes != [] {
      CancelledLeaves(nodes[..|nodes| - 1], parentGoal);
    }
  }

  /** The gate is such a verifier, whatever registry state and clock reading it meets
      at each node. */
  lemma {:induction false} GateIsHonest(states: Place -> Registry.State, clock: Place -> real)
    ensures HonestVerifier((at, a) => Verify(states(at), a, clock(at)))
  {
    hide Fold, Opening;
    forall at, a ensures var r := Verify(states(at), a, clock(at)); r.permitted <==> r.violations == [] {
    }
    hide Verify;
  }
}
