/** Goal trees over the typed gate in plain terms: what a fully permitted tree asks
    for, and what a tree's results say. */
module GoalLaws {
  import opened Entities
  import opened Sequences
  import opened Registry
  import opened RegistryLaws
  import opened Verdicts
  import opened VerdictLaws
  import opened Goals
  import G = Gate

  /** The gate that meets, at each node, some registry state and some clock reading. */
  function GateAt(states: Place -> State, clock: Place -> real): Verifier {
    (at, a) => G.Verify(states(at), a, clock(at))
  }

  /** The goal's actor may read and write what the goal requires, and is owned if a machine. */
  ghost predicate GoalAllowed(node: GoalNode, s: State, now: real) {
    && (forall r :: r in node.requiredRead ==> MayAct(s, node.actor, r, Read, now))
    && (forall r :: r in node.requiredWrite ==> MayAct(s, node.actor, r, Write, now))
    && (node.actor.kind == Machine ==> node.actor in s.owners)
  }

  ghost predicate AllAllowed(node: GoalNode, states: Place -> State, clock: Place -> real, at: Place)
    decreases node, 1
  {
    GoalAllowed(node, states(at), clock(at)) && AllAllowedIn(node.subgoals, states, clock, at)
  }

  ghost predicate AllAllowedIn(nodes: seq<GoalNode>, states: Place -> State, clock: Place -> real, at: Place)
    decreases nodes, 0
  {
    forall i :: 0 <= i < |nodes| ==> AllAllowed(nodes[i], states, clock, at + [i])
  }

  predicate Requires(node: GoalNode, r: Resource) { r in node.requiredRead || r in node.requiredWrite }

  /** What the child requires, the parent requires. */
  ghost predicate Covers(parent: GoalNode, child: GoalNode) {
    forall r :: Requires(child, r) ==> exists p :: Requires(parent, p) && SameResource(p, r)
  }

  ghost predicate CoversAll(node: GoalNode) { forall s :: s in node.subgoals ==> Covers(node, s) && CoversAll(s) }

  lemma {:induction false} OwnMeaning(node: GoalNode, key: ResourceKey)
    ensures key in node.Own() <==> exists r :: Requires(node, r) && r.Key() == key
  {
    if key in node.Own() {
      var r :| r in node.requiredRead + node.requiredWrite && r.Key() == key;
      assert Requires(node, r);
    }
    forall r | Requires(node, r) && r.Key() == key ensures key in node.Own() {
      assert r in node.requiredRead + node.requiredWrite;
    }
  }

  lemma {:induction false} CoversIff(parent: GoalNode, child: GoalNode)
    ensures child.Own() <= parent.Own() <==> Covers(parent, child)
  {
    hide GoalNode.Own, Requires;
    forall key
      ensures key in child.Own() <==> exists r :: Requires(child, r) && r.Key() == key
      ensures key in parent.Own() <==> exists r :: Requires(parent, r) && r.Key() == key
    {
      OwnMeaning(child, key);
      OwnMeaning(parent, key);
    }
    if child.Own() <= parent.Own() {
      forall r | Requires(child, r) ensures exists p :: Requires(parent, p) && SameResource(p, r) {
        assert r.Key() in child.Own();
        var p :| Requires(parent, p) && p.Key() == r.Key();
        assert SameResource(p, r);
      }
    }
    if Covers(parent, child) {
      forall key | key in child.Own() ensures key in parent.Own() {
        var r :| Requires(child, r) && r.Key() == key;
        var p :| Requires(parent, p) && SameResource(p, r);
        assert p.Key() == key;
      }
    }
  }

  lemma {:induction false} NestedIff(node: GoalNode)
    ensures Nested(node) <==> CoversAll(node)
  {
    forall s | s in node.subgoals ensures Nested(s) <==> CoversAll(s) {
      NestedIff(s);
    }
    forall s | s in node.subgoals ensures s.Own() <= node.Own() <==> Covers(node, s) {
      CoversIff(node, s);
    }
    hide GoalNode.Own, Covers;
  }

  lemma {:induction false} QuietRaisesNothing()
    ensures forall f :: !Raised(G.Quiet(), f)
  {
  }

  lemma {:induction false} GoalAllowedIff(node: GoalNode, s: State, now: real)
    ensures G.Verify(s, node.ToAction(), now).permitted <==> GoalAllowed(node, s, now)
  {
    hide G.Verify, MayAct, Raised;
    GatePermits(s, node.ToAction(), now);
    QuietRaisesNothing();
  }

  lemma {:induction false} AllAllowedIff(node: GoalNode, states: Place -> State, clock: Place -> real, at: Place)
    ensures EveryActionPermitted(node, GateAt(states, clock), at) <==> AllAllowed(node, states, clock, at)
    decreases node, 1
  {
    hide G.Verify, GoalAllowed, GoalNode.ToAction;
    GoalAllowedIff(node, states(at), clock(at));
    AllAllowedInIff(node.subgoals, states, clock, at);
  }

  lemma {:induction false} AllAllowedInIff(nodes: seq<GoalNode>, states: Place -> State, clock: Place -> real, at: Place)
    ensures EveryActionPermittedIn(nodes, GateAt(states, clock), at) <==> AllAllowedIn(nodes, states, clock, at)
    decreases nodes, 0
  {
    hide EveryActionPermitted, AllAllowed;
    forall i | 0 <= i < |nodes|
      ensures EveryActionPermitted(nodes[i], GateAt(states, clock), at + [i]) <==> AllAllowed(nodes[i], states, clock, at + [i])
    {
      AllAllowedIff(nodes[i], states, clock, at + [i]);
    }
  }

  /** Main theorem: whatever states and clock readings the gate meets, a tree is fully
      permitted exactly when each goal's actor may, there and then, read and write
      what the goal requires, a machine is owned there, and no goal requires a
      resource that its parent does not. */
  lemma {:induction false} TreeAllowedIff(root: GoalNode, states: Place -> State, clock: Place -> real)
    ensures FullyPermitted(VerifyGoalTree(root, GateAt(states, clock), [], None)) <==>
            AllAllowed(root, states, clock, []) && CoversAll(root)
  {
    hide FullyPermitted, VerifyGoalTree, EveryActionPermitted, AllAllowed, Nested, CoversAll;
    TreePermittedIff(root, GateAt(states, clock));
    AllAllowedIff(root, states, clock, []);
    NestedIff(root);
  }

  // ----- The results node by node

  /** The result of a goal: the verifier's, unless the goal requires more than its
      parent, which is reported in its place.  Below a permitted goal stand the
      results of its subgoals within its own resources; below a blocked one stands,
      for each subgoal, a cancellation that names the blocked goal. */
  lemma {:induction false} ResultMeaning(node: GoalNode, verifier: Verifier, at: Place, parent: Option<set<ResourceKey>>)
    ensures var r := VerifyGoalTree(node, verifier, at, parent);
      var verdict := verifier(at, node.ToAction());
      && r.goalId == node.goalId
      && (if parent.None? || node.Own() <= parent.value then r.result == verdict
          else r.result == VerificationResult(node.goalId, false, [Violation.GoalAttenuation(node.goalId, node.Own() - parent.value)],
                                              verdict.warnings, 0.0, true))
      && |r.subResults| == |node.subgoals|
      && forall i :: 0 <= i < |node.subgoals| ==>
           var sub := node.subgoals[i];
           r.subResults[i] ==
           if r.result.permitted then VerifyGoalTree(sub, verifier, at + [i], Some(node.Own()))
           else GoalResult(sub.goalId, VerificationResult(sub.goalId, false, [GoalCancelled(node.goalId)], [], 0.0, false), [])
  {
    if parent.Some? {
      NoExcessIff(node.Own(), parent.value);
    }
    SubgoalAt(node.subgoals, verifier, at, node.Own());
    CancelledAt(node.subgoals, node.goalId);
    hide VerifySubgoals, CancelAll, GoalNode.Own, GoalNode.ToAction;
  }

  lemma {:induction false} SubgoalAt(nodes: seq<GoalNode>, verifier: Verifier, at: Place, authorized: set<ResourceKey>)
    ensures forall i :: 0 <= i < |nodes| ==>
              VerifySubgoals(nodes, verifier, at, authorized)[i] == VerifyGoalTree(nodes[i], verifier, at + [i], Some(authorized))
  {
    if nodes != [] {
      hide VerifyGoalTree;
      SubgoalAt(nodes[..|nodes| - 1], verifier, at, authorized);
    }
  }

  lemma {:induction false} CancelledAt(nodes: seq<GoalNode>, parentGoal: string)
    ensures forall i :: 0 <= i < |nodes| ==>
              CancelAll(nodes, parentGoal)[i] ==
              GoalResult(nodes[i].goalId, VerificationResult(nodes[i].goalId, false, [GoalCancelled(parentGoal)], [], 0.0, false), [])
  {
    if nodes != [] {
      CancelledAt(nodes[..|nodes| - 1], parentGoal);
    }
  }

  /** The gate's verdict on a goal, list by list: under the goal's id, what its actor
      may not read, then what it may not write, and the warnings in the same order. */
  lemma {:induction false} GoalVerdict(node: GoalNode, s: State, now: real)
    ensures var v := G.Verify(s, node.ToAction(), now);
      && v.actionId == node.goalId
      && v.violations ==
         (if node.actor.kind == Machine && node.actor !in s.owners then [OwnerlessMachine(node.actor.name)] else [])
         + (Flat(node.requiredRead, r => DeniedOn(s, node.actor, r, Read, now))
            + Flat(node.requiredWrite, r => DeniedOn(s, node.actor, r, Write, now)))
      && v.warnings ==
         Flat(node.requiredRead, r => WarnedOn(s, node.actor, r, Read, now))
         + Flat(node.requiredWrite, r => WarnedOnWrite(s, node.actor, r, now))
  {
    GateLists(s, node.ToAction(), now);
    QuietRaisesNothing();
    hide G.Verify, DeniedOn, WarnedOn, WarnedOnWrite, Raised;
    var none: Flag -> seq<Violation> := (f: Flag) => if Raised(G.Quiet(), f) then [Forbidden(f)] else [];
    FlatNothing(FLAGS, none);
  }
}
