/** Depth-limited verification of goal trees by pre-order search with early exit. */
module GoalTree {
  import opened Entities
  import opened Sequences
  import opened Verdicts
  import E = Engine

  datatype GoalNode = GoalNode(id: string, action: E.ActionWire, subgoals: seq<GoalNode>, depthLimit: nat)

  datatype GoalTreeError =
    | DepthLimitExceeded(limit: nat, actual: nat)
    | KernelViolation(nodeId: string, result: VerificationResult)

  datatype Built = Tree(node: GoalNode) | Rejected(error: GoalTreeError)

  // ----- Building

  function Leaf(id: string, action: E.ActionWire): GoalNode { GoalNode(id, action, [], 10) }

  function WithDepthLimit(node: GoalNode, limit: nat): GoalNode { node.(depthLimit := limit) }

  function Max(a: nat, b: nat): nat { if a < b then b else a }

  function MaxDepth(node: GoalNode): nat {
    if node.subgoals == [] then 0 else 1 + MaxDepthOf(node.subgoals)
  }

  function MaxDepthOf(nodes: seq<GoalNode>): nat {
    if nodes == [] then 0 else Max(MaxDepthOf(nodes[..|nodes| - 1]), MaxDepth(nodes[|nodes| - 1]))
  }

  function WithSubgoal(node: GoalNode, child: GoalNode): Built {
    if MaxDepth(child) >= node.depthLimit then Rejected(DepthLimitExceeded(node.depthLimit, MaxDepth(child) + 1))
    else Tree(node.(subgoals := node.subgoals + [child]))
  }

  // ----- The pre-order listing

  /** A node with its distance from the root. */
  datatype Visit = Visit(node: GoalNode, depth: nat)

  function PreOrder(node: GoalNode, depth: nat): seq<Visit> {
    [Visit(node, depth)] + PreOrderOf(node.subgoals, depth + 1)
  }

  function PreOrderOf(nodes: seq<GoalNode>, depth: nat): seq<Visit> {
    if nodes == [] then []
    else PreOrderOf(nodes[..|nodes| - 1], depth) + PreOrder(nodes[|nodes| - 1], depth)
  }

  /** Too deep for its own limit, or blocked by the kernel when it is the `k`-th
      node to be checked. */
  predicate Faulty(registry: E.RegistryWire, clock: nat -> real, v: Visit, k: nat) {
    v.depth >= v.node.depthLimit || !E.Verify(registry, v.node.action, clock(k)).permitted
  }

  function Fault(registry: E.RegistryWire, clock: nat -> real, v: Visit, k: nat): GoalTreeError {
    if v.depth >= v.node.depthLimit then DepthLimitExceeded(v.node.depthLimit, v.depth)
    else KernelViolation(v.node.id, E.Verify(registry, v.node.action, clock(k)))
  }

  function Verdict(registry: E.RegistryWire, clock: nat -> real, v: Visit, k: nat): (string, VerificationResult) {
    (v.node.id, E.Verify(registry, v.node.action, clock(k)))
  }

  /** The search over `visits` has recorded `results` and `violation`: up to the
      first faulty visit every node has its verdict in order; a node refused for its
      depth has none, a node refused by the kernel has; nothing comes after. */
  ghost predicate Scanned(registry: E.RegistryWire, clock: nat -> real, visits: seq<Visit>,
                          results: seq<(string, VerificationResult)>, violation: Option<GoalTreeError>)
  {
    && |results| <= |visits|
    && (forall k :: 0 <= k < |results| ==> results[k] == Verdict(registry, clock, visits[k], k))
    && match violation
       case None => |results| == |visits| && forall k :: 0 <= k < |visits| ==> !Faulty(registry, clock, visits[k], k)
       case Some(e) =>
         var f := if e.DepthLimitExceeded? then |results| else |results| - 1;
         && 0 <= f < |visits|
         && Faulty(registry, clock, visits[f], f) && e == Fault(registry, clock, visits[f], f)
         && forall k :: 0 <= k < f ==> !Faulty(registry, clock, visits[k], k)
  }

  // ----- The search

  /** The two out-parameters that every call of the search appends to. */
  class Findings {
    var results: seq<(string, VerificationResult)>
    var violation: Option<GoalTreeError>

    constructor ()
      ensures results == [] && violation == None
    {
      results, violation := [], None;
    }
  }

  lemma {:induction false} ScanStops(registry: E.RegistryWire, clock: nat -> real, visits: seq<Visit>, more: seq<Visit>,
                  results: seq<(string, VerificationResult)>, violation: Option<GoalTreeError>)
    requires Scanned(registry, clock, visits, results, violation) && violation.Some?
    ensures Scanned(registry, clock, visits + more, results, violation)
  {
  }

  /** One more node, when nothing was found so far. */
  lemma {:induction false} ScanNode(registry: E.RegistryWire, clock: nat -> real, visits: seq<Visit>, v: Visit,
                 results: seq<(string, VerificationResult)>)
    requires Scanned(registry, clock, visits, results, None)
    ensures var k := |results|;
      var recorded := results + [Verdict(registry, clock, v, k)];
      if v.depth >= v.node.depthLimit
      then Scanned(registry, clock, visits + [v], results, Some(DepthLimitExceeded(v.node.depthLimit, v.depth)))
      else if !E.Verify(registry, v.node.action, clock(k)).permitted
      then Scanned(registry, clock, visits + [v], recorded, Some(Fault(registry, clock, v, k)))
      else Scanned(registry, clock, visits + [v], recorded, None)
  {
    hide E.Verify;
  }

  /** Continues the scan of `before` over the tree of `node`. */
  method DfsVerify(registry: E.RegistryWire, node: GoalNode, findings: Findings, depth: nat, clock: nat -> real, ghost before: seq<Visit>)
    requires Scanned(registry, clock, before, findings.results, findings.violation)
    modifies findings
    ensures Scanned(registry, clock, before + PreOrder(node, depth), findings.results, findings.violation)
    decreases node
  {
    hide Scanned, E.Verify;
    if findings.violation.Some? {
      ScanStops(registry, clock, before, PreOrder(node, depth), findings.results, findings.violation);
      return;
    }
    ghost var here := before + [Visit(node, depth)];
    assert before + PreOrder(node, depth) == here + PreOrderOf(node.subgoals, depth + 1);
    ScanNode(registry, clock, before, Visit(node, depth), findings.results);
    if depth >= node.depthLimit {
      findings.violation := Some(DepthLimitExceeded(node.depthLimit, depth));
      ScanStops(registry, clock, here, PreOrderOf(node.subgoals, depth + 1), findings.results, findings.violation);
      return;
    }
    var result := E.RunVerify(registry, node.action, clock(|findings.results|));
    if !result.permitted {
      findings.violation := Some(KernelViolation(node.id, result));
    }
    findings.results := findings.results + [(node.id, result)];
    assert here + [] == here;
    for i := 0 to |node.subgoals|
      invariant Scanned(registry, clock, here + PreOrderOf(node.subgoals[..i], depth + 1), findings.results, findings.violation)
    {
      assert node.subgoals[..i + 1][..i] == node.subgoals[..i];
      ghost var sofar := here + PreOrderOf(node.subgoals[..i], depth + 1);
      DfsVerify(registry, node.subgoals[i], findings, depth + 1, clock, sofar);
      assert sofar + PreOrder(node.subgoals[i], depth + 1) == here + PreOrderOf(node.subgoals[..i + 1], depth + 1);
    }
    assert node.subgoals[..|node.subgoals|] == node.subgoals;
  }

  datatype GoalTreeResult = GoalTreeResult(
    allPermitted: bool,
    nodeResults: seq<(string, VerificationResult)>,
    firstViolation: Option<GoalTreeError>)

  /** The search refines the scan of the pre-order listing. */
  method VerifyGoalTree(registry: E.RegistryWire, root: GoalNode, clock: nat -> real) returns (r: GoalTreeResult)
    ensures Scanned(registry, clock, PreOrder(root, 0), r.nodeResults, r.firstViolation)
    ensures r.allPermitted <==> r.firstViolation.None?
  {
    hide E.Verify;
    var findings := new Findings();
    DfsVerify(registry, root, findings, 0, clock, []);
    assert [] + PreOrder(root, 0) == PreOrder(root, 0);
    r := GoalTreeResult(findings.violation.None?, findings.results, findings.violation);
  }

  // ----- What a scan says

  /** A scan is clean exactly when no visit is faulty. */
  lemma {:induction false} CleanIffNoFault(registry: E.RegistryWire, clock: nat -> real, visits: seq<Visit>,
                        results: seq<(string, VerificationResult)>, violation: Option<GoalTreeError>)
    requires Scanned(registry, clock, visits, results, violation)
    ensures violation.None? <==> forall k :: 0 <= k < |visits| ==> !Faulty(registry, clock, visits[k], k)
    ensures violation.None? <==> forall k :: 0 <= k < |visits| ==>
              visits[k].depth < visits[k].node.depthLimit && E.Verify(registry, visits[k].node.action, clock(k)).permitted
  {
    hide E.Verify;
  }

  /** The scan is determined by the listing. */
  lemma {:induction false} ScanDetermined(registry: E.RegistryWire, clock: nat -> real, visits: seq<Visit>,
                       results: seq<(string, VerificationResult)>, violation: Option<GoalTreeError>,
                       results': seq<(string, VerificationResult)>, violation': Option<GoalTreeError>)
    requires Scanned(registry, clock, visits, results, violation)
    requires Scanned(registry, clock, visits, results', violation')
    ensures violation == violation' && results == results'
  {
    hide E.Verify, Verdict, Fault, Faulty;
    FaultShape(registry, clock, visits);
  }

  /** A fault tells by its kind whether the node has a verdict. */
  lemma {:induction false} FaultShape(registry: E.RegistryWire, clock: nat -> real, visits: seq<Visit>)
    ensures forall k :: 0 <= k < |visits| ==>
              (Fault(registry, clock, visits[k], k).DepthLimitExceeded? <==> visits[k].depth >= visits[k].node.depthLimit)
  {
  }

  // ----- Depths and heights

  lemma {:induction false} DepthsWithin(node: GoalNode, depth: nat, v: Visit)
    requires v in PreOrder(node, depth)
    ensures depth <= v.depth <= depth + MaxDepth(node)
    decreases node, 1
  {
    if v != Visit(node, depth) {
      DepthsWithinOf(node.subgoals, depth + 1, v);
    }
  }

  lemma {:induction false} DepthsWithinOf(nodes: seq<GoalNode>, depth: nat, v: Visit)
    requires v in PreOrderOf(nodes, depth)
    ensures nodes != [] && depth <= v.depth <= depth + MaxDepthOf(nodes)
    decreases nodes, 0
  {
    var n := |nodes| - 1;
    if v in PreOrderOf(nodes[..n], depth) {
      DepthsWithinOf(nodes[..n], depth, v);
    } else {
      DepthsWithin(nodes[n], depth, v);
    }
  }

  /** Some node lies exactly as deep as the tree is high. */
  lemma {:induction false} DeepestVisit(node: GoalNode, depth: nat) returns (v: Visit)
    ensures v in PreOrder(node, depth) && v.depth == depth + MaxDepth(node)
    decreases node, 1
  {
    if node.subgoals == [] {
      v := Visit(node, depth);
    } else {
      v := DeepestVisitOf(node.subgoals, depth + 1);
    }
  }

  lemma {:induction false} DeepestVisitOf(nodes: seq<GoalNode>, depth: nat) returns (v: Visit)
    requires nodes != []
    ensures v in PreOrderOf(nodes, depth) && v.depth == depth + MaxDepthOf(nodes)
    decreases nodes, 0
  {
    var n := |nodes| - 1;
    if n > 0 && MaxDepthOf(nodes[..n]) > MaxDepth(nodes[n]) {
      v := DeepestVisitOf(nodes[..n], depth);
    } else {
      v := DeepestVisit(nodes[n], depth);
    }
  }

  /** When every node carries the limit and every action is permitted, the tree is
      accepted exactly when its height is below the limit. */
  lemma {:induction false} AcceptedIffHeightBelowLimit(registry: E.RegistryWire, clock: nat -> real, root: GoalNode, limit: nat,
                                    results: seq<(string, VerificationResult)>, violation: Option<GoalTreeError>)
    requires Scanned(registry, clock, PreOrder(root, 0), results, violation)
    requires forall v :: v in PreOrder(root, 0) ==> v.node.depthLimit == limit
    requires forall k :: 0 <= k < |PreOrder(root, 0)| ==> E.Verify(registry, PreOrder(root, 0)[k].node.action, clock(k)).permitted
    ensures violation.None? <==> MaxDepth(root) < limit
  {
    hide E.Verify;
    var visits := PreOrder(root, 0);
    CleanIffNoFault(registry, clock, visits, results, violation);
    var deepest := DeepestVisit(root, 0);
    var d :| 0 <= d < |visits| && visits[d] == deepest;
    assert Faulty(registry, clock, visits[d], d) <==> MaxDepth(root) >= limit;
    forall k | 0 <= k < |visits| ensures visits[k].depth <= MaxDepth(root) && visits[k].node.depthLimit == limit {
      assert visits[k] in visits;
      DepthsWithin(root, 0, visits[k]);
    }
  }

  // ----- What building guarantees

  /** Trees that `Leaf`, `WithDepthLimit` and `WithSubgoal` produce under one limit. */
  predicate BuiltUnder(node: GoalNode, limit: nat) {
    node.depthLimit == limit && forall c :: c in node.subgoals ==> BuiltUnder(c, limit) && MaxDepth(c) < limit
  }

  lemma {:induction false} BuildersStayUnder(id: string, action: E.ActionWire, node: GoalNode, child: GoalNode, limit: nat)
    requires BuiltUnder(node, limit) && BuiltUnder(child, limit)
    ensures BuiltUnder(WithDepthLimit(Leaf(id, action), limit), limit)
    ensures WithSubgoal(node, child).Tree? <==> MaxDepth(child) < limit
    ensures WithSubgoal(node, child).Tree? ==> BuiltUnder(WithSubgoal(node, child).node, limit)
  {
  }

  lemma {:induction false} MaxDepthOfBound(nodes: seq<GoalNode>, bound: nat)
    requires forall c :: c in nodes ==> MaxDepth(c) < bound
    ensures nodes != [] ==> MaxDepthOf(nodes) < bound
  {
    if nodes != [] {
      var n := |nodes| - 1;
      assert nodes[n] in nodes;
      MaxDepthOfBound(nodes[..n], bound);
    }
  }

  /** A built tree is at most as high as the limit. */
  lemma {:induction false} BuiltHeight(node: GoalNode, limit: nat)
    requires BuiltUnder(node, limit)
    ensures MaxDepth(node) <= limit
  {
    MaxDepthOfBound(node.subgoals, limit);
  }

  lemma {:induction false} BuiltLimits(node: GoalNode, limit: nat, depth: nat, v: Visit)
    requires BuiltUnder(node, limit) && v in PreOrder(node, depth)
    ensures v.node.depthLimit == limit
    decreases node, 1
  {
    if v != Visit(node, depth) {
      BuiltLimitsOf(node.subgoals, limit, depth + 1, v);
    }
  }

  lemma {:induction false} BuiltLimitsOf(nodes: seq<GoalNode>, limit: nat, depth: nat, v: Visit)
    requires (forall c :: c in nodes ==> BuiltUnder(c, limit)) && v in PreOrderOf(nodes, depth)
    ensures v.node.depthLimit == limit
    decreases nodes, 0
  {
    if nodes != [] {
      var n := |nodes| - 1;
      if v in PreOrderOf(nodes[..n], depth) {
        BuiltLimitsOf(nodes[..n], limit, depth, v);
      } else {
        assert nodes[n] in nodes;
        BuiltLimits(nodes[n], limit, depth, v);
      }
    }
  }

  /** The builder admits one level more than the verifier: a built tree all of whose
      actions are permitted is refused exactly when its height equals the limit. */
  lemma {:induction false} BuiltTreeRefusedIff(registry: E.RegistryWire, clock: nat -> real, root: GoalNode, limit: nat,
                            results: seq<(string, VerificationResult)>, violation: Option<GoalTreeError>)
    requires Scanned(registry, clock, PreOrder(root, 0), results, violation)
    requires BuiltUnder(root, limit)
    requires forall k :: 0 <= k < |PreOrder(root, 0)| ==> E.Verify(registry, PreOrder(root, 0)[k].node.action, clock(k)).permitted
    ensures violation.Some? <==> MaxDepth(root) == limit
  {
    hide E.Verify;
    BuiltHeight(root, limit);
    forall v | v in PreOrder(root, 0) ensures v.node.depthLimit == limit {
      BuiltLimits(root, limit, 0, v);
    }
    AcceptedIffHeightBelowLimit(registry, clock, root, limit, results, violation);
  }

  lemma {:induction false} HeightOfInit(nodes: seq<GoalNode>)
    requires nodes != []
    ensures MaxDepthOf(nodes[..|nodes| - 1]) <= MaxDepthOf(nodes) && MaxDepth(nodes[|nodes| - 1]) <= MaxDepthOf(nodes)
  {
  }

  /** The node without its last subgoal. */
  function Shorter(node: GoalNode): (r: GoalNode)
    requires node.subgoals != []
    ensures |r.subgoals| < |node.subgoals| && MaxDepth(r) <= MaxDepth(node)
    ensures MaxDepth(node.subgoals[|node.subgoals| - 1]) < MaxDepth(node)
  {
    HeightOfInit(node.subgoals);
    node.(subgoals := node.subgoals[..|node.subgoals| - 1])
  }

  /** `node` is what calls of the builders under one limit return: a leaf with that
      limit, or what `WithSubgoal` returns on two nodes so produced. */
  predicate Produced(node: GoalNode, limit: nat)
    decreases MaxDepth(node), |node.subgoals|
  {
    if node.subgoals == [] then node == WithDepthLimit(Leaf(node.id, node.action), limit)
    else
      var last := node.subgoals[|node.subgoals| - 1];
      var rest := Shorter(node);
      Produced(rest, limit) && Produced(last, limit) && WithSubgoal(rest, last) == Tree(node)
  }

  /** The trees that satisfy the builders' invariant are exactly the trees they produce. */
  lemma {:induction false} ProducedIff(node: GoalNode, limit: nat)
    ensures Produced(node, limit) <==> BuiltUnder(node, limit)
    decreases MaxDepth(node), |node.subgoals|
  {
    if node.subgoals != [] {
      var n := |node.subgoals| - 1;
      var last, rest := node.subgoals[n], Shorter(node);
      ProducedIff(rest, limit);
      ProducedIff(last, limit);
      assert node.subgoals == rest.subgoals + [last];
      assert WithSubgoal(rest, last) == Tree(node) <==> MaxDepth(last) < node.depthLimit;
      BuiltSplit(node, limit);
    }
  }

  lemma {:induction false} BuiltSplit(node: GoalNode, limit: nat)
    requires node.subgoals != []
    ensures var last := node.subgoals[|node.subgoals| - 1];
      BuiltUnder(node, limit) <==> BuiltUnder(Shorter(node), limit) && BuiltUnder(last, limit) && MaxDepth(last) < limit
  {
    var rest, last := Shorter(node), node.subgoals[|node.subgoals| - 1];
    assert node.subgoals == rest.subgoals + [last];
    hide MaxDepth, MaxDepthOf;
    assert forall c :: c in node.subgoals <==> c in rest.subgoals || c == last;
  }

  lemma {:induction false} OneChild(root: GoalNode, child: GoalNode, limit: nat)
    requires BuiltUnder(root, limit) && BuiltUnder(child, limit) && root.subgoals == [] && MaxDepth(child) < limit
    ensures WithSubgoal(root, child).Tree?
    ensures BuiltUnder(WithSubgoal(root, child).node, limit) && MaxDepth(WithSubgoal(root, child).node) == MaxDepth(child) + 1
  {
    var node := root.(subgoals := [child]);
    assert root.subgoals + [child] == [child];
    assert WithSubgoal(root, child) == Tree(node);
    assert BuiltUnder(node, limit);
    assert [child][..0] == [] && MaxDepthOf([]) == 0;
    assert MaxDepthOf([child]) == MaxDepth(child);
  }

  /** For every limit there is a built tree of exactly every height up to it. */
  lemma {:induction false} TallestBuilt(id: string, action: E.ActionWire, limit: nat, height: nat) returns (node: GoalNode)
    requires height <= limit
    ensures BuiltUnder(node, limit) && Produced(node, limit) && MaxDepth(node) == height
  {
    var root := WithDepthLimit(Leaf(id, action), limit);
    assert root.subgoals == [] && MaxDepth(root) == 0 && BuiltUnder(root, limit);
    if height == 0 {
      node := root;
    } else {
      hide BuiltUnder, MaxDepth, MaxDepthOf, WithSubgoal, Leaf, WithDepthLimit;
      var child := TallestBuilt(id, action, limit, height - 1);
      OneChild(root, child, limit);
      node := WithSubgoal(root, child).node;
    }
    hide Produced;
    ProducedIff(node, limit);
  }
  // ----- What the listing is

  /** A tree is visited from its root at depth 0: each node at its depth, followed by
      its subgoals in their order, one level further down. */
  lemma {:induction false} PreOrderMeaning(node: GoalNode, depth: nat)
    ensures PreOrder(node, depth) == [Visit(node, depth)] + Flat(node.subgoals, (c: GoalNode) => PreOrder(c, depth + 1))
  {
    PreOrderOfFlat(node.subgoals, depth + 1);
  }

  lemma {:induction false} PreOrderOfFlat(nodes: seq<GoalNode>, depth: nat)
    ensures PreOrderOf(nodes, depth) == Flat(nodes, (c: GoalNode) => PreOrder(c, depth))
  {
    if nodes != [] {
      PreOrderOfFlat(nodes[..|nodes| - 1], depth);
    }
  }

  /** The height of a tree is one more than that of its highest subgoal, and 0 for a leaf. */
  lemma {:induction false} HeightMeaning(node: GoalNode)
    ensures node.subgoals == [] ==> MaxDepth(node) == 0
    ensures forall c :: c in node.subgoals ==> MaxDepth(c) < MaxDepth(node)
    ensures node.subgoals != [] ==> exists c :: c in node.subgoals && MaxDepth(node) == MaxDepth(c) + 1
  {
    HighestOf(node.subgoals);
  }

  lemma {:induction false} HighestOf(nodes: seq<GoalNode>)
    ensures forall c :: c in nodes ==> MaxDepth(c) <= MaxDepthOf(nodes)
    ensures nodes != [] ==> exists c :: c in nodes && MaxDepth(c) == MaxDepthOf(nodes)
  {
    if nodes != [] {
      var init, last := nodes[..|nodes| - 1], nodes[|nodes| - 1];
      HighestOf(init);
      assert nodes == init + [last] && last in nodes;
    }
  }

  // ----- What the reports say

  /** The reported violation: the limit and the depth of the first node that lies at or
      beyond its own limit, or the id and the verdict of the first node that the
      kernel blocks within its limit. */
  lemma {:induction false} ReportMeaning(registry: E.RegistryWire, clock: nat -> real, visits: seq<Visit>,
                                         results: seq<(string, VerificationResult)>, violation: Option<GoalTreeError>)
    requires Scanned(registry, clock, visits, results, violation) && violation.Some?
    ensures match violation.value
            case DepthLimitExceeded(limit, actual) =>
              && |results| < |visits| && actual >= limit
              && visits[|results|].node.depthLimit == limit && visits[|results|].depth == actual
            case KernelViolation(id, result) =>
              && 0 < |results| <= |visits| && !result.permitted && results[|results| - 1] == (id, result)
              && visits[|results| - 1].node.id == id && visits[|results| - 1].depth < visits[|results| - 1].node.depthLimit
              && result == E.Verify(registry, visits[|results| - 1].node.action, clock(|results| - 1))
  {
    hide E.Verify;
  }

  /** The recorded results: ids and verdicts of the nodes in pre-order. */
  lemma {:induction false} RecordsMeaning(registry: E.RegistryWire, clock: nat -> real, visits: seq<Visit>,
                                          results: seq<(string, VerificationResult)>, violation: Option<GoalTreeError>, k: nat)
    requires Scanned(registry, clock, visits, results, violation) && k < |results|
    ensures results[k] == (visits[k].node.id, E.Verify(registry, visits[k].node.action, clock(k)))
  {
    hide E.Verify;
  }

  /** A child is turned away exactly when the tree it would make is higher than the
      limit; the report names the limit and that height.  Otherwise it becomes the
      last subgoal and nothing else changes. */
  lemma {:induction false} SubgoalMeaning(node: GoalNode, child: GoalNode)
    ensures var alone := MaxDepth(node.(subgoals := [child]));
      WithSubgoal(node, child) ==
      if alone > node.depthLimit then Rejected(DepthLimitExceeded(node.depthLimit, alone))
      else Tree(GoalNode(node.id, node.action, node.subgoals + [child], node.depthLimit))
  {
    assert [child][..0] == [] && MaxDepthOf([child]) == MaxDepth(child);
  }

  /** A new leaf has no subgoals and admits children of height below 10, unless another
      limit is set. */
  lemma {:induction false} LeafMeaning(id: string, action: E.ActionWire, child: GoalNode, limit: nat)
    ensures Leaf(id, action).id == id && Leaf(id, action).action == action && Leaf(id, action).subgoals == []
    ensures WithSubgoal(Leaf(id, action), child).Tree? <==> MaxDepth(child) < 10
    ensures WithSubgoal(WithDepthLimit(Leaf(id, action), limit), child).Tree? <==> MaxDepth(child) < limit
    ensures WithDepthLimit(Leaf(id, action), limit).id == id && WithDepthLimit(Leaf(id, action), limit).action == action
  {
  }
}
