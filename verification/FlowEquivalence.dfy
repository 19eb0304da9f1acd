/** The running-maximum planner against the label-set checker on the same plan. */
module FlowEquivalence {
  import opened Entities
  import opened Gate
  import opened GateRefinement
  import E = Engine
  import P = Planner
  import I = Ifc

  function WireActions(actions: seq<Action>): (w: seq<E.ActionWire>)
    ensures |w| == |actions| && forall i :: 0 <= i < |w| ==> w[i] == WireAction(actions[i])
  {
    if actions == [] then [] else WireActions(actions[..|actions| - 1]) + [WireAction(actions[|actions| - 1])]
  }

  predicate Known(l: string) { l == "" || l == "PUBLIC" || l == "INTERNAL" || l == "SECRET" }

  /** The pairs that the planner lets pass and the default table does not: a write
      without a label, a write under an unknown label after an unclassified read,
      and a labelled write after a read under another, unknown label. */
  predicate Gap(source: string, sink: string) {
    source != sink
    && (sink == "" || (!Known(sink) && P.LabelRank(source) == 0) || (!Known(source) && sink != ""))
  }

  /** Exactly how the two rules compare on one pair of labels, for all labels. */
  lemma {:induction false} PairComparison(source: string, sink: string)
    ensures I.CanFlow(I.DEFAULT, source, sink) <==> P.PairAllowed(source, sink) && !Gap(source, sink)
  {
  }

  /** Some label read at or before step `j` meets a write there in a gap. */
  ghost predicate StepHasGap(actions: seq<Action>, j: nat)
    requires j < |actions|
  {
    exists i, r, w ::
      0 <= i <= j && r in actions[i].resourcesRead && w in actions[j].resourcesWrite && Gap(r.ifcLabel, w.ifcLabel)
  }

  ghost predicate PairsAllowed(a: Action, b: Action) {
    forall r, w :: r in a.resourcesRead && w in b.resourcesWrite ==> P.PairAllowed(r.ifcLabel, w.ifcLabel)
  }

  lemma {:induction false} WireKeepsLabels(a: Action, b: Action)
    ensures P.FlowAllowed(WireAction(a), WireAction(b)) <==> PairsAllowed(a, b)
  {
  }

  /** Step by step, for every plan and all labels: the checker finds a step secure
      exactly when the planner finds it clean and no pair falls in a gap. */
  lemma {:induction false} StepComparison(actions: seq<Action>, j: nat)
    requires j < |actions|
    ensures I.StepSecure(I.DEFAULT, actions, j) <==> P.StepClean(WireActions(actions), j) && !StepHasGap(actions, j)
  {
    var wires := WireActions(actions);
    forall i | 0 <= i <= j ensures P.FlowAllowed(wires[i], wires[j]) <==> PairsAllowed(actions[i], actions[j]) {
      WireKeepsLabels(actions[i], actions[j]);
    }
    forall source, sink
      ensures I.CanFlow(I.DEFAULT, source, sink) <==> P.PairAllowed(source, sink) && !Gap(source, sink)
    {
      PairComparison(source, sink);
    }
  }

  ghost predicate PlannerStopsAt(actions: seq<Action>, k: nat) {
    k < |actions| && !P.StepClean(WireActions(actions), k) && forall j :: 0 <= j < k ==> P.StepClean(WireActions(actions), j)
  }

  ghost predicate CheckerStopsAt(actions: seq<Action>, k: nat) {
    k < |actions| && !I.StepSecure(I.DEFAULT, actions, k) && forall j :: 0 <= j < k ==> I.StepSecure(I.DEFAULT, actions, j)
  }

  /** For every plan, the checker stops no later than the planner. */
  lemma {:induction false} CheckerStopsFirst(actions: seq<Action>, k: nat)
    requires PlannerStopsAt(actions, k)
    ensures exists j :: 0 <= j <= k && CheckerStopsAt(actions, j)
  {
    StepComparison(actions, k);
    var j := FirstInsecure(actions, k);
  }

  lemma {:induction false} FirstInsecure(actions: seq<Action>, k: nat) returns (j: nat)
    requires k < |actions| && !I.StepSecure(I.DEFAULT, actions, k)
    ensures j <= k && CheckerStopsAt(actions, j)
  {
    if i: nat :| i < k && !I.StepSecure(I.DEFAULT, actions, i) {
      j := FirstInsecure(actions, i);
    } else {
      j := k;
    }
  }

  /** Reads under the empty label or a level, writes under a level. */
  predicate UsesLevels(a: Action) {
    && (forall r :: r in a.resourcesRead ==> Known(r.ifcLabel))
    && (forall w :: w in a.resourcesWrite ==> Known(w.ifcLabel) && w.ifcLabel != "")
  }

  /** On plans over the three levels both stop at the same first step, or neither stops. */
  lemma {:induction false} SameStop(actions: seq<Action>, k: nat)
    requires forall a :: a in actions ==> UsesLevels(a)
    ensures PlannerStopsAt(actions, k) <==> CheckerStopsAt(actions, k)
  {
    forall j | 0 <= j < |actions|
      ensures I.StepSecure(I.DEFAULT, actions, j) <==> P.StepClean(WireActions(actions), j)
    {
      StepComparison(actions, j);
      forall i, r, w | 0 <= i <= j && r in actions[i].resourcesRead && w in actions[j].resourcesWrite
        ensures !Gap(r.ifcLabel, w.ifcLabel)
      {
        assert actions[i] in actions && actions[j] in actions;
      }
    }
  }

  /** The planner has stopped by step `j`. */
  ghost predicate StoppedBy(actions: seq<Action>, j: nat)
    requires j < |actions|
  {
    exists i :: 0 <= i <= j && !P.StepClean(WireActions(actions), i)
  }

  lemma {:induction false} GapMeetsStop(actions: seq<Action>, j: nat)
    requires forall k: nat :: CheckerStopsAt(actions, k) ==> PlannerStopsAt(actions, k)
    requires j < |actions| && StepHasGap(actions, j)
    ensures StoppedBy(actions, j)
  {
    StepComparison(actions, j);
    hide P.StepClean, I.StepSecure, StepHasGap;
    var m := FirstInsecure(actions, j);
    assert PlannerStopsAt(actions, m);
  }

  lemma {:induction false} StopsMeet(actions: seq<Action>, k: nat)
    requires forall j :: 0 <= j < |actions| && StepHasGap(actions, j) ==> StoppedBy(actions, j)
    ensures PlannerStopsAt(actions, k) <==> CheckerStopsAt(actions, k)
  {
    hide P.StepClean, I.StepSecure, StepHasGap;
    if k < |actions| {
      forall j | 0 <= j <= k
        ensures I.StepSecure(I.DEFAULT, actions, j) <==> P.StepClean(WireActions(actions), j) && !StepHasGap(actions, j)
      {
        StepComparison(actions, j);
      }
    }
  }

  /** For all plans and labels: they always stop at the same step, or neither stops,
      exactly when every step with a gap has an unclean step at or before it. */
  lemma {:induction false} SameStopIff(actions: seq<Action>)
    ensures (forall k: nat :: PlannerStopsAt(actions, k) <==> CheckerStopsAt(actions, k)) <==>
            forall j :: 0 <= j < |actions| && StepHasGap(actions, j) ==> StoppedBy(actions, j)
  {
    hide *;
    if forall k: nat :: PlannerStopsAt(actions, k) <==> CheckerStopsAt(actions, k) {
      forall j | 0 <= j < |actions| && StepHasGap(actions, j) ensures StoppedBy(actions, j) {
        GapMeetsStop(actions, j);
      }
    }
    if forall j :: 0 <= j < |actions| && StepHasGap(actions, j) ==> StoppedBy(actions, j) {
      forall k: nat ensures PlannerStopsAt(actions, k) <==> CheckerStopsAt(actions, k) {
        StopsMeet(actions, k);
      }
    }
  }

  /** A write without a label separates them: after a secret read, the checker
      refuses the unlabelled write that the planner does not look at. */
  lemma {:induction false} UnlabelledWriteSeparates(a: Action)
    requires exists r :: r in a.resourcesRead && r.ifcLabel == "SECRET"
    requires a.resourcesWrite != [] && forall w :: w in a.resourcesWrite ==> w.ifcLabel == ""
    ensures CheckerStopsAt([a], 0) && !PlannerStopsAt([a], 0)
  {
    var r :| r in a.resourcesRead && r.ifcLabel == "SECRET";
    var w := a.resourcesWrite[0];
    assert w in a.resourcesWrite && Gap(r.ifcLabel, w.ifcLabel);
    assert [a][0] == a;
    StepComparison([a], 0);
    WireKeepsLabels(a, a);
  }

  /** When the kernel permits every step, the planner's result is its flow verdict:
      it blocks exactly where the pairwise rule first fails. */
  lemma {:induction false} PlannerBlocksWhereItStops(registry: E.RegistryWire, actions: seq<Action>, clock: nat -> real, r: P.PlanResult, k: nat)
    requires P.PlanSpec(registry, WireActions(actions), clock, r)
    requires forall j :: 0 <= j < |actions| ==> E.Verify(registry, WireActions(actions)[j], clock(j)).permitted
    ensures r.blockedAt == Some(k) <==> PlannerStopsAt(actions, k)
  {
    hide E.Verify, P.StepClean, P.IsTaint, P.FirstLeak;
    var wires := WireActions(actions);
    forall j | 0 <= j < |actions| ensures P.StepOk(registry, wires, clock, j) <==> P.StepClean(wires, j) {
    }
  }
}
