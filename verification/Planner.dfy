/** Plan verification with a running-maximum taint, against the pairwise rule that
    it is meant to enforce. */
module Planner {
  import opened Entities
  import opened Sequences
  import opened Verdicts
  import E = Engine

  // ----- Labels

  function LabelRank(l: string): nat {
    if l == "SECRET" then 2 else if l == "INTERNAL" then 1 else 0
  }

  predicate LabelDominates(taint: string, target: string) { LabelRank(taint) > LabelRank(target) }

  /** `best` is `current` unless some label ranks above it, and then the highest of those. */
  ghost predicate RaisedTo(best: string, current: string, labels: seq<string>) {
    && (best == current || (best in labels && LabelRank(current) < LabelRank(best)))
    && forall l :: l in labels ==> LabelRank(l) <= LabelRank(best)
  }

  method HighestLabel(current: string, labels: seq<string>) returns (best: string)
    ensures RaisedTo(best, current, labels)
  {
    best := current;
    for i := 0 to |labels|
      invariant best == current || (best in labels[..i] && LabelRank(current) < LabelRank(best))
      invariant forall k :: 0 <= k < i ==> LabelRank(labels[k]) <= LabelRank(best)
    {
      if LabelRank(labels[i]) > LabelRank(best) {
        best := labels[i];
      }
    }
  }

  // ----- The pairwise rule

  /** What was read under `source` may be written under `target`; writes without a
      label are not checked. */
  predicate PairAllowed(source: string, target: string) {
    target != "" ==> LabelRank(source) <= LabelRank(target)
  }

  /** Every label read in `a` may flow into every write of `b`. */
  ghost predicate FlowAllowed(a: E.ActionWire, b: E.ActionWire) {
    forall r, w :: r in a.resourcesRead && w in b.resourcesWrite ==> PairAllowed(r.ifcLabel, w.ifcLabel)
  }

  /** Step `j` writes nothing below what was read at or before it. */
  ghost predicate StepClean(actions: seq<E.ActionWire>, j: nat)
    requires j < |actions|
  {
    forall i :: 0 <= i <= j ==> FlowAllowed(actions[i], actions[j])
  }

  /** Step `j` passes the kernel gate and the flow rule. */
  ghost predicate StepOk(registry: E.RegistryWire, actions: seq<E.ActionWire>, clock: nat -> real, j: nat)
    requires j < |actions|
  {
    E.Verify(registry, actions[j], clock(j)).permitted && StepClean(actions, j)
  }

  // ----- The projection

  datatype StateProjection = StateProjection(ifcTaint: string, readLabels: seq<string>, depth: nat)

  datatype TemporalViolation = IFCDownwardFlow(taint: string, target: string, atDepth: nat)

  datatype Advanced = Next(state: StateProjection) | Violated(violation: TemporalViolation)

  const START: StateProjection := StateProjection("PUBLIC", [], 0)

  function Labels(resources: seq<E.ResourceWire>): seq<string> {
    if resources == [] then []
    else
      var init, l := Labels(resources[..|resources| - 1]), resources[|resources| - 1].ifcLabel;
      if l != "" then init + [l] else init
  }

  lemma {:induction false} LabelsMember(resources: seq<E.ResourceWire>)
    ensures forall l :: l in Labels(resources) <==> l != "" && exists r :: r in resources && r.ifcLabel == l
  {
    if resources != [] {
      var n := |resources| - 1;
      LabelsMember(resources[..n]);
      assert resources == resources[..n] + [resources[n]];
    }
  }

  function LabelsRead(actions: seq<E.ActionWire>): seq<string> {
    if actions == [] then []
    else LabelsRead(actions[..|actions| - 1]) + Labels(actions[|actions| - 1].resourcesRead)
  }

  /** `taint` is PUBLIC raised by all of `labels`. */
  ghost predicate IsTaint(taint: string, labels: seq<string>) { RaisedTo(taint, "PUBLIC", labels) }

  /** Raising step by step is raising at once. */
  lemma {:induction false} RaiseFurther(taint: string, labels: seq<string>, higher: string, more: seq<string>)
    requires IsTaint(taint, labels) && RaisedTo(higher, taint, more)
    ensures IsTaint(higher, labels + more)
  {
  }

  /** There is one taint: above PUBLIC, a rank belongs to one label. */
  lemma {:induction false} TaintUnique(t: string, u: string, labels: seq<string>)
    requires IsTaint(t, labels) && IsTaint(u, labels)
    ensures t == u
  {
  }

  /** The projection after the steps `actions`. */
  ghost predicate Projects(p: StateProjection, actions: seq<E.ActionWire>) {
    p.depth == |actions| && p.readLabels == LabelsRead(actions) && IsTaint(p.ifcTaint, p.readLabels)
  }

  /** `w` is the first labelled write that the taint dominates. */
  ghost predicate FirstLeak(resources: seq<E.ResourceWire>, taint: string, target: string) {
    exists k :: 0 <= k < |resources| && resources[k].ifcLabel == target && target != "" && LabelDominates(taint, target)
      && forall m :: 0 <= m < k ==> !(resources[m].ifcLabel != "" && LabelDominates(taint, resources[m].ifcLabel))
  }

  method Advance(p: StateProjection, action: E.ActionWire) returns (r: Advanced)
    ensures var labels := Labels(action.resourcesRead);
      match r
      case Next(q) =>
        && q.depth == p.depth + 1 && q.readLabels == p.readLabels + labels && RaisedTo(q.ifcTaint, p.ifcTaint, labels)
        && forall w :: w in action.resourcesWrite ==> PairAllowed(q.ifcTaint, w.ifcLabel)
      case Violated(v) =>
        v.atDepth == p.depth && RaisedTo(v.taint, p.ifcTaint, labels) && FirstLeak(action.resourcesWrite, v.taint, v.target)
  {
    var newLabels := NonEmptyLabels(action.resourcesRead);
    var newTaint := HighestLabel(p.ifcTaint, newLabels);
    for i := 0 to |action.resourcesWrite|
      invariant forall m :: 0 <= m < i ==>
        !(action.resourcesWrite[m].ifcLabel != "" && LabelDominates(newTaint, action.resourcesWrite[m].ifcLabel))
    {
      var target := action.resourcesWrite[i].ifcLabel;
      if target != "" && LabelDominates(newTaint, target) {
        return Violated(IFCDownwardFlow(newTaint, target, p.depth));
      }
    }
    return Next(StateProjection(newTaint, p.readLabels + newLabels, p.depth + 1));
  }

  method NonEmptyLabels(resources: seq<E.ResourceWire>) returns (labels: seq<string>)
    ensures labels == Labels(resources)
  {
    labels := [];
    for i := 0 to |resources|
      invariant labels == Labels(resources[..i])
    {
      assert resources[..i + 1][..i] == resources[..i];
      if resources[i].ifcLabel != "" {
        labels := labels + [resources[i].ifcLabel];
      }
    }
    assert resources[..|resources|] == resources;
  }

  // ----- The running maximum decides the pairwise rule

  lemma {:induction false} LabelsReadMember(actions: seq<E.ActionWire>)
    ensures forall l :: l in LabelsRead(actions) <==>
              l != "" && exists i, r :: 0 <= i < |actions| && r in actions[i].resourcesRead && r.ifcLabel == l
  {
    if actions != [] {
      var n := |actions| - 1;
      LabelsReadMember(actions[..n]);
      LabelsMember(actions[n].resourcesRead);
      forall l, i, r | 0 <= i < |actions| && r in actions[i].resourcesRead && r.ifcLabel == l && l != ""
        ensures l in LabelsRead(actions)
      {
        if i < n {
          assert r in actions[..n][i].resourcesRead;
        }
      }
      forall l | l in LabelsRead(actions)
        ensures l != "" && exists i, r :: 0 <= i < |actions| && r in actions[i].resourcesRead && r.ifcLabel == l
      {
        if l in LabelsRead(actions[..n]) {
          var i, r :| 0 <= i < n && r in actions[..n][i].resourcesRead && r.ifcLabel == l;
          assert r in actions[i].resourcesRead;
        }
      }
    }
  }

  /** One comparison with the taint stands for all comparisons with what was read. */
  lemma {:induction false} TaintDecides(actions: seq<E.ActionWire>, j: nat, taint: string)
    requires j < |actions| && IsTaint(taint, LabelsRead(actions[..j + 1]))
    ensures StepClean(actions, j) <==> forall w :: w in actions[j].resourcesWrite ==> PairAllowed(taint, w.ifcLabel)
  {
    var prefix := actions[..j + 1];
    LabelsReadMember(prefix);
    if StepClean(actions, j) {
      forall w | w in actions[j].resourcesWrite ensures PairAllowed(taint, w.ifcLabel) {
        if taint in LabelsRead(prefix) {
          var i, r :| 0 <= i < |prefix| && r in prefix[i].resourcesRead && r.ifcLabel == taint;
          assert FlowAllowed(actions[i], actions[j]);
        }
      }
    }
    if forall w :: w in actions[j].resourcesWrite ==> PairAllowed(taint, w.ifcLabel) {
      forall i | 0 <= i <= j ensures FlowAllowed(actions[i], actions[j]) {
        forall r, w | r in actions[i].resourcesRead && w in actions[j].resourcesWrite
          ensures PairAllowed(r.ifcLabel, w.ifcLabel)
        {
          assert PairAllowed(taint, w.ifcLabel);
          assert prefix[i] == actions[i];
          assert r.ifcLabel != "" ==> r.ifcLabel in LabelsRead(prefix);
        }
      }
    }
  }

  // ----- Plans

  datatype PlanResult = PlanResult(
    allPermitted: bool,
    results: seq<VerificationResult>,
    temporalViolation: Option<TemporalViolation>,
    blockedAt: Option<nat>)

  /** The plan is accepted exactly when every step is in order.  Otherwise it is
      blocked at the first step that is not, the results are the verdicts up to and
      including that step, and a temporal violation is reported exactly when the
      kernel had permitted the step: it names the highest label read so far and the
      first write below it. */
  ghost predicate PlanSpec(registry: E.RegistryWire, actions: seq<E.ActionWire>, clock: nat -> real, r: PlanResult) {
    && |r.results| <= |actions|
    && (forall k :: 0 <= k < |r.results| ==> r.results[k] == E.Verify(registry, actions[k], clock(k)))
    && (r.allPermitted <==> forall j :: 0 <= j < |actions| ==> StepOk(registry, actions, clock, j))
    && match r.blockedAt
       case None => r.allPermitted && |r.results| == |actions| && r.temporalViolation.None?
       case Some(b) =>
         && !r.allPermitted && |r.results| == b + 1
         && !StepOk(registry, actions, clock, b)
         && (forall j :: 0 <= j < b ==> StepOk(registry, actions, clock, j))
         && (r.temporalViolation.Some? <==> r.results[b].permitted)
         && (r.temporalViolation.Some? ==>
               var v := r.temporalViolation.value;
               && v.atDepth == b
               && IsTaint(v.taint, LabelsRead(actions[..b + 1]))
               && FirstLeak(actions[b].resourcesWrite, v.taint, v.target))
  }

  /** `results` are the verdicts on the first steps. */
  ghost predicate Ran(registry: E.RegistryWire, actions: seq<E.ActionWire>, clock: nat -> real, results: seq<VerificationResult>) {
    && |results| <= |actions|
    && forall k :: 0 <= k < |results| ==> results[k] == E.Verify(registry, actions[k], clock(k))
  }

  /** The first `n` steps are in order. */
  ghost predicate OkBefore(registry: E.RegistryWire, actions: seq<E.ActionWire>, clock: nat -> real, n: nat) {
    n <= |actions| && forall j :: 0 <= j < n ==> StepOk(registry, actions, clock, j)
  }

  lemma {:induction false} RanOne(registry: E.RegistryWire, actions: seq<E.ActionWire>, clock: nat -> real,
                                  results: seq<VerificationResult>, result: VerificationResult)
    requires Ran(registry, actions, clock, results) && |results| < |actions|
    requires result == E.Verify(registry, actions[|results|], clock(|results|))
    ensures Ran(registry, actions, clock, results + [result])
  {
    hide E.Verify;
  }

  lemma {:induction false} StepPassed(registry: E.RegistryWire, actions: seq<E.ActionWire>, clock: nat -> real,
                                      results: seq<VerificationResult>, j: nat)
    requires OkBefore(registry, actions, clock, j) && j < |actions| && StepClean(actions, j)
    requires Ran(registry, actions, clock, results) && |results| == j + 1 && results[j].permitted
    ensures OkBefore(registry, actions, clock, j + 1)
  {
    hide E.Verify, StepClean;
  }

  /** A violation that blocks step `b`. */
  ghost predicate BlockedBy(actions: seq<E.ActionWire>, b: nat, v: TemporalViolation)
    requires b < |actions|
  {
    && v.atDepth == b && !StepClean(actions, b)
    && IsTaint(v.taint, LabelsRead(actions[..b + 1]))
    && FirstLeak(actions[b].resourcesWrite, v.taint, v.target)
  }

  lemma {:induction false} BlockedPlan(registry: E.RegistryWire, actions: seq<E.ActionWire>, clock: nat -> real, b: nat,
                    results: seq<VerificationResult>, violation: Option<TemporalViolation>)
    requires |results| == b + 1 && Ran(registry, actions, clock, results) && OkBefore(registry, actions, clock, b)
    requires violation.Some? <==> results[b].permitted
    requires violation.Some? ==> BlockedBy(actions, b, violation.value)
    ensures PlanSpec(registry, actions, clock, PlanResult(false, results, violation, Some(b)))
  {
    hide E.Verify, IsTaint, FirstLeak, StepClean;
    assert !StepOk(registry, actions, clock, b);
  }

  lemma {:induction false} AcceptedPlan(registry: E.RegistryWire, actions: seq<E.ActionWire>, clock: nat -> real, results: seq<VerificationResult>)
    requires |results| == |actions| && Ran(registry, actions, clock, results) && OkBefore(registry, actions, clock, |actions|)
    ensures PlanSpec(registry, actions, clock, PlanResult(true, results, None, None))
  {
    hide E.Verify, StepOk;
  }

  method VerifyPlan(registry: E.RegistryWire, actions: seq<E.ActionWire>, clock: nat -> real) returns (r: PlanResult)
    ensures PlanSpec(registry, actions, clock, r)
  {
    var state := START;
    var results: seq<VerificationResult> := [];
    assert Projects(state, actions[..0]);
    hide E.Verify, PlanSpec, Projects, BlockedBy, StepClean;
    for i := 0 to |actions|
      invariant |results| == i && Projects(state, actions[..i])
      invariant Ran(registry, actions, clock, results) && OkBefore(registry, actions, clock, i)
    {
      hide Ran, OkBefore;
      var result := E.RunVerify(registry, actions[i], clock(i));
      RanOne(registry, actions, clock, results, result);
      results := results + [result];
      if !result.permitted {
        BlockedPlan(registry, actions, clock, i, results, None);
        return PlanResult(false, results, None, Some(i));
      }
      var violation;
      state, violation := TakeStep(actions, i, state);
      if violation.Some? {
        BlockedPlan(registry, actions, clock, i, results, violation);
        return PlanResult(false, results, violation, Some(i));
      }
      StepPassed(registry, actions, clock, results, i);
    }
    AcceptedPlan(registry, actions, clock, results);
    return PlanResult(true, results, None, None);
  }

  /** Advances the projection over step `i`; a violation means that the step is not clean. */
  method TakeStep(actions: seq<E.ActionWire>, i: nat, state: StateProjection)
    returns (state': StateProjection, violation: Option<TemporalViolation>)
    requires i < |actions| && Projects(state, actions[..i])
    ensures violation.None? ==> Projects(state', actions[..i + 1]) && StepClean(actions, i)
    ensures violation.Some? ==> BlockedBy(actions, i, violation.value)
  {
    hide StepClean;
    assert actions[..i + 1][..i] == actions[..i];
    var advanced := Advance(state, actions[i]);
    match advanced {
      case Next(next) =>
        RaiseFurther(state.ifcTaint, state.readLabels, next.ifcTaint, Labels(actions[i].resourcesRead));
        TaintDecides(actions, i, next.ifcTaint);
        return next, None;
      case Violated(v) =>
        RaiseFurther(state.ifcTaint, state.readLabels, v.taint, Labels(actions[i].resourcesRead));
        TaintDecides(actions, i, v.taint);
        return state, Some(v);
    }
  }

  /** The specification leaves no freedom: it has one result, violation included. */
  lemma {:induction false} PlanSpecDetermines(registry: E.RegistryWire, actions: seq<E.ActionWire>, clock: nat -> real, r: PlanResult, q: PlanResult)
    requires PlanSpec(registry, actions, clock, r) && PlanSpec(registry, actions, clock, q)
    ensures r == q
  {
    hide E.Verify, IsTaint, FirstLeak;
    if r.blockedAt.Some? && q.blockedAt.Some? {
      assert r.blockedAt.value == q.blockedAt.value;
      if r.temporalViolation.Some? {
        var b, v, u := r.blockedAt.value, r.temporalViolation.value, q.temporalViolation.value;
        TaintUnique(v.taint, u.taint, LabelsRead(actions[..b + 1]));
        FirstLeakUnique(actions[b].resourcesWrite, v.taint, v.target, u.target);
      }
    }
  }

  lemma {:induction false} FirstLeakUnique(resources: seq<E.ResourceWire>, taint: string, target: string, other: string)
    requires FirstLeak(resources, taint, target) && FirstLeak(resources, taint, other)
    ensures target == other
  {
  }

  /** The taint never falls as a plan goes on. */
  lemma {:induction false} TaintNeverFalls(actions: seq<E.ActionWire>, i: nat, j: nat, earlier: string, later: string)
    requires i <= j <= |actions|
    requires IsTaint(earlier, LabelsRead(actions[..i])) && IsTaint(later, LabelsRead(actions[..j]))
    ensures LabelRank(earlier) <= LabelRank(later)
  {
    LabelsReadMember(actions[..i]);
    LabelsReadMember(actions[..j]);
    if earlier in LabelsRead(actions[..i]) {
      var k, r :| 0 <= k < i && r in actions[..i][k].resourcesRead && r.ifcLabel == earlier;
      assert r in actions[..j][k].resourcesRead;
    }
  }

  lemma {:induction false} CleanInPrefix(actions: seq<E.ActionWire>, n: nat, j: nat)
    requires j < n <= |actions|
    ensures StepClean(actions[..n], j) <==> StepClean(actions, j)
  {
    var prefix := actions[..n];
    assert forall i :: 0 <= i <= j ==> prefix[i] == actions[i];
    if StepClean(prefix, j) {
      forall i | 0 <= i <= j ensures FlowAllowed(actions[i], actions[j]) {
        assert FlowAllowed(prefix[i], prefix[j]);
      }
    }
    if StepClean(actions, j) {
      forall i | 0 <= i <= j ensures FlowAllowed(prefix[i], prefix[j]) {
        assert FlowAllowed(actions[i], actions[j]);
      }
    }
  }

  /** Every prefix of an accepted plan is accepted, and an accepted plan raises no
      flag at any step. */
  lemma {:induction false} AcceptedPlansAreSafe(registry: E.RegistryWire, actions: seq<E.ActionWire>, clock: nat -> real, r: PlanResult, n: nat)
    requires PlanSpec(registry, actions, clock, r) && r.allPermitted && n <= |actions|
    ensures PlanSpec(registry, actions[..n], clock, PlanResult(true, r.results[..n], None, None))
    ensures forall j :: 0 <= j < |actions| ==> !actions[j].flags.Any()
  {
    hide E.Verify, StepClean;
    forall j | 0 <= j < |actions| ensures !actions[j].flags.Any() {
      assert StepOk(registry, actions, clock, j);
      E.PermittedIff(registry, actions[j], clock(j));
    }
    var prefix := actions[..n];
    forall j | 0 <= j < n ensures StepOk(registry, prefix, clock, j) {
      assert StepOk(registry, actions, clock, j);
      CleanInPrefix(actions, n, j);
    }
    assert Ran(registry, prefix, clock, r.results[..n]);
    AcceptedPlan(registry, prefix, clock, r.results[..n]);
  }
}
