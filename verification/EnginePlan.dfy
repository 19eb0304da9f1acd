/** The plan check over the wire engine, and its agreement with the typed one. */
module EnginePlan {
  import opened Entities
  import opened Sequences
  import opened Registry
  import opened Verdicts
  import opened Gate
  import opened GateRefinement
  import opened VerdictLaws
  import E = Engine

  /** The engine's verdict on each action taken alone, over one wire snapshot. */
  function WireVerdicts(w: E.RegistryWire, actions: seq<Action>, clock: nat -> real): (r: seq<VerificationResult>)
    ensures |r| == |actions|
  {
    if actions == [] then []
    else
      var n := |actions| - 1;
      WireVerdicts(w, actions[..n], clock) + [E.Verify(w, WireAction(actions[n]), clock(n))]
  }

  lemma {:induction false} WireVerdictAt(w: E.RegistryWire, actions: seq<Action>, clock: nat -> real, i: nat)
    requires i < |actions|
    ensures WireVerdicts(w, actions, clock)[i] == E.Verify(w, WireAction(actions[i]), clock(i))
    ensures WireVerdicts(w, actions, clock)[i].actionId == actions[i].actionId
  {
    assert E.Verify(w, WireAction(actions[i]), clock(i)).actionId == actions[i].actionId;
    hide E.Verify;
    if i < |actions| - 1 {
      WireVerdictAt(w, actions[..|actions| - 1], clock, i);
    }
  }

  /** The names that a blocked action quotes on the engine contain the word. */
  ghost predicate WireNameForbids(w: E.RegistryWire, a: E.ActionWire, now: real) {
    || PreliminaryQuotes(a.actor, E.HasOwner(w, a.actor.name), a.governsHumans)
    || exists q :: q in a.Requests() && !E.Held(w, a.actor.name, q, now) && (Mentions(q.resource.name) || Mentions(a.actor.name))
  }

  /** The engine's plan check stops on the same two grounds. */
  lemma {:induction false} WireSubvertsIff(w: E.RegistryWire, a: E.ActionWire, now: real)
    ensures Subverts(E.Verify(w, a, now)) <==> a.flags.Any() || WireNameForbids(w, a, now)
  {
    hide Verdicts.Fold, Subverts, Mentions, E.CanAct, Flags.Any;
    SubversionSources(a.actionId, a.flags, a.actor, E.HasOwner(w, a.actor.name), a.governsHumans, a.Requests(),
                      q => E.CheckOf(w, a.actor.name, q, now));
    forall q: E.WireRequest
      ensures E.CheckOf(w, a.actor.name, q, now).access.permitted <==> E.Held(w, a.actor.name, q, now)
    {
      E.PermittedIffHeld(w, a.actor.name, q, now);
    }
  }

  method VerifyPlan(w: E.RegistryWire, actions: seq<Action>, clock: nat -> real) returns (results: seq<VerificationResult>)
    ensures IsPlanOutcome(results, WireVerdicts(w, actions, clock))
  {
    hide WireVerdicts, E.Verify, IsPlanOutcome, Subverts;
    ghost var verdicts := WireVerdicts(w, actions, clock);
    results := [];
    for i := 0 to |actions|
      invariant results == verdicts[..i]
      invariant forall k :: 0 <= k < i ==> !Subverts(verdicts[k])
    {
      var r := E.RunVerify(w, WireAction(actions[i]), clock(i));
      WireVerdictAt(w, actions, clock, i);
      assert verdicts[..i + 1] == verdicts[..i] + [r];
      results := results + [r];
      if Subverts(r) {
        forall k | 0 <= k < |actions| ensures verdicts[k].actionId == actions[k].actionId {
          WireVerdictAt(w, actions, clock, k);
        }
        var cancelled := CancelRest(actions[i + 1..], actions[i].actionId);
        StoppedPlan(verdicts, i, cancelled);
        return results + cancelled;
      }
    }
    CompletedPlan(verdicts);
    assert verdicts[..|actions|] == verdicts;
  }

  /** The engine's plan result action by action, as `PlanResultAt` states the typed one. */
  lemma {:induction false} WirePlanResultAt(w: E.RegistryWire, actions: seq<Action>, clock: nat -> real, results: seq<VerificationResult>, k: nat)
    requires IsPlanOutcome(results, WireVerdicts(w, actions, clock)) && k < |actions|
    ensures |results| == |actions|
    ensures (forall j :: 0 <= j < k ==> !Subverts(E.Verify(w, WireAction(actions[j]), clock(j)))) ==>
              results[k] == E.Verify(w, WireAction(actions[k]), clock(k))
    ensures forall t :: 0 <= t < k && Subverts(E.Verify(w, WireAction(actions[t]), clock(t)))
                        && (forall j :: 0 <= j < t ==> !Subverts(E.Verify(w, WireAction(actions[j]), clock(j)))) ==>
              results[k] == VerificationResult(actions[k].actionId, false, [PlanAborted(actions[t].actionId)], [], 0.0, true)
  {
    var verdicts := WireVerdicts(w, actions, clock);
    hide E.Verify, WireVerdicts, Subverts;
    forall j | 0 <= j < |actions|
      ensures verdicts[j] == E.Verify(w, WireAction(actions[j]), clock(j)) && verdicts[j].actionId == actions[j].actionId
    {
      WireVerdictAt(w, actions, clock, j);
    }
    PlanOutcomeAt(results, verdicts, k);
  }

  /** Same action, same decision for the same reasons. */
  predicate SameVerdict(a: VerificationResult, b: VerificationResult) {
    a.actionId == b.actionId && a.permitted == b.permitted && a.violations == b.violations && a.confidence == b.confidence
  }

  /** Plan outcomes depend on the verdicts only through ids, decisions and reasons. */
  lemma {:induction false} OutcomesAgree(v: seq<VerificationResult>, u: seq<VerificationResult>, rs: seq<VerificationResult>, qs: seq<VerificationResult>)
    requires |v| == |u| && forall k :: 0 <= k < |v| ==> SameVerdict(v[k], u[k])
    requires IsPlanOutcome(rs, v) && IsPlanOutcome(qs, u)
    ensures |rs| == |qs| && forall k :: 0 <= k < |rs| ==> SameVerdict(rs[k], qs[k])
  {
    hide ReadsForbidden;
    forall k | 0 <= k < |v| ensures Subverts(v[k]) <==> Subverts(u[k]) {
      assert SameVerdict(v[k], u[k]);
    }
    var p := r => Subverts(r);
    if FirstIndex(v, p).Some? {
      FirstIndexUnique(u, p, FirstIndex(v, p).value);
    } else {
      forall k | 0 <= k < |u| ensures !p(u[k]) {
        assert v[k] in v;
      }
    }
  }

  /** When names determine what they name, both plan checks stop at the same action
      and give the same decision for the same reasons at every step. */
  lemma {:induction false} PlansAgree(s: State, w: E.RegistryWire, actions: seq<Action>, clock: nat -> real,
                   typed: seq<VerificationResult>, wire: seq<VerificationResult>)
    requires IsWireOf(w, s) && forall a :: a in actions ==> NamesDetermine(s, a)
    requires IsPlanOutcome(typed, VerdictsOf(s, actions, clock))
    requires IsPlanOutcome(wire, WireVerdicts(w, actions, clock))
    ensures |typed| == |wire| && forall k :: 0 <= k < |typed| ==> SameVerdict(typed[k], wire[k])
  {
    hide IsPlanOutcome, VerdictsOf, WireVerdicts;
    var v, u := VerdictsOf(s, actions, clock), WireVerdicts(w, actions, clock);
    forall k | 0 <= k < |v| ensures SameVerdict(v[k], u[k]) {
      VerdictAt(s, actions, clock, k);
      WireVerdictAt(w, actions, clock, k);
      assert actions[k] in actions;
      hide Gate.Verify, E.Verify;
      GatesAgree(s, w, actions[k], clock(k));
    }
    OutcomesAgree(v, u, typed, wire);
  }
}
