/** From verdicts back to assertions: what a permitted action rests on. */
module Grounding {
  import opened Entities
  import opened Sequences
  import opened Registry
  import opened Provenance
  import opened Gate
  import opened GateRefinement
  import E = Engine
  import S = SharedRegistry

  /** In any run, if the typed gate permits an action, then for every access it asks
      for, other than a public read, someone asserted that operation on that very
      resource with at least the confidence of the verdict. */
  lemma {:induction false} PermittedActionIsGrounded(events: seq<Event>, a: Action, q: AccessRequest, now: real)
    requires Gate.Verify(Run(EMPTY, events), a, now).permitted
    requires q in a.Requests() && !(q.resource.isPublic && q.op == Read)
    ensures exists root ::
              && AssertedIn(events, root)
              && root.resource.Key() == q.resource.Key() && root.Grants(q.op)
              && root.confidence >= Gate.Verify(Run(EMPTY, events), a, now).confidence
  {
    var s := Run(EMPTY, events);
    PermittedIff(s, a, now);
    CanActMeaning(s, a.actor, q.resource.Key(), q.op, now);
    AccessRestsOnAssertion(events, a.actor, q.resource.Key(), q.op, now);
    VerdictBelowAccess(s, a, q, now);
  }

  lemma {:induction false} VerdictBelowAccess(s: State, a: Action, q: AccessRequest, now: real)
    requires q in a.Requests()
    ensures Gate.Verify(s, a, now).confidence <= CanAct(s, a.actor, q.resource.Key(), q.op, now).confidence
  {
    var check := p => Gate.CheckOf(s, a.actor, p, now);
    Verdicts.FoldConfidence(a.actor.name, Gate.Opening(s, a), a.Requests(), check);
    var i :| 0 <= i < |a.Requests()| && a.Requests()[i] == q;
    assert Gate.Verify(s, a, now).confidence <= check(a.Requests()[i]).access.confidence;
  }

  // ----- The engine, over the shared registry that feeds it

  /** Claim `k` ends a chain of hops from an asserted claim on a resource of the same
      name and type, which grants the operation with at least the confidence `conf`
      up to the slack of the hops. */
  ghost predicate RestsOn(steps: seq<S.Step>, s: S.Shared, k: nat, q: AccessRequest, conf: real)
    requires |s.origins| == |s.inner.claims| && WellFounded(s.origins)
  {
    && k < |s.inner.claims|
    && var path := Chain(s.origins, k);
       var root := s.inner.claims[path[0]];
       && S.AssertCalled(steps, root)
       && root.resource.name == q.resource.name && root.resource.rtype == q.resource.rtype
       && root.Grants(q.op)
       && conf <= root.confidence + (|path| - 1) as real * 0.000000001
  }

  lemma {:induction false} ClaimRests(steps: seq<S.Step>, k: nat, actor: Entity, q: AccessRequest, conf: real, now: real)
    requires k < |S.Play(S.START, steps).inner.claims|
    requires var c := S.Play(S.START, steps).inner.claims[k];
      conf <= c.confidence && E.Matches(WireClaim(c), actor.name, WireResource(q.resource), q.op, now)
    ensures var s := S.Play(S.START, steps);
      |s.origins| == |s.inner.claims| && WellFounded(s.origins) && RestsOn(steps, s, k, q, conf)
  {
    hide S.Play, TypeName;
    S.ConfidenceDriftBounded(steps, k);
    MatchesAuthorizes(S.Play(S.START, steps).inner.claims[k], actor, q, now);
  }

  lemma {:induction false} WireVerdictBelowAccess(w: E.RegistryWire, a: E.ActionWire, q: E.WireRequest, now: real)
    requires E.Verify(w, a, now).permitted && q in a.Requests() && !(q.resource.isPublic && q.op == Read)
    ensures exists k :: 0 <= k < |w.claims| && E.Matches(w.claims[k], a.actor.name, q.resource, q.op, now)
                        && E.Verify(w, a, now).confidence <= w.claims[k].confidence
  {
    hide E.Verify, E.CanAct;
    E.PermittedIff(w, a, now);
    E.ConfidenceIsMinimum(w, a, now);
    E.CanActMeaning(w, a.actor.name, q.resource, q.op, now);
    var c :| c in w.claims && E.Matches(c, a.actor.name, q.resource, q.op, now)
      && c.confidence == E.CanAct(w, a.actor.name, q.resource, q.op, now).confidence;
    var k :| 0 <= k < |w.claims| && w.claims[k] == c;
  }

  /** Under every interleaving of calls on the shared registry, if the engine permits
      an action on its wire form, then each access other than a public read rests on
      an asserted claim: same resource name and type, the operation granted, and the
      confidence of the verdict exceeding the asserted one by at most 1e-9 for each
      delegation hop in between. */
  lemma {:induction false} EnginePermitIsGrounded(steps: seq<S.Step>, w: E.RegistryWire, a: Action, i: nat, now: real)
    requires IsWireOf(w, S.Play(S.START, steps).inner) && E.Verify(w, WireAction(a), now).permitted
    requires i < |a.Requests()| && !(a.Requests()[i].resource.isPublic && a.Requests()[i].op == Read)
    ensures var s := S.Play(S.START, steps);
      && |s.origins| == |s.inner.claims| && WellFounded(s.origins)
      && exists k: nat :: RestsOn(steps, s, k, a.Requests()[i], E.Verify(w, WireAction(a), now).confidence)
  {
    hide E.Verify, S.Play, RestsOn, E.Matches;
    var q := a.Requests()[i];
    RequestsAligned(a);
    var wq := WireAction(a).Requests()[i];
    assert wq in WireAction(a).Requests();
    WireVerdictBelowAccess(w, WireAction(a), wq, now);
    var k: nat :| k < |w.claims| && E.Matches(w.claims[k], a.actor.name, wq.resource, wq.op, now)
      && E.Verify(w, WireAction(a), now).confidence <= w.claims[k].confidence;
    ClaimRests(steps, k, a.actor, q, E.Verify(w, WireAction(a), now).confidence, now);
  }
}
