/** Where authority comes from, over every run of the registry. */
module Provenance {
  import opened Entities
  import opened Registry

  /** How a claim entered the list: asserted outright, or delegated from the
      earlier claim at index `parent`. */
  datatype Origin = Asserted | DelegatedFrom(parent: nat)

  /** The origin of every claim of `Run(EMPTY, events)`, in the order of the list. */
  function Trace(events: seq<Event>): seq<Origin> {
    if events == [] then []
    else
      var init, e := events[..|events| - 1], events[|events| - 1];
      var claims := Run(EMPTY, init).claims;
      match e.request
      case AddClaim(_) => Trace(init) + [Asserted]
      case RegisterMachine(_, _) => Trace(init)
      case DelegateClaim(claim, grantor) =>
        if DelegateOutcome(claims, claim, grantor, e.now).Done?
        then Trace(init) + [DelegatedFrom(Delegator(claims, grantor, claim.resource.Key(), e.now).value)]
        else Trace(init)
  }

  function ClaimsAfter(events: seq<Event>): seq<RightsClaim> { Run(EMPTY, events).claims }

  ghost predicate AssertedIn(events: seq<Event>, c: RightsClaim) {
    exists e :: e in events && e.request == AddClaim(c)
  }

  /** `child` was delegated by the holder of `parent`, at a moment when `parent`
      was valid and delegatable, and is attenuated with respect to it. */
  ghost predicate DelegatedIn(events: seq<Event>, child: RightsClaim, parent: RightsClaim) {
    && child.resource.Key() == parent.resource.Key()
    && parent.canDelegate
    && Attenuates(child, parent)
    && exists e :: e in events && e.request == DelegateClaim(child, parent.holder) && parent.IsValid(e.now)
  }

  /** What one origin says about the claim at index `i`. */
  ghost predicate Explains(events: seq<Event>, claims: seq<RightsClaim>, i: nat, o: Origin)
    requires i < |claims|
  {
    match o
    case Asserted => AssertedIn(events, claims[i])
    case DelegatedFrom(p) => p < i && DelegatedIn(events, claims[i], claims[p])
  }

  ghost predicate Explained(events: seq<Event>, claims: seq<RightsClaim>, origins: seq<Origin>) {
    && |origins| == |claims|
    && forall i :: 0 <= i < |claims| ==> Explains(events, claims, i, origins[i])
  }

  lemma {:induction false} ExplainsStable(events: seq<Event>, e: Event, claims: seq<RightsClaim>, more: seq<RightsClaim>, i: nat, o: Origin)
    requires i < |claims| && Explains(events, claims, i, o)
    ensures Explains(events + [e], claims + more, i, o)
  {
  }

  lemma {:induction false} TraceExplains(events: seq<Event>)
    ensures Explained(events, ClaimsAfter(events), Trace(events))
  {
    if events != [] {
      var init, e := events[..|events| - 1], events[|events| - 1];
      TraceExplains(init);
      RunOnlyAppends(EMPTY, init);
      var before, after := ClaimsAfter(init), ClaimsAfter(events);
      var more := after[|before|..];
      assert after == before + more && events == init + [e];
      assert e in events;
      forall i | 0 <= i < |before|
        ensures Explains(events, after, i, Trace(events)[i])
      {
        ExplainsStable(init, e, before, more, i, Trace(init)[i]);
      }
    }
  }

  // ----- When the claims arrived

  /** For every claim of the run, the index of the event that it arrived with. */
  function Arrivals(events: seq<Event>): seq<nat> {
    if events == [] then []
    else
      var n := |events| - 1;
      if |Run(EMPTY, events).claims| > |Run(EMPTY, events[..n]).claims| then Arrivals(events[..n]) + [n] else Arrivals(events[..n])
  }

  /** Claim `i` arrived with event `n`, when the list held exactly the claims before
      it: as an assertion, or as a delegation that was accepted at that moment, the
      grantor's selected claim being the one at index `parent`. */
  ghost predicate ArrivedWith(events: seq<Event>, claims: seq<RightsClaim>, i: nat, n: nat, o: Origin)
    requires i < |claims|
  {
    && n < |events| && Run(EMPTY, events[..n]).claims == claims[..i]
    && match o
       case Asserted => events[n].request == AddClaim(claims[i])
       case DelegatedFrom(p) =>
         && p < i && events[n].request == DelegateClaim(claims[i], claims[p].holder)
         && DelegateOutcome(claims[..i], claims[i], claims[p].holder, events[n].now).Done?
         && Delegator(claims[..i], claims[p].holder, claims[i].resource.Key(), events[n].now) == Some(p)
  }

  lemma {:induction false} ArrivedStable(events: seq<Event>, e: Event, claims: seq<RightsClaim>, more: seq<RightsClaim>, i: nat, n: nat, o: Origin)
    requires i < |claims| && ArrivedWith(events, claims, i, n, o)
    ensures ArrivedWith(events + [e], claims + more, i, n, o)
  {
    assert (events + [e])[..n] == events[..n] && (claims + more)[..i] == claims[..i];
    hide Run, DelegateOutcome, Delegator;
  }

  /** An event adds at most one claim, and an origin with it. */
  lemma {:induction false} LastGrows(events: seq<Event>, e: Event)
    ensures ClaimsAfter(events) <= ClaimsAfter(events + [e])
    ensures Trace(events) <= Trace(events + [e])
    ensures |Trace(events + [e])| - |Trace(events)| == |ClaimsAfter(events + [e])| - |ClaimsAfter(events)| <= 1
  {
    assert (events + [e])[..|events|] == events;
    RunOnlyAppends(EMPTY, events);
    hide DetectConflict;
  }

  /** The claim that the last event adds, if any, arrived with it. */
  lemma {:induction false} LastArrival(events: seq<Event>, e: Event)
    requires |Trace(events)| == |ClaimsAfter(events)| < |ClaimsAfter(events + [e])|
    ensures |Trace(events + [e])| > |ClaimsAfter(events)|
    ensures var k := |ClaimsAfter(events)|;
      ArrivedWith(events + [e], ClaimsAfter(events + [e]), k, |events|, Trace(events + [e])[k])
  {
    LastGrows(events, e);
    assert (events + [e])[..|events|] == events;
    RunOnlyAppends(EMPTY, events);
    hide DetectConflict;
    var before, after := ClaimsAfter(events), ClaimsAfter(events + [e]);
    assert after[..|before|] == before;
  }

  lemma {:induction false} ArrivalsSnoc(events: seq<Event>, e: Event)
    ensures Arrivals(events + [e]) ==
            if |ClaimsAfter(events + [e])| > |ClaimsAfter(events)| then Arrivals(events) + [|events|] else Arrivals(events)
  {
    assert (events + [e])[..|events|] == events;
    hide Run;
  }

  /** The arrivals of a run are in order and as many as its claims. */
  ghost predicate InOrder(arrivals: seq<nat>, n: nat) {
    && (forall i, j :: 0 <= i < j < |arrivals| ==> arrivals[i] < arrivals[j])
    && forall i :: 0 <= i < |arrivals| ==> arrivals[i] < n
  }

  lemma {:induction false} InOrderSnoc(arrivals: seq<nat>, n: nat)
    requires InOrder(arrivals, n)
    ensures InOrder(arrivals, n + 1) && InOrder(arrivals + [n], n + 1)
  {
  }

  lemma {:induction false} ArrivalsInOrder(events: seq<Event>)
    ensures |Arrivals(events)| == |Trace(events)| == |ClaimsAfter(events)|
    ensures InOrder(Arrivals(events), |events|)
  {
    if events != [] {
      var init, e := events[..|events| - 1], events[|events| - 1];
      assert events == init + [e];
      hide *;
      ArrivalsInOrder(init);
      LastGrows(init, e);
      ArrivalsSnoc(init, e);
      InOrderSnoc(Arrivals(init), |init|);
    }
  }

  ghost predicate AllArrived(events: seq<Event>, claims: seq<RightsClaim>, arrivals: seq<nat>, origins: seq<Origin>) {
    && |arrivals| == |origins| == |claims|
    && forall i :: 0 <= i < |claims| ==> ArrivedWith(events, claims, i, arrivals[i], origins[i])
  }

  lemma {:induction false} AllArrivedStable(events: seq<Event>, e: Event, claims: seq<RightsClaim>, more: seq<RightsClaim>,
                                            arrivals: seq<nat>, origins: seq<Origin>, i: nat)
    requires AllArrived(events, claims, arrivals, origins) && i < |claims|
    ensures ArrivedWith(events + [e], claims + more, i, arrivals[i], origins[i])
  {
    hide ArrivedWith;
    assert ArrivedWith(events, claims, i, arrivals[i], origins[i]);
    ArrivedStable(events, e, claims, more, i, arrivals[i], origins[i]);
  }

  /** Every place of the longer run is one of the shorter or the one just added. */
  lemma {:induction false} ArrivedNext(events: seq<Event>, e: Event, i: nat)
    requires AllArrived(events, ClaimsAfter(events), Arrivals(events), Trace(events)) && i < |ClaimsAfter(events + [e])|
    ensures i < |Arrivals(events + [e])| && i < |Trace(events + [e])|
    ensures ArrivedWith(events + [e], ClaimsAfter(events + [e]), i, Arrivals(events + [e])[i], Trace(events + [e])[i])
  {
    hide Run, Trace, Arrivals, ArrivedWith, ClaimsAfter;
    var before, after := ClaimsAfter(events), ClaimsAfter(events + [e]);
    LastGrows(events, e);
    ArrivalsSnoc(events, e);
    if i < |before| {
      AllArrivedStable(events, e, before, after[|before|..], Arrivals(events), Trace(events), i);
      assert after == before + after[|before|..];
    } else {
      LastArrival(events, e);
    }
  }

  /** Main theorem on arrival: over every run, the claims arrived one by one with
      later and later events, each one asserted or accepted as `Trace` says. */
  lemma {:induction false} ArrivalsAccepted(events: seq<Event>)
    ensures InOrder(Arrivals(events), |events|)
    ensures AllArrived(events, ClaimsAfter(events), Arrivals(events), Trace(events))
  {
    ArrivalsInOrder(events);
    if events != [] {
      var init, e := events[..|events| - 1], events[|events| - 1];
      assert events == init + [e];
      hide Run, Trace, Arrivals, ArrivedWith, ClaimsAfter, InOrder;
      ArrivalsAccepted(init);
      forall i | 0 <= i < |ClaimsAfter(events)|
        ensures ArrivedWith(events, ClaimsAfter(events), i, Arrivals(events)[i], Trace(events)[i])
      {
        ArrivedNext(init, e, i);
      }
    }
  }

  // ----- Chains

  /** Every parent lies strictly earlier in the list. */
  predicate WellFounded(origins: seq<Origin>) {
    forall i :: 0 <= i < |origins| && origins[i].DelegatedFrom? ==> origins[i].parent < i
  }

  /** The delegation chain that ends at index `i`, from its root. */
  function Chain(origins: seq<Origin>, i: nat): (path: seq<nat>)
    requires WellFounded(origins) && i < |origins|
    ensures path != [] && path[|path| - 1] == i
    ensures forall k :: 0 <= k < |path| ==> path[k] <= i
    decreases i
  {
    match origins[i]
    case Asserted => [i]
    case DelegatedFrom(p) => Chain(origins, p) + [i]
  }

  /** A chain of strictly earlier claims, each delegated from the one before it,
      that starts at an asserted claim. */
  ghost predicate Grounded(events: seq<Event>, claims: seq<RightsClaim>, path: seq<nat>) {
    && path != []
    && (forall k :: 0 <= k < |path| ==> path[k] < |claims|)
    && AssertedIn(events, claims[path[0]])
    && forall k :: 0 <= k < |path| - 1 ==>
         path[k] < path[k + 1] && DelegatedIn(events, claims[path[k + 1]], claims[path[k]])
  }

  lemma {:induction false} ChainGrounded(events: seq<Event>, claims: seq<RightsClaim>, origins: seq<Origin>, i: nat)
    requires Explained(events, claims, origins) && i < |origins|
    ensures WellFounded(origins)
    ensures Grounded(events, claims, Chain(origins, i))
    ensures var root := claims[Chain(origins, i)[0]];
      Attenuates(claims[i], root) && root.resource.Key() == claims[i].resource.Key()
    decreases i
  {
    assert Explains(events, claims, i, origins[i]);
    forall k | 0 <= k < |origins| && origins[k].DelegatedFrom?
      ensures origins[k].parent < k
    {
      assert Explains(events, claims, k, origins[k]);
    }
    if origins[i].DelegatedFrom? {
      ChainGrounded(events, claims, origins, origins[i].parent);
    }
  }

  /** Main theorem: after any run, every claim ends a chain of delegations that
      starts at an asserted claim on the same resource, and the root of the chain
      grants every right of the claim with a confidence at least as high. */
  lemma {:induction false} NoAuthorityInvented(events: seq<Event>, i: nat)
    requires i < |ClaimsAfter(events)|
    ensures WellFounded(Trace(events)) && |Trace(events)| == |ClaimsAfter(events)|
    ensures Grounded(events, ClaimsAfter(events), Chain(Trace(events), i))
    ensures var root := ClaimsAfter(events)[Chain(Trace(events), i)[0]];
      Attenuates(ClaimsAfter(events)[i], root) && root.resource.Key() == ClaimsAfter(events)[i].resource.Key()
  {
    TraceExplains(events);
    ChainGrounded(events, ClaimsAfter(events), Trace(events), i);
  }

  /** Whatever a registry permits rests on an assertion: for every access that is
      not a public read, someone asserted that very operation on that resource
      with at least the reported confidence. */
  lemma {:induction false} AccessRestsOnAssertion(events: seq<Event>, holder: Entity, key: ResourceKey, op: Operation, now: real)
    requires !(key.isPublic && op == Read)
    requires CanAct(Run(EMPTY, events), holder, key, op, now).permitted
    ensures exists root ::
              && AssertedIn(events, root)
              && root.resource.Key() == key
              && root.Grants(op)
              && root.confidence >= CanAct(Run(EMPTY, events), holder, key, op, now).confidence > 0.0
  {
    var claims := ClaimsAfter(events);
    var p := c => Authorizes(c, holder, key, op, now);
    var k := BestWhere(claims, p).value;
    assert p(claims[k]);
    NoAuthorityInvented(events, k);
    var root := claims[Chain(Trace(events), k)[0]];
    assert AssertedIn(events, root) && root.Grants(op);
  }
  /** Down a delegation chain the claims arrived in order: with later and later
      events, and at no earlier moments if the clock never ran backwards. */
  lemma {:induction false} ChainArrivesInOrder(events: seq<Event>, i: nat, k: nat)
    requires i < |ClaimsAfter(events)|
    ensures WellFounded(Trace(events)) && |Arrivals(events)| == |Trace(events)| == |ClaimsAfter(events)|
    ensures k + 1 < |Chain(Trace(events), i)| ==>
              var path := Chain(Trace(events), i);
              var m, n := Arrivals(events)[path[k]], Arrivals(events)[path[k + 1]];
              && m < n < |events|
              && ((forall j, l :: 0 <= j < l < |events| ==> events[j].now <= events[l].now) ==> events[m].now <= events[n].now)
  {
    NoAuthorityInvented(events, i);
    ArrivalsInOrder(events);
    hide Run, Trace, Arrivals, ClaimsAfter, AllArrived, DelegatedIn, AssertedIn;
    var path := Chain(Trace(events), i);
    if k + 1 < |path| {
      assert path[k] < path[k + 1];
    }
  }
}
