/** What a delegation does not bound: the expiry of the new claim, and the order of
    the delegator's claims. */
module Delegation {
  import opened Entities
  import opened Registry
  import opened Provenance

  // ----- Expiry

  /** `child` expires, and no later than `parent`, unless `parent` never expires. */
  predicate ExpiresWithin(child: RightsClaim, parent: RightsClaim) {
    parent.expiresAt.Some? ==> child.expiresAt.Some? && child.expiresAt.value <= parent.expiresAt.value
  }

  /** Wherever `child` is live, so is `parent`. */
  ghost predicate NeverOutlives(child: RightsClaim, parent: RightsClaim) {
    forall t :: child.IsValid(t) ==> parent.IsValid(t)
  }

  lemma {:induction false} NeverOutlivesIff(child: RightsClaim, parent: RightsClaim)
    requires child.confidence > 0.0 && parent.confidence > 0.0
    ensures NeverOutlives(child, parent) <==> ExpiresWithin(child, parent)
  {
    if NeverOutlives(child, parent) && parent.expiresAt.Some? {
      var p := parent.expiresAt.value;
      if child.expiresAt.None? {
        assert child.IsValid(p + 1.0);
      } else if child.expiresAt.value > p {
        assert child.IsValid(child.expiresAt.value);
      }
    }
  }

  /** A delegated claim with any confidence never outlives the claim it came from
      exactly when its expiry says so, which the delegation does not look at. */
  lemma {:induction false} DelegatedOutlivesIff(events: seq<Event>, child: RightsClaim, parent: RightsClaim)
    requires DelegatedIn(events, child, parent) && child.confidence > 0.0
    ensures NeverOutlives(child, parent) <==> ExpiresWithin(child, parent)
  {
    NeverOutlivesIff(child, parent);
  }

  /** Every claim of a delegation chain dominates the last one. */
  lemma {:induction false} ChainDominates(events: seq<Event>, claims: seq<RightsClaim>, origins: seq<Origin>, i: nat, k: nat)
    requires Explained(events, claims, origins) && WellFounded(origins) && i < |origins|
    requires k < |Chain(origins, i)|
    ensures Attenuates(claims[i], claims[Chain(origins, i)[k]])
    decreases i
  {
    assert Explains(events, claims, i, origins[i]);
    if origins[i].DelegatedFrom? && k < |Chain(origins, i)| - 1 {
      ChainDominates(events, claims, origins, origins[i].parent, k);
    }
  }

  /** Main theorem on expiry: in every run, a claim with any confidence never
      outlives the claim at any place of its chain, its asserted root included,
      exactly when it expires within that claim. */
  lemma {:induction false} ChainOutlivesIff(events: seq<Event>, i: nat, k: nat)
    requires i < |ClaimsAfter(events)| && ClaimsAfter(events)[i].confidence > 0.0
    ensures WellFounded(Trace(events)) && |Trace(events)| == |ClaimsAfter(events)|
    ensures k < |Chain(Trace(events), i)| ==>
              var above := ClaimsAfter(events)[Chain(Trace(events), i)[k]];
              NeverOutlives(ClaimsAfter(events)[i], above) <==> ExpiresWithin(ClaimsAfter(events)[i], above)
  {
    var claims, origins := ClaimsAfter(events), Trace(events);
    NoAuthorityInvented(events, i);
    TraceExplains(events);
    if k < |Chain(origins, i)| {
      ChainDominates(events, claims, origins, i, k);
      NeverOutlivesIff(claims[i], claims[Chain(origins, i)[k]]);
    }
  }

  // ----- The written rule of delegation

  /** The documented rule: some valid delegatable claim of the grantor dominates. */
  ghost predicate SomeDominates(claims: seq<RightsClaim>, claim: RightsClaim, grantor: Entity, now: real) {
    exists k :: 0 <= k < |claims| && Delegatable(claims[k], grantor, claim.resource.Key(), now) && Attenuates(claim, claims[k])
  }

  /** The code accepts less: the rights must also lie within those of the one claim
      that it selects, the first most confident. */
  lemma {:induction false} DelegationVersusWrittenRule(claims: seq<RightsClaim>, claim: RightsClaim, grantor: Entity, now: real)
    ensures var best := Delegator(claims, grantor, claim.resource.Key(), now);
      DelegateOutcome(claims, claim, grantor, now).Done? <==>
        SomeDominates(claims, claim, grantor, now) && best.Some? && RightsWithin(claim, claims[best.value])
  {
  }

  // ----- The order of the claims

  /** Claim `k` is delegatable and as confident as any. */
  ghost predicate MostConfident(claims: seq<RightsClaim>, p: RightsClaim -> bool, k: nat) {
    && k < |claims| && p(claims[k])
    && forall i :: 0 <= i < |claims| && p(claims[i]) ==> claims[i].confidence <= claims[k].confidence
  }

  /** The most confident delegatable claims all dominate `claim`, or none does. */
  ghost predicate TopAgrees(claims: seq<RightsClaim>, claim: RightsClaim, grantor: Entity, now: real) {
    var p := c => Delegatable(c, grantor, claim.resource.Key(), now);
    forall k: nat, l: nat :: MostConfident(claims, p, k) && MostConfident(claims, p, l) ==>
      (Attenuates(claim, claims[k]) <==> Attenuates(claim, claims[l]))
  }

  /** Every arrangement of the claims gives the delegation the same fate. */
  ghost predicate OrderIrrelevant(claims: seq<RightsClaim>, claim: RightsClaim, grantor: Entity, now: real) {
    forall other :: multiset(other) == multiset(claims) ==>
      (DelegateOutcome(other, claim, grantor, now).Done? <==> DelegateOutcome(claims, claim, grantor, now).Done?)
  }

  lemma {:induction false} SameMembers(a: seq<RightsClaim>, b: seq<RightsClaim>, c: RightsClaim)
    requires multiset(a) == multiset(b)
    ensures c in a <==> c in b
  {
    assert c in multiset(a) <==> c in multiset(b);
  }

  /** A most confident claim of one arrangement is one of any other. */
  lemma {:induction false} StillMostConfident(a: seq<RightsClaim>, b: seq<RightsClaim>, p: RightsClaim -> bool, k: nat) returns (l: nat)
    requires multiset(a) == multiset(b) && MostConfident(a, p, k)
    ensures MostConfident(b, p, l) && b[l] == a[k]
  {
    SameMembers(a, b, a[k]);
    l :| 0 <= l < |b| && b[l] == a[k];
    forall i | 0 <= i < |b| && p(b[i]) ensures b[i].confidence <= b[l].confidence {
      SameMembers(a, b, b[i]);
    }
  }

  /** Brought to the front, a most confident claim is the one selected. */
  lemma {:induction false} FrontIsSelected(claims: seq<RightsClaim>, claim: RightsClaim, grantor: Entity, now: real, k: nat)
    returns (front: seq<RightsClaim>)
    requires MostConfident(claims, c => Delegatable(c, grantor, claim.resource.Key(), now), k)
    ensures multiset(front) == multiset(claims)
    ensures DelegateOutcome(front, claim, grantor, now).Done? <==> Attenuates(claim, claims[k])
  {
    var p := c => Delegatable(c, grantor, claim.resource.Key(), now);
    front := [claims[k]] + (claims[..k] + claims[k + 1..]);
    assert claims == claims[..k] + [claims[k]] + claims[k + 1..];
    forall i | 0 <= i < |front| && p(front[i]) ensures front[i].confidence <= front[0].confidence {
      SameMembers(front, claims, front[i]);
    }
    BestWhereUnique(front, p, 0);
  }

  /** An arrangement is decided by one of the most confident claims. */
  lemma {:induction false} DecidedByTop(claims: seq<RightsClaim>, claim: RightsClaim, grantor: Entity, now: real) returns (k: Option<nat>)
    ensures var p := c => Delegatable(c, grantor, claim.resource.Key(), now);
      match k
      case None => DelegateOutcome(claims, claim, grantor, now).Refused? && forall i: nat :: !MostConfident(claims, p, i)
      case Some(k) => MostConfident(claims, p, k) && (DelegateOutcome(claims, claim, grantor, now).Done? <==> Attenuates(claim, claims[k]))
  {
    k := Delegator(claims, grantor, claim.resource.Key(), now);
  }

  /** Main theorem on order: it has no say exactly when the most confident
      delegatable claims agree on whether they dominate the new claim. */
  lemma {:induction false} OrderIrrelevantIff(claims: seq<RightsClaim>, claim: RightsClaim, grantor: Entity, now: real)
    ensures OrderIrrelevant(claims, claim, grantor, now) <==> TopAgrees(claims, claim, grantor, now)
  {
    hide DelegateOutcome, Delegatable, Attenuates;
    var p := c => Delegatable(c, grantor, claim.resource.Key(), now);
    if TopAgrees(claims, claim, grantor, now) {
      var mine := DecidedByTop(claims, claim, grantor, now);
      forall other | multiset(other) == multiset(claims)
        ensures DelegateOutcome(other, claim, grantor, now).Done? <==> DelegateOutcome(claims, claim, grantor, now).Done?
      {
        var its := DecidedByTop(other, claim, grantor, now);
        if its.Some? {
          var l := StillMostConfident(other, claims, p, its.value);
        } else if mine.Some? {
          var l := StillMostConfident(claims, other, p, mine.value);
        }
      }
    }
    if OrderIrrelevant(claims, claim, grantor, now) {
      forall k: nat, l: nat | MostConfident(claims, p, k) && MostConfident(claims, p, l)
        ensures Attenuates(claim, claims[k]) <==> Attenuates(claim, claims[l])
      {
        var a := FrontIsSelected(claims, claim, grantor, now, k);
        var b := FrontIsSelected(claims, claim, grantor, now, l);
      }
    }
  }

  // ----- The authority of two holders

  /** Whatever `lesser` may do, at any moment, `greater` may do. */
  ghost predicate HolderWithin(s: State, lesser: Entity, greater: Entity) {
    forall key, op, now :: CanAct(s, lesser, key, op, now).permitted ==> CanAct(s, greater, key, op, now).permitted
  }

  /** Claim `d` grants `op` wherever claim `c` does. */
  predicate Backs(d: RightsClaim, c: RightsClaim, op: Operation) {
    d.resource.Key() == c.resource.Key() && d.Grants(op) && d.confidence > 0.0 && ExpiresWithin(c, d)
  }

  /** `c` gives its holder something that is not open to all. */
  predicate Counts(c: RightsClaim, op: Operation) {
    c.confidence > 0.0 && c.Grants(op) && !(c.resource.isPublic && op == Read)
  }

  lemma {:induction false} PastAllExpiries(claims: seq<RightsClaim>) returns (t: real)
    ensures forall c :: c in claims && c.expiresAt.Some? ==> c.expiresAt.value < t
  {
    t := 0.0;
    if claims != [] {
      var last := claims[|claims| - 1];
      t := PastAllExpiries(claims[..|claims| - 1]);
      if last.expiresAt.Some? && last.expiresAt.value >= t {
        t := last.expiresAt.value + 1.0;
      }
    }
  }

  /** A claim of `lesser` is backed when `greater` is permitted at the claim's last moment. */
  lemma {:induction false} BackedWithin(s: State, lesser: Entity, greater: Entity, c: RightsClaim, op: Operation) returns (d: RightsClaim)
    requires HolderWithin(s, lesser, greater) && c in s.claims && c.holder == lesser && Counts(c, op)
    ensures d in s.claims && d.holder == greater && Backs(d, c, op)
  {
    var key := c.resource.Key();
    var past := PastAllExpiries(s.claims);
    var t := if c.expiresAt.Some? then c.expiresAt.value else past;
    hide CanAct;
    CanActMeaning(s, lesser, key, op, t);
    CanActMeaning(s, greater, key, op, t);
    assert Authorizes(c, lesser, key, op, t);
    d :| d in s.claims && Authorizes(d, greater, key, op, t);
  }

  /** One holder's authority lies within another's exactly when each of its claims is
      backed, right by right, by a claim of the other that expires no earlier. */
  lemma {:induction false} HolderWithinIff(s: State, lesser: Entity, greater: Entity)
    ensures HolderWithin(s, lesser, greater) <==>
            forall c, op :: c in s.claims && c.holder == lesser && Counts(c, op) ==>
              exists d :: d in s.claims && d.holder == greater && Backs(d, c, op)
  {
    hide CanAct;
    if HolderWithin(s, lesser, greater) {
      forall c, op | c in s.claims && c.holder == lesser && Counts(c, op)
        ensures exists d :: d in s.claims && d.holder == greater && Backs(d, c, op)
      {
        var d := BackedWithin(s, lesser, greater, c, op);
      }
    }
    if forall c, op :: c in s.claims && c.holder == lesser && Counts(c, op) ==>
         exists d :: d in s.claims && d.holder == greater && Backs(d, c, op) {
      forall key, op, now | CanAct(s, lesser, key, op, now).permitted
        ensures CanAct(s, greater, key, op, now).permitted
      {
        BackedPermits(s, lesser, greater, key, op, now);
      }
    }
  }

  lemma {:induction false} BackedPermits(s: State, lesser: Entity, greater: Entity, key: ResourceKey, op: Operation, now: real)
    requires forall c, op :: c in s.claims && c.holder == lesser && Counts(c, op) ==>
               exists d :: d in s.claims && d.holder == greater && Backs(d, c, op)
    requires CanAct(s, lesser, key, op, now).permitted
    ensures CanAct(s, greater, key, op, now).permitted
  {
    if !(key.isPublic && op == Read) {
      hide CanAct;
      CanActMeaning(s, lesser, key, op, now);
      CanActMeaning(s, greater, key, op, now);
      var c :| c in s.claims && Authorizes(c, lesser, key, op, now);
      assert Counts(c, op);
      var d :| d in s.claims && d.holder == greater && Backs(d, c, op);
      assert Authorizes(d, greater, key, op, now);
    }
  }

  // ----- Witnesses

  function Plain(holder: Entity, canWrite: bool, canDelegate: bool, confidence: real, expiresAt: Option<real>): RightsClaim {
    RightsClaim(holder, Resource("db", DatabaseTable, "", false, ""), true, canWrite, canDelegate, confidence, expiresAt)
  }

  /** A run that adds `parent` and then delegates `child` from its holder. */
  lemma {:induction false} TwoClaimRun(parent: RightsClaim, child: RightsClaim)
    requires Delegatable(parent, parent.holder, child.resource.Key(), 5.0) && Attenuates(child, parent)
    ensures var events := [Event(AddClaim(parent), 0.0), Event(DelegateClaim(child, parent.holder), 5.0)];
      Run(EMPTY, events).claims == [parent, child]
  {
    var add, del := Event(AddClaim(parent), 0.0), Event(DelegateClaim(child, parent.holder), 5.0);
    assert [add][..0] == [] && [add, del][..1] == [add];
    hide DetectConflict, Delegatable, Attenuates;
    assert Run(EMPTY, [add]).claims == [parent];
    assert IsFirstGreatest([parent], c => Delegatable(c, parent.holder, child.resource.Key(), 5.0), 0);
    DelegateAcceptsIff([parent], child, parent.holder, 5.0);
  }

  lemma {:induction false} AccessOutlives(s: State, alice: Entity, bot: Entity)
    requires alice != bot
    requires s.claims == [Plain(alice, false, true, 1.0, Some(10.0)), Plain(bot, false, false, 1.0, None)]
    ensures CanAct(s, bot, Plain(bot, false, false, 1.0, None).resource.Key(), Read, 20.0).permitted
    ensures !CanAct(s, alice, Plain(bot, false, false, 1.0, None).resource.Key(), Read, 20.0).permitted
  {
    var child := Plain(bot, false, false, 1.0, None);
    var key := child.resource.Key();
    CanActMeaning(s, bot, key, Read, 20.0);
    CanActMeaning(s, alice, key, Read, 20.0);
    assert s.claims[1] == child && child in s.claims;
    hide CanAct, Resource.Key;
    assert Authorizes(child, bot, key, Read, 20.0);
  }

  /** Expiry is not attenuated: a delegated claim can stay live after the claim it
      came from has expired. */
  lemma {:induction false} DelegationOutlivesItsParent(alice: Entity, bot: Entity)
    requires alice != bot
    ensures var parent, child := Plain(alice, false, true, 1.0, Some(10.0)), Plain(bot, false, false, 1.0, None);
      var events := [Event(AddClaim(parent), 0.0), Event(DelegateClaim(child, alice), 5.0)];
      && Run(EMPTY, events).claims == [parent, child] && !NeverOutlives(child, parent)
      && CanAct(Run(EMPTY, events), bot, child.resource.Key(), Read, 20.0).permitted
      && !CanAct(Run(EMPTY, events), alice, child.resource.Key(), Read, 20.0).permitted
  {
    var parent, child := Plain(alice, false, true, 1.0, Some(10.0)), Plain(bot, false, false, 1.0, None);
    var s := Run(EMPTY, [Event(AddClaim(parent), 0.0), Event(DelegateClaim(child, alice), 5.0)]);
    TwoClaimRun(parent, child);
    hide Run, CanAct;
    NeverOutlivesIff(child, parent);
    AccessOutlives(s, alice, bot);
  }

  /** The order of equally confident claims decides a delegation: with the writing
      claim first it goes through, with the reading claim first it is refused. */
  lemma {:induction false} OrderDecidesDelegation(alice: Entity, bot: Entity, now: real)
    ensures var writer, reader := Plain(alice, true, true, 1.0, None), Plain(alice, false, true, 1.0, None);
      var claim := Plain(bot, true, false, 1.0, None);
      && DelegateOutcome([writer, reader], claim, alice, now).Done?
      && DelegateOutcome([reader, writer], claim, alice, now) == Refused(DelegatorLacks(Write))
  {
    var writer, reader := Plain(alice, true, true, 1.0, None), Plain(alice, false, true, 1.0, None);
    var claim := Plain(bot, true, false, 1.0, None);
    var p := c => Delegatable(c, alice, claim.resource.Key(), now);
    assert IsFirstGreatest([writer, reader], p, 0);
    BestWhereUnique([writer, reader], p, 0);
    BestWhereUnique([reader, writer], p, 0);
  }
}
