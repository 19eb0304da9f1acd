/** The registry in plain terms: what its answers and transitions come to, read off the
    fields of claims and events alone. */
module RegistryLaws {
  import opened Entities
  import opened Sequences
  import opened Registry

  predicate Live(c: RightsClaim, now: real) {
    c.confidence > 0.0 && (c.expiresAt.None? || now <= c.expiresAt.value)
  }

  predicate Gives(c: RightsClaim, op: Operation) {
    (op == Read && c.canRead) || (op == Write && c.canWrite) || (op == Delegate && c.canDelegate)
  }

  /** Equal but for the label. */
  predicate SameResource(r: Resource, q: Resource) {
    r.name == q.name && r.rtype == q.rtype && r.scope == q.scope && r.isPublic == q.isPublic
  }

  predicate Entitles(c: RightsClaim, holder: Entity, r: Resource, op: Operation, now: real) {
    c.holder == holder && SameResource(c.resource, r) && Live(c, now) && Gives(c, op)
  }

  /** A public read, or some claim entitles. */
  ghost predicate MayAct(s: State, holder: Entity, r: Resource, op: Operation, now: real) {
    (r.isPublic && op == Read) || exists c :: c in s.claims && Entitles(c, holder, r, op, now)
  }

  // ----- Answers

  lemma {:induction false} EntitlesIff(c: RightsClaim, holder: Entity, r: Resource, op: Operation, now: real)
    ensures Authorizes(c, holder, r.Key(), op, now) <==> Entitles(c, holder, r, op, now)
  {
  }

  /** The answer to a query: permitted if and only if the holder may act, with full
      confidence on a public read, otherwise that of the most confident claim that
      entitles, and none on a refusal. */
  lemma {:induction false} AnswerMeaning(s: State, holder: Entity, r: Resource, op: Operation, now: real)
    ensures var a := CanAct(s, holder, r.Key(), op, now);
      && (a.permitted <==> MayAct(s, holder, r, op, now))
      && (!a.permitted ==> a.confidence == 0.0)
      && if r.isPublic && op == Read then a.confidence == 1.0
         else
           && (forall c :: c in s.claims && Entitles(c, holder, r, op, now) ==> c.confidence <= a.confidence)
           && (a.permitted ==> exists c :: c in s.claims && Entitles(c, holder, r, op, now) && c.confidence == a.confidence)
  {
    forall c ensures Authorizes(c, holder, r.Key(), op, now) <==> Entitles(c, holder, r, op, now) {
      EntitlesIff(c, holder, r, op, now);
    }
    if !(r.isPublic && op == Read) {
      hide CanAct, Authorizes, Entitles;
      CanActMeaning(s, holder, r.Key(), op, now);
    }
  }

  /** The claims of a holder: those live ones on the resource, in the order of the
      list, none left out or added. */
  lemma {:induction false} HeldClaimsMeaning(s: State, holder: Entity, r: Resource, now: real)
    ensures ClaimsFor(s, holder, r.Key(), now) ==
            Flat(s.claims, (c: RightsClaim) => if c.holder == holder && SameResource(c.resource, r) && Live(c, now) then [c] else [])
  {
    FilterFlat(s.claims, c => Matches(c, holder, r.Key(), now),
               (c: RightsClaim) => if c.holder == holder && SameResource(c.resource, r) && Live(c, now) then [c] else []);
  }

  lemma {:induction false} FilterFlat(claims: seq<RightsClaim>, p: RightsClaim -> bool, f: RightsClaim -> seq<RightsClaim>)
    requires forall c :: f(c) == if p(c) then [c] else []
    ensures Filter(claims, p) == Flat(claims, f)
  {
    if claims != [] {
      FilterFlat(claims[..|claims| - 1], p, f);
    }
  }

  // ----- Delegation

  /** A claim that the grantor could delegate `claim` from. */
  predicate Source(c: RightsClaim, claim: RightsClaim, grantor: Entity, now: real) {
    c.holder == grantor && SameResource(c.resource, claim.resource) && c.canDelegate && Live(c, now)
  }

  /** The first of the most confident sources. */
  ghost predicate Selected(claims: seq<RightsClaim>, claim: RightsClaim, grantor: Entity, now: real, k: nat) {
    && k < |claims| && Source(claims[k], claim, grantor, now)
    && forall i :: 0 <= i < |claims| && Source(claims[i], claim, grantor, now) ==>
         if i < k then claims[i].confidence < claims[k].confidence else claims[i].confidence <= claims[k].confidence
  }

  /** Which outcome a delegation has, and with which reason it is refused.  That the
      delegator lacks the right to delegate is never among the reasons, since a claim
      without it is no source. */
  lemma {:induction false} DelegationMeaning(claims: seq<RightsClaim>, claim: RightsClaim, grantor: Entity, now: real)
    ensures var outcome := DelegateOutcome(claims, claim, grantor, now);
      && (outcome == Refused(NoDelegatableClaim(grantor)) <==> forall c :: c in claims ==> !Source(c, claim, grantor, now))
      && (forall k: nat :: Selected(claims, claim, grantor, now, k) ==>
            var best := claims[k];
            outcome == if claim.canRead && !best.canRead then Refused(DelegatorLacks(Read))
                       else if claim.canWrite && !best.canWrite then Refused(DelegatorLacks(Write))
                       else if claim.confidence > best.confidence then Refused(ConfidenceExceeds(best.confidence))
                       else Done)
  {
    var p := c => Delegatable(c, grantor, claim.resource.Key(), now);
    forall c ensures p(c) <==> Source(c, claim, grantor, now) {
    }
    forall k: nat | Selected(claims, claim, grantor, now, k) ensures Delegator(claims, grantor, claim.resource.Key(), now) == Some(k) {
      BestWhereUnique(claims, p, k);
    }
  }

  /** Unless no claim is a source, one is selected. */
  lemma {:induction false} SomeSelected(claims: seq<RightsClaim>, claim: RightsClaim, grantor: Entity, now: real) returns (k: nat)
    requires exists c :: c in claims && Source(c, claim, grantor, now)
    ensures Selected(claims, claim, grantor, now, k)
  {
    var best := Delegator(claims, grantor, claim.resource.Key(), now);
    forall c ensures Delegatable(c, grantor, claim.resource.Key(), now) <==> Source(c, claim, grantor, now) {
    }
    k := best.value;
  }

  // ----- Transitions

  /** What one request does to a registry that is not frozen. */
  lemma {:induction false} TransitionMeaning(s: State, e: Event)
    requires !s.frozen
    ensures var (s', outcome) := Handle(s, e);
      match e.request
      case AddClaim(c) => outcome == Done && s'.claims == s.claims + [c] && s'.owners == s.owners
      case DelegateClaim(c, grantor) =>
        && outcome == DelegateOutcome(s.claims, c, grantor, e.now)
        && s'.claims == (if outcome == Done then s.claims + [c] else s.claims)
        && s'.owners == s.owners && (outcome != Done ==> s' == s)
      case RegisterMachine(m, o) =>
        && outcome == (if m.kind != Machine then Refused(NotMachine(m)) else if o.kind != Human then Refused(NotHuman(o)) else Done)
        && s' == (if outcome == Done then s.(owners := s.owners[m := o]) else s)
  {
  }

  // ----- Owners over runs

  predicate Registers(e: Event, m: Entity, o: Entity) {
    e.request == RegisterMachine(m, o) && m.kind == Machine && o.kind == Human
  }

  /** The `i`-th event is the last that registers `m`, and it names `o`. */
  ghost predicate LastRegistered(events: seq<Event>, m: Entity, o: Entity, i: nat) {
    i < |events| && Registers(events[i], m, o) && forall j, q :: i < j < |events| ==> !Registers(events[j], m, q)
  }

  /** Over every run, a machine is owned if and only if some event registered it with
      a human owner, and its owner is the one that the last such event named. */
  lemma {:induction false} OwnersMeaning(events: seq<Event>, m: Entity)
    ensures m in Run(EMPTY, events).owners <==> exists i, o :: 0 <= i < |events| && Registers(events[i], m, o)
    ensures forall o, i: nat :: LastRegistered(events, m, o, i) ==> m in Run(EMPTY, events).owners && Run(EMPTY, events).owners[m] == o
  {
    if events != [] {
      var n := |events| - 1;
      var init, e := events[..n], events[n];
      OwnersMeaning(init, m);
      RunOnlyAppends(EMPTY, init);
      OwnersStep(Run(EMPTY, init), e, m);
      assert Run(EMPTY, events) == Handle(Run(EMPTY, init), e).0;
      hide Run, Handle, Registers;
      if m in Run(EMPTY, init).owners {
        var i, o :| 0 <= i < n && Registers(init[i], m, o);
        assert Registers(events[i], m, o);
      }
      forall o, i: nat | LastRegistered(events, m, o, i) && i < n
        ensures m in Run(EMPTY, events).owners && Run(EMPTY, events).owners[m] == o
      {
        assert LastRegistered(init, m, o, i);
        assert forall q :: !Registers(events[n], m, q);
      }
      forall i, o | 0 <= i < n && Registers(events[i], m, o) ensures m in Run(EMPTY, init).owners {
        assert Registers(init[i], m, o);
      }
    }
  }

  lemma {:induction false} OwnersStep(s: State, e: Event, m: Entity)
    requires !s.frozen
    ensures var after := Handle(s, e).0.owners;
      && (m in after <==> m in s.owners || exists o :: Registers(e, m, o))
      && (forall o :: Registers(e, m, o) ==> m in after && after[m] == o)
      && ((forall o :: !Registers(e, m, o)) && m in s.owners ==> m in after && after[m] == s.owners[m])
  {
    if e.request.RegisterMachine? && e.request.machine == m && m.kind == Machine && e.request.owner.kind == Human {
      assert Registers(e, m, e.request.owner);
    }
  }
}
