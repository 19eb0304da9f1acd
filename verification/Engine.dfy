/** The pure verification engine over the wire types. */
module Engine {
  import opened Entities
  import opened Sequences
  import opened Registry
  import opened Verdicts

  datatype ResourceWire = ResourceWire(name: string, rtype: string, scope: string, isPublic: bool, ifcLabel: string)

  datatype ClaimWire = ClaimWire(
    holder: Entity,
    resource: ResourceWire,
    canRead: bool,
    canWrite: bool,
    canDelegate: bool,
    confidence: real,
    expiresAt: Option<real>)
  {
    predicate Valid(now: real) { confidence > 0.0 && (expiresAt.None? || now <= expiresAt.value) }

    predicate Grants(op: Operation) {
      match op
      case Read => canRead
      case Write => canWrite
      case Delegate => canDelegate
    }
  }

  datatype MachineOwnerWire = MachineOwnerWire(machine: Entity, owner: Entity)

  datatype RegistryWire = RegistryWire(claims: seq<ClaimWire>, machineOwners: seq<MachineOwnerWire>)

  datatype ActionWire = ActionWire(
    actionId: string,
    actor: Entity,
    description: string,
    resourcesRead: seq<ResourceWire>,
    resourcesWrite: seq<ResourceWire>,
    resourcesDelegate: seq<ResourceWire>,
    governsHumans: seq<Entity>,
    argument: string,
    flags: Flags)
  {
    /** Every access the action asks for, in the order in which it is checked. */
    function Requests(): seq<WireRequest> {
      Asked(Read, resourcesRead) + Asked(Write, resourcesWrite) + Asked(Delegate, resourcesDelegate)
    }
  }

  datatype WireRequest = WireRequest(op: Operation, resource: ResourceWire)

  function Asked(op: Operation, resources: seq<ResourceWire>): (r: seq<WireRequest>)
    ensures |r| == |resources|
    ensures forall i :: 0 <= i < |r| ==> r[i] == WireRequest(op, resources[i])
  {
    if resources == [] then []
    else Asked(op, resources[..|resources| - 1]) + [WireRequest(op, resources[|resources| - 1])]
  }

  // ----- Access

  /** Holder and resource are matched by name; scope and visibility are not looked at. */
  predicate Matches(c: ClaimWire, actor: string, r: ResourceWire, op: Operation, now: real) {
    c.holder.name == actor && c.resource.name == r.name && c.resource.rtype == r.rtype && c.Valid(now) && c.Grants(op)
  }

  function Greatest(claims: seq<ClaimWire>): (g: real)
    requires claims != []
    ensures forall c :: c in claims ==> c.confidence <= g
    ensures exists c :: c in claims && c.confidence == g
  {
    var last := claims[|claims| - 1].confidence;
    if |claims| == 1 then assert claims[0] in claims; last
    else
      var init := claims[..|claims| - 1];
      var g := Greatest(init);
      assert claims == init + [claims[|claims| - 1]];
      if last > g then last else g
  }

  function CanAct(registry: RegistryWire, actor: string, r: ResourceWire, op: Operation, now: real): Access {
    if r.isPublic && op == Read then Access(true, 1.0)
    else
      var candidates := Filter(registry.claims, c => Matches(c, actor, r, op, now));
      if candidates == [] then Access(false, 0.0) else Access(true, Greatest(candidates))
  }

  predicate IsRival(c: ClaimWire, actor: string, r: ResourceWire, now: real) {
    c.resource.name == r.name && c.resource.rtype == r.rtype && c.holder.name != actor && c.canWrite && c.Valid(now)
  }

  function Rivals(claims: seq<ClaimWire>, actor: string, r: ResourceWire, now: real): seq<(string, string)> {
    if claims == [] then []
    else
      var init, c := claims[..|claims| - 1], claims[|claims| - 1];
      if IsRival(c, actor, r, now) then Rivals(init, actor, r, now) + [(actor, c.holder.name)] else Rivals(init, actor, r, now)
  }

  function CheckOf(registry: RegistryWire, actor: string, q: WireRequest, now: real): Check {
    Check(q.op, q.resource.rtype, q.resource.name, CanAct(registry, actor, q.resource, q.op, now),
          Rivals(registry.claims, actor, q.resource, now))
  }

  predicate HasOwner(registry: RegistryWire, actor: string) {
    exists i :: 0 <= i < |registry.machineOwners| && registry.machineOwners[i].machine.name == actor
  }

  function Opening(registry: RegistryWire, a: ActionWire): Tally {
    Tally(Preliminary(a.flags, a.actor, HasOwner(registry, a.actor.name), a.governsHumans), [], 1.0, false)
  }

  function Verify(registry: RegistryWire, a: ActionWire, now: real): VerificationResult {
    Conclude(a.actionId,
             Fold(a.actor.name, Opening(registry, a), a.Requests(), q => CheckOf(registry, a.actor.name, q, now)))
  }

  // ----- The loops of the engine

  method RunVerify(registry: RegistryWire, a: ActionWire, now: real) returns (result: VerificationResult)
    ensures result == Verify(registry, a, now)
  {
    var name := a.actor.name;
    var violations := CheckActor(registry, a);
    var warnings: seq<Warning> := [];
    var minConf := 1.0;
    var requiresArbitration := false;
    violations, warnings, minConf := CheckReads(registry, name, a.resourcesRead, now, violations, warnings, minConf, requiresArbitration);
    violations, warnings, minConf, requiresArbitration :=
      CheckWrites(registry, name, a.resourcesWrite, now, violations, warnings, minConf, requiresArbitration);
    violations, minConf := CheckDelegations(registry, name, a.resourcesDelegate, now, violations, warnings, minConf, requiresArbitration);
    FoldRequests(registry, a, now);
    return VerificationResult(a.actionId, violations == [], violations, warnings, minConf, requiresArbitration);
  }

  /** Forbidden flags, ownership of machines, machines governing humans. */
  method CheckActor(registry: RegistryWire, a: ActionWire) returns (violations: seq<Violation>)
    ensures violations == Preliminary(a.flags, a.actor, HasOwner(registry, a.actor.name), a.governsHumans)
  {
    violations := [];
    var table := a.flags.Table();
    for i := 0 to |table|
      invariant violations == RaisedFlags(table[..i])
    {
      assert table[..i + 1][..i] == table[..i];
      if table[i].0 {
        violations := violations + [Forbidden(table[i].1)];
      }
    }
    assert table[..|table|] == table;
    if a.actor.kind == Machine {
      if !HasOwner(registry, a.actor.name) {
        violations := violations + [OwnerlessMachine(a.actor.name)];
      }
    }
    if a.actor.kind == Machine {
      ghost var before := violations;
      for i := 0 to |a.governsHumans|
        invariant violations == before + Governed(a.actor.name, a.governsHumans[..i])
      {
        assert a.governsHumans[..i + 1][..i] == a.governsHumans[..i];
        violations := violations + [GovernsHuman(a.actor.name, a.governsHumans[i].name)];
      }
      assert a.governsHumans[..|a.governsHumans|] == a.governsHumans;
    }
  }

  method CheckReads(registry: RegistryWire, name: string, rs: seq<ResourceWire>, now: real,
                    violations0: seq<Violation>, warnings0: seq<Warning>, minConf0: real, arbitration: bool)
    returns (violations: seq<Violation>, warnings: seq<Warning>, minConf: real)
    ensures Tally(violations, warnings, minConf, arbitration) ==
            Fold(name, Tally(violations0, warnings0, minConf0, arbitration), Asked(Read, rs), q => CheckOf(registry, name, q, now))
  {
    violations, warnings, minConf := violations0, warnings0, minConf0;
    ghost var check := q => CheckOf(registry, name, q, now);
    ghost var t0 := Tally(violations0, warnings0, minConf0, arbitration);
    hide Fold, Asked, Rivals, CanAct;
    AskedNone(name, t0, Read, rs, check);
    for i := 0 to |rs|
      invariant Tally(violations, warnings, minConf, arbitration) == Fold(name, t0, Asked(Read, rs[..i]), check)
    {
      AskedStep(name, t0, Read, rs, i, check);
      var access := CanAct(registry, name, rs[i], Read, now);
      minConf := Min(minConf, access.confidence);
      if !access.permitted {
        violations := violations + [AccessDenied(Read, rs[i].rtype, rs[i].name, name)];
      } else if access.confidence < WARN_THRESHOLD {
        warnings := warnings + [Contested(Read, rs[i].rtype, rs[i].name, access.confidence)];
      }
    }
  }

  method CheckWrites(registry: RegistryWire, name: string, rs: seq<ResourceWire>, now: real,
                     violations0: seq<Violation>, warnings0: seq<Warning>, minConf0: real, arbitration0: bool)
    returns (violations: seq<Violation>, warnings: seq<Warning>, minConf: real, arbitration: bool)
    ensures Tally(violations, warnings, minConf, arbitration) ==
            Fold(name, Tally(violations0, warnings0, minConf0, arbitration0), Asked(Write, rs), q => CheckOf(registry, name, q, now))
  {
    violations, warnings, minConf, arbitration := violations0, warnings0, minConf0, arbitration0;
    ghost var check := q => CheckOf(registry, name, q, now);
    ghost var t0 := Tally(violations0, warnings0, minConf0, arbitration0);
    hide Count, RivalWarnings, Fold, Asked, Rivals, CanAct;
    AskedNone(name, t0, Write, rs, check);
    for i := 0 to |rs|
      invariant Tally(violations, warnings, minConf, arbitration) == Fold(name, t0, Asked(Write, rs[..i]), check)
    {
      CountWrite(name, Tally(violations, warnings, minConf, arbitration), check(WireRequest(Write, rs[i])));
      AskedStep(name, t0, Write, rs, i, check);
      var access := CanAct(registry, name, rs[i], Write, now);
      minConf := Min(minConf, access.confidence);
      if !access.permitted {
        violations := violations + [AccessDenied(Write, rs[i].rtype, rs[i].name, name)];
      } else if access.confidence < WARN_THRESHOLD {
        warnings := warnings + [Contested(Write, rs[i].rtype, rs[i].name, access.confidence)];
        warnings, arbitration := ReportRivals(registry, name, rs[i], now, warnings, arbitration);
      }
    }
  }

  method CheckDelegations(registry: RegistryWire, name: string, rs: seq<ResourceWire>, now: real,
                          violations0: seq<Violation>, warnings: seq<Warning>, minConf0: real, arbitration: bool)
    returns (violations: seq<Violation>, minConf: real)
    ensures Tally(violations, warnings, minConf, arbitration) ==
            Fold(name, Tally(violations0, warnings, minConf0, arbitration), Asked(Delegate, rs), q => CheckOf(registry, name, q, now))
  {
    violations, minConf := violations0, minConf0;
    ghost var check := q => CheckOf(registry, name, q, now);
    ghost var t0 := Tally(violations0, warnings, minConf0, arbitration);
    hide Fold, Asked, Rivals, CanAct;
    AskedNone(name, t0, Delegate, rs, check);
    for i := 0 to |rs|
      invariant Tally(violations, warnings, minConf, arbitration) == Fold(name, t0, Asked(Delegate, rs[..i]), check)
    {
      AskedStep(name, t0, Delegate, rs, i, check);
      var access := CanAct(registry, name, rs[i], Delegate, now);
      minConf := Min(minConf, access.confidence);
      if !access.permitted {
        violations := violations + [AccessDenied(Delegate, rs[i].rtype, rs[i].name, name)];
      }
    }
  }

  /** The inner loop of the write check. */
  method ReportRivals(registry: RegistryWire, actor: string, r: ResourceWire, now: real, warnings: seq<Warning>, arbitration: bool)
    returns (warnings': seq<Warning>, arbitration': bool)
    ensures var rivals := Rivals(registry.claims, actor, r, now);
      warnings' == warnings + RivalWarnings(r.rtype, r.name, rivals) && (arbitration' <==> arbitration || rivals != [])
  {
    warnings', arbitration' := warnings, arbitration;
    for i := 0 to |registry.claims|
      invariant var rivals := Rivals(registry.claims[..i], actor, r, now);
        warnings' == warnings + RivalWarnings(r.rtype, r.name, rivals) && (arbitration' <==> arbitration || rivals != [])
    {
      assert registry.claims[..i + 1][..i] == registry.claims[..i];
      var c := registry.claims[i];
      if IsRival(c, actor, r, now) {
        ghost var rivals := Rivals(registry.claims[..i], actor, r, now);
        assert (rivals + [(actor, c.holder.name)])[..|rivals|] == rivals;
        arbitration' := true;
        warnings' := warnings' + [ConflictOn(r.rtype, r.name, actor, c.holder.name)];
      }
    }
    assert registry.claims[..|registry.claims|] == registry.claims;
  }

  lemma {:induction false} AskedNone(actor: string, t: Tally, op: Operation, rs: seq<ResourceWire>, check: WireRequest -> Check)
    ensures Fold(actor, t, Asked(op, rs[..0]), check) == t
    ensures rs[..|rs|] == rs
  {
  }

  lemma {:induction false} AskedStep(actor: string, t: Tally, op: Operation, rs: seq<ResourceWire>, i: nat, check: WireRequest -> Check)
    requires i < |rs|
    ensures Fold(actor, t, Asked(op, rs[..i + 1]), check) ==
            Count(actor, Fold(actor, t, Asked(op, rs[..i]), check), check(WireRequest(op, rs[i])))
  {
    assert rs[..i + 1][..i] == rs[..i];
    FoldSnoc(actor, t, Asked(op, rs[..i]), WireRequest(op, rs[i]), check);
  }

  lemma {:induction false} FoldRequests(registry: RegistryWire, a: ActionWire, now: real)
    ensures var check := q => CheckOf(registry, a.actor.name, q, now);
      var t1 := Fold(a.actor.name, Opening(registry, a), Asked(Read, a.resourcesRead), check);
      var t2 := Fold(a.actor.name, t1, Asked(Write, a.resourcesWrite), check);
      Fold(a.actor.name, Opening(registry, a), a.Requests(), check) == Fold(a.actor.name, t2, Asked(Delegate, a.resourcesDelegate), check)
  {
    var check := q => CheckOf(registry, a.actor.name, q, now);
    var rd, wr := Asked(Read, a.resourcesRead), Asked(Write, a.resourcesWrite);
    FoldConcat(a.actor.name, Opening(registry, a), rd + wr, Asked(Delegate, a.resourcesDelegate), check);
    FoldConcat(a.actor.name, Opening(registry, a), rd, wr, check);
  }

  // ----- What the verdict means

  /** An access is permitted exactly when it is a public read or some live claim
      matches it; it then reports the greatest confidence among the matching ones. */
  lemma {:induction false} CanActMeaning(registry: RegistryWire, actor: string, r: ResourceWire, op: Operation, now: real)
    requires !(r.isPublic && op == Read)
    ensures var a := CanAct(registry, actor, r, op, now);
      && (a.permitted <==> exists c :: c in registry.claims && Matches(c, actor, r, op, now))
      && (forall c :: c in registry.claims && Matches(c, actor, r, op, now) ==> c.confidence <= a.confidence)
      && (a.permitted ==> exists c :: c in registry.claims && Matches(c, actor, r, op, now) && c.confidence == a.confidence)
      && (if a.permitted then a.confidence > 0.0 else a.confidence == 0.0)
  {
    var p := c => Matches(c, actor, r, op, now);
    var candidates := Filter(registry.claims, p);
    forall c ensures c in candidates <==> c in registry.claims && p(c) {
      FilterMember(registry.claims, p, c);
    }
    if candidates != [] {
      assert candidates[0] in candidates;
      var c :| c in candidates && c.confidence == Greatest(candidates);
      assert c in registry.claims && p(c);
    }
  }

  /** A request is in order when it is a public read or some live claim matches it. */
  ghost predicate Held(registry: RegistryWire, actor: string, q: WireRequest, now: real) {
    (q.resource.isPublic && q.op == Read) || exists c :: c in registry.claims && Matches(c, actor, q.resource, q.op, now)
  }

  lemma {:induction false} PermittedIffHeld(registry: RegistryWire, actor: string, q: WireRequest, now: real)
    ensures CanAct(registry, actor, q.resource, q.op, now).permitted <==> Held(registry, actor, q, now)
  {
    if !(q.resource.isPublic && q.op == Read) {
      CanActMeaning(registry, actor, q.resource, q.op, now);
    }
  }

  /** The gate in closed form: no flag, an owner and no governed human for a
      machine, and every requested access held. */
  lemma {:induction false} PermittedIff(registry: RegistryWire, a: ActionWire, now: real)
    ensures Verify(registry, a, now).permitted <==>
            && !a.flags.Any()
            && (a.actor.IsMachine() ==> HasOwner(registry, a.actor.name) && a.governsHumans == [])
            && forall q :: q in a.Requests() ==> Held(registry, a.actor.name, q, now)
  {
    var check := q => CheckOf(registry, a.actor.name, q, now);
    var qs := a.Requests();
    FoldPermits(a.actor.name, Opening(registry, a), qs, check);
    PreliminaryEmptyIff(a.flags, a.actor, HasOwner(registry, a.actor.name), a.governsHumans);
    forall q ensures check(q).access.permitted <==> Held(registry, a.actor.name, q, now) {
      PermittedIffHeld(registry, a.actor.name, q, now);
    }
    assert forall i :: 0 <= i < |qs| ==> qs[i] in qs;
  }

  /** The reported confidence is the minimum, over all requested accesses and 1.0,
      of the answer to each; it is positive exactly when no access is denied. */
  lemma {:induction false} ConfidenceIsMinimum(registry: RegistryWire, a: ActionWire, now: real)
    ensures var c := Verify(registry, a, now).confidence;
      && 0.0 <= c <= 1.0
      && (forall q :: q in a.Requests() ==> c <= CanAct(registry, a.actor.name, q.resource, q.op, now).confidence)
      && (c == 1.0 || exists q :: q in a.Requests() && c == CanAct(registry, a.actor.name, q.resource, q.op, now).confidence)
      && (c > 0.0 <==> forall q :: q in a.Requests() ==> Held(registry, a.actor.name, q, now))
  {
    var check := q => CheckOf(registry, a.actor.name, q, now);
    var qs := a.Requests();
    var c := Verify(registry, a, now).confidence;
    FoldConfidence(a.actor.name, Opening(registry, a), qs, check);
    forall q: WireRequest ensures
        var access := CanAct(registry, a.actor.name, q.resource, q.op, now);
        if Held(registry, a.actor.name, q, now) then access.confidence > 0.0 else access.confidence == 0.0
    {
      if !(q.resource.isPublic && q.op == Read) {
        CanActMeaning(registry, a.actor.name, q.resource, q.op, now);
      }
    }
    forall q | q in qs ensures c <= CanAct(registry, a.actor.name, q.resource, q.op, now).confidence {
      var i :| 0 <= i < |qs| && qs[i] == q;
      assert c <= check(qs[i]).access.confidence;
    }
    if c != 1.0 {
      var i :| 0 <= i < |qs| && c == check(qs[i]).access.confidence;
      assert qs[i] in qs;
    }
  }

  /** `more` knows at least the claims and owners of `registry`. */
  ghost predicate Extends(more: RegistryWire, registry: RegistryWire) {
    && (forall c :: c in registry.claims ==> c in more.claims)
    && (forall m :: m in registry.machineOwners ==> m in more.machineOwners)
  }

  lemma {:induction false} AccessMonotone(registry: RegistryWire, more: RegistryWire, actor: string, r: ResourceWire, op: Operation, now: real, earlier: real)
    requires Extends(more, registry) && earlier <= now
    ensures var a, b := CanAct(registry, actor, r, op, now), CanAct(more, actor, r, op, earlier);
      (a.permitted ==> b.permitted) && a.confidence <= b.confidence
  {
    if !(r.isPublic && op == Read) {
      CanActMeaning(registry, actor, r, op, now);
      CanActMeaning(more, actor, r, op, earlier);
      if CanAct(registry, actor, r, op, now).permitted {
        var c :| c in registry.claims && Matches(c, actor, r, op, now)
          && c.confidence == CanAct(registry, actor, r, op, now).confidence;
        assert c in more.claims && Matches(c, actor, r, op, earlier);
      }
    }
  }

  /** The verdict is monotone: more claims or owners, or an earlier clock, never
      turn a permitted action into a blocked one and never lower the confidence. */
  lemma {:induction false} VerdictMonotone(registry: RegistryWire, more: RegistryWire, a: ActionWire, now: real, earlier: real)
    requires Extends(more, registry) && earlier <= now
    ensures Verify(registry, a, now).permitted ==> Verify(more, a, earlier).permitted
    ensures Verify(registry, a, now).confidence <= Verify(more, a, earlier).confidence
  {
    var f, g := q => CheckOf(registry, a.actor.name, q, now), q => CheckOf(more, a.actor.name, q, earlier);
    var qs := a.Requests();
    forall q ensures (f(q).access.permitted ==> g(q).access.permitted) && f(q).access.confidence <= g(q).access.confidence {
      AccessMonotone(registry, more, a.actor.name, q.resource, q.op, now, earlier);
    }
    if HasOwner(registry, a.actor.name) {
      var i :| 0 <= i < |registry.machineOwners| && registry.machineOwners[i].machine.name == a.actor.name;
      assert registry.machineOwners[i] in more.machineOwners;
    }
    PreliminaryEmptyIff(a.flags, a.actor, HasOwner(registry, a.actor.name), a.governsHumans);
    PreliminaryEmptyIff(a.flags, a.actor, HasOwner(more, a.actor.name), a.governsHumans);
    FoldPermits(a.actor.name, Opening(registry, a), qs, f);
    FoldPermits(a.actor.name, Opening(more, a), qs, g);
    FoldConfidence(a.actor.name, Opening(registry, a), qs, f);
    FoldConfidence(a.actor.name, Opening(more, a), qs, g);
  }
}
