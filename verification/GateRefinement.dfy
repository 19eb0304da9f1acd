/** The wire engine against the typed gate on the same registry state.  The engine
    matches holders and resources by name; the typed gate compares them whole. */
module GateRefinement {
  import opened Entities
  import opened Sequences
  import opened Registry
  import opened Verdicts
  import opened Gate
  import E = Engine

  // ----- Conversion to the wire

  function WireResource(r: Resource): E.ResourceWire {
    E.ResourceWire(r.name, TypeName(r.rtype), r.scope, r.isPublic, r.ifcLabel)
  }

  function WireResources(rs: seq<Resource>): (w: seq<E.ResourceWire>)
    ensures |w| == |rs| && forall i :: 0 <= i < |rs| ==> w[i] == WireResource(rs[i])
  {
    if rs == [] then [] else WireResources(rs[..|rs| - 1]) + [WireResource(rs[|rs| - 1])]
  }

  /** The label of a claimed resource is dropped. */
  function WireClaim(c: RightsClaim): E.ClaimWire {
    E.ClaimWire(c.holder, WireResource(c.resource).(ifcLabel := ""), c.canRead, c.canWrite, c.canDelegate, c.confidence, c.expiresAt)
  }

  function WireAction(a: Action): E.ActionWire {
    E.ActionWire(a.actionId, a.actor, a.description, WireResources(a.resourcesRead), WireResources(a.resourcesWrite),
                 WireResources(a.resourcesDelegate), a.governsHumans, a.argument, a.flags)
  }

  function WireOwner(machine: Entity, owner: Entity): E.MachineOwnerWire {
    E.MachineOwnerWire(Entity(machine.name, Machine), Entity(owner.name, Human))
  }

  /** `w` lists the claims of `s` in order and its owners in any order, as the
      iteration over a hash map may produce them. */
  ghost predicate IsWireOf(w: E.RegistryWire, s: State) {
    && |w.claims| == |s.claims|
    && (forall i :: 0 <= i < |s.claims| ==> w.claims[i] == WireClaim(s.claims[i]))
    && (forall m :: m in s.owners ==> WireOwner(m, s.owners[m]) in w.machineOwners)
    && (forall o :: o in w.machineOwners ==> exists m :: m in s.owners && o == WireOwner(m, s.owners[m]))
  }

  function WireClaims(claims: seq<RightsClaim>): (w: seq<E.ClaimWire>)
    ensures |w| == |claims| && forall i :: 0 <= i < |claims| ==> w[i] == WireClaim(claims[i])
  {
    if claims == [] then [] else WireClaims(claims[..|claims| - 1]) + [WireClaim(claims[|claims| - 1])]
  }

  /** Every state has a wire form: the claims are mapped in order, and the owners are
      taken off the map in whatever order it yields them. */
  method BuildRegistryWire(s: State) returns (w: E.RegistryWire)
    ensures IsWireOf(w, s)
  {
    var owners: seq<E.MachineOwnerWire> := [];
    var rest := s.owners.Keys;
    while rest != {}
      invariant rest <= s.owners.Keys
      invariant forall m :: m in s.owners && m !in rest ==> WireOwner(m, s.owners[m]) in owners
      invariant forall o :: o in owners ==> exists m :: m in s.owners && o == WireOwner(m, s.owners[m])
      decreases rest
    {
      var m :| m in rest;
      owners := owners + [WireOwner(m, s.owners[m])];
      rest := rest - {m};
    }
    w := E.RegistryWire(WireClaims(s.claims), owners);
  }

  /** For what the action touches, a holder name determines the holder, and a
      resource name and type determine the resource. */
  ghost predicate NamesDetermine(s: State, a: Action) {
    && (forall c :: c in s.claims && c.holder.name == a.actor.name ==> c.holder == a.actor)
    && (forall m :: m in s.owners && m.name == a.actor.name ==> m == a.actor)
    && (forall c, q :: c in s.claims && q in a.Requests()
          && c.resource.name == q.resource.name && c.resource.rtype == q.resource.rtype
          ==> c.resource.Key() == q.resource.Key())
  }

  // ----- What the conversion keeps

  /** Field by field: everything of a resource but the label of a claimed one. */
  lemma {:induction false} WireFields(c: RightsClaim, machine: Entity, owner: Entity, a: Action)
    ensures var w := WireClaim(c);
      && w.holder == c.holder && w.confidence == c.confidence && w.expiresAt == c.expiresAt
      && w.canRead == c.canRead && w.canWrite == c.canWrite && w.canDelegate == c.canDelegate
      && w.resource.name == c.resource.name && w.resource.rtype == TypeName(c.resource.rtype)
      && w.resource.scope == c.resource.scope && w.resource.isPublic == c.resource.isPublic && w.resource.ifcLabel == ""
    ensures WireOwner(machine, owner).machine.name == machine.name && WireOwner(machine, owner).machine.kind == Machine
    ensures WireOwner(machine, owner).owner.name == owner.name && WireOwner(machine, owner).owner.kind == Human
    ensures var w := WireAction(a);
      && w.actionId == a.actionId && w.actor == a.actor && w.description == a.description && w.argument == a.argument
      && w.governsHumans == a.governsHumans && w.flags == a.flags
      && |w.resourcesRead| == |a.resourcesRead| && |w.resourcesWrite| == |a.resourcesWrite|
      && |w.resourcesDelegate| == |a.resourcesDelegate|
      && (forall i :: 0 <= i < |a.resourcesRead| ==> SameOnWire(w.resourcesRead[i], a.resourcesRead[i]))
      && (forall i :: 0 <= i < |a.resourcesWrite| ==> SameOnWire(w.resourcesWrite[i], a.resourcesWrite[i]))
      && forall i :: 0 <= i < |a.resourcesDelegate| ==> SameOnWire(w.resourcesDelegate[i], a.resourcesDelegate[i])
  {
    hide TypeName;
  }

  predicate SameOnWire(w: E.ResourceWire, r: Resource) {
    w.name == r.name && w.rtype == TypeName(r.rtype) && w.scope == r.scope && w.isPublic == r.isPublic && w.ifcLabel == r.ifcLabel
  }

  lemma {:induction false} SameOnWireInjective(w: E.ResourceWire, r: Resource, q: Resource)
    requires SameOnWire(w, r) && SameOnWire(w, q)
    ensures r == q
  {
    TypeNameInjective(r.rtype, q.rtype);
    hide TypeName;
  }

  lemma {:induction false} WireResourcesInjective(rs: seq<Resource>, qs: seq<Resource>)
    requires WireResources(rs) == WireResources(qs)
    ensures rs == qs
  {
    var w := WireResources(rs);
    forall i | 0 <= i < |rs| ensures rs[i] == qs[i] {
      assert w[i] == WireResource(rs[i]) == WireResource(qs[i]);
      hide TypeName;
      SameOnWireInjective(w[i], rs[i], qs[i]);
    }
  }

  /** Nothing of an action is lost on the wire. */
  lemma {:induction false} WireActionInjective(a: Action, b: Action)
    ensures WireAction(a) == WireAction(b) <==> a == b
  {
    if WireAction(a) == WireAction(b) {
      WireResourcesInjective(a.resourcesRead, b.resourcesRead);
      WireResourcesInjective(a.resourcesWrite, b.resourcesWrite);
      WireResourcesInjective(a.resourcesDelegate, b.resourcesDelegate);
    }
  }

  // ----- One access

  /** A claim the typed gate accepts is one the engine accepts. */
  lemma {:induction false} AuthorizesMatches(c: RightsClaim, actor: Entity, q: AccessRequest, now: real)
    requires Authorizes(c, actor, q.resource.Key(), q.op, now)
    ensures E.Matches(WireClaim(c), actor.name, WireResource(q.resource), q.op, now)
  {
  }

  lemma {:induction false} MatchesAuthorizes(c: RightsClaim, actor: Entity, q: AccessRequest, now: real)
    requires E.Matches(WireClaim(c), actor.name, WireResource(q.resource), q.op, now)
    ensures c.holder.name == actor.name && c.resource.name == q.resource.name && c.resource.rtype == q.resource.rtype
    ensures c.holder == actor && c.resource.Key() == q.resource.Key() ==> Authorizes(c, actor, q.resource.Key(), q.op, now)
  {
  }

  function TypedAccess(s: State, actor: Entity, q: AccessRequest, now: real): Access {
    Registry.CanAct(s, actor, q.resource.Key(), q.op, now)
  }

  function WireAccess(w: E.RegistryWire, actor: Entity, q: AccessRequest, now: real): Access {
    E.CanAct(w, actor.name, WireResource(q.resource), q.op, now)
  }

  /** The claim behind an answer of the typed registry is one that the engine matches. */
  lemma {:induction false} AccessAhead(s: State, w: E.RegistryWire, actor: Entity, q: AccessRequest, now: real) returns (k: nat)
    requires IsWireOf(w, s) && !(q.resource.isPublic && q.op == Read) && TypedAccess(s, actor, q, now).permitted
    ensures k < |w.claims| && E.Matches(w.claims[k], actor.name, WireResource(q.resource), q.op, now)
    ensures w.claims[k].confidence == TypedAccess(s, actor, q, now).confidence
  {
    hide TypeName, Registry.CanAct, E.Matches, Authorizes;
    CanActMeaning(s, actor, q.resource.Key(), q.op, now);
    var c :| c in s.claims && Authorizes(c, actor, q.resource.Key(), q.op, now) && c.confidence == TypedAccess(s, actor, q, now).confidence;
    k :| 0 <= k < |s.claims| && s.claims[k] == c;
    AuthorizesMatches(c, actor, q, now);
  }

  lemma {:induction false} AccessRefines(s: State, w: E.RegistryWire, actor: Entity, q: AccessRequest, now: real)
    requires IsWireOf(w, s)
    ensures TypedAccess(s, actor, q, now).permitted ==> WireAccess(w, actor, q, now).permitted
    ensures TypedAccess(s, actor, q, now).confidence <= WireAccess(w, actor, q, now).confidence
  {
    if !(q.resource.isPublic && q.op == Read) {
      hide Registry.CanAct, E.CanAct, E.Matches, Authorizes, IsWireOf, WireResource;
      CanActMeaning(s, actor, q.resource.Key(), q.op, now);
      E.CanActMeaning(w, actor.name, WireResource(q.resource), q.op, now);
      if TypedAccess(s, actor, q, now).permitted {
        var k := AccessAhead(s, w, actor, q, now);
        assert w.claims[k] in w.claims;
      }
    }
  }

  lemma {:induction false} NamedClaim(s: State, a: Action, q: AccessRequest, c: RightsClaim)
    requires NamesDetermine(s, a) && q in a.Requests() && c in s.claims
    requires c.holder.name == a.actor.name && c.resource.name == q.resource.name && c.resource.rtype == q.resource.rtype
    ensures c.holder == a.actor && c.resource.Key() == q.resource.Key()
  {
  }

  /** When names determine, a claim behind an answer of the engine is one behind an
      answer of the typed registry. */
  lemma {:induction false} AccessBehind(s: State, w: E.RegistryWire, a: Action, q: AccessRequest, now: real) returns (c: RightsClaim)
    requires IsWireOf(w, s) && NamesDetermine(s, a) && q in a.Requests()
    requires !(q.resource.isPublic && q.op == Read) && WireAccess(w, a.actor, q, now).permitted
    ensures c in s.claims && Authorizes(c, a.actor, q.resource.Key(), q.op, now)
    ensures c.confidence == WireAccess(w, a.actor, q, now).confidence
  {
    hide TypeName, E.CanAct, NamesDetermine, E.Matches, Authorizes;
    var r, wire := WireResource(q.resource), WireAccess(w, a.actor, q, now);
    E.CanActMeaning(w, a.actor.name, r, q.op, now);
    var d :| d in w.claims && E.Matches(d, a.actor.name, r, q.op, now) && d.confidence == wire.confidence;
    var i :| 0 <= i < |w.claims| && w.claims[i] == d;
    c := s.claims[i];
    assert d == WireClaim(c);
    MatchesAuthorizes(c, a.actor, q, now);
    NamedClaim(s, a, q, c);
  }

  lemma {:induction false} AccessEqual(s: State, w: E.RegistryWire, a: Action, q: AccessRequest, now: real)
    requires IsWireOf(w, s) && NamesDetermine(s, a) && q in a.Requests()
    ensures TypedAccess(s, a.actor, q, now) == WireAccess(w, a.actor, q, now)
  {
    AccessRefines(s, w, a.actor, q, now);
    if !(q.resource.isPublic && q.op == Read) {
      hide Registry.CanAct, E.CanAct, NamesDetermine, E.Matches, Authorizes, WireClaim;
      CanActMeaning(s, a.actor, q.resource.Key(), q.op, now);
      E.CanActMeaning(w, a.actor.name, WireResource(q.resource), q.op, now);
      if WireAccess(w, a.actor, q, now).permitted {
        var c := AccessBehind(s, w, a, q, now);
      }
    }
  }

  // ----- The verdict

  lemma {:induction false} AskedAligned(op: Operation, rs: seq<Resource>)
    ensures var qs, ws := Gate.Asked(op, rs), E.Asked(op, WireResources(rs));
      |qs| == |ws| && forall i :: 0 <= i < |qs| ==> ws[i] == E.WireRequest(qs[i].op, WireResource(qs[i].resource))
  {
  }

  lemma {:induction false} RequestsAligned(a: Action)
    ensures var qs, ws := a.Requests(), WireAction(a).Requests();
      |qs| == |ws| && forall i :: 0 <= i < |qs| ==> ws[i] == E.WireRequest(qs[i].op, WireResource(qs[i].resource))
  {
    AskedAligned(Read, a.resourcesRead);
    AskedAligned(Write, a.resourcesWrite);
    AskedAligned(Operation.Delegate, a.resourcesDelegate);
    hide WireResource, WireResources, Gate.Asked, E.Asked;
  }

  lemma {:induction false} OwnerRefines(s: State, w: E.RegistryWire, a: Action)
    requires IsWireOf(w, s)
    ensures a.actor in s.owners ==> E.HasOwner(w, a.actor.name)
    ensures NamesDetermine(s, a) ==> (a.actor in s.owners <==> E.HasOwner(w, a.actor.name))
  {
    if a.actor in s.owners {
      var o := WireOwner(a.actor, s.owners[a.actor]);
      var i :| 0 <= i < |w.machineOwners| && w.machineOwners[i] == o;
      assert w.machineOwners[i].machine.name == a.actor.name;
    }
    if E.HasOwner(w, a.actor.name) && NamesDetermine(s, a) {
      var i :| 0 <= i < |w.machineOwners| && w.machineOwners[i].machine.name == a.actor.name;
      assert w.machineOwners[i] in w.machineOwners;
      var m :| m in s.owners && w.machineOwners[i] == WireOwner(m, s.owners[m]);
    }
  }

  /** Main theorem: on the same registry state, clock and action, whatever the typed
      gate permits the engine permits, with a confidence at least as high. */
  lemma {:induction false} EngineRefinesGate(s: State, w: E.RegistryWire, a: Action, now: real)
    requires IsWireOf(w, s)
    ensures Gate.Verify(s, a, now).permitted ==> E.Verify(w, WireAction(a), now).permitted
    ensures Gate.Verify(s, a, now).confidence <= E.Verify(w, WireAction(a), now).confidence
  {
    var f, g := q => Gate.CheckOf(s, a.actor, q, now), q => E.CheckOf(w, a.actor.name, q, now);
    var qs, ws := a.Requests(), WireAction(a).Requests();
    RequestsAligned(a);
    OwnerRefines(s, w, a);
    forall i | 0 <= i < |qs|
      ensures f(qs[i]).access.permitted ==> g(ws[i]).access.permitted
      ensures f(qs[i]).access.confidence <= g(ws[i]).access.confidence
    {
      AccessRefines(s, w, a.actor, qs[i], now);
    }
    PreliminaryEmptyIff(a.flags, a.actor, a.actor in s.owners, a.governsHumans);
    PreliminaryEmptyIff(a.flags, a.actor, E.HasOwner(w, a.actor.name), a.governsHumans);
    FoldPermits(a.actor.name, Gate.Opening(s, a), qs, f);
    FoldPermits(a.actor.name, E.Opening(w, WireAction(a)), ws, g);
    FoldConfidence(a.actor.name, Gate.Opening(s, a), qs, f);
    FoldConfidence(a.actor.name, E.Opening(w, WireAction(a)), ws, g);
  }

  /** When names determine what they name, both gates return the same verdict: the
      same violations in the same order, and the same confidence. */
  lemma {:induction false} GatesAgree(s: State, w: E.RegistryWire, a: Action, now: real)
    requires IsWireOf(w, s) && NamesDetermine(s, a)
    ensures var typed, wire := Gate.Verify(s, a, now), E.Verify(w, WireAction(a), now);
      && typed.permitted == wire.permitted
      && typed.violations == wire.violations
      && typed.confidence == wire.confidence
  {
    var f, g := q => Gate.CheckOf(s, a.actor, q, now), q => E.CheckOf(w, a.actor.name, q, now);
    var qs, ws := a.Requests(), WireAction(a).Requests();
    RequestsAligned(a);
    OwnerRefines(s, w, a);
    forall i | 0 <= i < |qs| ensures f(qs[i]).(rivals := []) == g(ws[i]).(rivals := []) {
      assert qs[i] in qs;
      AccessEqual(s, w, a, qs[i], now);
    }
    assert Gate.Opening(s, a) == E.Opening(w, WireAction(a));
    FoldEqual(a.actor.name, Gate.Opening(s, a), qs, f, ws, g);
  }

  // ----- Exactly when the gates part

  /** A claim that the engine matches, on which kind, scope and visibility agree too. */
  predicate WholeMatch(c: RightsClaim, actor: Entity, q: AccessRequest, now: real) {
    && E.Matches(WireClaim(c), actor.name, WireResource(q.resource), q.op, now)
    && c.holder.kind == actor.kind
    && c.resource.scope == q.resource.scope
    && c.resource.isPublic == q.resource.isPublic
  }

  lemma {:induction false} WholeMatchIff(c: RightsClaim, actor: Entity, q: AccessRequest, now: real)
    ensures WholeMatch(c, actor, q, now) <==> Authorizes(c, actor, q.resource.Key(), q.op, now)
  {
    TypeNameInjective(c.resource.rtype, q.resource.rtype);
    hide TypeName;
  }

  /** Every access has a whole match, unless it is a public read. */
  ghost predicate AllMatchedWhole(s: State, a: Action, now: real) {
    forall q :: q in a.Requests() && !(q.resource.isPublic && q.op == Read) ==>
      exists c :: c in s.claims && WholeMatch(c, a.actor, q, now)
  }

  lemma {:induction false} AllMatchedWholeIff(s: State, a: Action, now: real)
    ensures AllMatchedWhole(s, a, now) <==> forall q :: q in a.Requests() ==> Gate.Held(s, a.actor, q, now)
  {
    hide WholeMatch;
    forall q, c ensures WholeMatch(c, a.actor, q, now) <==> Authorizes(c, a.actor, q.resource.Key(), q.op, now) {
      WholeMatchIff(c, a.actor, q, now);
    }
  }

  /** Main theorem: for all states, actions and clocks, the typed gate permits what the
      engine permits and moreover owns a machine actor as such and matches each access
      whole.  Kind, scope and visibility of the claims, and the kind of an owned
      entity, are all that can separate the decisions. */
  lemma {:induction false} GatesPartIff(s: State, w: E.RegistryWire, a: Action, now: real)
    requires IsWireOf(w, s)
    ensures Gate.Verify(s, a, now).permitted <==>
            && E.Verify(w, WireAction(a), now).permitted
            && (a.actor.IsMachine() ==> a.actor in s.owners)
            && AllMatchedWhole(s, a, now)
  {
    hide Gate.Verify, E.Verify, AllMatchedWhole, Flags.Any;
    EngineRefinesGate(s, w, a, now);
    Gate.PermittedIff(s, a, now);
    E.PermittedIff(w, WireAction(a), now);
    AllMatchedWholeIff(s, a, now);
  }

  /** In a run, ownership does not separate them: only machines are owned, so the
      owned machine of that name is the actor. */
  lemma {:induction false} GatesPartInRunsIff(events: seq<Event>, w: E.RegistryWire, a: Action, now: real)
    requires IsWireOf(w, Run(EMPTY, events))
    ensures Gate.Verify(Run(EMPTY, events), a, now).permitted <==>
            E.Verify(w, WireAction(a), now).permitted && AllMatchedWhole(Run(EMPTY, events), a, now)
  {
    hide Gate.Verify, E.Verify, AllMatchedWhole, Flags.Any, Run;
    var s := Run(EMPTY, events);
    GatesPartIff(s, w, a, now);
    E.PermittedIff(w, WireAction(a), now);
    OwnersAreHuman(events);
    if a.actor.IsMachine() && E.HasOwner(w, a.actor.name) {
      var i :| 0 <= i < |w.machineOwners| && w.machineOwners[i].machine.name == a.actor.name;
      assert w.machineOwners[i] in w.machineOwners;
      var m :| m in s.owners && w.machineOwners[i] == WireOwner(m, s.owners[m]);
    }
  }

  function ClaimRun(c: RightsClaim): seq<Event> { [Event(AddClaim(c), 0.0)] }

  function ReadAction(actor: Entity, r: Resource): Action { Action("read", actor, "", [r], [], [], [], "", Quiet()) }

  lemma {:induction false} ClaimRunState(c: RightsClaim)
    ensures Run(EMPTY, ClaimRun(c)) == State([c], map[], [], false)
  {
    assert ClaimRun(c)[..0] == [];
    assert Run(EMPTY, []) == EMPTY;
  }

  lemma {:induction false} ReadOnWire(c: RightsClaim, actor: Entity, r: Resource, w: E.RegistryWire, now: real)
    requires w.claims == [WireClaim(c)] && actor.IsHuman()
    requires E.Matches(WireClaim(c), actor.name, WireResource(r), Read, now)
    ensures E.Verify(w, WireAction(ReadAction(actor, r)), now).permitted
  {
    hide E.Verify, E.Matches, TypeName;
    var a := WireAction(ReadAction(actor, r));
    assert a.Requests() == [E.WireRequest(Read, WireResource(r))];
    assert w.claims[0] in w.claims;
    E.PermittedIff(w, a, now);
  }

  lemma {:induction false} ReadOnGate(c: RightsClaim, actor: Entity, r: Resource, s: State, now: real)
    requires s.claims == [c] && actor.IsHuman() && !r.isPublic
    ensures Gate.Verify(s, ReadAction(actor, r), now).permitted <==> Authorizes(c, actor, r.Key(), Read, now)
  {
    hide Gate.Verify, Authorizes, Resource.Key;
    var a, q := ReadAction(actor, r), AccessRequest(Read, r);
    assert a.Requests() == [q];
    assert q in a.Requests() && s.claims[0] in s.claims;
    Gate.PermittedIff(s, a, now);
  }

  /** Each of the three ignored attributes separates them: after one assertion, a
      human of the holder's name may read a resource of the claimed name and type on
      the engine, and on the typed gate exactly when kind, scope and visibility agree. */
  lemma {:induction false} EngineIgnoresAttributes(c: RightsClaim, actor: Entity, r: Resource, w: E.RegistryWire, now: real)
    requires c.holder.name == actor.name && c.resource.name == r.name && c.resource.rtype == r.rtype
    requires c.canRead && c.IsValid(now) && !r.isPublic && actor.IsHuman()
    requires IsWireOf(w, Run(EMPTY, ClaimRun(c)))
    ensures E.Verify(w, WireAction(ReadAction(actor, r)), now).permitted
    ensures Gate.Verify(Run(EMPTY, ClaimRun(c)), ReadAction(actor, r), now).permitted <==>
            c.holder.IsHuman() && c.resource.scope == r.scope && !c.resource.isPublic
  {
    ClaimRunState(c);
    hide Gate.Verify, E.Verify, Run, TypeName;
    ReadOnWire(c, actor, r, w, now);
    ReadOnGate(c, actor, r, Run(EMPTY, ClaimRun(c)), now);
  }
}
