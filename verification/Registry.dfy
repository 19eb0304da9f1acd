/** The ownership registry: a growing list of claims, the owners of machines and
    the log of conflicting write claims.  `State` and `Handle` specify it on
    values; the class updates its fields in place and is proved against them. */
module Registry {
  import opened Entities
  import opened Sequences

  datatype Conflict = Conflict(resource: Resource, claimantA: Entity, claimantB: Entity)

  datatype State = State(
    claims: seq<RightsClaim>,
    owners: map<Entity, Entity>,
    conflicts: seq<Conflict>,
    frozen: bool)

  datatype Refusal =
    | Frozen
    | NotMachine(entity: Entity)
    | NotHuman(entity: Entity)
    | NoDelegatableClaim(grantor: Entity)
    | DelegatorLacks(op: Operation)
    | ConfidenceExceeds(best: real)

  datatype Outcome = Done | Refused(why: Refusal)

  datatype Request =
    | AddClaim(claim: RightsClaim)
    | DelegateClaim(claim: RightsClaim, grantor: Entity)
    | RegisterMachine(machine: Entity, owner: Entity)

  /** A request together with the clock reading at which it is served. */
  datatype Event = Event(request: Request, now: real)

  datatype Access = Access(permitted: bool, confidence: real)

  const EMPTY: State := State([], map[], [], false)

  // ----- Attenuation

  predicate Delegatable(c: RightsClaim, grantor: Entity, key: ResourceKey, now: real) {
    c.holder == grantor && c.resource.Key() == key && c.canDelegate && c.IsValid(now)
  }

  function Delegator(claims: seq<RightsClaim>, grantor: Entity, key: ResourceKey, now: real): Option<nat> {
    BestWhere(claims, c => Delegatable(c, grantor, key, now))
  }

  /** The child grants no right the parent lacks. */
  predicate RightsWithin(child: RightsClaim, parent: RightsClaim) {
    && (child.canRead ==> parent.canRead)
    && (child.canWrite ==> parent.canWrite)
    && (child.canDelegate ==> parent.canDelegate)
  }

  predicate Attenuates(child: RightsClaim, parent: RightsClaim) {
    RightsWithin(child, parent) && child.confidence <= parent.confidence
  }

  /** The checks of a delegation against the selected delegator claim, in order. */
  function AttenuationRefusal(claim: RightsClaim, best: RightsClaim): (r: Option<Refusal>)
    ensures r.None? <==> Attenuates(claim, best)
  {
    if claim.canRead && !best.canRead then Some(DelegatorLacks(Read))
    else if claim.canWrite && !best.canWrite then Some(DelegatorLacks(Write))
    else if claim.canDelegate && !best.canDelegate then Some(DelegatorLacks(Delegate))
    else if claim.confidence > best.confidence then Some(ConfidenceExceeds(best.confidence))
    else None
  }

  function DelegateOutcome(claims: seq<RightsClaim>, claim: RightsClaim, grantor: Entity, now: real): Outcome {
    match Delegator(claims, grantor, claim.resource.Key(), now)
    case None => Refused(NoDelegatableClaim(grantor))
    case Some(k) =>
      match AttenuationRefusal(claim, claims[k])
      case None => Done
      case Some(why) => Refused(why)
  }

  // ----- Conflicts

  /** `existing` is a live write claim of another holder on the same resource. */
  predicate Contends(existing: RightsClaim, claim: RightsClaim, now: real) {
    && existing.resource.Key() == claim.resource.Key()
    && existing.holder != claim.holder
    && existing.canWrite
    && claim.canWrite
    && existing.IsValid(now)
  }

  function DetectConflict(claims: seq<RightsClaim>, claim: RightsClaim, now: real): Option<Conflict> {
    match FirstIndex(claims, c => Contends(c, claim, now))
    case None => None
    case Some(i) => Some(Conflict(claim.resource, claims[i].holder, claim.holder))
  }

  // ----- Transitions

  function Append(s: State, claim: RightsClaim, now: real): State {
    var conflict := DetectConflict(s.claims, claim, now);
    s.(claims := s.claims + [claim],
       conflicts := if conflict.Some? then s.conflicts + [conflict.value] else s.conflicts)
  }

  function Handle(s: State, e: Event): (State, Outcome) {
    if s.frozen then (s, Refused(Frozen))
    else
      match e.request
      case AddClaim(claim) => (Append(s, claim, e.now), Done)
      case DelegateClaim(claim, grantor) =>
        var outcome := DelegateOutcome(s.claims, claim, grantor, e.now);
        (if outcome.Done? then Append(s, claim, e.now) else s, outcome)
      case RegisterMachine(machine, owner) =>
        if !machine.IsMachine() then (s, Refused(NotMachine(machine)))
        else if !owner.IsHuman() then (s, Refused(NotHuman(owner)))
        else (s.(owners := s.owners[machine := owner]), Done)
  }

  function Run(s: State, events: seq<Event>): State {
    if events == [] then s
    else Handle(Run(s, events[..|events| - 1]), events[|events| - 1]).0
  }

  // ----- Queries

  predicate Matches(c: RightsClaim, holder: Entity, key: ResourceKey, now: real) {
    c.holder == holder && c.resource.Key() == key && c.IsValid(now)
  }

  predicate Authorizes(c: RightsClaim, holder: Entity, key: ResourceKey, op: Operation, now: real) {
    Matches(c, holder, key, now) && c.Covers(op, now)
  }

  function ClaimsFor(s: State, holder: Entity, key: ResourceKey, now: real): seq<RightsClaim> {
    Filter(s.claims, c => Matches(c, holder, key, now))
  }

  function CanAct(s: State, holder: Entity, key: ResourceKey, op: Operation, now: real): Access {
    if key.isPublic && op == Read then Access(true, 1.0)
    else
      match BestWhere(s.claims, c => Authorizes(c, holder, key, op, now))
      case None => Access(false, 0.0)
      case Some(k) => Access(true, s.claims[k].confidence)
  }

  // ----- What the transitions mean

  /** A delegation goes through exactly when the delegator's first claim of
      greatest confidence, among the delegatable and valid ones on that resource,
      exists and dominates the new claim. */
  lemma {:induction false} DelegateAcceptsIff(claims: seq<RightsClaim>, claim: RightsClaim, grantor: Entity, now: real)
    ensures DelegateOutcome(claims, claim, grantor, now).Done? <==>
            exists k: nat ::
              && IsFirstGreatest(claims, c => Delegatable(c, grantor, claim.resource.Key(), now), k)
              && Attenuates(claim, claims[k])
  {
  }

  /** The answer of `CanAct` in terms of the claims: it permits exactly when some
      matching claim is live, and reports the greatest confidence among those. */
  lemma {:induction false} CanActMeaning(s: State, holder: Entity, key: ResourceKey, op: Operation, now: real)
    requires !(key.isPublic && op == Read)
    ensures var a := CanAct(s, holder, key, op, now);
      && (a.permitted <==> exists c :: c in s.claims && Authorizes(c, holder, key, op, now))
      && (a.permitted ==> exists c :: c in s.claims && Authorizes(c, holder, key, op, now) && c.confidence == a.confidence)
      && (a.permitted ==> a.confidence > 0.0)
      && (!a.permitted ==> a.confidence == 0.0)
      && (forall c :: c in s.claims && Authorizes(c, holder, key, op, now) ==> c.confidence <= a.confidence)
  {
  }

  /** The claims list only grows, and so does the conflict log. */
  lemma {:induction false} RunOnlyAppends(s: State, events: seq<Event>)
    ensures s.claims <= Run(s, events).claims
    ensures s.conflicts <= Run(s, events).conflicts
    ensures Run(s, events).frozen == s.frozen
  {
    if events != [] {
      RunOnlyAppends(s, events[..|events| - 1]);
    }
  }

  /** Only machines are ever owned, and only by humans. */
  lemma {:induction false} OwnersAreHuman(events: seq<Event>)
    ensures forall m :: m in Run(EMPTY, events).owners ==> m.IsMachine() && Run(EMPTY, events).owners[m].IsHuman()
  {
    if events != [] {
      OwnersAreHuman(events[..|events| - 1]);
    }
  }

  /** On a snapshot every request is refused and nothing ever changes. */
  lemma {:induction false} SnapshotIsImmutable(s: State, events: seq<Event>)
    requires s.frozen
    ensures Run(s, events) == s
    ensures forall e :: e in events ==> Handle(s, e) == (s, Refused(Frozen))
  {
    if events != [] {
      SnapshotIsImmutable(s, events[..|events| - 1]);
    }
  }

  // ----- The mutable registry

  /** A list that is appended to in place, and may be shared. */
  class List<T> {
    var items: seq<T>

    constructor (items: seq<T>)
      ensures this.items == items
    {
      this.items := items;
    }

    method Append(x: T)
      modifies this
      ensures items == old(items) + [x]
    {
      items := items + [x];
    }
  }

  /** A dictionary from machines to owners that is updated in place, and may be shared. */
  class OwnerTable {
    var entries: map<Entity, Entity>

    constructor (entries: map<Entity, Entity>)
      ensures this.entries == entries
    {
      this.entries := entries;
    }

    method Put(machine: Entity, owner: Entity)
      modifies this
      ensures entries == old(entries)[machine := owner]
    {
      entries := entries[machine := owner];
    }
  }

  class OwnershipRegistry {
    const claims: List<RightsClaim>
    const machineOwners: OwnerTable
    const conflicts: List<Conflict>
    var frozen: bool

    ghost function Repr(): set<object> { {this, claims, machineOwners, conflicts} }

    ghost function Abs(): State
      reads Repr()
    {
      State(claims.items, machineOwners.entries, conflicts.items, frozen)
    }

    constructor ()
      ensures Abs() == EMPTY
      ensures fresh(Repr())
    {
      claims := new List([]);
      machineOwners := new OwnerTable(map[]);
      conflicts := new List([]);
      frozen := false;
    }

    /** Takes over the given containers themselves, as the generated initialiser does. */
    constructor FromParts(claims: List<RightsClaim>, owners: OwnerTable, conflicts: List<Conflict>)
      ensures this.claims == claims && machineOwners == owners && this.conflicts == conflicts && !frozen
    {
      this.claims, machineOwners, this.conflicts, frozen := claims, owners, conflicts, false;
    }

    /** Copies the three containers: nothing of the snapshot existed before. */
    method Freeze() returns (snapshot: OwnershipRegistry)
      ensures fresh(snapshot.Repr())
      ensures snapshot.Abs() == Abs().(frozen := true)
    {
      var claimsCopy := new List(claims.items);
      var ownersCopy := new OwnerTable(machineOwners.entries);
      var conflictsCopy := new List(conflicts.items);
      snapshot := new OwnershipRegistry.FromParts(claimsCopy, ownersCopy, conflictsCopy);
      snapshot.frozen := true;
    }

    method FindConflict(claim: RightsClaim, now: real) returns (conflict: Option<Conflict>)
      ensures conflict == DetectConflict(claims.items, claim, now)
    {
      var p := c => Contends(c, claim, now);
      for i := 0 to |claims.items|
        invariant forall j :: 0 <= j < i ==> !Contends(claims.items[j], claim, now)
      {
        var existing := claims.items[i];
        if Contends(existing, claim, now) {
          FirstIndexUnique(claims.items, p, i);
          return Some(Conflict(claim.resource, existing.holder, claim.holder));
        }
      }
      return None;
    }

    method AddClaim(claim: RightsClaim, now: real) returns (outcome: Outcome)
      modifies claims, conflicts
      ensures (Abs(), outcome) == Handle(old(Abs()), Event(Request.AddClaim(claim), now))
    {
      if frozen {
        return Refused(Frozen);
      }
      var conflict := FindConflict(claim, now);
      if conflict.Some? {
        conflicts.Append(conflict.value);
      }
      claims.Append(claim);
      return Done;
    }

    method Delegate(claim: RightsClaim, grantor: Entity, now: real) returns (outcome: Outcome)
      modifies claims, conflicts
      ensures (Abs(), outcome) == Handle(old(Abs()), Event(DelegateClaim(claim, grantor), now))
    {
      if frozen {
        return Refused(Frozen);
      }
      var candidate := MaxByConfidence(c => Delegatable(c, grantor, claim.resource.Key(), now));
      if candidate.None? {
        return Refused(NoDelegatableClaim(grantor));
      }
      var best := claims.items[candidate.value];
      if claim.canRead && !best.canRead {
        return Refused(DelegatorLacks(Read));
      }
      if claim.canWrite && !best.canWrite {
        return Refused(DelegatorLacks(Write));
      }
      if claim.canDelegate && !best.canDelegate {
        return Refused(DelegatorLacks(Operation.Delegate));
      }
      if claim.confidence > best.confidence {
        return Refused(ConfidenceExceeds(best.confidence));
      }
      var conflict := FindConflict(claim, now);
      if conflict.Some? {
        conflicts.Append(conflict.value);
      }
      claims.Append(claim);
      return Done;
    }

    /** `max(candidates, key=confidence)`: the first of the greatest. */
    method MaxByConfidence(p: RightsClaim -> bool) returns (best: Option<nat>)
      ensures best == BestWhere(claims.items, p)
    {
      var items := claims.items;
      best := None;
      for i := 0 to |items|
        invariant best.None? ==> forall j :: 0 <= j < i ==> !p(items[j])
        invariant best.Some? ==> best.value < i && IsFirstGreatest(items[..i], p, best.value)
      {
        if p(items[i]) && (best.None? || items[i].confidence > items[best.value].confidence) {
          best := Some(i);
        }
      }
      if best.Some? {
        assert items[..|items|] == items;
        BestWhereUnique(items, p, best.value);
      }
    }

    method RegisterMachine(machine: Entity, owner: Entity, now: real) returns (outcome: Outcome)
      modifies machineOwners
      ensures (Abs(), outcome) == Handle(old(Abs()), Event(Request.RegisterMachine(machine, owner), now))
    {
      if frozen {
        return Refused(Frozen);
      }
      if !machine.IsMachine() {
        return Refused(NotMachine(machine));
      }
      if !owner.IsHuman() {
        return Refused(NotHuman(owner));
      }
      machineOwners.Put(machine, owner);
      return Done;
    }

    method HeldClaims(holder: Entity, resource: Resource, now: real) returns (held: seq<RightsClaim>)
      ensures held == ClaimsFor(Abs(), holder, resource.Key(), now)
    {
      var items := claims.items;
      held := [];
      for i := 0 to |items|
        invariant held == Filter(items[..i], c => Matches(c, holder, resource.Key(), now))
      {
        assert items[..i + 1][..i] == items[..i];
        if Matches(items[i], holder, resource.Key(), now) {
          held := held + [items[i]];
        }
      }
      assert items[..|items|] == items;
    }

    method CheckAccess(holder: Entity, resource: Resource, op: Operation, now: real) returns (access: Access)
      ensures access == CanAct(Abs(), holder, resource.Key(), op, now)
    {
      if resource.isPublic && op == Read {
        return Access(true, 1.0);
      }
      var best := MaxByConfidence(c => Authorizes(c, holder, resource.Key(), op, now));
      if best.None? {
        return Access(false, 0.0);
      }
      return Access(true, claims.items[best.value].confidence);
    }

    method OwnerOf(machine: Entity) returns (owner: Option<Entity>)
      ensures owner.Some? <==> machine in Abs().owners
      ensures owner.Some? ==> owner.value == Abs().owners[machine]
    {
      owner := if machine in machineOwners.entries then Some(machineOwners.entries[machine]) else None;
    }

    /** One mutator call. */
    method ServeOne(e: Event) returns (outcome: Outcome)
      modifies claims, machineOwners, conflicts
      ensures (Abs(), outcome) == Handle(old(Abs()), e)
    {
      match e.request
      case AddClaim(claim) => outcome := AddClaim(claim, e.now);
      case DelegateClaim(claim, grantor) => outcome := Delegate(claim, grantor, e.now);
      case RegisterMachine(machine, owner) => outcome := RegisterMachine(machine, owner, e.now);
    }

    /** Serves any sequence of mutator calls. */
    method Serve(events: seq<Event>)
      modifies claims, machineOwners, conflicts
      ensures Abs() == Run(old(Abs()), events)
    {
      for i := 0 to |events|
        invariant Abs() == Run(old(Abs()), events[..i])
      {
        assert events[..i + 1][..i] == events[..i];
        var outcome := ServeOne(events[i]);
      }
      assert events[..|events|] == events;
    }

    /** Whatever is later asked of the original or of the snapshot, the snapshot
        keeps every answer it had at the moment of freezing, while the original
        evolves as if no snapshot had been taken.  It rests on the copies: the calls
        on the original write to its containers, and the snapshot has others. */
    method FreezeThenMutate(later: seq<Event>, onSnapshot: seq<Event>) returns (snapshot: OwnershipRegistry)
      modifies claims, machineOwners, conflicts
      ensures fresh(snapshot.Repr())
      ensures snapshot.Abs() == old(Abs()).(frozen := true)
      ensures Abs() == Run(old(Abs()), later)
      ensures forall holder, key, op, now ::
                CanAct(snapshot.Abs(), holder, key, op, now) == CanAct(old(Abs()), holder, key, op, now)
      ensures forall holder, key, now ::
                ClaimsFor(snapshot.Abs(), holder, key, now) == ClaimsFor(old(Abs()), holder, key, now)
    {
      snapshot := Freeze();
      Serve(later);
      SnapshotIsImmutable(snapshot.Abs(), onSnapshot);
      snapshot.Serve(onSnapshot);
    }

    /** The copies are needed: a frozen registry over the very list of the original
        loses its answers to the next assertion, although its flag refuses calls. */
    method SharedListLeaks(claim: RightsClaim, now: real) returns (alias: OwnershipRegistry)
      requires !frozen
      modifies claims, conflicts
      ensures alias.frozen && alias.claims == claims && Abs().claims == old(Abs()).claims + [claim]
      ensures alias.Abs().claims != old(Abs()).claims
    {
      alias := new OwnershipRegistry.FromParts(claims, machineOwners, conflicts);
      alias.frozen := true;
      var outcome := AddClaim(claim, now);
    }
  }
}
