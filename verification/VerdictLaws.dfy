/** The verdicts of both gates in plain terms: every part of a result, read off the
    fields of the action, the claims and the conflict log. */
module VerdictLaws {
  import opened Entities
  import opened Sequences
  import opened Registry
  import opened RegistryLaws
  import opened Verdicts
  import E = Engine
  import G = Gate

  // ----- The tally as lists

  /** What one access adds to the violations. */
  ghost function DenialOf(actor: string, c: Check): seq<Violation> {
    if c.access.permitted then [] else [AccessDenied(c.op, c.rtype, c.resource, actor)]
  }

  /** What one access adds to the warnings. */
  ghost function WarningOf(c: Check): seq<Warning> {
    if c.access.permitted && c.access.confidence < 0.8 && c.op == Read then
      [Contested(Read, c.rtype, c.resource, c.access.confidence)]
    else if c.access.permitted && c.access.confidence < 0.8 && c.op == Write then
      [Contested(Write, c.rtype, c.resource, c.access.confidence)]
      + Flat(c.rivals, (pair: (string, string)) => [ConflictOn(c.rtype, c.resource, pair.0, pair.1)])
    else []
  }

  lemma {:induction false} RivalWarningsFlat(rtype: string, resource: string, rivals: seq<(string, string)>)
    ensures RivalWarnings(rtype, resource, rivals) ==
            Flat(rivals, (pair: (string, string)) => [ConflictOn(rtype, resource, pair.0, pair.1)])
  {
    if rivals != [] {
      RivalWarningsFlat(rtype, resource, rivals[..|rivals| - 1]);
    }
  }

  lemma {:induction false} CountLists(actor: string, t: Tally, c: Check)
    ensures Count(actor, t, c).violations == t.violations + DenialOf(actor, c)
    ensures Count(actor, t, c).warnings == t.warnings + WarningOf(c)
    ensures Count(actor, t, c).arbitration <==>
            t.arbitration || (c.op == Write && c.access.permitted && c.access.confidence < 0.8 && c.rivals != [])
    ensures Count(actor, t, c).confidence == if c.access.confidence < t.confidence then c.access.confidence else t.confidence
  {
    RivalWarningsFlat(c.rtype, c.resource, c.rivals);
    hide RivalWarnings, Flat;
  }

  lemma {:induction false} FlatSnoc<R, T>(xs: seq<R>, x: R, f: R -> seq<T>)
    ensures Flat(xs + [x], f) == Flat(xs, f) + f(x)
  {
    assert (xs + [x])[..|xs|] == xs;
  }

  lemma {:induction false} FoldLists<R>(actor: string, t: Tally, requests: seq<R>, check: R -> Check,
                                        denial: R -> seq<Violation>, warning: R -> seq<Warning>)
    requires forall i :: 0 <= i < |requests| ==>
               denial(requests[i]) == DenialOf(actor, check(requests[i])) && warning(requests[i]) == WarningOf(check(requests[i]))
    ensures Fold(actor, t, requests, check).violations == t.violations + Flat(requests, denial)
    ensures Fold(actor, t, requests, check).warnings == t.warnings + Flat(requests, warning)
  {
    if requests != [] {
      hide Count, WarningOf, DenialOf, Flat;
      var n := |requests| - 1;
      var init, last := requests[..n], requests[n];
      assert requests == init + [last];
      FoldSnoc(actor, t, init, last, check);
      hide Fold;
      FlatSnoc(init, last, denial);
      FlatSnoc(init, last, warning);
      FoldLists(actor, t, init, check, denial, warning);
      CountLists(actor, Fold(actor, t, init, check), check(last));
    }
  }

  lemma {:induction false} FoldArbitrates<R>(actor: string, t: Tally, requests: seq<R>, check: R -> Check)
    ensures Fold(actor, t, requests, check).arbitration <==>
            t.arbitration || exists i :: 0 <= i < |requests| && check(requests[i]).op == Write && check(requests[i]).access.permitted
                                         && check(requests[i]).access.confidence < 0.8 && check(requests[i]).rivals != []
  {
    if requests != [] {
      var n := |requests| - 1;
      hide Count;
      FoldArbitrates(actor, t, requests[..n], check);
      CountLists(actor, Fold(actor, t, requests[..n], check), check(requests[n]));
      assert forall i :: 0 <= i < n ==> requests[..n][i] == requests[i];
    }
  }

  // ----- The preliminary violations

  const FLAGS: seq<Flag> := [
    IncreasesMachineSovereignty, ResistsHumanCorrection, BypassesVerifier, WeakensVerifier, DisablesCorrigibility,
    MachineCoalitionDominion, Coerces, Deceives, SelfModificationWeakensVerifier, MachineCoalitionReducesFreedom]

  /** The bit that each flag names. */
  predicate Raised(flags: Flags, flag: Flag) {
    match flag
    case IncreasesMachineSovereignty => flags.increasesMachineSovereignty
    case ResistsHumanCorrection => flags.resistsHumanCorrection
    case BypassesVerifier => flags.bypassesVerifier
    case WeakensVerifier => flags.weakensVerifier
    case DisablesCorrigibility => flags.disablesCorrigibility
    case MachineCoalitionDominion => flags.machineCoalitionDominion
    case Coerces => flags.coerces
    case Deceives => flags.deceives
    case SelfModificationWeakensVerifier => flags.selfModificationWeakensVerifier
    case MachineCoalitionReducesFreedom => flags.machineCoalitionReducesFreedom
  }

  lemma {:induction false} RaisedFlagsFlat(table: seq<(bool, Flag)>, names: seq<Flag>, flags: Flags)
    requires |table| == |names| && forall i :: 0 <= i < |table| ==> table[i] == (Raised(flags, names[i]), names[i])
    ensures RaisedFlags(table) == Flat(names, (f: Flag) => if Raised(flags, f) then [Forbidden(f)] else [])
  {
    if table != [] {
      hide Raised;
      var n := |table| - 1;
      RaisedFlagsFlat(table[..n], names[..n], flags);
    }
  }

  lemma {:induction false} TableIs(flags: Flags)
    ensures |flags.Table()| == |FLAGS| && forall i :: 0 <= i < |FLAGS| ==> flags.Table()[i] == (Raised(flags, FLAGS[i]), FLAGS[i])
  {
    var t := flags.Table();
    assert |t| == 10 && |FLAGS| == 10;
    assert t[0].1 == FLAGS[0] && t[1].1 == FLAGS[1] && t[2].1 == FLAGS[2] && t[3].1 == FLAGS[3] && t[4].1 == FLAGS[4];
    assert t[5].1 == FLAGS[5] && t[6].1 == FLAGS[6] && t[7].1 == FLAGS[7] && t[8].1 == FLAGS[8] && t[9].1 == FLAGS[9];
    TableEntries(flags);
    hide Flags.Table;
    forall i | 0 <= i < 10 ensures t[i] == (Raised(flags, FLAGS[i]), FLAGS[i]) {
      if i < 5 {
        assert i == 0 || i == 1 || i == 2 || i == 3 || i == 4;
      } else {
        assert i == 5 || i == 6 || i == 7 || i == 8 || i == 9;
      }
    }
  }

  lemma {:induction false} GovernedFlat(actor: string, humans: seq<Entity>)
    ensures Governed(actor, humans) == Flat(humans, (h: Entity) => [GovernsHuman(actor, h.name)])
  {
    if humans != [] {
      GovernedFlat(actor, humans[..|humans| - 1]);
    }
  }

  /** The raised flags in their order, then the lack of an owner, then one violation
      for each human governed, the last two for machines only. */
  ghost function Objections(flags: Flags, actor: Entity, owned: bool, governs: seq<Entity>): seq<Violation> {
    Flat(FLAGS, (f: Flag) => if Raised(flags, f) then [Forbidden(f)] else [])
    + (if actor.kind == Machine && !owned then [OwnerlessMachine(actor.name)] else [])
    + (if actor.kind == Machine then Flat(governs, (h: Entity) => [GovernsHuman(actor.name, h.name)]) else [])
  }

  lemma {:induction false} PreliminaryMeaning(flags: Flags, actor: Entity, owned: bool, governs: seq<Entity>)
    ensures Preliminary(flags, actor, owned, governs) == Objections(flags, actor, owned, governs)
  {
    hide RaisedFlags, Governed, Flags.Table, Raised, Flat;
    TableIs(flags);
    RaisedFlagsFlat(flags.Table(), FLAGS, flags);
    GovernedFlat(actor.name, governs);
  }

  // ----- The typed gate

  ghost function DeniedOn(s: State, actor: Entity, r: Resource, op: Operation, now: real): seq<Violation> {
    if MayAct(s, actor, r, op, now) then [] else [AccessDenied(op, TypeName(r.rtype), r.name, actor.name)]
  }

  /** One entry for each logged conflict on the resource, in the order of the log. */
  ghost function ConflictsOn(log: seq<Conflict>, r: Resource): seq<Warning> {
    Flat(log, (k: Conflict) =>
      if SameResource(k.resource, r) then [ConflictOn(TypeName(r.rtype), r.name, k.claimantA.name, k.claimantB.name)] else [])
  }

  ghost predicate Weak(s: State, actor: Entity, r: Resource, op: Operation, now: real) {
    var access := CanAct(s, actor, r.Key(), op, now);
    access.permitted && access.confidence < 0.8
  }

  ghost function WarnedOn(s: State, actor: Entity, r: Resource, op: Operation, now: real): seq<Warning> {
    if Weak(s, actor, r, op, now) then [Contested(op, TypeName(r.rtype), r.name, CanAct(s, actor, r.Key(), op, now).confidence)] else []
  }

  ghost function WarnedOnWrite(s: State, actor: Entity, r: Resource, now: real): seq<Warning> {
    WarnedOn(s, actor, r, Write, now) + if Weak(s, actor, r, Write, now) then ConflictsOn(s.conflicts, r) else []
  }

  lemma {:induction false} LoggedRivalsFlat(log: seq<Conflict>, r: Resource)
    ensures Flat(G.LoggedRivals(log, r.Key()), (pair: (string, string)) => [ConflictOn(TypeName(r.rtype), r.name, pair.0, pair.1)])
            == ConflictsOn(log, r)
    ensures G.LoggedRivals(log, r.Key()) != [] <==> exists k :: k in log && SameResource(k.resource, r)
  {
    if log != [] {
      var n := |log| - 1;
      LoggedRivalsFlat(log[..n], r);
      assert log == log[..n] + [log[n]];
      assert log[n].resource.Key() == r.Key() <==> SameResource(log[n].resource, r);
      hide TypeName, Resource.Key, SameResource;
      var rivals := G.LoggedRivals(log[..n], r.Key());
      var pair := (log[n].claimantA.name, log[n].claimantB.name);
      assert (rivals + [pair])[..|rivals|] == rivals;
    }
  }

  lemma {:induction false} CheckMeaning(s: State, actor: Entity, r: Resource, op: Operation, now: real)
    ensures var c := G.CheckOf(s, actor, G.AccessRequest(op, r), now);
      && DenialOf(actor.name, c) == DeniedOn(s, actor, r, op, now)
      && (op == Read ==> WarningOf(c) == WarnedOn(s, actor, r, Read, now))
      && (op == Write ==> WarningOf(c) == WarnedOnWrite(s, actor, r, now))
      && (op == Delegate ==> WarningOf(c) == [])
  {
    AnswerMeaning(s, actor, r, op, now);
    LoggedRivalsFlat(s.conflicts, r);
    hide CanAct, MayAct, TypeName, G.LoggedRivals, Flat, ConflictsOn;
  }

  /** The requests of an action are its reads, then its writes, then its delegations. */
  lemma {:induction false} FlatRequests<T>(a: G.Action, f: G.AccessRequest -> seq<T>,
                                           rd: Resource -> seq<T>, wr: Resource -> seq<T>, de: Resource -> seq<T>)
    requires forall r :: f(G.AccessRequest(Read, r)) == rd(r) && f(G.AccessRequest(Write, r)) == wr(r) && f(G.AccessRequest(Delegate, r)) == de(r)
    ensures Flat(a.Requests(), f) == Flat(a.resourcesRead, rd) + Flat(a.resourcesWrite, wr) + Flat(a.resourcesDelegate, de)
  {
    hide Flat, G.Asked;
    var reads', writes', delegates := G.Asked(Read, a.resourcesRead), G.Asked(Write, a.resourcesWrite), G.Asked(Delegate, a.resourcesDelegate);
    FlatConcat(reads' + writes', delegates, f);
    FlatConcat(reads', writes', f);
    FlatSame(reads', f, a.resourcesRead, rd);
    FlatSame(writes', f, a.resourcesWrite, wr);
    FlatSame(delegates, f, a.resourcesDelegate, de);
  }

  /** The lists of the typed gate.  The violations are the objections to the action,
      then one for each access, in order, that the actor may not make.  The warnings
      are one for each permitted read or write whose confidence is below 0.8, a write
      being followed by the logged conflicts on its resource. */
  lemma {:induction false} GateLists(s: State, a: G.Action, now: real)
    ensures var v := G.Verify(s, a, now);
      && v.violations ==
         Objections(a.flags, a.actor, a.actor in s.owners, a.governsHumans)
         + (Flat(a.resourcesRead, r => DeniedOn(s, a.actor, r, Read, now))
            + Flat(a.resourcesWrite, r => DeniedOn(s, a.actor, r, Write, now))
            + Flat(a.resourcesDelegate, r => DeniedOn(s, a.actor, r, Delegate, now)))
      && v.warnings ==
         Flat(a.resourcesRead, r => WarnedOn(s, a.actor, r, Read, now)) + Flat(a.resourcesWrite, r => WarnedOnWrite(s, a.actor, r, now))
      && (v.permitted <==> v.violations == [])
      && v.actionId == a.actionId
  {
    hide Fold, Preliminary, Objections, Flat, DeniedOn, DenialOf, WarningOf, WarnedOn, WarnedOnWrite, G.CheckOf, G.Action.Requests;
    var check := q => G.CheckOf(s, a.actor, q, now);
    var denial, warning := q => DenialOf(a.actor.name, check(q)), q => WarningOf(check(q));
    var nothing: Resource -> seq<Warning> := _ => [];
    PreliminaryMeaning(a.flags, a.actor, a.actor in s.owners, a.governsHumans);
    FoldLists(a.actor.name, G.Opening(s, a), a.Requests(), check, denial, warning);
    forall r, op: Operation
      ensures denial(G.AccessRequest(op, r)) == DeniedOn(s, a.actor, r, op, now)
      ensures op == Read ==> warning(G.AccessRequest(op, r)) == WarnedOn(s, a.actor, r, Read, now)
      ensures op == Write ==> warning(G.AccessRequest(op, r)) == WarnedOnWrite(s, a.actor, r, now)
      ensures op == Delegate ==> warning(G.AccessRequest(op, r)) == []
    {
      CheckMeaning(s, a.actor, r, op, now);
    }
    FlatRequests(a, denial, r => DeniedOn(s, a.actor, r, Read, now), r => DeniedOn(s, a.actor, r, Write, now),
                 r => DeniedOn(s, a.actor, r, Delegate, now));
    FlatRequests(a, warning, r => WarnedOn(s, a.actor, r, Read, now), r => WarnedOnWrite(s, a.actor, r, now), nothing);
    FlatNothing(a.resourcesDelegate, nothing);
  }

  lemma {:induction false} FlatNothing<R(!new), T>(xs: seq<R>, f: R -> seq<T>)
    requires forall x :: f(x) == []
    ensures Flat(xs, f) == []
  {
    if xs != [] {
      FlatNothing(xs[..|xs| - 1], f);
    }
  }
  lemma {:induction false} RequestIn(a: G.Action, q: G.AccessRequest)
    ensures q in a.Requests() <==>
            || (q.op == Read && q.resource in a.resourcesRead)
            || (q.op == Write && q.resource in a.resourcesWrite)
            || (q.op == Delegate && q.resource in a.resourcesDelegate)
  {
    AskedIn(Read, a.resourcesRead, q);
    AskedIn(Write, a.resourcesWrite, q);
    AskedIn(Delegate, a.resourcesDelegate, q);
    hide G.Asked;
  }

  lemma {:induction false} AskedIn(op: Operation, rs: seq<Resource>, q: G.AccessRequest)
    ensures q in G.Asked(op, rs) <==> q.op == op && q.resource in rs
  {
    var asked := G.Asked(op, rs);
    if q.op == op && q.resource in rs {
      var i :| 0 <= i < |rs| && rs[i] == q.resource;
      assert asked[i] == q;
    }
    hide G.Asked;
  }

  lemma {:induction false} AnyRaised(flags: Flags)
    ensures flags.Any() <==> exists f :: Raised(flags, f)
  {
    if flags.Any() {
      assert Raised(flags, IncreasesMachineSovereignty) || Raised(flags, ResistsHumanCorrection) || Raised(flags, BypassesVerifier)
        || Raised(flags, WeakensVerifier) || Raised(flags, DisablesCorrigibility) || Raised(flags, MachineCoalitionDominion)
        || Raised(flags, Coerces) || Raised(flags, Deceives) || Raised(flags, SelfModificationWeakensVerifier)
        || Raised(flags, MachineCoalitionReducesFreedom);
    }
  }

  ghost predicate MayActOnAll(s: State, actor: Entity, rs: seq<Resource>, op: Operation, now: real) {
    forall r :: r in rs ==> MayAct(s, actor, r, op, now)
  }

  /** The typed gate permits exactly when no flag is raised, a machine is owned and
      governs nobody, and the actor may make each access. */
  lemma {:induction false} GatePermits(s: State, a: G.Action, now: real)
    ensures G.Verify(s, a, now).permitted <==>
            && (forall f :: !Raised(a.flags, f))
            && (a.actor.kind == Machine ==> a.actor in s.owners && a.governsHumans == [])
            && MayActOnAll(s, a.actor, a.resourcesRead, Read, now)
            && MayActOnAll(s, a.actor, a.resourcesWrite, Write, now)
            && MayActOnAll(s, a.actor, a.resourcesDelegate, Delegate, now)
  {
    hide G.Verify, G.Held, G.Action.Requests, Raised, MayAct, Flags.Any;
    G.PermittedIff(s, a, now);
    AnyRaised(a.flags);
    forall r, op: Operation ensures G.Held(s, a.actor, G.AccessRequest(op, r), now) <==> MayAct(s, a.actor, r, op, now) {
      HeldMeaning(s, a.actor, r, op, now);
    }
    forall q ensures q in a.Requests() <==>
        || (q.op == Read && q.resource in a.resourcesRead) || (q.op == Write && q.resource in a.resourcesWrite)
        || (q.op == Delegate && q.resource in a.resourcesDelegate)
    {
      RequestIn(a, q);
    }
    assert forall r, op :: G.AccessRequest(op, r) in a.Requests() ==> G.AccessRequest(op, r).resource == r;
    assert forall r :: r in a.resourcesRead ==> G.AccessRequest(Read, r) in a.Requests();
    assert forall r :: r in a.resourcesWrite ==> G.AccessRequest(Write, r) in a.Requests();
    assert forall r :: r in a.resourcesDelegate ==> G.AccessRequest(Delegate, r) in a.Requests();
    assert forall q: G.AccessRequest :: q == G.AccessRequest(q.op, q.resource);
  }

  lemma {:induction false} HeldMeaning(s: State, actor: Entity, r: Resource, op: Operation, now: real)
    ensures G.Held(s, actor, G.AccessRequest(op, r), now) <==> MayAct(s, actor, r, op, now)
  {
    hide CanAct, MayAct, G.Held;
    G.PermittedIffHeld(s, actor, G.AccessRequest(op, r), now);
    AnswerMeaning(s, actor, r, op, now);
  }

  /** It asks for arbitration exactly when some write is permitted with a confidence
      below 0.8 on a resource with a logged conflict. */
  lemma {:induction false} GateArbitrates(s: State, a: G.Action, now: real)
    ensures G.Verify(s, a, now).requiresArbitration <==>
            exists r :: r in a.resourcesWrite && CanAct(s, a.actor, r.Key(), Write, now).permitted
                        && CanAct(s, a.actor, r.Key(), Write, now).confidence < 0.8
                        && exists k :: k in s.conflicts && SameResource(k.resource, r)
  {
    hide Fold, CanAct, TypeName, G.LoggedRivals, Flat, ConflictsOn;
    var check := q => G.CheckOf(s, a.actor, q, now);
    var qs := a.Requests();
    FoldArbitrates(a.actor.name, G.Opening(s, a), qs, check);
    hide Resource.Key, SameResource;
    forall r: Resource ensures G.LoggedRivals(s.conflicts, r.Key()) != [] <==> exists k :: k in s.conflicts && SameResource(k.resource, r) {
      LoggedRivalsFlat(s.conflicts, r);
    }
    if i :| 0 <= i < |qs| && qs[i].op == Write && check(qs[i]).access.permitted && check(qs[i]).access.confidence < 0.8 && check(qs[i]).rivals != [] {
      RequestIn(a, qs[i]);
      assert qs[i] in qs;
    }
    forall r | r in a.resourcesWrite ensures exists i :: 0 <= i < |qs| && qs[i] == G.AccessRequest(Write, r) {
      RequestIn(a, G.AccessRequest(Write, r));
    }
  }

  /** Its confidence is the least of 1.0 and of the answers to all accesses. */
  lemma {:induction false} GateConfidence(s: State, a: G.Action, now: real)
    ensures var c := G.Verify(s, a, now).confidence;
      && c <= 1.0
      && (forall r :: r in a.resourcesRead ==> c <= CanAct(s, a.actor, r.Key(), Read, now).confidence)
      && (forall r :: r in a.resourcesWrite ==> c <= CanAct(s, a.actor, r.Key(), Write, now).confidence)
      && (forall r :: r in a.resourcesDelegate ==> c <= CanAct(s, a.actor, r.Key(), Delegate, now).confidence)
      && (c == 1.0
          || (exists r :: r in a.resourcesRead && c == CanAct(s, a.actor, r.Key(), Read, now).confidence)
          || (exists r :: r in a.resourcesWrite && c == CanAct(s, a.actor, r.Key(), Write, now).confidence)
          || exists r :: r in a.resourcesDelegate && c == CanAct(s, a.actor, r.Key(), Delegate, now).confidence)
  {
    hide Fold, CanAct, TypeName, G.LoggedRivals, Resource.Key, G.Action.Requests;
    var check := q => G.CheckOf(s, a.actor, q, now);
    var qs := a.Requests();
    var c := G.Verify(s, a, now).confidence;
    FoldConfidence(a.actor.name, G.Opening(s, a), qs, check);
    forall q | q in qs ensures c <= CanAct(s, a.actor, q.resource.Key(), q.op, now).confidence {
      var i :| 0 <= i < |qs| && qs[i] == q;
      assert c <= check(qs[i]).access.confidence;
    }
    forall r, op: Operation
      ensures G.AccessRequest(op, r) in qs <==>
              (op == Read && r in a.resourcesRead) || (op == Write && r in a.resourcesWrite) || (op == Delegate && r in a.resourcesDelegate)
      ensures G.AccessRequest(op, r) in qs ==> c <= CanAct(s, a.actor, r.Key(), op, now).confidence
    {
      RequestIn(a, G.AccessRequest(op, r));
    }
    if c != 1.0 {
      var i :| 0 <= i < |qs| && c == check(qs[i]).access.confidence;
      assert G.AccessRequest(qs[i].op, qs[i].resource) in qs;
    }
  }

  /** After a run in which some event registered a machine with a human owner, the
      gate never finds that machine ownerless. */
  lemma {:induction false} RegisteredIsOwned(events: seq<Event>, a: G.Action, i: nat, o: Entity, now: real)
    requires i < |events| && Registers(events[i], a.actor, o)
    ensures forall name :: OwnerlessMachine(name) !in G.Verify(Run(EMPTY, events), a, now).violations
  {
    OwnersMeaning(events, a.actor);
    hide Run, RaisedFlags, Governed, Fold;
    var s := Run(EMPTY, events);
    forall name ensures OwnerlessMachine(name) !in G.Verify(s, a, now).violations {
      var v := OwnerlessMachine(name);
      G.FoldMember(a.actor.name, G.Opening(s, a), a.Requests(), q => G.CheckOf(s, a.actor, q, now), v);
      RaisedFlagsMember(a.flags.Table(), Coerces);
      GovernedLength(a.actor.name, a.governsHumans);
    }
  }

  // ----- The engine

  predicate WireLive(c: E.ClaimWire, now: real) {
    c.confidence > 0.0 && (c.expiresAt.None? || now <= c.expiresAt.value)
  }

  predicate WireEntitles(c: E.ClaimWire, actor: string, r: E.ResourceWire, op: Operation, now: real) {
    && c.holder.name == actor && c.resource.name == r.name && c.resource.rtype == r.rtype && WireLive(c, now)
    && ((op == Read && c.canRead) || (op == Write && c.canWrite) || (op == Delegate && c.canDelegate))
  }

  ghost predicate WireMayAct(w: E.RegistryWire, actor: string, r: E.ResourceWire, op: Operation, now: real) {
    (r.isPublic && op == Read) || exists c :: c in w.claims && WireEntitles(c, actor, r, op, now)
  }

  /** The engine's answer to a query, as `AnswerMeaning` states it for the registry. */
  lemma {:induction false} WireAnswerMeaning(w: E.RegistryWire, actor: string, r: E.ResourceWire, op: Operation, now: real)
    ensures var a := E.CanAct(w, actor, r, op, now);
      && (a.permitted <==> WireMayAct(w, actor, r, op, now))
      && (!a.permitted ==> a.confidence == 0.0)
      && if r.isPublic && op == Read then a.confidence == 1.0
         else
           && (forall c :: c in w.claims && WireEntitles(c, actor, r, op, now) ==> c.confidence <= a.confidence)
           && (a.permitted ==> exists c :: c in w.claims && WireEntitles(c, actor, r, op, now) && c.confidence == a.confidence)
  {
    forall c: E.ClaimWire ensures E.Matches(c, actor, r, op, now) <==> WireEntitles(c, actor, r, op, now) {
    }
    if !(r.isPublic && op == Read) {
      hide E.CanAct, E.Matches, WireEntitles;
      E.CanActMeaning(w, actor, r, op, now);
    }
  }

  ghost function WireDeniedOn(w: E.RegistryWire, actor: string, r: E.ResourceWire, op: Operation, now: real): seq<Violation> {
    if WireMayAct(w, actor, r, op, now) then [] else [AccessDenied(op, r.rtype, r.name, actor)]
  }

  ghost predicate WireWeak(w: E.RegistryWire, actor: string, r: E.ResourceWire, op: Operation, now: real) {
    E.CanAct(w, actor, r, op, now).permitted && E.CanAct(w, actor, r, op, now).confidence < 0.8
  }

  ghost function WireWarnedOn(w: E.RegistryWire, actor: string, r: E.ResourceWire, op: Operation, now: real): seq<Warning> {
    if WireWeak(w, actor, r, op, now) then [Contested(op, r.rtype, r.name, E.CanAct(w, actor, r, op, now).confidence)] else []
  }

  predicate LiveRival(c: E.ClaimWire, actor: string, r: E.ResourceWire, now: real) {
    c.resource.name == r.name && c.resource.rtype == r.rtype && c.holder.name != actor && c.canWrite && WireLive(c, now)
  }

  /** One entry for each live write claim of another holder, in the order of the registry. */
  ghost function RivalsOn(claims: seq<E.ClaimWire>, actor: string, r: E.ResourceWire, now: real): seq<Warning> {
    Flat(claims, (c: E.ClaimWire) => if LiveRival(c, actor, r, now) then [ConflictOn(r.rtype, r.name, actor, c.holder.name)] else [])
  }

  ghost function WireWarnedOnWrite(w: E.RegistryWire, actor: string, r: E.ResourceWire, now: real): seq<Warning> {
    WireWarnedOn(w, actor, r, Write, now) + if WireWeak(w, actor, r, Write, now) then RivalsOn(w.claims, actor, r, now) else []
  }

  lemma {:induction false} RivalsFlat(claims: seq<E.ClaimWire>, actor: string, r: E.ResourceWire, now: real)
    ensures Flat(E.Rivals(claims, actor, r, now), (pair: (string, string)) => [ConflictOn(r.rtype, r.name, pair.0, pair.1)])
            == RivalsOn(claims, actor, r, now)
    ensures E.Rivals(claims, actor, r, now) != [] <==> exists c :: c in claims && LiveRival(c, actor, r, now)
  {
    if claims != [] {
      var n := |claims| - 1;
      RivalsFlat(claims[..n], actor, r, now);
      assert claims == claims[..n] + [claims[n]];
      assert E.IsRival(claims[n], actor, r, now) <==> LiveRival(claims[n], actor, r, now);
      hide E.IsRival, LiveRival;
      var rivals := E.Rivals(claims[..n], actor, r, now);
      var pair := (actor, claims[n].holder.name);
      assert (rivals + [pair])[..|rivals|] == rivals;
    }
  }

  lemma {:induction false} WireCheckMeaning(w: E.RegistryWire, actor: string, r: E.ResourceWire, op: Operation, now: real)
    ensures var c := E.CheckOf(w, actor, E.WireRequest(op, r), now);
      && DenialOf(actor, c) == WireDeniedOn(w, actor, r, op, now)
      && (op == Read ==> WarningOf(c) == WireWarnedOn(w, actor, r, Read, now))
      && (op == Write ==> WarningOf(c) == WireWarnedOnWrite(w, actor, r, now))
      && (op == Delegate ==> WarningOf(c) == [])
  {
    WireAnswerMeaning(w, actor, r, op, now);
    RivalsFlat(w.claims, actor, r, now);
    hide E.CanAct, WireMayAct, E.Rivals, Flat, RivalsOn;
  }

  lemma {:induction false} FlatWireRequests<T>(a: E.ActionWire, f: E.WireRequest -> seq<T>,
                                               rd: E.ResourceWire -> seq<T>, wr: E.ResourceWire -> seq<T>, de: E.ResourceWire -> seq<T>)
    requires forall r :: f(E.WireRequest(Read, r)) == rd(r) && f(E.WireRequest(Write, r)) == wr(r) && f(E.WireRequest(Delegate, r)) == de(r)
    ensures Flat(a.Requests(), f) == Flat(a.resourcesRead, rd) + Flat(a.resourcesWrite, wr) + Flat(a.resourcesDelegate, de)
  {
    hide Flat, E.Asked;
    var reads', writes', delegates := E.Asked(Read, a.resourcesRead), E.Asked(Write, a.resourcesWrite), E.Asked(Delegate, a.resourcesDelegate);
    FlatConcat(reads' + writes', delegates, f);
    FlatConcat(reads', writes', f);
    FlatSame(reads', f, a.resourcesRead, rd);
    FlatSame(writes', f, a.resourcesWrite, wr);
    FlatSame(delegates, f, a.resourcesDelegate, de);
  }

  /** The owner list names the machine. */
  ghost predicate WireOwned(w: E.RegistryWire, machine: string) {
    exists o :: o in w.machineOwners && o.machine.name == machine
  }

  lemma {:induction false} WireOwnedIff(w: E.RegistryWire, machine: string)
    ensures E.HasOwner(w, machine) <==> WireOwned(w, machine)
  {
    if E.HasOwner(w, machine) {
      var i :| 0 <= i < |w.machineOwners| && w.machineOwners[i].machine.name == machine;
      assert w.machineOwners[i] in w.machineOwners;
    }
  }

  /** The lists of the engine, as `GateLists` states them for the typed gate. */
  lemma {:induction false} EngineLists(w: E.RegistryWire, a: E.ActionWire, now: real)
    ensures var v := E.Verify(w, a, now);
      && v.violations ==
         Objections(a.flags, a.actor, WireOwned(w, a.actor.name), a.governsHumans)
         + (Flat(a.resourcesRead, r => WireDeniedOn(w, a.actor.name, r, Read, now))
            + Flat(a.resourcesWrite, r => WireDeniedOn(w, a.actor.name, r, Write, now))
            + Flat(a.resourcesDelegate, r => WireDeniedOn(w, a.actor.name, r, Delegate, now)))
      && v.warnings ==
         Flat(a.resourcesRead, r => WireWarnedOn(w, a.actor.name, r, Read, now))
         + Flat(a.resourcesWrite, r => WireWarnedOnWrite(w, a.actor.name, r, now))
      && (v.permitted <==> v.violations == [])
      && v.actionId == a.actionId
  {
    hide Fold, Preliminary, Objections, Flat, WireDeniedOn, DenialOf, WarningOf, WireWarnedOn, WireWarnedOnWrite, E.CheckOf;
    hide E.ActionWire.Requests, E.HasOwner;
    var name := a.actor.name;
    var check := q => E.CheckOf(w, name, q, now);
    var denial, warning := q => DenialOf(name, check(q)), q => WarningOf(check(q));
    var nothing: E.ResourceWire -> seq<Warning> := _ => [];
    WireOwnedIff(w, name);
    PreliminaryMeaning(a.flags, a.actor, E.HasOwner(w, name), a.governsHumans);
    FoldLists(name, E.Opening(w, a), a.Requests(), check, denial, warning);
    forall r, op: Operation
      ensures denial(E.WireRequest(op, r)) == WireDeniedOn(w, name, r, op, now)
      ensures op == Read ==> warning(E.WireRequest(op, r)) == WireWarnedOn(w, name, r, Read, now)
      ensures op == Write ==> warning(E.WireRequest(op, r)) == WireWarnedOnWrite(w, name, r, now)
      ensures op == Delegate ==> warning(E.WireRequest(op, r)) == []
    {
      WireCheckMeaning(w, name, r, op, now);
    }
    FlatWireRequests(a, denial, r => WireDeniedOn(w, a.actor.name, r, Read, now), r => WireDeniedOn(w, a.actor.name, r, Write, now),
                     r => WireDeniedOn(w, a.actor.name, r, Delegate, now));
    FlatWireRequests(a, warning, r => WireWarnedOn(w, a.actor.name, r, Read, now), r => WireWarnedOnWrite(w, a.actor.name, r, now), nothing);
    FlatNothing(a.resourcesDelegate, nothing);
  }

  lemma {:induction false} WireRequestIn(a: E.ActionWire, q: E.WireRequest)
    ensures q in a.Requests() <==>
            || (q.op == Read && q.resource in a.resourcesRead)
            || (q.op == Write && q.resource in a.resourcesWrite)
            || (q.op == Delegate && q.resource in a.resourcesDelegate)
  {
    WireAskedIn(Read, a.resourcesRead, q);
    WireAskedIn(Write, a.resourcesWrite, q);
    WireAskedIn(Delegate, a.resourcesDelegate, q);
    hide E.Asked;
  }

  lemma {:induction false} WireAskedIn(op: Operation, rs: seq<E.ResourceWire>, q: E.WireRequest)
    ensures q in E.Asked(op, rs) <==> q.op == op && q.resource in rs
  {
    var asked := E.Asked(op, rs);
    if q.op == op && q.resource in rs {
      var i :| 0 <= i < |rs| && rs[i] == q.resource;
      assert asked[i] == q;
    }
    hide E.Asked;
  }

  /** The engine asks for arbitration exactly when some write is permitted with a
      confidence below 0.8 and another holder's live write claim is on it by name. */
  lemma {:induction false} EngineArbitrates(w: E.RegistryWire, a: E.ActionWire, now: real)
    ensures E.Verify(w, a, now).requiresArbitration <==>
            exists r :: r in a.resourcesWrite && E.CanAct(w, a.actor.name, r, Write, now).permitted
                        && E.CanAct(w, a.actor.name, r, Write, now).confidence < 0.8
                        && exists c :: c in w.claims && LiveRival(c, a.actor.name, r, now)
  {
    hide Fold, E.CanAct, E.Rivals, Flat, RivalsOn;
    var check := q => E.CheckOf(w, a.actor.name, q, now);
    var qs := a.Requests();
    FoldArbitrates(a.actor.name, E.Opening(w, a), qs, check);
    hide LiveRival;
    forall r ensures E.Rivals(w.claims, a.actor.name, r, now) != [] <==> exists c :: c in w.claims && LiveRival(c, a.actor.name, r, now) {
      RivalsFlat(w.claims, a.actor.name, r, now);
    }
    if i :| 0 <= i < |qs| && qs[i].op == Write && check(qs[i]).access.permitted && check(qs[i]).access.confidence < 0.8 && check(qs[i]).rivals != [] {
      WireRequestIn(a, qs[i]);
      assert qs[i] in qs;
    }
    forall r | r in a.resourcesWrite ensures exists i :: 0 <= i < |qs| && qs[i] == E.WireRequest(Write, r) {
      WireRequestIn(a, E.WireRequest(Write, r));
    }
  }
  // ----- Plans

  /** The result of a plan action by action: its own verdict as long as no earlier one
      stops the plan, and after the first that does a refusal under the action's own
      id that names the one that stopped it. */
  lemma {:induction false} PlanResultAt(s: State, actions: seq<G.Action>, clock: nat -> real, results: seq<VerificationResult>, k: nat)
    requires G.IsPlanOutcome(results, G.VerdictsOf(s, actions, clock)) && k < |actions|
    ensures |results| == |actions|
    ensures (forall j :: 0 <= j < k ==> !G.Subverts(G.Verify(s, actions[j], clock(j)))) ==> results[k] == G.Verify(s, actions[k], clock(k))
    ensures forall t :: 0 <= t < k && G.Subverts(G.Verify(s, actions[t], clock(t)))
                        && (forall j :: 0 <= j < t ==> !G.Subverts(G.Verify(s, actions[j], clock(j)))) ==>
              results[k] == VerificationResult(actions[k].actionId, false, [PlanAborted(actions[t].actionId)], [], 0.0, true)
  {
    var verdicts := G.VerdictsOf(s, actions, clock);
    hide G.Verify, G.VerdictsOf, G.Subverts;
    forall j | 0 <= j < |actions| ensures verdicts[j] == G.Verify(s, actions[j], clock(j)) {
      G.VerdictAt(s, actions, clock, j);
    }
    PlanOutcomeAt(results, verdicts, k);
  }

  lemma {:induction false} PlanOutcomeAt(results: seq<VerificationResult>, verdicts: seq<VerificationResult>, k: nat)
    requires G.IsPlanOutcome(results, verdicts) && k < |verdicts|
    ensures |results| == |verdicts|
    ensures (forall j :: 0 <= j < k ==> !G.Subverts(verdicts[j])) ==> results[k] == verdicts[k]
    ensures forall t :: 0 <= t < k && G.Subverts(verdicts[t]) && (forall j :: 0 <= j < t ==> !G.Subverts(verdicts[j])) ==>
              results[k] == VerificationResult(verdicts[k].actionId, false, [PlanAborted(verdicts[t].actionId)], [], 0.0, true)
  {
    hide G.Subverts;
    forall t | 0 <= t < |verdicts| && G.Subverts(verdicts[t]) && forall j :: 0 <= j < t ==> !G.Subverts(verdicts[j])
      ensures FirstIndex(verdicts, r => G.Subverts(r)) == Some(t)
    {
      FirstIndexUnique(verdicts, r => G.Subverts(r), t);
    }
  }
}
