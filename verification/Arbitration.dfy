/** Human arbitration on both gates: the typed gate consults the conflict log, the
    engine looks for live rivals among the claims. */
module Arbitration {
  import opened Entities
  import opened Sequences
  import opened Registry
  import opened Verdicts
  import opened Gate
  import opened GateRefinement
  import E = Engine
  import ConflictLog

  // ----- Each gate on its own terms

  /** A write that the typed gate permits below the warning threshold. */
  predicate WeakWrite(s: State, actor: Entity, q: AccessRequest, now: real) {
    q.op == Write && TypedAccess(s, actor, q, now).permitted && TypedAccess(s, actor, q, now).confidence < WARN_THRESHOLD
  }

  /** A write that the engine permits below the warning threshold. */
  predicate WireWeakWrite(w: E.RegistryWire, actor: Entity, q: AccessRequest, now: real) {
    q.op == Write && WireAccess(w, actor, q, now).permitted && WireAccess(w, actor, q, now).confidence < WARN_THRESHOLD
  }

  /** A live write claim of a holder of another name on a resource of that name and type. */
  ghost predicate NamedRival(s: State, actor: string, r: Resource, now: real) {
    exists c :: c in s.claims && RivalByName(c, actor, r, now)
  }

  predicate RivalByName(c: RightsClaim, actor: string, r: Resource, now: real) {
    c.canWrite && c.IsValid(now) && c.resource.name == r.name && c.resource.rtype == r.rtype && c.holder.name != actor
  }

  lemma {:induction false} LoggedRivalsIff(log: seq<Conflict>, key: ResourceKey)
    ensures LoggedRivals(log, key) != [] <==> exists r :: r in log && r.resource.Key() == key
  {
    if log != [] {
      LoggedRivalsIff(log[..|log| - 1], key);
      assert log == log[..|log| - 1] + [log[|log| - 1]];
    }
  }

  /** The typed gate asks for arbitration exactly when some weak write has an open conflict. */
  lemma {:induction false} GateArbitrationIff(s: State, a: Action, now: real)
    ensures Gate.Verify(s, a, now).requiresArbitration <==>
            exists q :: q in a.Requests() && WeakWrite(s, a.actor, q, now) && ConflictLog.HasOpenConflict(s, q.resource.Key())
  {
    hide Fold, Registry.CanAct, TypeName, LoggedRivals;
    var f := q => Gate.CheckOf(s, a.actor, q, now);
    var qs := a.Requests();
    FoldArbitration(a.actor.name, Gate.Opening(s, a), qs, f);
    forall q: AccessRequest
      ensures Disputed(f(q)) <==> WeakWrite(s, a.actor, q, now) && ConflictLog.HasOpenConflict(s, q.resource.Key())
    {
      LoggedRivalsIff(s.conflicts, q.resource.Key());
    }
    forall i | 0 <= i < |qs| ensures qs[i] in qs {
    }
  }

  lemma {:induction false} RivalsIff(claims: seq<E.ClaimWire>, actor: string, r: E.ResourceWire, now: real)
    ensures E.Rivals(claims, actor, r, now) != [] <==> exists c :: c in claims && E.IsRival(c, actor, r, now)
  {
    if claims != [] {
      RivalsIff(claims[..|claims| - 1], actor, r, now);
      assert claims == claims[..|claims| - 1] + [claims[|claims| - 1]];
    }
  }

  lemma {:induction false} RivalOnWireIff(c: RightsClaim, actor: string, r: Resource, now: real)
    ensures E.IsRival(WireClaim(c), actor, WireResource(r), now) <==> RivalByName(c, actor, r, now)
  {
    TypeNameInjective(c.resource.rtype, r.rtype);
    hide TypeName;
  }

  lemma {:induction false} RivalsNamedIff(s: State, w: E.RegistryWire, actor: string, r: Resource, now: real)
    requires IsWireOf(w, s)
    ensures E.Rivals(w.claims, actor, WireResource(r), now) != [] <==> NamedRival(s, actor, r, now)
  {
    RivalsIff(w.claims, actor, WireResource(r), now);
    hide RivalByName, E.IsRival, WireResource, WireClaim;
    forall i | 0 <= i < |s.claims|
      ensures E.IsRival(w.claims[i], actor, WireResource(r), now) <==> RivalByName(s.claims[i], actor, r, now)
      ensures s.claims[i] in s.claims && w.claims[i] in w.claims
    {
      RivalOnWireIff(s.claims[i], actor, r, now);
    }
  }

  /** For all states, the engine asks for arbitration exactly when some write that it
      permits below the threshold has a live rival by name. */
  lemma {:induction false} EngineArbitrationIff(s: State, w: E.RegistryWire, a: Action, now: real)
    requires IsWireOf(w, s)
    ensures E.Verify(w, WireAction(a), now).requiresArbitration <==>
            exists q :: q in a.Requests() && WireWeakWrite(w, a.actor, q, now) && NamedRival(s, a.actor.name, q.resource, now)
  {
    hide Fold, E.CanAct, TypeName, NamedRival;
    var g := q => E.CheckOf(w, a.actor.name, q, now);
    var qs, ws := a.Requests(), WireAction(a).Requests();
    RequestsAligned(a);
    FoldArbitration(a.actor.name, E.Opening(w, WireAction(a)), ws, g);
    forall i | 0 <= i < |qs|
      ensures qs[i] in qs
      ensures Disputed(g(ws[i])) <==> WireWeakWrite(w, a.actor, qs[i], now) && NamedRival(s, a.actor.name, qs[i].resource, now)
    {
      RivalsNamedIff(s, w, a.actor.name, qs[i].resource, now);
    }
  }

  // ----- Exactly where they differ

  /** For all states, the typed gate alone asks for arbitration exactly when some weak
      write has an open conflict and no write that the engine finds weak has a live
      rival by name. */
  lemma {:induction false} TypedOnlyArbitrationIff(s: State, w: E.RegistryWire, a: Action, now: real)
    requires IsWireOf(w, s)
    ensures Gate.Verify(s, a, now).requiresArbitration && !E.Verify(w, WireAction(a), now).requiresArbitration <==>
            && (exists q :: q in a.Requests() && WeakWrite(s, a.actor, q, now) && ConflictLog.HasOpenConflict(s, q.resource.Key()))
            && (forall q :: q in a.Requests() && WireWeakWrite(w, a.actor, q, now) ==> !NamedRival(s, a.actor.name, q.resource, now))
  {
    hide Gate.Verify, E.Verify, WeakWrite, WireWeakWrite, NamedRival, IsWireOf, ConflictLog.HasOpenConflict;
    EngineArbitrationIff(s, w, a, now);
    GateArbitrationIff(s, a, now);
  }

  /** And the engine alone exactly when some write that it finds weak has a live rival
      by name, and no weak write of the typed gate has an open conflict. */
  lemma {:induction false} EngineOnlyArbitrationIff(s: State, w: E.RegistryWire, a: Action, now: real)
    requires IsWireOf(w, s)
    ensures E.Verify(w, WireAction(a), now).requiresArbitration && !Gate.Verify(s, a, now).requiresArbitration <==>
            && (exists q :: q in a.Requests() && WireWeakWrite(w, a.actor, q, now) && NamedRival(s, a.actor.name, q.resource, now))
            && (forall q :: q in a.Requests() && WeakWrite(s, a.actor, q, now) ==> !ConflictLog.HasOpenConflict(s, q.resource.Key()))
  {
    hide Gate.Verify, E.Verify, WeakWrite, WireWeakWrite, NamedRival, IsWireOf, ConflictLog.HasOpenConflict;
    EngineArbitrationIff(s, w, a, now);
    GateArbitrationIff(s, a, now);
  }

  // ----- Over runs

  /** Every write claim that holders of another name have on `key` is dead. */
  ghost predicate OthersDead(s: State, actor: string, key: ResourceKey, now: real) {
    forall c :: c in s.claims && c.canWrite && c.resource.Key() == key && c.holder.name != actor ==> !c.IsValid(now)
  }

  /** In every run in which the clock has not run backwards, a weak write with a live
      rival has an open conflict: the log has not missed the pair. */
  lemma {:induction false} DisputedIsLogged(events: seq<Event>, actor: Entity, q: AccessRequest, now: real)
    requires forall e :: e in events ==> e.now <= now
    requires WeakWrite(Run(EMPTY, events), actor, q, now)
    requires !OthersDead(Run(EMPTY, events), actor.name, q.resource.Key(), now)
    ensures ConflictLog.HasOpenConflict(Run(EMPTY, events), q.resource.Key())
  {
    hide Run, Registry.CanAct;
    var s, key := Run(EMPTY, events), q.resource.Key();
    CanActMeaning(s, actor, key, q.op, now);
    var c :| c in s.claims && Authorizes(c, actor, key, q.op, now);
    var d :| d in s.claims && d.canWrite && d.resource.Key() == key && d.holder.name != actor.name && d.IsValid(now);
    var mine :| 0 <= mine < |s.claims| && s.claims[mine] == c;
    var his :| 0 <= his < |s.claims| && s.claims[his] == d;
    ConflictLog.LiveRivalsAreLogged(events, now, mine, his, key);
  }

  /** So the typed gate arbitrates every weak write with a live rival on the very
      resource, for all such runs and actions. */
  lemma {:induction false} LiveDisputeArbitrated(events: seq<Event>, a: Action, q: AccessRequest, now: real)
    requires forall e :: e in events ==> e.now <= now
    requires q in a.Requests() && WeakWrite(Run(EMPTY, events), a.actor, q, now)
    requires !OthersDead(Run(EMPTY, events), a.actor.name, q.resource.Key(), now)
    ensures Gate.Verify(Run(EMPTY, events), a, now).requiresArbitration
  {
    hide Run, Gate.Verify, WeakWrite, OthersDead;
    DisputedIsLogged(events, a.actor, q, now);
    GateArbitrationIff(Run(EMPTY, events), a, now);
  }

  // ----- When names determine what they name

  lemma {:induction false} WeakWritesAgree(s: State, w: E.RegistryWire, a: Action, q: AccessRequest, now: real)
    requires IsWireOf(w, s) && NamesDetermine(s, a) && q in a.Requests()
    ensures WireWeakWrite(w, a.actor, q, now) <==> WeakWrite(s, a.actor, q, now)
    ensures NamedRival(s, a.actor.name, q.resource, now) <==> !OthersDead(s, a.actor.name, q.resource.Key(), now)
  {
    AccessEqual(s, w, a, q, now);
    hide E.CanAct, Registry.CanAct, IsWireOf;
    forall c | c in s.claims
      ensures c.resource.name == q.resource.name && c.resource.rtype == q.resource.rtype <==> c.resource.Key() == q.resource.Key()
    {
    }
  }

  /** Then the typed gate alone asks for arbitration on stale records only: exactly
      when some weak write has a logged conflict and on no weak write is another
      writer left alive. */
  lemma {:induction false} StaleOnlyIff(s: State, w: E.RegistryWire, a: Action, now: real)
    requires IsWireOf(w, s) && NamesDetermine(s, a)
    ensures Gate.Verify(s, a, now).requiresArbitration && !E.Verify(w, WireAction(a), now).requiresArbitration <==>
            && (exists q :: q in a.Requests() && WeakWrite(s, a.actor, q, now) && ConflictLog.HasOpenConflict(s, q.resource.Key()))
            && (forall q :: q in a.Requests() && WeakWrite(s, a.actor, q, now) ==> OthersDead(s, a.actor.name, q.resource.Key(), now))
  {
    hide Gate.Verify, E.Verify, WeakWrite, WireWeakWrite, OthersDead, NamedRival, NamesDetermine, IsWireOf;
    TypedOnlyArbitrationIff(s, w, a, now);
    forall q | q in a.Requests()
      ensures WireWeakWrite(w, a.actor, q, now) <==> WeakWrite(s, a.actor, q, now)
      ensures NamedRival(s, a.actor.name, q.resource, now) <==> !OthersDead(s, a.actor.name, q.resource.Key(), now)
    {
      WeakWritesAgree(s, w, a, q, now);
    }
  }

  /** And in every run whose clock has not run backwards the engine never asks alone. */
  lemma {:induction false} ArbitrationRefines(events: seq<Event>, w: E.RegistryWire, a: Action, now: real)
    requires forall e :: e in events ==> e.now <= now
    requires IsWireOf(w, Run(EMPTY, events)) && NamesDetermine(Run(EMPTY, events), a)
    requires E.Verify(w, WireAction(a), now).requiresArbitration
    ensures Gate.Verify(Run(EMPTY, events), a, now).requiresArbitration
  {
    hide Run, Gate.Verify, E.Verify, WeakWrite, WireWeakWrite, OthersDead, NamedRival, NamesDetermine, IsWireOf;
    var s := Run(EMPTY, events);
    EngineArbitrationIff(s, w, a, now);
    var q :| q in a.Requests() && WireWeakWrite(w, a.actor, q, now) && NamedRival(s, a.actor.name, q.resource, now);
    WeakWritesAgree(s, w, a, q, now);
    LiveDisputeArbitrated(events, a, q, now);
  }

  // ----- Witnesses

  function Writer(h: Entity, r: Resource, confidence: real, expiresAt: Option<real>): RightsClaim {
    RightsClaim(h, r, true, true, false, confidence, expiresAt)
  }

  function WriteAction(actor: Entity, r: Resource): Action { Action("write", actor, "", [], [r], [], [], "", Quiet()) }

  function Assertions(claims: seq<RightsClaim>): (events: seq<Event>) {
    if claims == [] then [] else Assertions(claims[..|claims| - 1]) + [Event(AddClaim(claims[|claims| - 1]), 0.5)]
  }

  lemma {:induction false} AssertionsSnoc(claims: seq<RightsClaim>, c: RightsClaim)
    ensures Run(EMPTY, Assertions(claims + [c])) == Append(Run(EMPTY, Assertions(claims)), c, 0.5)
  {
    assert (claims + [c])[..|claims|] == claims;
    var events, e := Assertions(claims), Event(AddClaim(c), 0.5);
    assert (events + [e])[..|events|] == events;
    AssertionsStayOpen(claims);
  }

  lemma {:induction false} AssertionsStayOpen(claims: seq<RightsClaim>)
    ensures !Run(EMPTY, Assertions(claims)).frozen
  {
    RunOnlyAppends(EMPTY, Assertions(claims));
  }

  /** Two assertions on one resource by two holders, the first one live at the second. */
  lemma {:induction false} TwoWriters(first: RightsClaim, second: RightsClaim)
    requires Contends(first, second, 0.5)
    ensures Run(EMPTY, Assertions([first, second])) ==
            State([first, second], map[], [Conflict(second.resource, first.holder, second.holder)], false)
  {
    assert [] + [first] == [first] && [first] + [second] == [first, second];
    AssertionsSnoc([], first);
    AssertionsSnoc([first], second);
    FirstIndexUnique([first], c => Contends(c, second, 0.5), 0);
  }

  /** An assertion that contends with nothing leaves the log alone. */
  lemma {:induction false} QuietAssertion(claims: seq<RightsClaim>, c: RightsClaim)
    requires var s := Run(EMPTY, Assertions(claims)); s.claims == claims && forall d :: d in claims ==> !Contends(d, c, 0.5)
    ensures var s := Run(EMPTY, Assertions(claims)); Run(EMPTY, Assertions(claims + [c])) == s.(claims := claims + [c])
  {
    AssertionsSnoc(claims, c);
    hide Run, Assertions, Contends;
  }

  lemma {:induction false} LoneWeakWriteIff(s: State, actor: Entity, r: Resource, now: real)
    ensures Gate.Verify(s, WriteAction(actor, r), now).requiresArbitration <==>
            WeakWrite(s, actor, AccessRequest(Write, r), now) && ConflictLog.HasOpenConflict(s, r.Key())
  {
    hide Gate.Verify, WeakWrite, ConflictLog.HasOpenConflict;
    var a, q := WriteAction(actor, r), AccessRequest(Write, r);
    GateArbitrationIff(s, a, now);
    assert a.Requests() == [q] && [q][0] == q;
  }

  lemma {:induction false} LoneWireWeakWriteIff(s: State, w: E.RegistryWire, actor: Entity, r: Resource, now: real)
    requires IsWireOf(w, s)
    ensures E.Verify(w, WireAction(WriteAction(actor, r)), now).requiresArbitration <==>
            WireWeakWrite(w, actor, AccessRequest(Write, r), now) && NamedRival(s, actor.name, r, now)
  {
    hide E.Verify, WireWeakWrite, NamedRival, IsWireOf, WireAction;
    var a, q := WriteAction(actor, r), AccessRequest(Write, r);
    EngineArbitrationIff(s, w, a, now);
    assert a.Requests() == [q] && [q][0] == q;
  }

  /** The typed gate's answer on a write that one claim decides. */
  lemma {:induction false} TypedByOneClaim(s: State, actor: Entity, r: Resource, mine: RightsClaim, now: real)
    requires mine in s.claims && Authorizes(mine, actor, r.Key(), Write, now)
    requires forall c :: c in s.claims && Authorizes(c, actor, r.Key(), Write, now) ==> c == mine
    ensures WeakWrite(s, actor, AccessRequest(Write, r), now) <==> mine.confidence < WARN_THRESHOLD
  {
    hide Registry.CanAct;
    CanActMeaning(s, actor, r.Key(), Write, now);
  }

  lemma {:induction false} WireAtLeast(s: State, w: E.RegistryWire, actor: Entity, r: Resource, mine: RightsClaim, now: real)
    requires IsWireOf(w, s) && mine in s.claims && E.Matches(WireClaim(mine), actor.name, WireResource(r), Write, now)
    ensures var access := WireAccess(w, actor, AccessRequest(Write, r), now); access.permitted && mine.confidence <= access.confidence
  {
    hide E.CanAct, E.Matches, WireResource;
    E.CanActMeaning(w, actor.name, WireResource(r), Write, now);
    var k :| 0 <= k < |s.claims| && s.claims[k] == mine;
    assert w.claims[k] in w.claims && w.claims[k] == WireClaim(mine);
  }

  lemma {:induction false} WireFrom(s: State, w: E.RegistryWire, actor: Entity, r: Resource, now: real) returns (c: RightsClaim)
    requires IsWireOf(w, s) && WireAccess(w, actor, AccessRequest(Write, r), now).permitted
    ensures c in s.claims && c.holder.name == actor.name
    ensures c.confidence == WireAccess(w, actor, AccessRequest(Write, r), now).confidence
  {
    hide E.CanAct, WireResource;
    E.CanActMeaning(w, actor.name, WireResource(r), Write, now);
    var d :| d in w.claims && E.Matches(d, actor.name, WireResource(r), Write, now)
      && d.confidence == WireAccess(w, actor, AccessRequest(Write, r), now).confidence;
    var i :| 0 <= i < |w.claims| && w.claims[i] == d;
    c := s.claims[i];
    assert d == WireClaim(c);
  }

  /** The engine's answer on a write is the best claim that matches by name. */
  lemma {:induction false} WireByBestClaim(s: State, w: E.RegistryWire, actor: Entity, r: Resource, mine: RightsClaim, now: real)
    requires IsWireOf(w, s) && mine in s.claims && E.Matches(WireClaim(mine), actor.name, WireResource(r), Write, now)
    requires forall c :: c in s.claims && c.holder.name == actor.name ==> c.confidence <= mine.confidence
    ensures WireWeakWrite(w, actor, AccessRequest(Write, r), now) <==> mine.confidence < WARN_THRESHOLD
  {
    hide E.CanAct, IsWireOf;
    WireAtLeast(s, w, actor, r, mine, now);
    var c := WireFrom(s, w, actor, r, now);
  }

  /** The typed gate alone, on a stale record: the rival expired after its conflict
      was logged. */
  lemma {:induction false} StaleConflictSeparates(alice: Entity, bob: Entity, r: Resource, w: E.RegistryWire)
    requires alice != bob
    requires IsWireOf(w, Run(EMPTY, Assertions([Writer(alice, r, 0.5, None), Writer(bob, r, 0.5, Some(1.0))])))
    ensures var s := Run(EMPTY, Assertions([Writer(alice, r, 0.5, None), Writer(bob, r, 0.5, Some(1.0))]));
      Gate.Verify(s, WriteAction(alice, r), 2.0).requiresArbitration
    ensures !E.Verify(w, WireAction(WriteAction(alice, r)), 2.0).requiresArbitration
  {
    var mine, his := Writer(alice, r, 0.5, None), Writer(bob, r, 0.5, Some(1.0));
    TwoWriters(mine, his);
    hide Run, Gate.Verify, E.Verify, IsWireOf, Assertions, Contends;
    StaleTyped(alice, bob, r, Run(EMPTY, Assertions([mine, his])));
    StaleOnWire(alice, bob, r, Run(EMPTY, Assertions([mine, his])), w);
  }

  lemma {:induction false} StaleTyped(alice: Entity, bob: Entity, r: Resource, s: State)
    requires alice != bob && s.conflicts == [Conflict(r, alice, bob)]
    requires s.claims == [Writer(alice, r, 0.5, None), Writer(bob, r, 0.5, Some(1.0))]
    ensures Gate.Verify(s, WriteAction(alice, r), 2.0).requiresArbitration
  {
    hide Gate.Verify, WeakWrite;
    assert s.claims[0] in s.claims && s.conflicts[0] in s.conflicts;
    LoneWeakWriteIff(s, alice, r, 2.0);
    TypedByOneClaim(s, alice, r, s.claims[0], 2.0);
  }

  lemma {:induction false} StaleOnWire(alice: Entity, bob: Entity, r: Resource, s: State, w: E.RegistryWire)
    requires IsWireOf(w, s) && s.claims == [Writer(alice, r, 0.5, None), Writer(bob, r, 0.5, Some(1.0))]
    ensures !E.Verify(w, WireAction(WriteAction(alice, r)), 2.0).requiresArbitration
  {
    hide E.Verify, WireWeakWrite, IsWireOf;
    LoneWireWeakWriteIff(s, w, alice, r, 2.0);
  }

  /** The typed gate alone, on a live conflict: a stronger claim of the writer under
      another scope lifts the engine's confidence above the threshold. */
  lemma {:induction false} OtherScopeHidesDispute(alice: Entity, bob: Entity, r: Resource, scope: string, w: E.RegistryWire)
    requires alice.name != bob.name && scope != r.scope
    requires IsWireOf(w, Run(EMPTY, Assertions([Writer(alice, r, 0.5, None), Writer(bob, r, 0.5, None)]
                                               + [Writer(alice, r.(scope := scope), 1.0, None)])))
    ensures var s := Run(EMPTY, Assertions([Writer(alice, r, 0.5, None), Writer(bob, r, 0.5, None)]
                                           + [Writer(alice, r.(scope := scope), 1.0, None)]));
      && Gate.Verify(s, WriteAction(alice, r), 2.0).requiresArbitration
      && !OthersDead(s, alice.name, r.Key(), 2.0)
    ensures !E.Verify(w, WireAction(WriteAction(alice, r)), 2.0).requiresArbitration
  {
    var mine, his, other := Writer(alice, r, 0.5, None), Writer(bob, r, 0.5, None), Writer(alice, r.(scope := scope), 1.0, None);
    var s := Run(EMPTY, Assertions([mine, his] + [other]));
    HidingState(mine, his, other);
    hide Run, Gate.Verify, E.Verify, IsWireOf, Assertions, Resource.Key;
    assert [mine, his] + [other] == [mine, his, other];
    HiddenOnWire(alice, bob, r, scope, s, w);
    HiddenNotTyped(alice, bob, r, scope, s);
  }

  lemma {:induction false} HidingState(first: RightsClaim, second: RightsClaim, third: RightsClaim)
    requires Contends(first, second, 0.5) && !Contends(first, third, 0.5) && !Contends(second, third, 0.5)
    ensures Run(EMPTY, Assertions([first, second] + [third])) ==
            State([first, second] + [third], map[], [Conflict(second.resource, first.holder, second.holder)], false)
  {
    TwoWriters(first, second);
    hide Run, Assertions, Contends;
    QuietAssertion([first, second], third);
  }

  lemma {:induction false} HiddenOnWire(alice: Entity, bob: Entity, r: Resource, scope: string, s: State, w: E.RegistryWire)
    requires alice.name != bob.name && IsWireOf(w, s)
    requires s.claims == [Writer(alice, r, 0.5, None), Writer(bob, r, 0.5, None), Writer(alice, r.(scope := scope), 1.0, None)]
    ensures !E.Verify(w, WireAction(WriteAction(alice, r)), 2.0).requiresArbitration
  {
    hide E.Verify, WireWeakWrite, IsWireOf, TypeName, NamedRival;
    assert s.claims[2] in s.claims;
    LoneWireWeakWriteIff(s, w, alice, r, 2.0);
    WireByBestClaim(s, w, alice, r, s.claims[2], 2.0);
  }

  lemma {:induction false} HiddenNotTyped(alice: Entity, bob: Entity, r: Resource, scope: string, s: State)
    requires alice.name != bob.name && scope != r.scope
    requires s.claims == [Writer(alice, r, 0.5, None), Writer(bob, r, 0.5, None), Writer(alice, r.(scope := scope), 1.0, None)]
    requires s.conflicts == [Conflict(r, alice, bob)]
    ensures Gate.Verify(s, WriteAction(alice, r), 2.0).requiresArbitration && !OthersDead(s, alice.name, r.Key(), 2.0)
  {
    hide Gate.Verify, WeakWrite;
    assert s.claims[0] in s.claims && s.claims[1] in s.claims && s.conflicts[0] in s.conflicts;
    LoneWeakWriteIff(s, alice, r, 2.0);
    TypedByOneClaim(s, alice, r, s.claims[0], 2.0);
  }

  /** The engine alone: it permits the write on a claim under another scope, which the
      typed gate does not accept, and finds the rival. */
  lemma {:induction false} OtherScopeMakesDispute(alice: Entity, bob: Entity, r: Resource, scope: string, w: E.RegistryWire)
    requires alice.name != bob.name && scope != r.scope
    requires IsWireOf(w, Run(EMPTY, Assertions([Writer(alice, r.(scope := scope), 0.5, None)] + [Writer(bob, r, 0.5, None)])))
    ensures E.Verify(w, WireAction(WriteAction(alice, r)), 2.0).requiresArbitration
    ensures var s := Run(EMPTY, Assertions([Writer(alice, r.(scope := scope), 0.5, None)] + [Writer(bob, r, 0.5, None)]));
      !Gate.Verify(s, WriteAction(alice, r), 2.0).requiresArbitration && s.conflicts == []
  {
    var other, his := Writer(alice, r.(scope := scope), 0.5, None), Writer(bob, r, 0.5, None);
    var s := Run(EMPTY, Assertions([other] + [his]));
    QuietPair(other, his);
    hide Run, Gate.Verify, E.Verify, IsWireOf, Assertions;
    assert [other] + [his] == [other, his];
    MadeOnWire(alice, bob, r, scope, s, w);
    NoOpenConflict(s, alice, r);
  }

  lemma {:induction false} QuietPair(first: RightsClaim, second: RightsClaim)
    requires !Contends(first, second, 0.5)
    ensures Run(EMPTY, Assertions([first] + [second])) == State([first] + [second], map[], [], false)
  {
    assert Run(EMPTY, Assertions([])) == EMPTY && [] + [first] == [first];
    QuietAssertion([], first);
    QuietAssertion([first], second);
  }

  lemma {:induction false} MadeOnWire(alice: Entity, bob: Entity, r: Resource, scope: string, s: State, w: E.RegistryWire)
    requires alice.name != bob.name && IsWireOf(w, s)
    requires s.claims == [Writer(alice, r.(scope := scope), 0.5, None), Writer(bob, r, 0.5, None)]
    ensures E.Verify(w, WireAction(WriteAction(alice, r)), 2.0).requiresArbitration
  {
    hide E.Verify, WireWeakWrite, IsWireOf, TypeName;
    assert s.claims[0] in s.claims && s.claims[1] in s.claims;
    LoneWireWeakWriteIff(s, w, alice, r, 2.0);
    assert RivalByName(s.claims[1], alice.name, r, 2.0);
    WireByBestClaim(s, w, alice, r, s.claims[0], 2.0);
  }

  lemma {:induction false} NoOpenConflict(s: State, actor: Entity, r: Resource)
    requires s.conflicts == []
    ensures !Gate.Verify(s, WriteAction(actor, r), 2.0).requiresArbitration
  {
    hide Gate.Verify, WeakWrite;
    LoneWeakWriteIff(s, actor, r, 2.0);
  }
}
