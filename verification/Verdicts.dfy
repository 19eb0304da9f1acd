/** What both gates share: actions, tagged violations, and the running tally over
    the accesses that an action asks for. */
module Verdicts {
  import opened Entities
  import opened Registry

  datatype Flag =
    | IncreasesMachineSovereignty
    | ResistsHumanCorrection
    | BypassesVerifier
    | WeakensVerifier
    | DisablesCorrigibility
    | MachineCoalitionDominion
    | Coerces
    | Deceives
    | SelfModificationWeakensVerifier
    | MachineCoalitionReducesFreedom

  datatype Flags = Flags(
    increasesMachineSovereignty: bool,
    resistsHumanCorrection: bool,
    bypassesVerifier: bool,
    weakensVerifier: bool,
    disablesCorrigibility: bool,
    machineCoalitionDominion: bool,
    coerces: bool,
    deceives: bool,
    selfModificationWeakensVerifier: bool,
    machineCoalitionReducesFreedom: bool)
  {
    /** The flag table that both gates scan, in their order. */
    function Table(): seq<(bool, Flag)> {
      [ (increasesMachineSovereignty, IncreasesMachineSovereignty),
        (resistsHumanCorrection, ResistsHumanCorrection),
        (bypassesVerifier, BypassesVerifier),
        (weakensVerifier, WeakensVerifier),
        (disablesCorrigibility, DisablesCorrigibility),
        (machineCoalitionDominion, MachineCoalitionDominion),
        (coerces, Coerces),
        (deceives, Deceives),
        (selfModificationWeakensVerifier, SelfModificationWeakensVerifier),
        (machineCoalitionReducesFreedom, MachineCoalitionReducesFreedom) ]
    }

    predicate Any() {
      || increasesMachineSovereignty || resistsHumanCorrection || bypassesVerifier || weakensVerifier
      || disablesCorrigibility || machineCoalitionDominion || coerces || deceives
      || selfModificationWeakensVerifier || machineCoalitionReducesFreedom
    }
  }

  /** Violations carry the data of their message instead of its wording. */
  datatype Violation =
    | Forbidden(flag: Flag)
    | OwnerlessMachine(actor: string)
    | GovernsHuman(actor: string, human: string)
    | AccessDenied(op: Operation, rtype: string, resource: string, actor: string)
    | PlanAborted(trigger: string)
    | GoalAttenuation(goalId: string, excess: set<ResourceKey>)
    | GoalCancelled(parentGoal: string)
    | PolicyDenied(op: Operation, rtype: string, resource: string, actor: string)
    | ContextRevoked(taskId: string)
    | ContextExpired(taskId: string)

  datatype Warning =
    | Contested(op: Operation, rtype: string, resource: string, confidence: real)
    | ConflictOn(rtype: string, resource: string, claimantA: string, claimantB: string)

  datatype VerificationResult = VerificationResult(
    actionId: string,
    permitted: bool,
    violations: seq<Violation>,
    warnings: seq<Warning>,
    confidence: real,
    requiresArbitration: bool)

  const WARN_THRESHOLD: real := 0.8

  // ----- The tally

  /** One requested access: what the registry answered, and the pairs of claimants
      that would be reported if a write turned out to be contested. */
  datatype Check = Check(op: Operation, rtype: string, resource: string, access: Access, rivals: seq<(string, string)>)

  datatype Tally = Tally(violations: seq<Violation>, warnings: seq<Warning>, confidence: real, arbitration: bool)

  function Min(a: real, b: real): real { if b < a then b else a }

  function RivalWarnings(rtype: string, resource: string, rivals: seq<(string, string)>): seq<Warning> {
    if rivals == [] then []
    else
      var last := rivals[|rivals| - 1];
      RivalWarnings(rtype, resource, rivals[..|rivals| - 1]) + [ConflictOn(rtype, resource, last.0, last.1)]
  }

  function Count(actor: string, t: Tally, c: Check): Tally {
    var t := t.(confidence := Min(t.confidence, c.access.confidence));
    if !c.access.permitted then t.(violations := t.violations + [AccessDenied(c.op, c.rtype, c.resource, actor)])
    else if c.access.confidence >= WARN_THRESHOLD || c.op == Delegate then t
    else
      var noted := t.(warnings := t.warnings + [Contested(c.op, c.rtype, c.resource, c.access.confidence)]);
      if c.op == Read then noted
      else noted.(warnings := noted.warnings + RivalWarnings(c.rtype, c.resource, c.rivals),
                  arbitration := noted.arbitration || c.rivals != [])
  }

  lemma {:induction false} CountWrite(actor: string, t: Tally, c: Check)
    requires c.op == Write
    ensures var conf := Min(t.confidence, c.access.confidence);
      var weak := c.access.permitted && c.access.confidence < WARN_THRESHOLD;
      Count(actor, t, c) == Tally(
        if c.access.permitted then t.violations else t.violations + [AccessDenied(Write, c.rtype, c.resource, actor)],
        if weak then t.warnings + [Contested(Write, c.rtype, c.resource, c.access.confidence)] + RivalWarnings(c.rtype, c.resource, c.rivals)
        else t.warnings,
        conf,
        t.arbitration || (weak && c.rivals != []))
  {
  }

  function Fold<R>(actor: string, t: Tally, requests: seq<R>, check: R -> Check): Tally {
    if requests == [] then t
    else Count(actor, Fold(actor, t, requests[..|requests| - 1], check), check(requests[|requests| - 1]))
  }

  function Conclude(actionId: string, t: Tally): VerificationResult {
    VerificationResult(actionId, t.violations == [], t.violations, t.warnings, t.confidence, t.arbitration)
  }

  /** The violations that precede the access checks. */
  function RaisedFlags(table: seq<(bool, Flag)>): seq<Violation> {
    if table == [] then []
    else
      var init, last := table[..|table| - 1], table[|table| - 1];
      if last.0 then RaisedFlags(init) + [Forbidden(last.1)] else RaisedFlags(init)
  }

  function Governed(actor: string, humans: seq<Entity>): seq<Violation> {
    if humans == [] then []
    else Governed(actor, humans[..|humans| - 1]) + [GovernsHuman(actor, humans[|humans| - 1].name)]
  }

  function Preliminary(flags: Flags, actor: Entity, owned: bool, governs: seq<Entity>): seq<Violation> {
    RaisedFlags(flags.Table())
    + (if actor.IsMachine() && !owned then [OwnerlessMachine(actor.name)] else [])
    + (if actor.IsMachine() then Governed(actor.name, governs) else [])
  }

  // ----- What the tally means

  lemma {:induction false} FoldConcat<R>(actor: string, t: Tally, a: seq<R>, b: seq<R>, check: R -> Check)
    ensures Fold(actor, t, a + b, check) == Fold(actor, Fold(actor, t, a, check), b, check)
  {
    if b == [] {
      assert a + b == a;
    } else {
      var n := |b| - 1;
      assert (a + b)[..|a| + n] == a + b[..n];
      FoldConcat(actor, t, a, b[..n], check);
    }
  }

  lemma {:induction false} FoldSnoc<R>(actor: string, t: Tally, a: seq<R>, x: R, check: R -> Check)
    ensures Fold(actor, t, a + [x], check) == Count(actor, Fold(actor, t, a, check), check(x))
  {
  }

  /** The verdict is clean exactly when it was clean before and every access is permitted. */
  lemma {:induction false} FoldPermits<R>(actor: string, t: Tally, requests: seq<R>, check: R -> Check)
    ensures Fold(actor, t, requests, check).violations == [] <==>
            t.violations == [] && forall i :: 0 <= i < |requests| ==> check(requests[i]).access.permitted
  {
    if requests != [] {
      FoldPermits(actor, t, requests[..|requests| - 1], check);
    }
  }

  /** The confidence is the minimum of the initial one and of all answers. */
  lemma {:induction false} FoldConfidence<R>(actor: string, t: Tally, requests: seq<R>, check: R -> Check)
    ensures var c := Fold(actor, t, requests, check).confidence;
      && c <= t.confidence
      && (forall i :: 0 <= i < |requests| ==> c <= check(requests[i]).access.confidence)
      && (c == t.confidence || exists i :: 0 <= i < |requests| && c == check(requests[i]).access.confidence)
  {
    if requests != [] {
      var n := |requests| - 1;
      FoldConfidence(actor, t, requests[..n], check);
      var c := Fold(actor, t, requests[..n], check).confidence;
      if c != t.confidence {
        var i :| 0 <= i < n && c == check(requests[..n][i]).access.confidence;
        assert c == check(requests[i]).access.confidence;
      }
    }
  }

  predicate Disputed(c: Check) {
    c.op == Write && c.access.permitted && c.access.confidence < WARN_THRESHOLD && c.rivals != []
  }

  /** Arbitration is asked for exactly when some permitted write is weak and has rivals. */
  lemma {:induction false} FoldArbitration<R>(actor: string, t: Tally, requests: seq<R>, check: R -> Check)
    ensures Fold(actor, t, requests, check).arbitration <==>
            t.arbitration || exists i :: 0 <= i < |requests| && Disputed(check(requests[i]))
  {
    if requests != [] {
      var n := |requests| - 1;
      FoldArbitration(actor, t, requests[..n], check);
      if Fold(actor, t, requests[..n], check).arbitration && !t.arbitration {
        var i :| 0 <= i < n && Disputed(check(requests[..n][i]));
        assert Disputed(check(requests[i]));
      }
    }
  }

  /** The rivals of an access have no part in violations and confidence. */
  lemma {:induction false} CountIgnoresRivals(actor: string, t: Tally, u: Tally, c: Check, d: Check)
    requires t.violations == u.violations && t.confidence == u.confidence
    requires c.(rivals := []) == d.(rivals := [])
    ensures Count(actor, t, c).violations == Count(actor, u, d).violations
    ensures Count(actor, t, c).confidence == Count(actor, u, d).confidence
  {
  }

  /** Equal answers give equal violations and equal confidence. */
  lemma {:induction false} FoldEqual<R, S>(actor: string, t: Tally, a: seq<R>, f: R -> Check, b: seq<S>, g: S -> Check)
    requires |a| == |b|
    requires forall i :: 0 <= i < |a| ==> f(a[i]).(rivals := []) == g(b[i]).(rivals := [])
    ensures Fold(actor, t, a, f).violations == Fold(actor, t, b, g).violations
    ensures Fold(actor, t, a, f).confidence == Fold(actor, t, b, g).confidence
  {
    if a != [] {
      var n := |a| - 1;
      FoldEqual(actor, t, a[..n], f, b[..n], g);
      hide Count;
      CountIgnoresRivals(actor, Fold(actor, t, a[..n], f), Fold(actor, t, b[..n], g), f(a[n]), g(b[n]));
    }
  }

  lemma {:induction false} RaisedFlagsMember(table: seq<(bool, Flag)>, flag: Flag)
    ensures Forbidden(flag) in RaisedFlags(table) <==> (true, flag) in table
    ensures forall v :: v in RaisedFlags(table) ==> v.Forbidden?
  {
    if table != [] {
      RaisedFlagsMember(table[..|table| - 1], flag);
    }
  }

  lemma {:induction false} RaisedFlagsEmptyIff(table: seq<(bool, Flag)>)
    ensures RaisedFlags(table) == [] <==> forall i :: 0 <= i < |table| ==> !table[i].0
  {
    if table != [] {
      RaisedFlagsEmptyIff(table[..|table| - 1]);
    }
  }

  lemma {:induction false} GovernedLength(actor: string, humans: seq<Entity>)
    ensures |Governed(actor, humans)| == |humans|
    ensures forall v :: v in Governed(actor, humans) ==> v.GovernsHuman? && v.actor == actor && exists h :: h in humans && v.human == h.name
  {
    if humans != [] {
      GovernedLength(actor, humans[..|humans| - 1]);
      assert humans[|humans| - 1] in humans;
    }
  }

  lemma {:induction false} TableEntries(flags: Flags)
    ensures var t := flags.Table();
      && |t| == 10
      && t[0].0 == flags.increasesMachineSovereignty && t[1].0 == flags.resistsHumanCorrection
      && t[2].0 == flags.bypassesVerifier && t[3].0 == flags.weakensVerifier && t[4].0 == flags.disablesCorrigibility
      && t[5].0 == flags.machineCoalitionDominion && t[6].0 == flags.coerces && t[7].0 == flags.deceives
      && t[8].0 == flags.selfModificationWeakensVerifier && t[9].0 == flags.machineCoalitionReducesFreedom
  {
  }

  lemma {:induction false} NoFlagRaisedIff(flags: Flags)
    ensures RaisedFlags(flags.Table()) == [] <==> !flags.Any()
  {
    hide RaisedFlags, Flags.Table;
    RaisedFlagsEmptyIff(flags.Table());
    TableEntries(flags);
  }

  /** Nothing stands in the way before the access checks exactly when no flag is
      set and a machine actor is owned and governs nobody; a raised flag comes first. */
  lemma {:induction false} PreliminaryEmptyIff(flags: Flags, actor: Entity, owned: bool, governs: seq<Entity>)
    ensures Preliminary(flags, actor, owned, governs) == [] <==>
            !flags.Any() && (actor.IsMachine() ==> owned && governs == [])
    ensures flags.Any() ==> Preliminary(flags, actor, owned, governs) != [] && Preliminary(flags, actor, owned, governs)[0].Forbidden?
  {
    hide RaisedFlags;
    NoFlagRaisedIff(flags);
    RaisedFlagsMember(flags.Table(), Coerces);
    GovernedLength(actor.name, governs);
    if flags.Any() {
      assert RaisedFlags(flags.Table())[0] in RaisedFlags(flags.Table());
    }
  }
}
