/** The gate over the typed registry, its audit log, and plans of actions. */
module Gate {
  import opened Entities
  import opened Sequences
  import opened Registry
  import opened Verdicts

  datatype Action = Action(
    actionId: string,
    actor: Entity,
    description: string,
    resourcesRead: seq<Resource>,
    resourcesWrite: seq<Resource>,
    resourcesDelegate: seq<Resource>,
    governsHumans: seq<Entity>,
    argument: string,
    flags: Flags)
  {
    /** Every access the action asks for, in the order in which it is checked. */
    function Requests(): seq<AccessRequest> {
      Asked(Read, resourcesRead) + Asked(Write, resourcesWrite) + Asked(Delegate, resourcesDelegate)
    }
  }

  datatype AccessRequest = AccessRequest(op: Operation, resource: Resource)

  function Asked(op: Operation, resources: seq<Resource>): (r: seq<AccessRequest>)
    ensures |r| == |resources|
    ensures forall i :: 0 <= i < |r| ==> r[i] == AccessRequest(op, resources[i])
  {
    if resources == [] then []
    else Asked(op, resources[..|resources| - 1]) + [AccessRequest(op, resources[|resources| - 1])]
  }

  /** The claimants of the logged conflicts on one resource. */
  function LoggedRivals(log: seq<Conflict>, key: ResourceKey): seq<(string, string)> {
    if log == [] then []
    else
      var init, c := log[..|log| - 1], log[|log| - 1];
      if c.resource.Key() == key then LoggedRivals(init, key) + [(c.claimantA.name, c.claimantB.name)] else LoggedRivals(init, key)
  }

  function CheckOf(s: State, actor: Entity, q: AccessRequest, now: real): Check {
    Check(q.op, TypeName(q.resource.rtype), q.resource.name, CanAct(s, actor, q.resource.Key(), q.op, now),
          LoggedRivals(s.conflicts, q.resource.Key()))
  }

  function Opening(s: State, a: Action): Tally {
    Tally(Preliminary(a.flags, a.actor, a.actor in s.owners, a.governsHumans), [], 1.0, false)
  }

  function Verify(s: State, a: Action, now: real): VerificationResult {
    Conclude(a.actionId, Fold(a.actor.name, Opening(s, a), a.Requests(), q => CheckOf(s, a.actor, q, now)))
  }

  ghost predicate Held(s: State, actor: Entity, q: AccessRequest, now: real) {
    (q.resource.isPublic && q.op == Read)
    || exists c :: c in s.claims && Authorizes(c, actor, q.resource.Key(), q.op, now)
  }

  lemma {:induction false} PermittedIffHeld(s: State, actor: Entity, q: AccessRequest, now: real)
    ensures CanAct(s, actor, q.resource.Key(), q.op, now).permitted <==> Held(s, actor, q, now)
  {
    if !(q.resource.isPublic && q.op == Read) {
      CanActMeaning(s, actor, q.resource.Key(), q.op, now);
    }
  }

  /** The gate in closed form. */
  lemma {:induction false} PermittedIff(s: State, a: Action, now: real)
    ensures Verify(s, a, now).permitted <==>
            && !a.flags.Any()
            && (a.actor.IsMachine() ==> a.actor in s.owners && a.governsHumans == [])
            && forall q :: q in a.Requests() ==> Held(s, a.actor, q, now)
  {
    var check := q => CheckOf(s, a.actor, q, now);
    var qs := a.Requests();
    FoldPermits(a.actor.name, Opening(s, a), qs, check);
    PreliminaryEmptyIff(a.flags, a.actor, a.actor in s.owners, a.governsHumans);
    forall q: AccessRequest ensures check(q).access.permitted <==> Held(s, a.actor, q, now) {
      PermittedIffHeld(s, a.actor, q, now);
    }
    assert forall i :: 0 <= i < |qs| ==> qs[i] in qs;
  }

  // ----- Plans

  predicate ForbiddenAt(text: string, k: nat) {
    k + 9 <= |text| && text[k..k + 9] == "FORBIDDEN"
  }

  predicate Mentions(text: string) {
    exists k: nat :: k < |text| && ForbiddenAt(text, k)
  }

  /** The plan check looks for the word FORBIDDEN in the violation texts, which
      quote the names of actors, humans and resources.  A space or a colon stands on
      either side of a quoted name, so the word cannot straddle its end. */
  predicate ReadsForbidden(v: Violation) {
    match v
    case Forbidden(_) => true
    case OwnerlessMachine(actor) => Mentions(actor)
    case GovernsHuman(actor, human) => Mentions(actor) || Mentions(human)
    case AccessDenied(_, _, resource, actor) => Mentions(resource) || Mentions(actor)
    case _ => false
  }

  predicate Subverts(r: VerificationResult) {
    exists i :: 0 <= i < |r.violations| && ReadsForbidden(r.violations[i])
  }

  function Cancelled(actionId: string, trigger: string): VerificationResult {
    VerificationResult(actionId, false, [PlanAborted(trigger)], [], 0.0, true)
  }

  /** What a plan check returns, given the verdict on each action taken alone: the
      verdicts up to the first subversive one, then cancellations. */
  ghost predicate IsPlanOutcome(results: seq<VerificationResult>, verdicts: seq<VerificationResult>) {
    && |results| == |verdicts|
    && match FirstIndex(verdicts, r => Subverts(r))
       case None => results == verdicts
       case Some(t) =>
         && (forall k :: 0 <= k <= t ==> results[k] == verdicts[k])
         && (forall k :: t < k < |results| ==> results[k] == Cancelled(verdicts[k].actionId, verdicts[t].actionId))
  }

  /** The verdict on each action taken alone, at its own clock reading. */
  function VerdictsOf(s: State, actions: seq<Action>, clock: nat -> real): (r: seq<VerificationResult>)
    ensures |r| == |actions|
    ensures forall i :: 0 <= i < |r| ==> r[i].actionId == actions[i].actionId
  {
    if actions == [] then []
    else
      var n := |actions| - 1;
      VerdictsOf(s, actions[..n], clock) + [Verify(s, actions[n], clock(n))]
  }

  lemma {:induction false} VerdictAt(s: State, actions: seq<Action>, clock: nat -> real, i: nat)
    requires i < |actions|
    ensures VerdictsOf(s, actions, clock)[i] == Verify(s, actions[i], clock(i))
  {
    if i < |actions| - 1 {
      VerdictAt(s, actions[..|actions| - 1], clock, i);
    }
  }

  /** A raised flag subverts, whatever else the action does. */
  lemma {:induction false} FlagSubverts(s: State, a: Action, now: real)
    requires a.flags.Any()
    ensures Subverts(Verify(s, a, now)) && !Verify(s, a, now).permitted
  {
    hide Verify, Subverts;
    SubvertsIff(s, a, now);
    PermittedIff(s, a, now);
  }

  /** How many verdicts a plan check reaches. */
  function Reached(verdicts: seq<VerificationResult>): (n: nat)
    ensures n <= |verdicts|
  {
    match FirstIndex(verdicts, r => Subverts(r))
    case None => |verdicts|
    case Some(t) => t + 1
  }

  lemma {:induction false} NothingAfterSubversion(results: seq<VerificationResult>, verdicts: seq<VerificationResult>, j: nat, k: nat)
    requires IsPlanOutcome(results, verdicts)
    requires j < k < |verdicts| && Subverts(verdicts[j])
    ensures !results[k].permitted
  {
    assert verdicts[j] in verdicts;
    assert FirstIndex(verdicts, r => Subverts(r)).value <= j;
  }

  lemma {:induction false} StoppedPlan(verdicts: seq<VerificationResult>, t: nat, cancelled: seq<VerificationResult>)
    requires t < |verdicts| && Subverts(verdicts[t]) && forall k :: 0 <= k < t ==> !Subverts(verdicts[k])
    requires |cancelled| == |verdicts| - t - 1
    requires forall k :: 0 <= k < |cancelled| ==> cancelled[k] == Cancelled(verdicts[t + 1 + k].actionId, verdicts[t].actionId)
    ensures IsPlanOutcome(verdicts[..t + 1] + cancelled, verdicts)
    ensures Reached(verdicts) == t + 1
  {
    FirstIndexUnique(verdicts, r => Subverts(r), t);
    var results := verdicts[..t + 1] + cancelled;
    forall k | t < k < |results| ensures results[k] == Cancelled(verdicts[k].actionId, verdicts[t].actionId) {
      assert results[k] == cancelled[k - t - 1];
    }
  }

  lemma {:induction false} CompletedPlan(verdicts: seq<VerificationResult>)
    requires forall k :: 0 <= k < |verdicts| ==> !Subverts(verdicts[k])
    ensures IsPlanOutcome(verdicts, verdicts) && Reached(verdicts) == |verdicts|
  {
  }

  /** After an action with a raised flag, no action of the plan is permitted. */
  lemma {:induction false} NothingAfterFlag(s: State, actions: seq<Action>, clock: nat -> real, results: seq<VerificationResult>, j: nat, k: nat)
    requires IsPlanOutcome(results, VerdictsOf(s, actions, clock))
    requires j < k < |actions| && actions[j].flags.Any()
    ensures !results[k].permitted
  {
    var verdicts := VerdictsOf(s, actions, clock);
    assert Subverts(verdicts[j]) by {
      VerdictAt(s, actions, clock, j);
      FlagSubverts(s, actions[j], clock(j));
    }
    NothingAfterSubversion(results, verdicts, j, k);
  }

  // ----- Exactly when a verdict stops a plan

  /** `v` is what a denied access leaves. */
  predicate DenialOf(c: Check, actor: string, v: Violation) {
    !c.access.permitted && v == AccessDenied(c.op, c.rtype, c.resource, actor)
  }

  lemma {:induction false} FoldMember<R>(actor: string, t: Tally, requests: seq<R>, check: R -> Check, v: Violation)
    ensures v in Fold(actor, t, requests, check).violations <==>
            v in t.violations || exists q :: q in requests && DenialOf(check(q), actor, v)
  {
    if requests != [] {
      var n := |requests| - 1;
      FoldMember(actor, t, requests[..n], check, v);
      assert requests == requests[..n] + [requests[n]];
      var c := check(requests[n]);
      assert v in Fold(actor, t, requests, check).violations <==>
             v in Fold(actor, t, requests[..n], check).violations || DenialOf(c, actor, v);
    }
  }

  /** What the violations that precede the access checks quote. */
  ghost predicate PreliminaryQuotes(actor: Entity, owned: bool, governs: seq<Entity>) {
    actor.IsMachine()
    && ((!owned && Mentions(actor.name)) || exists h :: h in governs && (Mentions(actor.name) || Mentions(h.name)))
  }

  lemma {:induction false} GovernedReads(actor: string, humans: seq<Entity>)
    ensures (exists v :: v in Governed(actor, humans) && ReadsForbidden(v)) <==>
            exists h :: h in humans && (Mentions(actor) || Mentions(h.name))
  {
    hide Mentions;
    if humans != [] {
      var n := |humans| - 1;
      GovernedReads(actor, humans[..n]);
      assert humans == humans[..n] + [humans[n]];
      var last := GovernsHuman(actor, humans[n].name);
      assert last in Governed(actor, humans);
      assert ReadsForbidden(last) <==> Mentions(actor) || Mentions(humans[n].name);
    }
  }

  lemma {:induction false} FlagsRead(flags: Flags)
    ensures (exists v :: v in RaisedFlags(flags.Table()) && ReadsForbidden(v)) <==> flags.Any()
  {
    hide Flags.Any, Flags.Table, RaisedFlags;
    NoFlagRaisedIff(flags);
    RaisedFlagsMember(flags.Table(), Coerces);
    if flags.Any() {
      assert RaisedFlags(flags.Table())[0] in RaisedFlags(flags.Table());
    }
  }

  lemma {:induction false} PreliminaryReads(flags: Flags, actor: Entity, owned: bool, governs: seq<Entity>)
    ensures (exists v :: v in Preliminary(flags, actor, owned, governs) && ReadsForbidden(v)) <==>
            flags.Any() || PreliminaryQuotes(actor, owned, governs)
  {
    hide RaisedFlags, Flags.Table, Flags.Any, Governed, Mentions;
    var raised, ruled := RaisedFlags(flags.Table()), if actor.IsMachine() then Governed(actor.name, governs) else [];
    var ownerless := if actor.IsMachine() && !owned then [OwnerlessMachine(actor.name)] else [];
    FlagsRead(flags);
    GovernedReads(actor.name, governs);
    assert forall v :: v in Preliminary(flags, actor, owned, governs) <==> v in raised || v in ownerless || v in ruled;
    assert ownerless != [] ==> ownerless[0] in ownerless;
  }

  /** The word is read off the verdict exactly when a flag is raised, or a preliminary
      violation quotes it, or a denied access does. */
  lemma {:induction false} SubversionSources<R>(actionId: string, flags: Flags, actor: Entity, owned: bool, governs: seq<Entity>,
                                                requests: seq<R>, check: R -> Check)
    ensures var t := Tally(Preliminary(flags, actor, owned, governs), [], 1.0, false);
      Subverts(Conclude(actionId, Fold(actor.name, t, requests, check))) <==>
        || flags.Any()
        || PreliminaryQuotes(actor, owned, governs)
        || exists q :: q in requests && !check(q).access.permitted && (Mentions(check(q).resource) || Mentions(actor.name))
  {
    hide Preliminary, Fold, Mentions, PreliminaryQuotes, Flags.Any;
    var t := Tally(Preliminary(flags, actor, owned, governs), [], 1.0, false);
    var all := Fold(actor.name, t, requests, check).violations;
    PreliminaryReads(flags, actor, owned, governs);
    forall v ensures v in all <==> v in t.violations || exists q :: q in requests && DenialOf(check(q), actor.name, v) {
      FoldMember(actor.name, t, requests, check, v);
    }
    forall q | q in requests && !check(q).access.permitted && (Mentions(check(q).resource) || Mentions(actor.name))
      ensures exists v :: v in all && ReadsForbidden(v)
    {
      var v := AccessDenied(check(q).op, check(q).rtype, check(q).resource, actor.name);
      assert DenialOf(check(q), actor.name, v) && v in all && ReadsForbidden(v);
    }
    forall v | v in all && ReadsForbidden(v) && v !in t.violations
      ensures exists q :: q in requests && !check(q).access.permitted && (Mentions(check(q).resource) || Mentions(actor.name))
    {
      var q :| q in requests && DenialOf(check(q), actor.name, v);
      assert Mentions(check(q).resource) || Mentions(actor.name);
    }
    assert (exists v :: v in all && ReadsForbidden(v)) <==> Subverts(Conclude(actionId, Fold(actor.name, t, requests, check)));
  }

  /** The names that a blocked action quotes contain the word: those of an ownerless
      machine, of a governing machine or a governed human, or of actor or resource
      of an access that is not held. */
  ghost predicate QuotedNameForbids(s: State, a: Action, now: real) {
    || PreliminaryQuotes(a.actor, a.actor in s.owners, a.governsHumans)
    || exists q :: q in a.Requests() && !Held(s, a.actor, q, now) && (Mentions(q.resource.name) || Mentions(a.actor.name))
  }

  /** Main theorem on stopping: a verdict stops the plan exactly when a flag is
      raised or a name that it quotes contains the word. */
  lemma {:induction false} SubvertsIff(s: State, a: Action, now: real)
    ensures Subverts(Verify(s, a, now)) <==> a.flags.Any() || QuotedNameForbids(s, a, now)
  {
    hide Fold, Subverts, Mentions, Held, CanAct;
    SubversionSources(a.actionId, a.flags, a.actor, a.actor in s.owners, a.governsHumans, a.Requests(), q => CheckOf(s, a.actor, q, now));
    forall q: AccessRequest ensures CheckOf(s, a.actor, q, now).access.permitted <==> Held(s, a.actor, q, now) {
      PermittedIffHeld(s, a.actor, q, now);
    }
  }

  function Quiet(): Flags { Flags(false, false, false, false, false, false, false, false, false, false) }

  /** Without any flag, a human who may not read a file stops the plan when the file
      is called FORBIDDEN, and does not when it is called report. */
  lemma {:induction false} UnflaggedActionStopsPlan(now: real)
    ensures Subverts(Verify(EMPTY, ReadOf("FORBIDDEN"), now)) && !ReadOf("FORBIDDEN").flags.Any()
    ensures !Subverts(Verify(EMPTY, ReadOf("report"), now)) && !Verify(EMPTY, ReadOf("report"), now).permitted
  {
    hide Verify, Subverts;
    PermittedIff(EMPTY, ReadOf("report"), now);
    SubvertsIff(EMPTY, ReadOf("FORBIDDEN"), now);
    SubvertsIff(EMPTY, ReadOf("report"), now);
    var q, r := ReadOf("FORBIDDEN").Requests()[0], ReadOf("report").Requests()[0];
    assert q in ReadOf("FORBIDDEN").Requests() && r in ReadOf("report").Requests();
    assert ForbiddenAt(q.resource.name, 0);
    assert !Mentions("report") && !Mentions("alice");
  }

  function ReadOf(name: string): Action {
    Action("read", Entity("alice", Human), "", [Resource(name, File, "", false, "")], [], [], [], "", Quiet())
  }

  // ----- The mutable gate

  datatype AuditRecord = AuditRecord(at: real, result: VerificationResult)

  class AuditLog {
    var records: seq<AuditRecord>

    constructor ()
      ensures records == []
    {
      records := [];
    }

    method Record(result: VerificationResult, now: real)
      modifies this
      ensures records == old(records) + [AuditRecord(now, result)]
    {
      records := records + [AuditRecord(now, result)];
    }
  }

  /** `after` extends `before` by the records of the first `n` verdicts. */
  ghost predicate Logged(before: seq<AuditRecord>, after: seq<AuditRecord>, verdicts: seq<VerificationResult>, clock: nat -> real, n: nat)
    requires n <= |verdicts|
  {
    && |after| == |before| + n && before <= after
    && forall k :: 0 <= k < n ==> after[|before| + k] == AuditRecord(clock(k), verdicts[k])
  }

  class FreedomVerifier {
    const registry: OwnershipRegistry
    const auditLog: AuditLog?

    constructor (registry: OwnershipRegistry, auditLog: AuditLog?)
      ensures this.registry == registry && this.auditLog == auditLog
    {
      this.registry, this.auditLog := registry, auditLog;
    }

    ghost function Logs(): set<object> { if auditLog == null then {} else {auditLog} }

    method RunVerify(a: Action, now: real) returns (result: VerificationResult)
      modifies Logs()
      ensures result == Verify(registry.Abs(), a, now)
      ensures auditLog != null ==> auditLog.records == old(auditLog.records) + [AuditRecord(now, result)]
    {
      var violations := CheckActor(a);
      var warnings, minConfidence, requiresArbitration := [], 1.0, false;
      violations, warnings, minConfidence := CheckReads(a.actor, a.resourcesRead, now, violations, warnings, minConfidence, requiresArbitration);
      violations, warnings, minConfidence, requiresArbitration :=
        CheckWrites(a.actor, a.resourcesWrite, now, violations, warnings, minConfidence, requiresArbitration);
      violations, minConfidence := CheckDelegations(a.actor, a.resourcesDelegate, now, violations, warnings, minConfidence, requiresArbitration);
      FoldRequests(registry.Abs(), a, now);
      result := VerificationResult(a.actionId, violations == [], violations, warnings, minConfidence, requiresArbitration);
      if auditLog != null {
        auditLog.Record(result, now);
      }
    }

    method CheckActor(a: Action) returns (violations: seq<Violation>)
      ensures violations == Preliminary(a.flags, a.actor, a.actor in registry.Abs().owners, a.governsHumans)
    {
      violations := [];
      var table := a.flags.Table();
      for i := 0 to |table|
        invariant violations == RaisedFlags(table[..i])
      {
        assert table[..i + 1][..i] == table[..i];
        if table[i].0 {
          violations := violations + [Forbidden(table[i].1)];
        }
      }
      assert table[..|table|] == table;
      if a.actor.IsMachine() {
        var owner := registry.OwnerOf(a.actor);
        if owner.None? {
          violations := violations + [OwnerlessMachine(a.actor.name)];
        }
      }
      if a.actor.IsMachine() {
        ghost var before := violations;
        for i := 0 to |a.governsHumans|
          invariant violations == before + Governed(a.actor.name, a.governsHumans[..i])
        {
          assert a.governsHumans[..i + 1][..i] == a.governsHumans[..i];
          violations := violations + [GovernsHuman(a.actor.name, a.governsHumans[i].name)];
        }
        assert a.governsHumans[..|a.governsHumans|] == a.governsHumans;
      }
    }

    method CheckReads(actor: Entity, rs: seq<Resource>, now: real,
                      violations0: seq<Violation>, warnings0: seq<Warning>, conf0: real, arbitration: bool)
      returns (violations: seq<Violation>, warnings: seq<Warning>, conf: real)
      ensures var s := registry.Abs();
        Tally(violations, warnings, conf, arbitration) ==
        Fold(actor.name, Tally(violations0, warnings0, conf0, arbitration), Asked(Read, rs), q => CheckOf(s, actor, q, now))
    {
      ghost var s := registry.Abs();
      ghost var check := q => CheckOf(s, actor, q, now);
      ghost var t0 := Tally(violations0, warnings0, conf0, arbitration);
      hide Fold, Asked, LoggedRivals, CanAct;
      AskedNone(actor.name, t0, Read, rs, check);
      violations, warnings, conf := violations0, warnings0, conf0;
      for i := 0 to |rs|
        invariant Tally(violations, warnings, conf, arbitration) == Fold(actor.name, t0, Asked(Read, rs[..i]), check)
      {
        AskedStep(actor.name, t0, Read, rs, i, check);
        var access := registry.CheckAccess(actor, rs[i], Read, now);
        conf := Min(conf, access.confidence);
        if !access.permitted {
          violations := violations + [AccessDenied(Read, TypeName(rs[i].rtype), rs[i].name, actor.name)];
        } else if access.confidence < WARN_THRESHOLD {
          warnings := warnings + [Contested(Read, TypeName(rs[i].rtype), rs[i].name, access.confidence)];
        }
      }
    }

    method CheckWrites(actor: Entity, rs: seq<Resource>, now: real,
                       violations0: seq<Violation>, warnings0: seq<Warning>, conf0: real, arbitration0: bool)
      returns (violations: seq<Violation>, warnings: seq<Warning>, conf: real, arbitration: bool)
      ensures var s := registry.Abs();
        Tally(violations, warnings, conf, arbitration) ==
        Fold(actor.name, Tally(violations0, warnings0, conf0, arbitration0), Asked(Write, rs), q => CheckOf(s, actor, q, now))
    {
      ghost var s := registry.Abs();
      ghost var check := q => CheckOf(s, actor, q, now);
      ghost var t0 := Tally(violations0, warnings0, conf0, arbitration0);
      hide Count, RivalWarnings, Fold, Asked, LoggedRivals, CanAct;
      AskedNone(actor.name, t0, Write, rs, check);
      violations, warnings, conf, arbitration := violations0, warnings0, conf0, arbitration0;
      for i := 0 to |rs|
        invariant Tally(violations, warnings, conf, arbitration) == Fold(actor.name, t0, Asked(Write, rs[..i]), check)
      {
        CountWrite(actor.name, Tally(violations, warnings, conf, arbitration), check(AccessRequest(Write, rs[i])));
        AskedStep(actor.name, t0, Write, rs, i, check);
        var access := registry.CheckAccess(actor, rs[i], Write, now);
        conf := Min(conf, access.confidence);
        if !access.permitted {
          violations := violations + [AccessDenied(Write, TypeName(rs[i].rtype), rs[i].name, actor.name)];
        } else if access.confidence < WARN_THRESHOLD {
          warnings := warnings + [Contested(Write, TypeName(rs[i].rtype), rs[i].name, access.confidence)];
          warnings, arbitration := ReportConflicts(rs[i], warnings, arbitration);
        }
      }
    }

    method ReportConflicts(r: Resource, warnings: seq<Warning>, arbitration: bool)
      returns (warnings': seq<Warning>, arbitration': bool)
      ensures var rivals := LoggedRivals(registry.conflicts.items, r.Key());
        && warnings' == warnings + RivalWarnings(TypeName(r.rtype), r.name, rivals)
        && (arbitration' <==> arbitration || rivals != [])
    {
      var log := registry.conflicts.items;
      warnings', arbitration' := warnings, arbitration;
      for i := 0 to |log|
        invariant var rivals := LoggedRivals(log[..i], r.Key());
          && warnings' == warnings + RivalWarnings(TypeName(r.rtype), r.name, rivals)
          && (arbitration' <==> arbitration || rivals != [])
      {
        assert log[..i + 1][..i] == log[..i];
        if log[i].resource.Key() == r.Key() {
          ghost var rivals := LoggedRivals(log[..i], r.Key());
          assert (rivals + [(log[i].claimantA.name, log[i].claimantB.name)])[..|rivals|] == rivals;
          arbitration' := true;
          warnings' := warnings' + [ConflictOn(TypeName(r.rtype), r.name, log[i].claimantA.name, log[i].claimantB.name)];
        }
      }
      assert log[..|log|] == log;
    }

    method CheckDelegations(actor: Entity, rs: seq<Resource>, now: real,
                            violations0: seq<Violation>, warnings: seq<Warning>, conf0: real, arbitration: bool)
      returns (violations: seq<Violation>, conf: real)
      ensures var s := registry.Abs();
        Tally(violations, warnings, conf, arbitration) ==
        Fold(actor.name, Tally(violations0, warnings, conf0, arbitration), Asked(Delegate, rs), q => CheckOf(s, actor, q, now))
    {
      ghost var s := registry.Abs();
      ghost var check := q => CheckOf(s, actor, q, now);
      ghost var t0 := Tally(violations0, warnings, conf0, arbitration);
      hide Fold, Asked, LoggedRivals, CanAct;
      AskedNone(actor.name, t0, Delegate, rs, check);
      violations, conf := violations0, conf0;
      for i := 0 to |rs|
        invariant Tally(violations, warnings, conf, arbitration) == Fold(actor.name, t0, Asked(Delegate, rs[..i]), check)
      {
        AskedStep(actor.name, t0, Delegate, rs, i, check);
        var access := registry.CheckAccess(actor, rs[i], Delegate, now);
        conf := Min(conf, access.confidence);
        if !access.permitted {
          violations := violations + [AccessDenied(Delegate, TypeName(rs[i].rtype), rs[i].name, actor.name)];
        }
      }
    }

    /** One result per action.  The log receives exactly the verdicts that were
        reached, and none of the cancellations. */
    method VerifyPlan(actions: seq<Action>, clock: nat -> real) returns (results: seq<VerificationResult>)
      modifies Logs()
      ensures IsPlanOutcome(results, VerdictsOf(registry.Abs(), actions, clock))
      ensures auditLog != null ==>
                var verdicts := VerdictsOf(registry.Abs(), actions, clock);
                Logged(old(auditLog.records), auditLog.records, verdicts, clock, Reached(verdicts))
    {
      hide VerdictsOf;
      ghost var verdicts := VerdictsOf(registry.Abs(), actions, clock);
      var stopped;
      results, stopped := VerifyUntilSubversion(actions, clock);
      if stopped {
        var t := |results| - 1;
        var cancelled := CancelRest(actions[t + 1..], results[t].actionId);
        StoppedPlan(verdicts, t, cancelled);
        results := results + cancelled;
      } else {
        CompletedPlan(verdicts);
        assert verdicts[..|verdicts|] == verdicts;
      }
    }

    method VerifyUntilSubversion(actions: seq<Action>, clock: nat -> real) returns (results: seq<VerificationResult>, stopped: bool)
      modifies Logs()
      ensures |results| <= |actions| && results == VerdictsOf(registry.Abs(), actions, clock)[..|results|]
      ensures stopped ==> results != [] && Subverts(results[|results| - 1])
      ensures forall k :: 0 <= k < |results| - (if stopped then 1 else 0) ==> !Subverts(results[k])
      ensures !stopped ==> |results| == |actions|
      ensures auditLog != null ==>
                Logged(old(auditLog.records), auditLog.records, VerdictsOf(registry.Abs(), actions, clock), clock, |results|)
    {
      hide VerdictsOf;
      results, stopped := [], false;
      ghost var verdicts := VerdictsOf(registry.Abs(), actions, clock);
      while |results| < |actions| && !stopped
        invariant |results| <= |actions| && results == verdicts[..|results|]
        invariant stopped ==> results != [] && Subverts(results[|results| - 1])
        invariant forall k :: 0 <= k < |results| - (if stopped then 1 else 0) ==> !Subverts(results[k])
        invariant auditLog != null ==> Logged(old(auditLog.records), auditLog.records, verdicts, clock, |results|)
        decreases |actions| - |results|
      {
        var i := |results|;
        var result := VerifyStep(actions, clock, i);
        assert verdicts[..i + 1] == verdicts[..i] + [result];
        results := results + [result];
        stopped := Subverts(result);
      }
    }

    method VerifyStep(actions: seq<Action>, clock: nat -> real, i: nat) returns (result: VerificationResult)
      requires i < |actions|
      modifies Logs()
      ensures result == VerdictsOf(registry.Abs(), actions, clock)[i] && result.actionId == actions[i].actionId
      ensures auditLog != null ==> auditLog.records == old(auditLog.records) + [AuditRecord(clock(i), result)]
    {
      result := RunVerify(actions[i], clock(i));
      VerdictAt(registry.Abs(), actions, clock, i);
    }
  }

  /** The cancellations that stand for the rest of a plan. */
  method CancelRest(actions: seq<Action>, trigger: string) returns (cancelled: seq<VerificationResult>)
    ensures |cancelled| == |actions|
    ensures forall k :: 0 <= k < |actions| ==> cancelled[k] == Cancelled(actions[k].actionId, trigger)
  {
    cancelled := [];
    for k := 0 to |actions|
      invariant |cancelled| == k
      invariant forall m :: 0 <= m < k ==> cancelled[m] == Cancelled(actions[m].actionId, trigger)
    {
      cancelled := cancelled + [Cancelled(actions[k].actionId, trigger)];
    }
  }

  lemma {:induction false} AskedNone(actor: string, t: Tally, op: Operation, rs: seq<Resource>, check: AccessRequest -> Check)
    ensures Fold(actor, t, Asked(op, rs[..0]), check) == t
    ensures rs[..|rs|] == rs
  {
  }

  lemma {:induction false} AskedStep(actor: string, t: Tally, op: Operation, rs: seq<Resource>, i: nat, check: AccessRequest -> Check)
    requires i < |rs|
    ensures Fold(actor, t, Asked(op, rs[..i + 1]), check) ==
            Count(actor, Fold(actor, t, Asked(op, rs[..i]), check), check(AccessRequest(op, rs[i])))
  {
    assert rs[..i + 1][..i] == rs[..i];
    FoldSnoc(actor, t, Asked(op, rs[..i]), AccessRequest(op, rs[i]), check);
  }

  lemma {:induction false} FoldRequests(s: State, a: Action, now: real)
    ensures var check := q => CheckOf(s, a.actor, q, now);
      var t1 := Fold(a.actor.name, Opening(s, a), Asked(Read, a.resourcesRead), check);
      var t2 := Fold(a.actor.name, t1, Asked(Write, a.resourcesWrite), check);
      Fold(a.actor.name, Opening(s, a), a.Requests(), check) == Fold(a.actor.name, t2, Asked(Delegate, a.resourcesDelegate), check)
  {
    var check := q => CheckOf(s, a.actor, q, now);
    var rd, wr := Asked(Read, a.resourcesRead), Asked(Write, a.resourcesWrite);
    FoldConcat(a.actor.name, Opening(s, a), rd + wr, Asked(Delegate, a.resourcesDelegate), check);
    FoldConcat(a.actor.name, Opening(s, a), rd, wr, check);
  }
}
