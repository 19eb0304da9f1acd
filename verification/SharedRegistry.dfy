/** The mutex-guarded registry.  A delegation takes the lock four times (frozen
    check, candidate scan, frozen check of the append, append), so it is modelled
    as a state machine in which other threads may run between any two of them. */
module SharedRegistry {
  import opened Entities
  import Sequences
  import opened Registry
  import opened Provenance
  import opened Delegation
  import ConflictLog

  /** The slack that the confidence comparison allows, 1e-9. */
  const EPSILON: real := 0.000000001

  predicate AttenuatesWithSlack(child: RightsClaim, parent: RightsClaim) {
    RightsWithin(child, parent) && child.confidence <= parent.confidence + EPSILON
  }

  /** The check of a delegation: rights and confidence against the selected claim. */
  predicate ScanAccepts(claims: seq<RightsClaim>, claim: RightsClaim, grantor: Entity, now: real) {
    var best := Delegator(claims, grantor, claim.resource.Key(), now);
    best.Some? && AttenuatesWithSlack(claim, claims[best.value])
  }

  /** The point that a thread has reached inside a mutator call. */
  datatype Pc =
    | Idle
    | AppendReady(claim: RightsClaim, origin: Origin)
    | DelegateEntered(claim: RightsClaim, grantor: Entity)
    | DelegateScanned(claim: RightsClaim, parent: nat)
    | RegisterReady(machine: Entity, owner: Entity)

  /** `origins` is a history variable: the origin of each claim in `inner.claims`. */
  datatype Shared = Shared(inner: State, origins: seq<Origin>, threads: map<nat, Pc>) {
    function PcOf(t: nat): Pc { if t in threads then threads[t] else Idle }

    function At(t: nat, pc: Pc): Shared { this.(threads := threads[t := pc]) }
  }

  datatype Step =
    | CallAddClaim(t: nat, claim: RightsClaim)
    | CallDelegate(t: nat, claim: RightsClaim, grantor: Entity)
    | CallRegister(t: nat, machine: Entity, owner: Entity)
    | Advance(t: nat, now: real)

  const START: Shared := Shared(EMPTY, [], map[])

  /** A call made by an idle thread: the frozen flag is read first. */
  function Enter(s: Shared, t: nat, pc: Pc): Shared {
    if s.PcOf(t) != Idle || s.inner.frozen then s else s.At(t, pc)
  }

  /** One critical section of the thread `t`. */
  function AdvanceThread(s: Shared, t: nat, now: real): Shared {
    match s.PcOf(t)
    case Idle => s
    case DelegateEntered(claim, grantor) =>
      if ScanAccepts(s.inner.claims, claim, grantor, now)
      then s.At(t, DelegateScanned(claim, Delegator(s.inner.claims, grantor, claim.resource.Key(), now).value))
      else s.At(t, Idle)
    case DelegateScanned(claim, parent) =>
      if s.inner.frozen then s.At(t, Idle) else s.At(t, AppendReady(claim, DelegatedFrom(parent)))
    case AppendReady(claim, origin) =>
      s.At(t, Idle).(inner := Append(s.inner, claim, now), origins := s.origins + [origin])
    case RegisterReady(machine, owner) =>
      s.At(t, Idle).(inner := s.inner.(owners := s.inner.owners[machine := owner]))
  }

  function Exec(s: Shared, step: Step): Shared {
    match step
    case CallAddClaim(t, claim) => Enter(s, t, AppendReady(claim, Asserted))
    case CallDelegate(t, claim, grantor) => Enter(s, t, DelegateEntered(claim, grantor))
    case CallRegister(t, machine, owner) =>
      if machine.IsMachine() && owner.IsHuman() then Enter(s, t, RegisterReady(machine, owner)) else s
    case Advance(t, now) => AdvanceThread(s, t, now)
  }

  function Play(s: Shared, steps: seq<Step>): Shared {
    if steps == [] then s else Exec(Play(s, steps[..|steps| - 1]), steps[|steps| - 1])
  }

  // ----- The invariant of every interleaving

  ghost predicate AssertCalled(steps: seq<Step>, claim: RightsClaim) {
    exists t :: CallAddClaim(t, claim) in steps
  }

  ghost predicate DelegateCalled(steps: seq<Step>, claim: RightsClaim, grantor: Entity) {
    exists t :: CallDelegate(t, claim, grantor) in steps
  }

  /** A registration of a machine to a human was called. */
  ghost predicate RegisterCalled(steps: seq<Step>, machine: Entity, owner: Entity) {
    machine.kind == Machine && owner.kind == Human && exists t :: CallRegister(t, machine, owner) in steps
  }

  /** Some step read the clock at a moment at which `c` was valid. */
  ghost predicate ValidAtStep(steps: seq<Step>, c: RightsClaim) {
    exists t, now :: Advance(t, now) in steps && c.IsValid(now)
  }

  /** `claim` was asserted in `steps`, or its delegation was called by the holder of
      the earlier claim at index `p` and scanned against that claim while it was valid. */
  ghost predicate Justified(steps: seq<Step>, claims: seq<RightsClaim>, below: nat, claim: RightsClaim, o: Origin) {
    match o
    case Asserted => AssertCalled(steps, claim)
    case DelegatedFrom(p) =>
      && p < below && p < |claims|
      && DelegateCalled(steps, claim, claims[p].holder)
      && claim.resource.Key() == claims[p].resource.Key()
      && claims[p].canDelegate
      && ValidAtStep(steps, claims[p])
      && AttenuatesWithSlack(claim, claims[p])
  }

  ghost predicate PcJustified(steps: seq<Step>, claims: seq<RightsClaim>, pc: Pc) {
    match pc
    case AppendReady(claim, o) => Justified(steps, claims, |claims|, claim, o)
    case DelegateScanned(claim, p) => Justified(steps, claims, |claims|, claim, DelegatedFrom(p))
    case DelegateEntered(claim, grantor) => DelegateCalled(steps, claim, grantor)
    case Idle => true
    case RegisterReady(machine, owner) => RegisterCalled(steps, machine, owner)
  }

  ghost predicate Inv(steps: seq<Step>, s: Shared) {
    && |s.origins| == |s.inner.claims|
    && (forall i :: 0 <= i < |s.origins| ==> Justified(steps, s.inner.claims, i, s.inner.claims[i], s.origins[i]))
    && (forall t :: t in s.threads ==> PcJustified(steps, s.inner.claims, s.threads[t]))
  }

  lemma {:induction false} InvWeaken(steps: seq<Step>, step: Step, s: Shared)
    requires Inv(steps, s)
    ensures Inv(steps + [step], s)
  {
  }

  lemma {:induction false} AppendKeepsInv(steps: seq<Step>, step: Step, s: Shared, t: nat, now: real)
    requires Inv(steps, s) && s.PcOf(t).AppendReady?
    ensures Inv(steps + [step], AdvanceThread(s, t, now))
  {
  }

  lemma {:induction false} ExecKeepsInv(steps: seq<Step>, step: Step, s: Shared)
    requires Inv(steps, s)
    ensures Inv(steps + [step], Exec(s, step))
  {
    InvWeaken(steps, step, s);
    match step
    case CallAddClaim(t, claim) => assert step in steps + [step];
    case CallDelegate(t, claim, grantor) => assert step in steps + [step];
    case CallRegister(_, _, _) => assert step in steps + [step];
    case Advance(t, now) =>
      if s.PcOf(t).AppendReady? {
        AppendKeepsInv(steps, step, s, t, now);
      }
  }

  lemma {:induction false} PlayInv(steps: seq<Step>)
    ensures Inv(steps, Play(START, steps))
  {
    if steps != [] {
      var init, step := steps[..|steps| - 1], steps[|steps| - 1];
      PlayInv(init);
      ExecKeepsInv(init, step, Play(START, init));
      assert steps == init + [step];
    }
  }

  // ----- Confidence and rights along a chain

  lemma {:induction false} ChainBound(steps: seq<Step>, s: Shared, i: nat)
    requires Inv(steps, s) && i < |s.origins|
    ensures WellFounded(s.origins)
    ensures var path := Chain(s.origins, i);
      var root := s.inner.claims[path[0]];
      && AssertCalled(steps, root)
      && s.inner.claims[i].resource.Key() == root.resource.Key()
      && RightsWithin(s.inner.claims[i], root)
      && s.inner.claims[i].confidence <= root.confidence + (|path| - 1) as real * EPSILON
    decreases i
  {
    forall k | 0 <= k < |s.origins| && s.origins[k].DelegatedFrom?
      ensures s.origins[k].parent < k
    {
      assert Justified(steps, s.inner.claims, k, s.inner.claims[k], s.origins[k]);
    }
    assert Justified(steps, s.inner.claims, i, s.inner.claims[i], s.origins[i]);
    if s.origins[i].DelegatedFrom? {
      ChainBound(steps, s, s.origins[i].parent);
    }
  }

  /** Main theorem: under every interleaving of any number of threads, a claim that
      lies k delegation hops from its root has the root's resource and no right
      the root lacks, and exceeds the root's confidence by at most k * 1e-9. */
  lemma {:induction false} ConfidenceDriftBounded(steps: seq<Step>, i: nat)
    requires i < |Play(START, steps).inner.claims|
    ensures var s := Play(START, steps);
      && |s.origins| == |s.inner.claims| && WellFounded(s.origins)
      && var path := Chain(s.origins, i);
         var root := s.inner.claims[path[0]];
         && AssertCalled(steps, root)
         && s.inner.claims[i].resource.Key() == root.resource.Key()
         && RightsWithin(s.inner.claims[i], root)
         && s.inner.claims[i].confidence <= root.confidence + (|path| - 1) as real * 0.000000001
  {
    PlayInv(steps);
    ChainBound(steps, Play(START, steps), i);
  }

  /** A snapshot shared between threads never changes, whatever they call. */
  lemma {:induction false} SharedSnapshotIsImmutable(s: Shared, steps: seq<Step>)
    requires s.inner.frozen && s.threads == map[]
    ensures Play(s, steps) == s
  {
    if steps != [] {
      SharedSnapshotIsImmutable(s, steps[..|steps| - 1]);
    }
  }

  /** The clock readings of the steps that append, in their order. */
  function AppendTimes(steps: seq<Step>): seq<real> {
    if steps == [] then []
    else
      var init, step := steps[..|steps| - 1], steps[|steps| - 1];
      if step.Advance? && Play(START, init).PcOf(step.t).AppendReady? then AppendTimes(init) + [step.now]
      else AppendTimes(init)
  }

  /** The conflict log is exact under every interleaving as well, at the moments of
      the appends: detection and append share one critical section. */
  lemma {:induction false} InterleavedLogExact(steps: seq<Step>)
    ensures ConflictLog.LogExact(Play(START, steps).inner, AppendTimes(steps))
  {
    if steps != [] {
      var init, step := steps[..|steps| - 1], steps[|steps| - 1];
      InterleavedLogExact(init);
      hide Play, ConflictLog.LogExact, Append;
      var s := Play(START, init);
      PlaySnoc(START, init, step);
      assert steps == init + [step];
      if step.Advance? && s.PcOf(step.t).AppendReady? {
        ConflictLog.AppendKeepsLogExact(s.inner, AppendTimes(init), s.PcOf(step.t).claim, step.now);
      } else {
        LogIgnoresOwners(s.inner, Exec(s, step).inner, AppendTimes(init));
      }
    }
  }

  lemma {:induction false} LogIgnoresOwners(s: State, s': State, times: seq<real>)
    requires ConflictLog.LogExact(s, times) && s'.claims == s.claims && s'.conflicts == s.conflicts
    ensures ConflictLog.LogExact(s', times)
  {
  }

  // ----- Owners

  /** The registrations that took effect, in the order of their steps. */
  function Registrations(steps: seq<Step>): seq<(Entity, Entity)> {
    if steps == [] then []
    else
      var init, step := steps[..|steps| - 1], steps[|steps| - 1];
      if step.Advance? && Play(START, init).PcOf(step.t).RegisterReady?
      then
        var pc := Play(START, init).PcOf(step.t);
        Registrations(init) + [(pc.machine, pc.owner)]
      else Registrations(init)
  }

  /** Registration `i` is the last of the machine `m`. */
  ghost predicate LastOf(done: seq<(Entity, Entity)>, m: Entity, i: nat) {
    i < |done| && done[i].0 == m && forall j :: i < j < |done| ==> done[j].0 != m
  }

  ghost predicate OwnersFrom(owners: map<Entity, Entity>, done: seq<(Entity, Entity)>) {
    && (forall m :: m in owners <==> exists i :: 0 <= i < |done| && done[i].0 == m)
    && forall m, i: nat :: LastOf(done, m, i) ==> m in owners && owners[m] == done[i].1
  }

  lemma {:induction false} OneMoreOwner(owners: map<Entity, Entity>, done: seq<(Entity, Entity)>, machine: Entity, owner: Entity)
    requires OwnersFrom(owners, done)
    ensures OwnersFrom(owners[machine := owner], done + [(machine, owner)])
  {
    var after, more := owners[machine := owner], done + [(machine, owner)];
    forall m ensures m in after <==> exists i :: 0 <= i < |more| && more[i].0 == m {
      if m == machine {
        assert more[|done|].0 == m;
      } else if m in owners {
        var i :| 0 <= i < |done| && done[i].0 == m;
        assert more[i].0 == m;
      }
    }
    forall m, i: nat | LastOf(more, m, i) ensures m in after && after[m] == more[i].1 {
      if i < |done| {
        assert more[|done|].0 != m;
        assert forall j :: 0 <= j < |done| ==> more[j] == done[j];
        assert LastOf(done, m, i);
      }
    }
  }

  /** Under every interleaving, a machine is owned exactly when a registration of it
      took effect, and by the owner that the last one named; and each registration
      that took effect was called, for a machine and a human. */
  lemma {:induction false} InterleavedOwners(steps: seq<Step>)
    ensures OwnersFrom(Play(START, steps).inner.owners, Registrations(steps))
    ensures forall i :: 0 <= i < |Registrations(steps)| ==> RegisterCalled(steps, Registrations(steps)[i].0, Registrations(steps)[i].1)
  {
    if steps != [] {
      var init, step := steps[..|steps| - 1], steps[|steps| - 1];
      InterleavedOwners(init);
      PlayInv(init);
      PlaySnoc(START, init, step);
      assert steps == init + [step];
      hide Play, OwnersFrom, Append, ScanAccepts, Justified;
      var s := Play(START, init);
      if step.Advance? && s.PcOf(step.t).RegisterReady? {
        var pc := s.PcOf(step.t);
        assert PcJustified(init, s.inner.claims, s.threads[step.t]);
        OneMoreOwner(s.inner.owners, Registrations(init), pc.machine, pc.owner);
      } else {
        OwnersKept(s, step);
      }
    }
  }

  lemma {:induction false} OwnersKept(s: Shared, step: Step)
    requires !(step.Advance? && s.PcOf(step.t).RegisterReady?)
    ensures Exec(s, step).inner.owners == s.inner.owners
  {
  }

  /** A registration called by an idle thread takes effect with the thread's next step. */
  lemma {:induction false} RegistrationTakesEffect(s: Shared, t: nat, machine: Entity, owner: Entity, now: real)
    requires s.PcOf(t) == Idle && !s.inner.frozen && machine.kind == Machine && owner.kind == Human
    ensures Exec(Exec(s, CallRegister(t, machine, owner)), Advance(t, now)).inner == s.inner.(owners := s.inner.owners[machine := owner])
  {
  }

  // ----- The bound is attained

  function Rung(h: Entity, k: nat): RightsClaim {
    RightsClaim(h, Resource("db", DatabaseTable, "", false, ""), true, true, true, 1.0 + k as real * EPSILON, None)
  }

  function Rungs(h: Entity, k: nat): (claims: seq<RightsClaim>)
    ensures |claims| == k + 1
    ensures forall j :: 0 <= j <= k ==> claims[j] == Rung(h, j)
  {
    if k == 0 then [Rung(h, 0)] else Rungs(h, k - 1) + [Rung(h, k)]
  }

  function HopOrigins(k: nat): seq<Origin> {
    if k == 0 then [Asserted] else HopOrigins(k - 1) + [DelegatedFrom(k - 1)]
  }

  /** One asserted claim, then `k` delegations of its holder to itself. */
  function Ladder(h: Entity, k: nat): seq<Step> {
    if k == 0 then ThenRunAlone([], CallAddClaim(0, Rung(h, 0)))
    else ThenRunAlone(Ladder(h, k - 1), CallDelegate(0, Rung(h, k), h))
  }

  lemma {:induction false} PlaySnoc(s: Shared, steps: seq<Step>, step: Step)
    ensures Play(s, steps + [step]) == Exec(Play(s, steps), step)
  {
  }

  /** One lock-protected step of a thread that is alone: scan, check, append. */
  lemma {:induction false} ScanHop(h: Entity, k: nat, s: Shared)
    requires s.inner.claims == Rungs(h, k) && s.PcOf(0) == DelegateEntered(Rung(h, k + 1), h)
    ensures AdvanceThread(s, 0, 0.0) == s.At(0, DelegateScanned(Rung(h, k + 1), k))
  {
  }

  lemma {:induction false} SelfDelegationHop(h: Entity, k: nat, s: Shared)
    requires s.inner.claims == Rungs(h, k) && s.PcOf(0) == Idle && !s.inner.frozen
    ensures var d := AdvanceThread(AdvanceThread(AdvanceThread(
                       Exec(s, CallDelegate(0, Rung(h, k + 1), h)), 0, 0.0), 0, 0.0), 0, 0.0);
      && d.inner.claims == Rungs(h, k + 1) && d.origins == s.origins + [DelegatedFrom(k)]
      && d.PcOf(0) == Idle && !d.inner.frozen
  {
    var a := Exec(s, CallDelegate(0, Rung(h, k + 1), h));
    assert a == s.At(0, DelegateEntered(Rung(h, k + 1), h));
    ScanHop(h, k, a);
  }

  /** A call followed by three steps of thread 0. */
  function ThenRunAlone(steps: seq<Step>, call: Step): seq<Step> {
    steps + [call] + [Advance(0, 0.0)] + [Advance(0, 0.0)] + [Advance(0, 0.0)]
  }

  lemma {:induction false} PlayAlone(s: Shared, steps: seq<Step>, call: Step)
    ensures Play(s, ThenRunAlone(steps, call)) ==
            AdvanceThread(AdvanceThread(AdvanceThread(Exec(Play(s, steps), call), 0, 0.0), 0, 0.0), 0, 0.0)
  {
    var go := Advance(0, 0.0);
    PlaySnoc(s, steps, call);
    PlaySnoc(s, steps + [call], go);
    PlaySnoc(s, steps + [call] + [go], go);
    PlaySnoc(s, steps + [call] + [go] + [go], go);
  }

  /** An append followed by two idle steps. */
  lemma {:induction false} FirstRung(h: Entity)
    ensures var s := Play(START, Ladder(h, 0));
      s.inner.claims == Rungs(h, 0) && s.origins == HopOrigins(0) && s.PcOf(0) == Idle && !s.inner.frozen
  {
    PlayAlone(START, [], CallAddClaim(0, Rung(h, 0)));
    var a := Exec(START, CallAddClaim(0, Rung(h, 0)));
    assert a == START.At(0, AppendReady(Rung(h, 0), Asserted));
    var b := AdvanceThread(a, 0, 0.0);
    assert b.PcOf(0) == Idle && b.inner.claims == [Rung(h, 0)];
  }

  lemma {:induction false} LadderClimbs(h: Entity, k: nat)
    ensures var s := Play(START, Ladder(h, k));
      s.inner.claims == Rungs(h, k) && s.origins == HopOrigins(k) && s.PcOf(0) == Idle && !s.inner.frozen
  {
    hide Play, AdvanceThread, Exec, Rungs;
    if k == 0 {
      FirstRung(h);
    } else {
      LadderClimbs(h, k - 1);
      SelfDelegationHop(h, k - 1, Play(START, Ladder(h, k - 1)));
      PlayAlone(START, Ladder(h, k - 1), CallDelegate(0, Rung(h, k), h));
    }
  }

  lemma {:induction false} HopChain(k: nat, j: nat)
    requires j <= k
    ensures |HopOrigins(k)| == k + 1 && WellFounded(HopOrigins(k))
    ensures HopOrigins(k)[j] == if j == 0 then Asserted else DelegatedFrom(j - 1)
    ensures |Chain(HopOrigins(k), j)| == j + 1 && Chain(HopOrigins(k), j)[0] == 0
    decreases k, j
  {
    HopShape(k);
    if j > 0 {
      HopChain(k, j - 1);
    }
  }

  lemma {:induction false} HopShape(k: nat)
    ensures |HopOrigins(k)| == k + 1
    ensures forall j :: 0 <= j <= k ==> HopOrigins(k)[j] == if j == 0 then Asserted else DelegatedFrom(j - 1)
  {
    if k > 0 {
      HopShape(k - 1);
    }
  }

  /** For every k there is a run in which the bound of `ConfidenceDriftBounded` is
      met with equality after k hops. */
  lemma {:induction false} DriftBoundAttained(h: Entity, k: nat)
    ensures var s := Play(START, Ladder(h, k));
      && |s.inner.claims| == |s.origins| == k + 1 && WellFounded(s.origins)
      && |Chain(s.origins, k)| - 1 == k
      && s.inner.claims[k].confidence == s.inner.claims[Chain(s.origins, k)[0]].confidence + k as real * 0.000000001
  {
    LadderClimbs(h, k);
    HopChain(k, k);
    assert Rungs(h, k)[0] == Rung(h, 0) && Rungs(h, k)[k] == Rung(h, k);
  }

  /** The drift is real: a holder with one asserted claim of confidence 1.0 can, by
      delegating to itself, come to hold a claim whose confidence exceeds any bound. */
  lemma {:induction false} SelfDelegationExceedsAnyBound(h: Entity, bound: real)
    ensures exists k: nat ::
              && (forall t, c :: CallAddClaim(t, c) in Ladder(h, k) ==> c.confidence == 1.0)
              && |Play(START, Ladder(h, k)).inner.claims| == k + 1
              && Play(START, Ladder(h, k)).inner.claims[k].confidence == 1.0 + k as real * 0.000000001 > bound
  {
    var k: nat := if bound < 1.0 then 0 else ((bound - 1.0) / EPSILON).Floor + 1;
    LadderClimbs(h, k);
    LadderAsserts(h, k);
    assert Play(START, Ladder(h, k)).inner.claims[k] == Rung(h, k);
  }

  lemma {:induction false} LadderAsserts(h: Entity, k: nat)
    ensures forall t, c :: CallAddClaim(t, c) in Ladder(h, k) ==> c.confidence == 1.0
  {
    if k > 0 {
      LadderAsserts(h, k - 1);
    }
  }

  // ----- Against the single-lock registry

  /** The scan accepts exactly what the single-lock delegation accepts, plus the
      claims whose confidence lies in the slack above the delegator's best. */
  lemma {:induction false} ScanVersusDelegate(s: Shared, t: nat, claim: RightsClaim, grantor: Entity, now: real)
    requires s.PcOf(t) == DelegateEntered(claim, grantor)
    ensures var best := Delegator(s.inner.claims, grantor, claim.resource.Key(), now);
      AdvanceThread(s, t, now).PcOf(t).DelegateScanned? <==>
        || DelegateOutcome(s.inner.claims, claim, grantor, now).Done?
        || (best.Some? && RightsWithin(claim, s.inner.claims[best.value])
            && s.inner.claims[best.value].confidence < claim.confidence
            && claim.confidence <= s.inner.claims[best.value].confidence + 0.000000001)
  {
  }

  /** What is known of the parent when a delegated claim is about to be appended:
      it was valid when scanned, so only its expiry can have come between. */
  lemma {:induction false} ParentAtAppend(steps: seq<Step>, t: nat, now: real)
    requires Play(START, steps).PcOf(t).AppendReady? && Play(START, steps).PcOf(t).origin.DelegatedFrom?
    ensures var claims, pc := Play(START, steps).inner.claims, Play(START, steps).PcOf(t);
      && pc.origin.parent < |claims|
      && ValidAtStep(steps, claims[pc.origin.parent])
      && (claims[pc.origin.parent].IsValid(now) <==> !claims[pc.origin.parent].IsExpired(now))
      && claims[pc.origin.parent].canDelegate
      && claims[pc.origin.parent].resource.Key() == pc.claim.resource.Key()
      && AttenuatesWithSlack(pc.claim, claims[pc.origin.parent])
  {
    PlayInv(steps);
    var s := Play(START, steps);
    assert PcJustified(steps, s.inner.claims, s.threads[t]);
  }

  /** `k` is, up to expiry, a claim that `grantor` could delegate from. */
  predicate MayDelegate(claims: seq<RightsClaim>, k: nat, grantor: Entity, key: ResourceKey) {
    k < |claims| && claims[k].holder == grantor && claims[k].resource.Key() == key && claims[k].canDelegate
    && claims[k].confidence > 0.0
  }

  /** Main theorem on check and append: in every reachable state, a delegation that
      is about to append would be refused if it were started afresh at that moment
      in two cases only.  The parent has expired and the claim then selected, if any,
      does not dominate; or the parent is live and the claim selected, at least as
      confident as the parent, lacks a right. */
  lemma {:induction false} FreshRefusalIff(steps: seq<Step>, t: nat, now: real)
    requires Play(START, steps).PcOf(t).AppendReady? && Play(START, steps).PcOf(t).origin.DelegatedFrom?
    ensures var claims, pc := Play(START, steps).inner.claims, Play(START, steps).PcOf(t);
      && pc.origin.parent < |claims|
      && var parent := claims[pc.origin.parent];
         var best := Delegator(claims, parent.holder, pc.claim.resource.Key(), now);
         && (!parent.IsExpired(now) ==> best.Some? && parent.confidence <= claims[best.value].confidence)
         && (!ScanAccepts(claims, pc.claim, parent.holder, now) <==>
               if parent.IsExpired(now) then best.None? || !AttenuatesWithSlack(pc.claim, claims[best.value])
               else !RightsWithin(pc.claim, claims[best.value]))
  {
    ParentAtAppend(steps, t, now);
  }

  /** In particular, when the grantor has no other claim to delegate from, the
      append differs from a fresh delegation exactly when the parent has expired. */
  lemma {:induction false} LoneParentRefusalIff(steps: seq<Step>, t: nat, now: real)
    requires Play(START, steps).PcOf(t).AppendReady? && Play(START, steps).PcOf(t).origin.DelegatedFrom?
    ensures var claims, pc := Play(START, steps).inner.claims, Play(START, steps).PcOf(t);
      && pc.origin.parent < |claims|
      && var parent := claims[pc.origin.parent];
         (forall k: nat :: MayDelegate(claims, k, parent.holder, pc.claim.resource.Key()) ==> k == pc.origin.parent)
         ==> (ScanAccepts(claims, pc.claim, parent.holder, now) <==> !parent.IsExpired(now))
  {
    ParentAtAppend(steps, t, now);
    FreshRefusalIff(steps, t, now);
    hide Play, ScanAccepts;
    var claims, pc := Play(START, steps).inner.claims, Play(START, steps).PcOf(t);
    var parent := claims[pc.origin.parent];
    var best := Delegator(claims, parent.holder, pc.claim.resource.Key(), now);
    if best.Some? {
      assert MayDelegate(claims, best.value, parent.holder, pc.claim.resource.Key());
    }
  }

  /** The scan of `child` has succeeded against the expiring `parent`. */
  lemma {:induction false} ScannedInTime(alice: Entity, bot: Entity, s: Shared)
    requires s.inner.claims == [Plain(alice, false, true, 1.0, Some(10.0))] && !s.inner.frozen
    requires s.PcOf(1) == DelegateEntered(Plain(bot, false, false, 1.0, None), alice)
    ensures var child := Plain(bot, false, false, 1.0, None);
      && AdvanceThread(s, 1, 5.0) == s.At(1, DelegateScanned(child, 0))
      && DelegateOutcome(s.inner.claims, child, alice, 20.0).Refused?
  {
  }

  /** The check and the append are not one step: a claim can be appended at a
      moment at which the same delegation, started afresh, would be refused. */
  lemma {:induction false} AppendAfterParentExpired(alice: Entity, bot: Entity)
    ensures var parent, child := Plain(alice, false, true, 1.0, Some(10.0)), Plain(bot, false, false, 1.0, None);
      var steps := [CallAddClaim(0, parent)] + [Advance(0, 0.0)] + [CallDelegate(1, child, alice)]
                   + [Advance(1, 5.0)] + [Advance(1, 20.0)];
      && DelegateOutcome(Play(START, steps).inner.claims, child, alice, 20.0).Refused?
      && Play(START, steps + [Advance(1, 20.0)]).inner.claims == [parent, child]
  {
    var parent, child := Plain(alice, false, true, 1.0, Some(10.0)), Plain(bot, false, false, 1.0, None);
    var s1: seq<Step> := [CallAddClaim(0, parent)];
    var s2 := s1 + [Advance(0, 0.0)];
    var s3 := s2 + [CallDelegate(1, child, alice)];
    var s4 := s3 + [Advance(1, 5.0)];
    var s5 := s4 + [Advance(1, 20.0)];
    var first := Exec(START, CallAddClaim(0, parent));
    assert Play(START, s1) == first by {
      assert [] + s1 == s1;
      PlaySnoc(START, [], CallAddClaim(0, parent));
    }
    hide Play, DetectConflict, Delegator, DelegateOutcome;
    PlaySnoc(START, s1, Advance(0, 0.0));
    assert Play(START, s2).inner.claims == [parent];
    PlaySnoc(START, s2, CallDelegate(1, child, alice));
    ScannedInTime(alice, bot, Play(START, s3));
    PlaySnoc(START, s3, Advance(1, 5.0));
    PlaySnoc(START, s4, Advance(1, 20.0));
    PlaySnoc(START, s5, Advance(1, 20.0));
  }

  // ----- The critical sections, on the mutable registry

  class RegistryInner {
    var claims: seq<RightsClaim>
    var machineOwners: map<Entity, Entity>
    var conflicts: seq<Conflict>
    var frozen: bool

    ghost function Abs(): State
      reads this
    {
      State(claims, machineOwners, conflicts, frozen)
    }

    /** The candidate scan: a fold over the claims that keeps the best so far. */
    method ScanBest(grantor: Entity, key: ResourceKey, now: real)
      returns (found: bool, bestRead: bool, bestWrite: bool, bestDelegate: bool, bestConf: real)
      ensures found <==> Delegator(claims, grantor, key, now).Some?
      ensures found ==> var best := claims[Delegator(claims, grantor, key, now).value];
        bestRead == best.canRead && bestWrite == best.canWrite && bestDelegate == best.canDelegate && bestConf == best.confidence
    {
      var p := c => Delegatable(c, grantor, key, now);
      found, bestRead, bestWrite, bestDelegate, bestConf := false, false, false, false, 0.0;
      ghost var best: nat := 0;
      for i := 0 to |claims|
        invariant !found ==> forall j :: 0 <= j < i ==> !p(claims[j])
        invariant found ==> best < i && IsFirstGreatest(claims[..i], p, best)
        invariant found ==> bestRead == claims[best].canRead && bestWrite == claims[best].canWrite
        invariant found ==> bestDelegate == claims[best].canDelegate && bestConf == claims[best].confidence
      {
        var c := claims[i];
        if p(c) && (!found || c.confidence > bestConf) {
          found, bestRead, bestWrite, bestDelegate, bestConf := true, c.canRead, c.canWrite, c.canDelegate, c.confidence;
          best := i;
        }
      }
      if found {
        assert claims[..|claims|] == claims;
        BestWhereUnique(claims, p, best);
      }
    }

    /** The last critical section of `add_claim`. */
    method Commit(entry: RightsClaim, now: real)
      modifies this
      ensures Abs() == Append(old(Abs()), entry, now)
    {
      var p := c => Contends(c, entry, now);
      var i := 0;
      while i < |claims| && !Contends(claims[i], entry, now)
        invariant 0 <= i <= |claims|
        invariant forall j :: 0 <= j < i ==> !Contends(claims[j], entry, now)
      {
        i := i + 1;
      }
      if i < |claims| {
        Sequences.FirstIndexUnique(claims, p, i);
        conflicts := conflicts + [Conflict(entry.resource, claims[i].holder, entry.holder)];
      }
      claims := claims + [entry];
    }
  }
}
