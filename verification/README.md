# Freedom Kernel: a verified model

The Freedom Kernel decides whether an agent may act.  It keeps a registry of rights claims (who may
read, write or delegate which resource, how confidently and until when), checks every requested
access of an action against it, and layers plans, goal trees, information flow, policies, execution
contexts and signed verdicts on top.  It exists twice: a Python gate over typed entities and a Rust
engine over wire records.  This project models both in Dafny and proves what they guarantee, over all
inputs, all runs and all interleavings, and where they fall short, the exact condition.

`dafny verify dfyconfig.toml` checks the whole project.

## How the model is laid out

| file | models |
|---|---|
| `Entities.dfy`, `Scopes.dfy`, `Sequences.dfy` | entities, claims, selection by confidence, path scopes |
| `Registry.dfy`, `RegistryLaws.dfy`, `Provenance.dfy`, `Delegation.dfy`, `ConflictLog.dfy` | the registry as a class proved against a state machine; its laws and its runs |
| `SharedRegistry.dfy` | the mutex-guarded registry under every interleaving of threads |
| `Verdicts.dfy`, `Gate.dfy`, `Engine.dfy`, `VerdictLaws.dfy` | the verdict of both gates, their loops, plans, the audit log; every part of a verdict in plain terms |
| `GateRefinement.dfy`, `Arbitration.dfy`, `EnginePlan.dfy`, `Grounding.dfy` | the engine against the gate, and verdicts back to assertions |
| `Planner.dfy`, `Ifc.dfy`, `FlowEquivalence.dfy` | plan taint, label sets, and how they compare |
| `GoalTree.dfy`, `Goals.dfy`, `GoalLaws.dfy` | depth-first search with early exit; attenuating goal trees, and what they ask of the gate |
| `Policy.dfy`, `PolicyLaws.dfy` | priority rules and when one decides |
| `Context.dfy`, `ContextRuns.dfy` | execution contexts linked on the heap and their runs |
| `ByteOrder.dfy`, `Canonical.dfy` | the bytes that a signature covers, and their decoder |

The main results:

- **No authority is invented.** In every run, each claim ends a chain of strictly earlier claims that
  starts at an asserted one; rights and confidence shrink along it (`Provenance.NoAuthorityInvented`),
  so every permitted access of every permitted action rests on an assertion
  (`Grounding.PermittedActionIsGrounded`).
- **Confidence drift.** The Rust registry admits 1e-9 per hop.  Under every interleaving a claim k hops
  deep exceeds its root by at most k times that (`SharedRegistry.ConfidenceDriftBounded`), the bound is
  met (`DriftBoundAttained`), and in real arithmetic self-delegation makes it exceed anything.
- **What delegation leaves open, exactly.** A claim with positive confidence never outlives a claim above it
  in its chain if and only if its expiry lies within (`Delegation.ChainOutlivesIff`); the order of the
  claims is irrelevant if and only if the most confident delegatable ones agree
  (`Delegation.OrderIrrelevantIff`).
- **The conflict log is exact**, in sequential runs and in interleavings, at the moments of the appends.
- **The engine refines the gate.**  The gate permits what the engine permits and moreover matches each
  access in kind of holder, scope and visibility (`GateRefinement.GatesPartIff`).  When either alone asks
  for arbitration is stated exactly for all states (`Arbitration.TypedOnlyArbitrationIff`,
  `Arbitration.EngineOnlyArbitrationIff`); where names determine what they name, it is the gate, on stale
  records (`Arbitration.StaleOnlyIff`).
- **Verdicts in full.**  Both gates' violations and warnings, in their order, and their arbitration and
  confidence are given from the fields of action, claims and log alone (`VerdictLaws.GateLists`,
  `VerdictLaws.EngineLists` and their neighbours); a goal tree is fully permitted exactly when every goal's
  actor may read and write what it requires and goals nest (`GoalLaws.TreeAllowedIff`).
- **A plan stops** exactly on a raised flag or on a quoted name that contains the word FORBIDDEN
  (`Gate.SubvertsIff`).
- **Running maximum, label set and pairwise rule** decide the same plans over the three levels; for all
  other labels the pairs on which they differ are listed exactly (`FlowEquivalence.PairComparison`).
- **The canonical bytes are uniquely decodable** exactly when lengths fit in 32 bits
  (`Canonical.DecodesIffFits`).  Beyond, payloads collide, and one that fits can collide with one that does
  not (`Canonical.FittingCollides`); with strings of equal lengths none do (`Canonical.EqualBytesIff`).
- **Depth-first search refines a pre-order scan**; goal attenuation is transitive; first match after a
  stable sort is the earliest rule of greatest priority.
- **Execution contexts**, over every sequence of spawns, revocations, verdicts and registry calls from any
  forest: who is revoked, which command adds which child, which is answered with a permission and what
  states the registries go through (`ContextRuns.RunCommands`); once revoked, a context neither spawns nor
  permits (`ContextRuns.RevokedForGood`).  What a context permits lies within what each context above it
  permits, exactly until that one is revoked alone (`Context.PermitsWithinIff`).
- **A snapshot is isolated** because its containers are copies: the registry keeps its lists in heap
  objects, and a snapshot that shared one would change (`Registry.OwnershipRegistry.FreezeThenMutate`,
  `Registry.OwnershipRegistry.SharedListLeaks`).

## Where code and documentation disagree

The model follows the code.

- Section 3 of the version 0.2 specification, like the formal rule in the docstring of `scope_contains`,
  compares the child with the unstripped parent scope; the code compares it with the stripped one
  (`Scopes.CodeAgreesWithWrittenRule` says where this shows).  Containment is not transitive through the
  empty scope (`Scopes.ScopeTransitive` has the condition).
- Section 6 of the version 0.2 specification puts a big-endian timestamp after the violations; the code
  puts a little-endian one before them.
- `SEMANTICS.md` line 63 calls a claim valid while `now < expires_at`; both implementations admit equality.
- `freedom-kernel/src/registry.rs` lines 350-351 say that a delegation cannot exceed the delegator's
  confidence; line 425 lets it by 1e-9.  The delegation check and the append are separate critical
  sections, so a claim can be appended after its parent has expired.
- `delegate` does not look at expiry in either implementation: a child claim may outlive its parent.
- Section 4 of `SEMANTICS.md` accepts a delegation when some valid delegatable claim of the delegator
  dominates it.  The code looks only at the first most confident one
  (`Delegation.DelegationVersusWrittenRule`).
- Section 5 of `SEMANTICS.md` leaves the resources to be delegated out of the gate; both gates check them.
- `src/freedom_theory/kernel/context.py` lines 9-14 promise that revoking a context cancels its children
  and that a child holds a subset of its parent's authority.  `revoke` sets one flag
  (`Context.PermitsWithinIff` says what that breaks).  `spawn` checks that the parent's agent may read the
  listed resources and does not store them, so children with different lists answer alike
  (`Context.SpawnAlike`), and the child's agent may hold more than the parent's
  (`Context.SpawnStrongerAgent`; `Delegation.HolderWithinIff` says exactly when one agent's authority lies
  within another's).
- `with_subgoal` admits a tree whose height equals the depth limit; `verify_goal_tree` then refuses it.
- `verify_plan` looks for the word FORBIDDEN anywhere in a violation text.  The texts quote names, so a
  name that contains the word cancels a plan without any flag.
- The engine compares holders by name and resources by name and type; kind, scope and visibility of a
  claimed resource are not looked at.

## Model

| member | source | states |
|---|---|---|
| Scopes.ScopeReflexive | src/freedom_theory/kernel/entities.py:47-57 | every scope contains itself, with or without trailing slashes |
| Scopes.ScopeTransitive | src/freedom_theory/kernel/entities.py:47-57 | containment composes if and only if the middle scope is non-empty, or the outer scope is empty, or the path is empty or starts at the root |
| Scopes.EmptyMiddleBreaksTransitivity | src/freedom_theory/kernel/entities.py:54-57 | the concrete triple "/", "", "data" on which containment does not compose |
| Scopes.ScopeAntisymmetric | src/freedom_theory/kernel/entities.py:47-57 | two scopes contain each other if and only if they are equal up to trailing slashes |
| Scopes.ContainersComparable | src/freedom_theory/kernel/entities.py:47-57 | scopes that contain a common path are nested: the order is a tree |
| Scopes.CodeAgreesWithWrittenRule | src/freedom_theory/kernel/entities.py:47-57 | the code and the rule written in its docstring differ exactly on a parent with trailing slashes and the same path without them |
| Entities.TypeNameInjective | src/freedom_theory/kernel/entities.py:21-32 | resource types and their wire names correspond one to one |
| Entities.TypeNames | src/freedom_theory/kernel/entities.py:21-32 | the ten wire names, one by one |
| Entities.BestWhere | src/freedom_theory/kernel/registry.py:104 | selection finds a candidate of greatest confidence, the first among equals, and fails only without candidates |
| Entities.BestWhereUnique | freedom-kernel/src/registry.rs:391-404 | being first and greatest pins the selection down, so the fold with a strict comparison selects what Python's max selects |
| Registry.DelegateAcceptsIff | src/freedom_theory/kernel/registry.py:74-132 | a delegation goes through if and only if the delegator's first most confident valid delegatable claim on the resource exists and dominates the new claim in every right and in confidence |
| Registry.CanActMeaning | src/freedom_theory/kernel/registry.py:143-167 | access is permitted if and only if some live claim of the holder on that resource grants it, and the reported confidence is the greatest among those, 0.0 on refusal |
| RegistryLaws.AnswerMeaning | src/freedom_theory/kernel/registry.py:143-167 | read off the fields of the claims: permitted if and only if the read is public or a claim of that holder on that resource, of positive confidence and not past its expiry, carries the right; full confidence on a public read, otherwise the greatest among those claims |
| RegistryLaws.HeldClaimsMeaning | src/freedom_theory/kernel/registry.py:143-148 | the claims of a holder are those live ones on the resource, in the order of the list, none left out or added |
| RegistryLaws.DelegationMeaning | src/freedom_theory/kernel/registry.py:90-132 | the outcome of a delegation, reason included, from the first most confident source: lacking read, then write, then the confidence, else accepted; and no source at all |
| RegistryLaws.SomeSelected | src/freedom_theory/kernel/registry.py:98-104 | whenever there is a source, one is selected |
| RegistryLaws.TransitionMeaning | src/freedom_theory/kernel/registry.py:63-141 | what each request does to claims and owners and with which outcome, refusals in their order and without effect |
| RegistryLaws.OwnersMeaning | src/freedom_theory/kernel/registry.py:134-141 | over every run, from the events alone: a machine is owned if and only if some event registered it with a human, and by the human that the last such event named |
| Registry.RunOnlyAppends | src/freedom_theory/kernel/registry.py:63-141 | over every run the claims and the conflict log only grow and the frozen flag stays |
| Registry.OwnersAreHuman | src/freedom_theory/kernel/registry.py:134-141 | over every run only machines are owned, and only by humans |
| Registry.SnapshotIsImmutable | src/freedom_theory/kernel/registry.py:34-58 | a frozen registry refuses every request and no sequence of requests changes it |
| Registry.OwnershipRegistry.Freeze | src/freedom_theory/kernel/registry.py:34-51 | a frozen registry with the same claims, owners and conflicts, itself and its three containers newly allocated |
| Registry.OwnershipRegistry.FindConflict | src/freedom_theory/kernel/registry.py:175-193 | the loop reports the first live write claim of another holder on the resource, or nothing |
| Registry.OwnershipRegistry.AddClaim | src/freedom_theory/kernel/registry.py:63-72 | appending in place to the two lists, and to nothing else, gives the state and outcome of the transition that provenance and the conflict log are proved about |
| Registry.OwnershipRegistry.Delegate | src/freedom_theory/kernel/registry.py:74-132 | new state and outcome are those of the delegation transition, with the same refusal for each failing check and no change on refusal |
| Registry.OwnershipRegistry.MaxByConfidence | src/freedom_theory/kernel/registry.py:104 | the scan over the list returns the unique first claim of greatest confidence |
| Registry.OwnershipRegistry.RegisterMachine | src/freedom_theory/kernel/registry.py:134-141 | only a machine gets an owner and only a human becomes one; nothing else changes |
| Registry.OwnershipRegistry.HeldClaims | src/freedom_theory/kernel/registry.py:143-148 | the holder's live claims on the resource, in the order of the list |
| Registry.OwnershipRegistry.CheckAccess | src/freedom_theory/kernel/registry.py:150-167 | the in-place query answers as the specification that `CanActMeaning` characterises |
| Registry.OwnershipRegistry.OwnerOf | src/freedom_theory/kernel/registry.py:169-170 | an owner is found if and only if one is registered, and it is that one |
| Registry.OwnershipRegistry.Serve | src/freedom_theory/kernel/registry.py:63-141 | any sequence of calls on the object produces the run of the state machine |
| Registry.OwnershipRegistry.FreezeThenMutate | src/freedom_theory/kernel/registry.py:34-58 | after freezing, no calls on the original, which write to its containers in place, and none on the snapshot change any access, claim or owner answer of the snapshot; the original evolves as if it had not been frozen |
| Registry.OwnershipRegistry.SharedListLeaks | src/freedom_theory/kernel/registry.py:44-51 | a frozen registry over the very list of the original does change with the next assertion, so the copies are needed |
| Provenance.TraceExplains | src/freedom_theory/kernel/registry.py:63-132 | every claim of a run has an origin: an assertion made in that run, or a delegation called by the holder of a strictly earlier claim that dominates it, at a moment when that claim was valid |
| Provenance.ArrivalsAccepted | src/freedom_theory/kernel/registry.py:63-132 | over every run the claims arrived one by one with later and later events, each when the list held exactly the claims before it, and each one asserted or accepted as a delegation against the claim selected at that moment |
| Provenance.ChainArrivesInOrder | src/freedom_theory/kernel/registry.py:74-132 | down a delegation chain the claims arrived with later and later events, and at no earlier moments if the clock never ran backwards |
| Provenance.ChainGrounded | src/freedom_theory/kernel/registry.py:74-132 | following origins from any claim reaches an asserted claim on the same resource that dominates it |
| Provenance.NoAuthorityInvented | src/freedom_theory/kernel/registry.py:63-132 | over every run, each claim ends a chain of strictly earlier delegatable claims on its resource that starts at an asserted claim granting at least its rights and confidence |
| Provenance.AccessRestsOnAssertion | src/freedom_theory/kernel/registry.py:63-167 | whatever access a registry permits, someone asserted that operation on that resource with at least the reported confidence |
| Delegation.DelegatedOutlivesIff | src/freedom_theory/kernel/registry.py:74-132 | a delegated claim with positive confidence is live only while its parent is, if and only if it expires and no later, or the parent never expires |
| Delegation.ChainOutlivesIff | src/freedom_theory/kernel/registry.py:74-132 | over every run the same holds between a claim and every claim of its delegation chain, its asserted root included |
| Delegation.DelegationVersusWrittenRule | src/freedom_theory/kernel/registry.py:90-125 | the code accepts a delegation if and only if some valid delegatable claim dominates it, as documented, and its rights also lie within the first most confident one |
| Delegation.FrontIsSelected | src/freedom_theory/kernel/registry.py:104 | any most confident delegatable claim decides the delegation once it is moved to the front |
| Delegation.OrderIrrelevantIff | src/freedom_theory/kernel/registry.py:90-125 | every arrangement of the claims gives a delegation the same fate if and only if the most confident delegatable claims all dominate it or none does |
| Delegation.DelegationOutlivesItsParent | src/freedom_theory/kernel/registry.py:74-132 | a run in which a delegated claim still permits after the claim it came from has expired |
| Delegation.OrderDecidesDelegation | src/freedom_theory/kernel/registry.py:90-104 | with two equally confident claims the same delegation succeeds or fails with their order in the list |
| Delegation.HolderWithinIff | src/freedom_theory/kernel/registry.py:143-167 | whatever one holder may do at any moment another may do, if and only if each claim of the first is backed, right by right, by one of the second on that resource that expires no earlier |
| ConflictLog.AppendKeepsLogExact | src/freedom_theory/kernel/registry.py:63-72 | one arrival keeps the log exact: a record is added if and only if the newcomer meets a live rival, naming the first one |
| ConflictLog.ConflictLogExact | src/freedom_theory/kernel/registry.py:63-132 | over every run the log holds, in order, one record per claim that met a live rival writer on arrival, and no other record |
| ConflictLog.OpenConflictIffClash | src/freedom_theory/kernel/registry.py:172-193 | a resource has an open conflict if and only if two of its claims clashed when the later one arrived |
| ConflictLog.ConflictIffTwoWriters | src/freedom_theory/kernel/registry.py:175-193 | without expiries and with positive confidences, a resource has an open conflict if and only if it has two distinct write holders |
| ConflictLog.LiveRivalsAreLogged | src/freedom_theory/kernel/registry.py:175-193 | if the clock never ran backwards, any two write claims of different holders that are live now have been logged |
| ConflictLog.ExpiredWriterLeavesNoConflict | src/freedom_theory/kernel/registry.py:175-193 | a run with two write holders and an empty log, because the first had expired |
| SharedRegistry.ExecKeepsInv | freedom-kernel/src/registry.rs:259-435 | every lock-protected step of every thread keeps each stored and each in-flight claim justified by a call and, for a delegation, by an earlier dominating claim that was valid at some step |
| SharedRegistry.PlayInv | freedom-kernel/src/registry.rs:259-435 | that invariant holds after every interleaving of any number of threads |
| SharedRegistry.ConfidenceDriftBounded | freedom-kernel/src/registry.rs:352-435 | under every interleaving a claim k hops from its asserted root keeps the root's resource and rights and exceeds its confidence by at most k * 1e-9 |
| SharedRegistry.DriftBoundAttained | freedom-kernel/src/registry.rs:425 | for every k a run meets that bound with equality |
| SharedRegistry.SelfDelegationExceedsAnyBound | freedom-kernel/src/registry.rs:352-435 | in real arithmetic, from one asserted claim of confidence 1.0, a holder that delegates to itself reaches a confidence above any bound |
| SharedRegistry.SharedSnapshotIsImmutable | freedom-kernel/src/registry.rs:244-263 | no interleaving of calls changes a frozen registry |
| SharedRegistry.InterleavedLogExact | freedom-kernel/src/registry.rs:275-284 | under every interleaving the conflict log is exact at the clock readings of the steps that append |
| SharedRegistry.InterleavedOwners | freedom-kernel/src/registry.rs:294-323 | under every interleaving a machine is owned if and only if a registration of it took effect, by the owner that the last one named, and each was called for a machine and a human |
| SharedRegistry.RegistrationTakesEffect | freedom-kernel/src/registry.rs:294-323 | a registration called by an idle thread takes effect with the thread's next step |
| SharedRegistry.ScanVersusDelegate | freedom-kernel/src/registry.rs:366-431 | the Rust check accepts exactly what the Python check accepts, plus claims whose rights fit and whose confidence lies in the slack |
| SharedRegistry.ParentAtAppend | freedom-kernel/src/registry.rs:352-435 | in every reachable state, the parent of a claim about to be appended was valid at an earlier step, still dominates it, and is valid now if and only if it has not expired |
| SharedRegistry.FreshRefusalIff | freedom-kernel/src/registry.rs:352-435 | a claim about to be appended would be refused if delegated afresh exactly when its parent has expired and the claim then selected does not dominate, or the parent is live and a claim at least as confident that lacks a right is selected |
| SharedRegistry.LoneParentRefusalIff | freedom-kernel/src/registry.rs:352-435 | if the grantor has no other claim to delegate from, a fresh delegation at the moment of the append is accepted if and only if the parent has not expired |
| SharedRegistry.AppendAfterParentExpired | freedom-kernel/src/registry.rs:352-435 | an interleaving that appends a claim whose delegation would be refused at that moment |
| SharedRegistry.RegistryInner.ScanBest | freedom-kernel/src/registry.rs:366-405 | the fold over `best_*` variables ends with rights and confidence of the unique selected delegator claim |
| SharedRegistry.RegistryInner.Commit | freedom-kernel/src/registry.rs:275-284 | the critical section appends the claim and logs exactly the conflict that detection reports |
| Verdicts.FoldPermits | src/freedom_theory/kernel/verifier.py:128-165 | the access loops leave no violation if and only if there was none and every access is permitted |
| Verdicts.FoldConfidence | freedom-kernel/src/engine.rs:143-190 | the running minimum is the minimum of its start and all answers |
| Verdicts.FoldArbitration | freedom-kernel/src/engine.rs:157-182 | arbitration is asked for if and only if some permitted write is below the warning threshold and has rivals |
| Verdicts.FoldEqual | src/freedom_theory/kernel/verifier.py:128-165 | two request lists with equal answers give equal violations and confidence whatever their rivals |
| Verdicts.PreliminaryEmptyIff | freedom-kernel/src/engine.rs:93-141 | nothing blocks before the access checks if and only if no flag is set and a machine actor is owned and governs nobody; a raised flag is reported first |
| VerdictLaws.PreliminaryMeaning | src/freedom_theory/kernel/verifier.py:95-126 | the preliminary violations in order: each raised flag by its name, the lack of an owner, each governed human |
| VerdictLaws.FoldLists | src/freedom_theory/kernel/verifier.py:131-161 | access by access, what is added to the violations and, below 0.8, to the warnings |
| Engine.RunVerify | freedom-kernel/src/engine.rs:87-206 | the loops compute the verdict that the lemmas below characterise, warnings and arbitration included |
| Engine.CheckActor | freedom-kernel/src/engine.rs:93-141 | flags, ownership and governance produce the preliminary violations in order |
| Engine.CheckReads | freedom-kernel/src/engine.rs:144-155 | the read loop continues the tally over all reads |
| Engine.CheckWrites | freedom-kernel/src/engine.rs:157-182 | the write loop continues the tally over all writes, with rivals reported only for weak permitted ones |
| Engine.ReportRivals | freedom-kernel/src/engine.rs:167-180 | the inner loop warns once per live rival in registry order and raises arbitration if and only if there is one |
| Engine.CheckDelegations | freedom-kernel/src/engine.rs:184-190 | the delegation loop continues the tally without warnings |
| Engine.CanActMeaning | freedom-kernel/src/engine.rs:44-85 | access is permitted if and only if some live claim matches by names, with the greatest confidence among those |
| Engine.PermittedIff | freedom-kernel/src/engine.rs:87-206 | closed form of the gate: no flag, an owner and no governed human for a machine, and every requested access a public read or held |
| Engine.ConfidenceIsMinimum | freedom-kernel/src/engine.rs:44-206 | confidence lies in [0, 1], is the minimum of 1.0 and of the best match per access, and is positive if and only if every access is held |
| Engine.AccessMonotone | freedom-kernel/src/engine.rs:40-85 | more claims or an earlier clock never lose an access or lower its confidence |
| Engine.VerdictMonotone | freedom-kernel/src/engine.rs:40-206 | adding claims or owners, or turning the clock back, never blocks a permitted action and never lowers the confidence |
| VerdictLaws.WireAnswerMeaning | freedom-kernel/src/engine.rs:44-85 | the engine's answer read off the fields of the wire claims |
| VerdictLaws.WireRequestIn | freedom-kernel/src/engine.rs:144-190 | the accesses checked are the reads, the writes and the delegations of the action |
| VerdictLaws.EngineLists | freedom-kernel/src/engine.rs:87-206 | the engine's violations and warnings, entry by entry and in order, from action and claims |
| VerdictLaws.EngineArbitrates | freedom-kernel/src/engine.rs:157-182 | the engine asks for arbitration if and only if a write is permitted with a confidence below 0.8 and another holder has a live write claim on it by name |
| Gate.PermittedIff | src/freedom_theory/kernel/verifier.py:89-174 | closed form of the typed gate, over whole entities and resources |
| VerdictLaws.RequestIn | src/freedom_theory/kernel/verifier.py:131-161 | the accesses checked are the reads, the writes and the delegations of the action |
| VerdictLaws.GatePermits | src/freedom_theory/kernel/verifier.py:89-174 | the gate permits if and only if no flag is raised, a machine is owned and governs nobody, and the actor may make each read, write and delegation |
| VerdictLaws.GateLists | src/freedom_theory/kernel/verifier.py:89-174 | the gate's violations and warnings, entry by entry and in order, from action, claims, owners and log |
| VerdictLaws.GateArbitrates | src/freedom_theory/kernel/verifier.py:142-155 | the gate asks for arbitration if and only if a write is permitted with a confidence below 0.8 on a resource with a logged conflict |
| VerdictLaws.GateConfidence | src/freedom_theory/kernel/verifier.py:92-170 | the confidence is the least of 1.0 and of the answers to all reads, writes and delegations |
| VerdictLaws.RegisteredIsOwned | src/freedom_theory/kernel/verifier.py:113-118 | after any run that registered a machine with a human owner, the gate never finds it ownerless |
| Gate.FlagSubverts | src/freedom_theory/kernel/verifier.py:95-111 | a raised flag blocks the action and stops the plan, whatever else the action does |
| Gate.SubvertsIff | src/freedom_theory/kernel/verifier.py:200 | for all states and actions, a verdict stops the plan if and only if a flag is raised or a name that one of its violations quotes contains the word: an ownerless or governing machine, a governed human, or actor or resource of an access not held |
| Gate.UnflaggedActionStopsPlan | src/freedom_theory/kernel/verifier.py:200 | an action without any flag that stops a plan by the name of a file, and the same action on another file that is blocked and does not |
| Gate.NothingAfterSubversion | src/freedom_theory/kernel/verifier.py:196-217 | no result after a stopping verdict is permitted |
| Gate.NothingAfterFlag | src/freedom_theory/kernel/verifier.py:176-217 | no result after an action with a raised flag is permitted |
| Gate.StoppedPlan | src/freedom_theory/kernel/verifier.py:200-216 | verdicts up to the first stopping one followed by cancellations that name it are the outcome of the plan |
| Gate.AuditLog.Record | src/freedom_theory/kernel/audit.py:37-49 | the log grows by exactly the given result |
| Gate.FreedomVerifier.RunVerify | src/freedom_theory/kernel/verifier.py:89-174 | the loops compute the characterised verdict, and the log receives it once with its time |
| Gate.FreedomVerifier.CheckActor | src/freedom_theory/kernel/verifier.py:95-126 | flags, ownership and governance produce the preliminary violations in order |
| Gate.FreedomVerifier.CheckReads | src/freedom_theory/kernel/verifier.py:131-140 | the read loop continues the tally over all reads |
| Gate.FreedomVerifier.CheckWrites | src/freedom_theory/kernel/verifier.py:142-155 | the write loop continues the tally over all writes, consulting the conflict log only for weak permitted ones |
| Gate.FreedomVerifier.ReportConflicts | src/freedom_theory/kernel/verifier.py:152-155 | one warning per logged conflict on the resource, in log order, and arbitration if and only if there is one |
| Gate.FreedomVerifier.CheckDelegations | src/freedom_theory/kernel/verifier.py:157-161 | the delegation loop continues the tally without warnings |
| Gate.FreedomVerifier.VerifyPlan | src/freedom_theory/kernel/verifier.py:176-217 | one result per action: the verdicts up to the first stopping one, then cancellations naming it; the log receives the reached verdicts and no cancellation |
| VerdictLaws.PlanResultAt | src/freedom_theory/kernel/verifier.py:196-217 | each result of a plan is the action's own verdict up to the first that stops it, and then a refusal without confidence, for arbitration, under the action's id, naming the one that stopped it |
| Gate.FreedomVerifier.VerifyUntilSubversion | src/freedom_theory/kernel/verifier.py:196-200 | the loop stops right after the first stopping verdict and not before |
| Gate.CancelRest | src/freedom_theory/kernel/verifier.py:201-216 | each remaining action gets a refusal under its own id that names the trigger |
| GateRefinement.AccessRefines | freedom-kernel/src/engine.rs:44-85 | on the wire form of the same state every access the typed registry permits is permitted, at least as confidently |
| GateRefinement.AccessEqual | freedom-kernel/src/verifier.rs:186-211 | when names determine holders and resources, both registries give the same answer |
| GateRefinement.BuildRegistryWire | freedom-kernel/src/verifier.rs:186-211 | every state has a wire form: claims mapped in order, owners taken off the map in any order |
| GateRefinement.WireFields | freedom-kernel/src/verifier.rs:146-211 | field by field what claims, owners and actions become on the wire; only the label of a claimed resource is dropped |
| GateRefinement.WireActionInjective | freedom-kernel/src/verifier.rs:163-184 | two actions have the same wire form if and only if they are the same |
| GateRefinement.EngineRefinesGate | freedom-kernel/src/verifier.rs:163-211 | on the same state, clock and action, whatever the Python gate permits the Rust engine permits with confidence at least as high |
| GateRefinement.GatesAgree | freedom-kernel/src/verifier.rs:252-265 | when names determine what they name, both gates give the same decision, the same violations in the same order and the same confidence |
| GateRefinement.GatesPartIff | freedom-kernel/src/engine.rs:53-67 | for all states, actions and clocks, the typed gate permits if and only if the engine does, a machine actor is owned as such, and each non-public access has a matching claim that also agrees in holder kind, scope and visibility |
| GateRefinement.GatesPartInRunsIff | freedom-kernel/src/engine.rs:53-67 | over runs the ownership condition is not needed, since only machines are owned |
| GateRefinement.EngineIgnoresAttributes | freedom-kernel/src/engine.rs:53-67 | after any single assertion, a human of the holder's name may read a resource of the claimed name and type on the engine, and on the typed gate if and only if kind, scope and visibility agree |
| Arbitration.GateArbitrationIff | src/freedom_theory/kernel/verifier.py:142-155 | for all states, the typed gate asks for arbitration if and only if some permitted write below the threshold has an open conflict |
| Arbitration.EngineArbitrationIff | freedom-kernel/src/engine.rs:157-182 | for all states, the engine asks for arbitration if and only if some write that it permits below the threshold has a live write claim of that resource name and type by a holder of another name |
| Arbitration.TypedOnlyArbitrationIff | src/freedom_theory/kernel/verifier.py:147-155 | for all states, the typed gate alone asks if and only if some write it finds weak has an open conflict and no write the engine finds weak has such a rival |
| Arbitration.EngineOnlyArbitrationIff | freedom-kernel/src/engine.rs:157-182 | for all states, the engine alone asks if and only if some write it finds weak has such a rival and no write the typed gate finds weak has an open conflict |
| Arbitration.DisputedIsLogged | src/freedom_theory/kernel/verifier.py:152-155 | in any run whose clock did not run backwards, a permitted write below the threshold that has a live rival on that resource has an open conflict |
| Arbitration.LiveDisputeArbitrated | src/freedom_theory/kernel/verifier.py:142-155 | so in any such run the typed gate sends every such write to arbitration |
| Arbitration.StaleOnlyIff | src/freedom_theory/kernel/verifier.py:147-155 | if names determine what they name, the typed gate alone asks if and only if some weak write has a logged conflict and on no weak write another writer is alive |
| Arbitration.ArbitrationRefines | freedom-kernel/src/engine.rs:167-180 | if names determine what they name, then in every run whose clock did not run backwards the engine never asks alone |
| Arbitration.StaleConflictSeparates | src/freedom_theory/kernel/verifier.py:147-155 | a run in which the typed gate alone asks because the rival has expired, for every wire form of its state |
| Arbitration.OtherScopeHidesDispute | freedom-kernel/src/engine.rs:53-67 | a run in which the typed gate alone asks although the rival is alive, because a stronger claim under another scope counts on the engine |
| Arbitration.OtherScopeMakesDispute | freedom-kernel/src/engine.rs:53-67 | a run in which the engine alone asks, on a claim under another scope that the typed gate does not accept |
| EnginePlan.VerifyPlan | freedom-kernel/src/verifier.rs:272-317 | the loops over one wire snapshot produce the plan outcome of the engine's verdicts |
| EnginePlan.WirePlanResultAt | freedom-kernel/src/verifier.rs:284-316 | the same for each result of the engine's plan |
| EnginePlan.WireSubvertsIff | freedom-kernel/src/verifier.rs:288 | the engine's verdict stops the plan if and only if a flag is raised or a quoted name contains the word |
| EnginePlan.OutcomesAgree | freedom-kernel/src/verifier.rs:286-316 | plan outcomes depend on verdicts only through ids, decisions, reasons and confidence |
| EnginePlan.PlansAgree | freedom-kernel/src/verifier.rs:272-317 | when names determine what they name, both plan checks stop at the same action and agree at every step |
| Grounding.PermittedActionIsGrounded | src/freedom_theory/kernel/verifier.py:89-174 | in any run, every non-public access of a permitted action was asserted by someone on that resource with at least the verdict's confidence |
| Grounding.EnginePermitIsGrounded | freedom-kernel/src/verifier.rs:186-265 | under every interleaving on the Rust registry, every non-public access of an action that the engine permits rests on an asserted claim of that resource name and type granting the operation, and the verdict's confidence exceeds it by at most 1e-9 per hop |
| Planner.HighestLabel | freedom-kernel/src/planner.rs:16-22 | the result is the current label unless a new one ranks higher, and then a highest-ranking new one |
| Planner.Advance | freedom-kernel/src/planner.rs:47-77 | success means no labelled write ranks below the raised taint; failure names that taint, the first such write and the depth |
| Planner.NonEmptyLabels | freedom-kernel/src/planner.rs:52-57 | the non-empty read labels in order |
| Planner.TaintDecides | freedom-kernel/src/planner.rs:59-71 | one comparison with the running maximum holds if and only if every label read so far may flow to every labelled write of the step |
| Planner.TaintUnique | freedom-kernel/src/planner.rs:12-22 | the labels read determine the taint |
| Planner.TakeStep | freedom-kernel/src/planner.rs:144-154 | a step advances the projection of the prefix or reports a violation of the pairwise rule at that step |
| Planner.VerifyPlan | freedom-kernel/src/planner.rs:123-158 | accepted if and only if every step is permitted by the kernel and pairwise clean; otherwise blocked at the least failing step with one result per step reached and a violation at that depth if and only if the kernel had permitted it |
| Planner.PlanSpecDetermines | freedom-kernel/src/planner.rs:123-158 | that specification has exactly one result, violation included |
| Planner.TaintNeverFalls | freedom-kernel/src/planner.rs:118-122 | the taint's rank never decreases along a plan |
| Planner.AcceptedPlansAreSafe | freedom-kernel/src/planner.rs:118-122 | every prefix of an accepted plan is accepted with the results of that prefix, and no step raises a flag |
| Ifc.SetDecides | src/freedom_theory/extensions/ifc.py:91-130 | for any flow table, the accumulated label set allows a step if and only if every label read at or before it can flow to every label written there |
| Ifc.NonInterferenceChecker.CheckAction | src/freedom_theory/extensions/ifc.py:91-118 | the set gains the action's read labels even when it raises; it raises if and only if some pair is not allowed, and names such a pair |
| Ifc.NonInterferenceChecker.CheckPlan | src/freedom_theory/extensions/ifc.py:120-130 | nothing is raised if and only if every step is secure; otherwise the violation belongs to the first insecure step |
| FlowEquivalence.PairComparison | src/freedom_theory/extensions/ifc.py:55-71 | for all labels, the default table allows a pair if and only if the planner allows it and it is not one of three listed kinds of gap |
| FlowEquivalence.StepComparison | freedom-kernel/src/planner.rs:47-77 | step by step for every plan, the checker finds a step secure if and only if the planner finds it clean and no pair falls in a gap |
| FlowEquivalence.CheckerStopsFirst | src/freedom_theory/extensions/ifc.py:120-130 | on every plan the checker stops no later than the planner |
| FlowEquivalence.SameStop | freedom-kernel/src/planner.rs:123-158 | over the three levels, with unlabelled reads allowed, both stop at the same first step or neither stops |
| FlowEquivalence.SameStopIff | freedom-kernel/src/planner.rs:123-158 | for all plans and labels both stop at the same step or neither stops, if and only if every step with a gap has an unclean step at or before it |
| FlowEquivalence.UnlabelledWriteSeparates | src/freedom_theory/extensions/ifc.py:107-118 | after a secret read the checker refuses an unlabelled write that the planner lets pass |
| FlowEquivalence.PlannerBlocksWhereItStops | freedom-kernel/src/planner.rs:123-158 | when the kernel permits every step, the plan is blocked exactly at the first unclean step |
| GoalTree.DfsVerify | freedom-kernel/src/goal_tree.rs:111-140 | each recursive call continues, through the shared out-parameters, the scan of the pre-order listing |
| GoalTree.VerifyGoalTree | freedom-kernel/src/goal_tree.rs:98-109 | the search refines a scan: results are the verdicts of the pre-order prefix before the first fault, plus that node if the kernel blocked it; the violation is that fault |
| GoalTree.CleanIffNoFault | freedom-kernel/src/goal_tree.rs:98-140 | accepted if and only if no node lies at or beyond its own depth limit and none is blocked |
| GoalTree.PreOrderMeaning | freedom-kernel/src/goal_tree.rs:128-139 | the listing is each node at its depth, followed by its subgoals in order, one level down |
| GoalTree.RecordsMeaning | freedom-kernel/src/goal_tree.rs:128-135 | the recorded results are ids and verdicts of the nodes in that order |
| GoalTree.ReportMeaning | freedom-kernel/src/goal_tree.rs:118-134 | the violation names limit and depth of the first node at or beyond its limit, or id and verdict of the first blocked one |
| GoalTree.HeightMeaning | freedom-kernel/src/goal_tree.rs:47-52 | a leaf has height 0, any other tree one more than its highest subgoal |
| GoalTree.SubgoalMeaning | freedom-kernel/src/goal_tree.rs:35-45 | a child is turned away if and only if it would make a tree higher than the limit, with that limit and height in the report; otherwise it becomes the last subgoal |
| GoalTree.LeafMeaning | freedom-kernel/src/goal_tree.rs:25-32 | a leaf admits children of height below 10 unless another limit is set |
| GoalTree.ScanDetermined | freedom-kernel/src/goal_tree.rs:98-140 | the listing determines results and violation |
| GoalTree.AcceptedIffHeightBelowLimit | freedom-kernel/src/goal_tree.rs:47-140 | with one limit everywhere and every action permitted, a tree is accepted if and only if its height is below the limit |
| GoalTree.BuildersStayUnder | freedom-kernel/src/goal_tree.rs:25-45 | under one limit a subgoal is accepted if and only if its height is below the limit, and building keeps that for the whole tree |
| GoalTree.ProducedIff | freedom-kernel/src/goal_tree.rs:25-45 | the trees that satisfy the invariant of the builders are exactly the trees that calls of the builders return |
| GoalTree.BuiltHeight | freedom-kernel/src/goal_tree.rs:35-52 | a built tree is at most as high as its limit |
| GoalTree.BuiltTreeRefusedIff | freedom-kernel/src/goal_tree.rs:35-140 | a built tree of permitted actions is refused by the verifier if and only if its height equals the limit |
| GoalTree.TallestBuilt | freedom-kernel/src/goal_tree.rs:25-52 | every height up to the limit is that of a tree produced by the builders, so the refusal occurs for every limit |
| Goals.TreePermittedIff | src/freedom_theory/kernel/goals.py:70-171 | a tree is fully permitted if and only if each action is permitted on its own and no goal needs a resource its parent lacks |
| GoalLaws.TreeAllowedIff | src/freedom_theory/kernel/goals.py:44-171 | over the typed gate, with any registry state and clock at each node: fully permitted if and only if each goal's actor may there read and write what the goal requires, a machine is owned there, and no goal requires a resource its parent does not |
| GoalLaws.GoalVerdict | src/freedom_theory/kernel/goals.py:44-113 | the gate's verdict on a goal: its id, what its actor may not read and then not write, and the warnings, in order |
| GoalLaws.ResultMeaning | src/freedom_theory/kernel/goals.py:113-171 | a goal's result is the verifier's unless it requires more than its parent, which is reported with the excess, for arbitration; below a blocked goal stands one cancellation per subgoal that names it |
| Goals.FullyPermittedIff | src/freedom_theory/kernel/goals.py:93-171 | the same for a subtree under a parent's resources |
| Goals.RequiredBySomeNode | src/freedom_theory/kernel/goals.py:52-59 | a resource is required by a tree if and only if some node of it requires it |
| Goals.AllRequiredResources | src/freedom_theory/kernel/goals.py:52-59 | the recursive accumulation yields exactly the resources that some node of the tree requires |
| Goals.NestedTreeNeedsRootOnly | src/freedom_theory/kernel/goals.py:52-59 | attenuation is transitive: a nested tree needs exactly its root's resources, labels aside |
| Goals.PermittedTreeNeedsRootOnly | src/freedom_theory/kernel/goals.py:52-171 | a fully permitted tree needs exactly its root's resources |
| Goals.ViolationsInPreOrder | src/freedom_theory/kernel/goals.py:77-83 | the violations of a tree are those of its results listed in pre-order |
| Goals.AllViolations | src/freedom_theory/kernel/goals.py:77-83 | the recursive accumulation yields that list, each violation with its goal |
| Goals.NoViolationsIffPermitted | src/freedom_theory/kernel/goals.py:70-83 | that list is empty if and only if the actions are permitted and the resources nested |
| Goals.BlockedGoalCancelsSubgoals | src/freedom_theory/kernel/goals.py:136-158 | below a blocked goal there is one refused leaf per subgoal |
| Goals.GateIsHonest | src/freedom_theory/kernel/verifier.py:163-165 | the typed gate blocks if and only if it lists a violation, whatever state and clock it meets at each node, as the previous theorems ask of a verifier |
| Policy.StableSortSorts | src/freedom_theory/kernel/policy.py:93 | the sort is descending and keeps the rules of each priority in their order |
| Policy.FirstMatchIsWinner | src/freedom_theory/kernel/policy.py:86-108 | scanning any stable sort finds the earliest-listed matching rule of greatest priority, and nothing if and only if nothing matches |
| Policy.Evaluate | src/freedom_theory/kernel/policy.py:86-108 | the effect is that of such a winner, or the default when no rule matches |
| PolicyLaws.DecisionMeaning | src/freedom_theory/kernel/policy.py:86-125 | from the fields of the rules: a decision is that of the first rule of greatest priority that covers the operation, the actor's name and the resource, and the default if none does |
| PolicyLaws.MatchedRuleMeets | src/freedom_theory/kernel/policy.py:110-125 | the rule a decision names covers the operation, the name and the resource |
| PolicyLaws.FailingRuleIsIrrelevant | src/freedom_theory/kernel/policy.py:110-125 | a rule that fails one of the three may be inserted anywhere at any priority without changing the decision |
| PolicyLaws.TopRuleDecides | src/freedom_theory/kernel/policy.py:86-108 | a rule that meets all three with a priority above every other decides |
| Policy.DecideByWinner | src/freedom_theory/kernel/policy.py:86-108 | any winner pins the decision down |
| Policy.ReorderingDecidesAlike | src/freedom_theory/kernel/policy.py:93 | a reordering that keeps equal priorities in order changes no decision |
| Policy.LowerRuleIsIrrelevant | src/freedom_theory/kernel/policy.py:86-108 | a rule of lower priority than the winner changes nothing wherever it is inserted |
| Policy.RuleCoversSubtree | src/freedom_theory/kernel/policy.py:110-125 | a rule that matches a resource matches a resource below it if and only if the rule has no scope, the resource has a scope or a name, or the path below is empty or absolute |
| Policy.CheckAdmits | src/freedom_theory/kernel/policy.py:153-155 | the comparison with deny decides whether the evaluation admits the request |
| Policy.DenialsFor | src/freedom_theory/kernel/policy.py:153-175 | one violation per denied resource, in order |
| PolicyLaws.ActionDenials | src/freedom_theory/kernel/policy.py:153-175 | one violation for each read, write and delegation that the policy refuses under the words read, write and delegate, in order |
| PolicyLaws.RefuseWord | src/freedom_theory/kernel/policy.py:146-190 | a policy that denies only one of those words refuses, among actions the kernel permits, exactly those that do what the word says |
| Policy.VerifyWithPolicy | src/freedom_theory/kernel/policy.py:146-190 | permits if and only if the kernel permits and every requested operation evaluates to permit; a kernel refusal passes unchanged and a policy refusal keeps id and warnings and adds one violation per denied request |
| ByteOrder.LittleEndianRoundTrip | freedom-kernel/src/crypto.rs:56-69 | an integer that fits its width is recovered from its little-endian bytes |
| ByteOrder.FromLittleEndianRoundTrip | freedom-kernel/src/crypto.rs:56-69 | any bytes are the little-endian form of the integer they denote |
| ByteOrder.SortSorts | freedom-kernel/src/crypto.rs:58-59 | sorting yields an ascending permutation |
| ByteOrder.SortedUnique | freedom-kernel/src/crypto.rs:58-59 | a multiset of strings has one ascending arrangement, so any sort, stable or not, gives the same list |
| Canonical.WriteString | freedom-kernel/src/crypto.rs:67-71 | the buffer grows by the length prefix and the string |
| Canonical.WriteStrings | freedom-kernel/src/crypto.rs:61-63 | the buffer grows by the encodings of the list in order |
| Canonical.BuildCanonicalBytes | freedom-kernel/src/crypto.rs:46-65 | pushing the fields yields the encoding that the decoder below inverts |
| Canonical.Layout | freedom-kernel/src/crypto.rs:43-71 | which bytes hold the id and its length, the permission, the timestamp, the nonce, the number of violations and the sorted violations |
| Canonical.ExampleBytes | freedom-kernel/src/crypto.rs:43-71 | the bytes of one small payload, written out |
| Canonical.DecodeEncoded | freedom-kernel/src/crypto.rs:46-71 | decoding the encoding of a fitting payload with ascending violations returns it |
| Canonical.DecodeSound | freedom-kernel/src/crypto.rs:46-71 | whatever decodes is the encoding of what it decodes to |
| Canonical.DecodesIffFits | freedom-kernel/src/crypto.rs:46-71 | the decoder recovers all fields and the sorted violations if and only if every length and count is below 2^32 |
| Canonical.DecodesIffCanonical | freedom-kernel/src/crypto.rs:46-71 | bytes decode if and only if they are the canonical form of some fitting payload |
| Canonical.CanonicalBytesInjective | freedom-kernel/src/crypto.rs:46-71 | two fitting payloads have equal bytes if and only if they agree in all fields and their violations are permutations |
| Canonical.EqualBytesIff | freedom-kernel/src/crypto.rs:46-71 | for payloads of any size, equal bytes together with strings of equal lengths mean the same payload up to the order of violations, and conversely |
| Canonical.FittingCollides | freedom-kernel/src/crypto.rs:60-69 | a payload whose lengths fit and one whose id is 2^32 bytes long with equal canonical bytes |
| Canonical.WrappedLengthsCollide | freedom-kernel/src/crypto.rs:60-69 | two different payloads with strings of 2^32 bytes and equal canonical bytes |
| Canonical.SignatureBindsPayload | freedom-kernel/src/crypto.rs:95-125 | unless two different byte strings sign alike, a signature made for one payload checks for another, of any size, if and only if their bytes are equal; with strings of equal lengths, or when both fit, if and only if they are the same up to the order of violations |
| Canonical.SignatureCheckMeaning | freedom-kernel/src/crypto.rs:95-125 | for all arguments: the error of the first malformed one, in order, and otherwise valid if and only if the signature is that of the payload's bytes |
| Context.ChildExpiry | src/freedom_theory/kernel/context.py:126-133 | a child expires no later than its parent or the requested moment, and at one of the two |
| Context.ExecutionContext.Root | src/freedom_theory/kernel/context.py:29-40 | a fresh root satisfies the link invariant at depth 0 |
| Context.ExecutionContext.Below | src/freedom_theory/kernel/context.py:135-143 | a child of a linked parent below its ceiling is linked |
| Context.ExecutionContext.Revoke | src/freedom_theory/kernel/context.py:50-52 | the context is revoked and nothing else is written |
| Context.ExecutionContext.Spawn | src/freedom_theory/kernel/context.py:91-143 | a child is created if and only if the context is valid, below its ceiling and its agent may read each listed resource; the refusal names the first failing check; the child is linked and expires no later |
| Context.ExecutionContext.RunVerify | src/freedom_theory/kernel/context.py:56-87 | permits if and only if the context is valid and the gate permits; for a revoked, then for an expired context the whole refusal is given and no log is written |
| Context.ExecutionContext.AuthorityChain | src/freedom_theory/kernel/context.py:151-159 | the pointer walk terminates with the chain that `ChainShape` describes |
| Context.ChainShape | src/freedom_theory/kernel/context.py:91-159 | the chain has depth + 1 contexts from a root along parent links, all over one registry and ceiling, and depth stays within a non-negative ceiling |
| Context.ExpiredAncestorExpires | src/freedom_theory/kernel/context.py:126-133 | an expired ancestor at any distance means the context has expired |
| Context.RevokeParent | src/freedom_theory/kernel/context.py:50-52 | revoking the parent leaves unchanged, at every moment, all that verdicts and spawns of the child depend on: its validity, its registry and what it may hand on |
| Context.PermitsWithinIff | src/freedom_theory/kernel/context.py:44-87 | what a context permits is permitted by a context above it at any distance, over every gate, if and only if that one is not revoked or this one is too |
| Context.AnswerAlikeIff | src/freedom_theory/kernel/context.py:44-87 | two contexts permit the same actions at all moments if and only if both are revoked, or neither is and they expire alike |
| Context.SpawnAlike | src/freedom_theory/kernel/context.py:91-143 | children spawned at one moment for any agents and any lists of resources permit the same actions |
| Context.SpawnStrongerAgent | src/freedom_theory/kernel/context.py:91-143 | a context whose agent holds no claim spawns a child whose agent may write |
| ContextRuns.Obey | src/freedom_theory/kernel/context.py:50-143 | one command adds a child of the named context if and only if that context is not revoked and may spawn, revokes only the named context, changes only the registry it calls, and is answered positively if and only if context and gate permit or the registry accepts |
| ContextRuns.RunCommands | src/freedom_theory/kernel/context.py:50-143 | over every sequence of spawns, revocations, verdicts and registry calls all contexts stay linked; each command adds a child, of the context it names, if and only if it may in the registry state of that moment, and permits if and only if it may; the registries go through the states of their transitions; and at the end any context, initial or spawned, is revoked if and only if it was at the start or was named by a revocation while it existed |
| ContextRuns.RevokedForGood | src/freedom_theory/kernel/context.py:44-118 | once a context has been revoked in a run, no later command on it spawns or is answered with a permission |

## Left out

- Adapters, the web application, the command line, the Go, WebAssembly and C bindings: plumbing around the modelled core.
- Ed25519, hexadecimal text, randomness and key storage: signing is an abstract function of the payload bytes, and hex arguments arrive decoded or as malformed.
- Text is held as its UTF-8 bytes in the signed payload; no character encoding is modelled.
- Detection heuristics, compass, resolver, synthesis, `multi_agent.rs` and `azadi_ai_ethics.py`.
- Conflict hooks, including hooks that call back into the registry.
- Message wording: violations and warnings carry the data of their message; the manipulation score, always 0.0 here, and the signature fields of a verdict are omitted.
- Floating point: confidences and times are reals, without NaN or rounding.
- Clock: one reading per call of a gate or registry method, one per step in plans and goal trees; the readings need not increase except where a lemma says so.
- Entity metadata, which equality ignores.
- Operations other than read, write and delegate.
- Locks of the Python registry and lock poisoning in Rust; a Python call is one step.
- Later mutation of claim objects shared with callers: claims are immutable values.
- The audit file on disk, and record fields other than the result and its time.
- The Rust registry's own `can_act` and `claims_for`, which answer like the typed queries.
- ContextRuns.RunCommands: asks that the registries in play share no containers, as those made by the plain constructor and by `freeze` do not; registries built over containers handed in from outside are not covered.
- Confinement of a child context to the listed resources: the code does not store them.
- The library sorts are insertion sorts here; `Policy.FirstMatchIsWinner` and `ByteOrder.SortedUnique` hold for any sort.
- Concurrent Rust calls are a state machine on values; only the two critical sections that scan and append are methods on a class.
- Gate.SubvertsIff: rests on the fixed parts of the message texts and the resource type names not containing the word FORBIDDEN, and on each quoted name standing between spaces or colons.
- SharedRegistry.SelfDelegationExceedsAnyBound: in 64-bit floating point, adding 1e-9 stops changing a confidence somewhere above 1e7.
- Ifc.NonInterferenceChecker.CheckAction: does not fix which failing label is reported, because the order of iteration over a set is arbitrary.
- Iteration order over the owner map when the wire form is made: any order is admitted.
- The Lean and TLA+ developments and the book.
