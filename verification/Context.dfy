/** Execution contexts: bounded scopes linked to the context that spawned them. */
module Context {
  import opened Entities
  import opened Registry
  import opened Delegation
  import opened Verdicts
  import opened Gate

  datatype SpawnRefusal = InvalidContext | DepthExceeded | NoAuthority(resource: Resource)

  datatype SpawnResult = Spawned(child: ExecutionContext) | NotSpawned(why: SpawnRefusal)

  /** A child expires at the requested moment or with its parent, whichever is first. */
  function ChildExpiry(parent: Option<real>, expiresIn: Option<real>, now: real): (r: Option<real>)
    ensures NoLaterThan(r, parent)
    ensures expiresIn.Some? ==> NoLaterThan(r, Some(now + expiresIn.value)) && (r == parent || r == Some(now + expiresIn.value))
    ensures expiresIn.None? ==> r == parent
  {
    match expiresIn
    case None => parent
    case Some(d) => if parent.Some? && parent.value < now + d then parent else Some(now + d)
  }

  predicate NoLaterThan(a: Option<real>, b: Option<real>) { b.Some? ==> a.Some? && a.value <= b.value }

  /** In registry state `s`, `agent` may read the resource, or the resource is public. */
  predicate MayHandOnIn(s: State, agent: Entity, r: Resource, now: real) {
    CanAct(s, agent, r.Key(), Read, now).permitted || r.isPublic
  }

  class ExecutionContext {
    const taskId: string
    const agent: Entity
    const registry: OwnershipRegistry
    const maxDepth: int
    const expiresAt: Option<real>
    const parent: ExecutionContext?
    const depth: int
    var revoked: bool

    /** A root at depth 0, or one level below a linked parent, within its depth
        ceiling and its expiry, over the same registry. */
    ghost predicate Linked()
      decreases depth
    {
      && depth >= 0
      && if parent == null then depth == 0
         else
           && depth == parent.depth + 1 <= maxDepth
           && maxDepth == parent.maxDepth
           && registry == parent.registry
           && NoLaterThan(expiresAt, parent.expiresAt)
           && parent.Linked()
    }

    constructor Root(taskId: string, agent: Entity, registry: OwnershipRegistry, maxDepth: int, expiresAt: Option<real>)
      ensures Linked() && parent == null && !revoked
      ensures this.taskId == taskId && this.agent == agent && this.registry == registry
      ensures this.maxDepth == maxDepth && this.expiresAt == expiresAt
    {
      this.taskId, this.agent, this.registry := taskId, agent, registry;
      this.maxDepth, this.expiresAt := maxDepth, expiresAt;
      parent, depth, revoked := null, 0, false;
    }

    constructor Below(parent: ExecutionContext, taskId: string, agent: Entity, expiresAt: Option<real>)
      requires parent.Linked() && parent.depth < parent.maxDepth && NoLaterThan(expiresAt, parent.expiresAt)
      ensures Linked() && this.parent == parent && !revoked
      ensures this.taskId == taskId && this.agent == agent && this.expiresAt == expiresAt
    {
      this.taskId, this.agent, this.registry := taskId, agent, parent.registry;
      this.maxDepth, this.expiresAt := parent.maxDepth, expiresAt;
      this.parent, depth, revoked := parent, parent.depth + 1, false;
    }

    predicate IsExpired(now: real) { expiresAt.Some? && now > expiresAt.value }

    predicate IsValid(now: real)
      reads this
    {
      !revoked && !IsExpired(now)
    }

    method Revoke()
      modifies this
      ensures revoked
    {
      revoked := true;
    }

    /** The spawning agent may read the resource, or the resource is public. */
    ghost predicate MayHandOn(r: Resource, now: real)
      reads registry.Repr()
    {
      MayHandOnIn(registry.Abs(), agent, r, now)
    }

    function ChildName(subAgent: Entity, subTask: string): string {
      if subTask != "" then subTask else taskId + "/" + subAgent.name
    }

    method Spawn(subAgent: Entity, resources: seq<Resource>, subTask: string, expiresIn: Option<real>, now: real)
      returns (r: SpawnResult)
      requires Linked()
      ensures r.Spawned? <==>
                IsValid(now) && depth < maxDepth && forall i :: 0 <= i < |resources| ==> MayHandOn(resources[i], now)
      ensures r.Spawned? ==>
                && fresh(r.child) && r.child.Linked() && r.child.parent == this && !r.child.revoked
                && r.child.agent == subAgent
                && r.child.expiresAt == ChildExpiry(expiresAt, expiresIn, now)
                && r.child.taskId == ChildName(subAgent, subTask)
                && r.child.taskId == (if subTask != "" then subTask else taskId + "/" + subAgent.name)
      ensures r.NotSpawned? ==>
                match r.why
                case InvalidContext => !IsValid(now)
                case DepthExceeded => IsValid(now) && depth >= maxDepth
                case NoAuthority(resource) =>
                  && IsValid(now) && depth < maxDepth
                  && exists i :: 0 <= i < |resources| && resources[i] == resource && !MayHandOn(resource, now)
                                 && forall k :: 0 <= k < i ==> MayHandOn(resources[k], now)
    {
      if !IsValid(now) {
        return NotSpawned(InvalidContext);
      }
      if depth >= maxDepth {
        return NotSpawned(DepthExceeded);
      }
      for i := 0 to |resources|
        invariant forall k :: 0 <= k < i ==> MayHandOn(resources[k], now)
      {
        var access := registry.CheckAccess(agent, resources[i], Read, now);
        if !access.permitted && !resources[i].isPublic {
          return NotSpawned(NoAuthority(resources[i]));
        }
      }
      var expiry := ChildExpiry(expiresAt, expiresIn, now);
      var name := if subTask != "" then subTask else taskId + "/" + subAgent.name;
      var child := new ExecutionContext.Below(this, name, subAgent, expiry);
      return Spawned(child);
    }

    /** Revocation, then expiry, then the gate. */
    method RunVerify(verifier: FreedomVerifier, a: Action, now: real) returns (result: VerificationResult)
      modifies verifier.Logs()
      ensures result.permitted <==> IsValid(now) && Verify(verifier.registry.Abs(), a, now).permitted
      ensures revoked ==> result == VerificationResult(a.actionId, false, [ContextRevoked(taskId)], [], 0.0, false)
      ensures !revoked && IsExpired(now) ==> result == VerificationResult(a.actionId, false, [ContextExpired(taskId)], [], 0.0, false)
      ensures !IsValid(now) ==> unchanged(verifier.Logs())
      ensures IsValid(now) ==> result == Verify(verifier.registry.Abs(), a, now)
    {
      if revoked {
        return VerificationResult(a.actionId, false, [ContextRevoked(taskId)], [], 0.0, false);
      }
      if IsExpired(now) {
        return VerificationResult(a.actionId, false, [ContextExpired(taskId)], [], 0.0, false);
      }
      hide Verify;
      result := verifier.RunVerify(a, now);
    }

    /** Walks the parent links up and reverses what it met. */
    method AuthorityChain() returns (chain: seq<ExecutionContext>)
      requires Linked()
      ensures chain == ChainOf(this)
    {
      hide ChainOf;
      var up: seq<ExecutionContext> := [];
      var ctx: ExecutionContext? := this;
      while ctx != null
        invariant ctx == null || ctx.Linked()
        invariant ChainOf(this) == ChainAbove(ctx) + Reversed(up)
        decreases if ctx == null then -1 else ctx.depth
      {
        ClimbOne(ctx, up);
        up := up + [ctx];
        ctx := ctx.parent;
      }
      chain := Reversed(up);
    }
  }

  function Reversed<T>(s: seq<T>): seq<T> {
    if s == [] then [] else [s[|s| - 1]] + Reversed(s[..|s| - 1])
  }

  /** The delegation chain from the root to `c`. */
  ghost function ChainOf(c: ExecutionContext): (chain: seq<ExecutionContext>)
    requires c.Linked()
    decreases c.depth
  {
    if c.parent == null then [c] else ChainOf(c.parent) + [c]
  }

  ghost function ChainAbove(c: ExecutionContext?): seq<ExecutionContext>
    requires c == null || c.Linked()
  {
    if c == null then [] else ChainOf(c)
  }

  /** One step of the walk moves a context from the part still above to the part met. */
  lemma {:induction false} ClimbOne(c: ExecutionContext, met: seq<ExecutionContext>)
    requires c.Linked()
    ensures ChainAbove(c) + Reversed(met) == ChainAbove(c.parent) + Reversed(met + [c])
  {
  }

  /** The chain has one entry for each level, starts at a root and follows the
      parent links; it stays below the depth ceiling and over one registry. */
  lemma {:induction false} ChainShape(c: ExecutionContext)
    requires c.Linked()
    ensures var chain := ChainOf(c);
      && |chain| == c.depth + 1
      && chain[c.depth] == c && chain[0].parent == null
      && (forall k :: 0 <= k < |chain| ==> chain[k].Linked() && chain[k].depth == k)
      && (forall k :: 0 <= k < |chain| - 1 ==> chain[k + 1].parent == chain[k])
      && (forall k :: 0 <= k < |chain| ==> chain[k].maxDepth == c.maxDepth && chain[k].registry == c.registry)
    ensures c.maxDepth >= 0 ==> c.depth <= c.maxDepth
    decreases c.depth
  {
    if c.parent != null {
      ChainShape(c.parent);
    }
  }

  /** Expiry is inherited: once any ancestor has expired, so has the context. */
  lemma {:induction false} ExpiredAncestorExpires(c: ExecutionContext, ancestor: ExecutionContext, now: real)
    requires c.Linked() && ancestor in ChainOf(c) && ancestor.IsExpired(now)
    ensures c.IsExpired(now)
    decreases c.depth
  {
    if ancestor != c {
      ExpiredAncestorExpires(c.parent, ancestor, now);
    }
  }

  /** Revocation is not: revoking the parent leaves the child as it was, and with it
      everything that a verdict or a spawn of the child depends on. */
  method RevokeParent(c: ExecutionContext)
    requires c.Linked() && c.parent != null
    modifies c.parent
    ensures c.parent.revoked && forall now :: !c.parent.IsValid(now)
    ensures c.Linked() && c.revoked == old(c.revoked)
    ensures forall now :: c.IsValid(now) == old(c.IsValid(now))
    ensures c.registry.Abs() == old(c.registry.Abs())
    ensures forall r, now :: c.MayHandOn(r, now) == old(c.MayHandOn(r, now))
  {
    c.parent.Revoke();
  }

  // ----- What a child may do, against what those above it may do

  /** A context over a gate in state `gate` permits an action. */
  ghost predicate PermitsIn(c: ExecutionContext, gate: State, a: Action, now: real)
    reads c
  {
    c.IsValid(now) && Verify(gate, a, now).permitted
  }

  ghost predicate PermitsWithin(c: ExecutionContext, above: ExecutionContext, gate: State)
    reads c, above
  {
    forall a, now :: PermitsIn(c, gate, a, now) ==> PermitsIn(above, gate, a, now)
  }

  /** An action that asks for nothing. */
  function Idle(): Action { Action("idle", Entity("alice", Human), "", [], [], [], [], "", Quiet()) }

  lemma {:induction false} IdlePermitted(gate: State, now: real)
    ensures Verify(gate, Idle(), now).permitted
  {
    hide Verify;
    PermittedIff(gate, Idle(), now);
  }

  /** A moment at which a context has not expired. */
  function Alive(c: ExecutionContext): (now: real)
    ensures !c.IsExpired(now)
  {
    if c.expiresAt.Some? then c.expiresAt.value else 0.0
  }

  /** The actions that a context permits are permitted by each context above it,
      exactly until the one above is revoked and this one is not: revoking a context
      without those below it is what breaks the containment, and nothing else. */
  lemma {:induction false} PermitsWithinIff(c: ExecutionContext, above: ExecutionContext, gate: State)
    requires c.Linked() && above in ChainOf(c)
    ensures PermitsWithin(c, above, gate) <==> !above.revoked || c.revoked
  {
    hide Verify, ChainOf, ExecutionContext.Linked;
    forall now | above.IsExpired(now) ensures c.IsExpired(now) {
      ExpiredAncestorExpires(c, above, now);
    }
    IdlePermitted(gate, Alive(c));
    assert PermitsIn(c, gate, Idle(), Alive(c)) <==> !c.revoked;
    assert PermitsIn(above, gate, Idle(), Alive(c)) ==> !above.revoked;
  }

  /** Two contexts answer alike exactly when both are revoked, or neither is and they
      expire alike: agent, task, place in the forest and listed resources have no say. */
  lemma {:induction false} AnswerAlikeIff(c: ExecutionContext, d: ExecutionContext, gate: State)
    ensures (forall a, now :: PermitsIn(c, gate, a, now) <==> PermitsIn(d, gate, a, now)) <==>
            c.revoked == d.revoked && (c.revoked || c.expiresAt == d.expiresAt)
  {
    hide Verify;
    if forall a, now :: PermitsIn(c, gate, a, now) <==> PermitsIn(d, gate, a, now) {
      var t := if c.expiresAt.Some? then c.expiresAt.value else 0.0;
      var u := if d.expiresAt.Some? then d.expiresAt.value else 0.0;
      forall now ensures c.IsValid(now) == d.IsValid(now) {
        IdlePermitted(gate, now);
        assert PermitsIn(c, gate, Idle(), now) <==> PermitsIn(d, gate, Idle(), now);
      }
      assert c.IsValid(t) == d.IsValid(t) && c.IsValid(u) == d.IsValid(u);
      assert c.IsValid(t + 1.0) == d.IsValid(t + 1.0) && c.IsValid(u + 1.0) == d.IsValid(u + 1.0);
    }
  }

  /** So two children spawned at one moment, for whatever agents and with whatever
      lists of resources, answer alike. */
  method SpawnAlike(c: ExecutionContext, agents: (Entity, Entity), resources: (seq<Resource>, seq<Resource>),
                    expiresIn: Option<real>, now: real)
    returns (r: SpawnResult, q: SpawnResult)
    requires c.Linked()
    ensures r.Spawned? && q.Spawned? ==>
              forall gate, a, now :: PermitsIn(r.child, gate, a, now) <==> PermitsIn(q.child, gate, a, now)
    ensures r.Spawned? <==>
              c.IsValid(now) && c.depth < c.maxDepth && forall i :: 0 <= i < |resources.0| ==> c.MayHandOn(resources.0[i], now)
    ensures q.Spawned? <==>
              c.IsValid(now) && c.depth < c.maxDepth && forall i :: 0 <= i < |resources.1| ==> c.MayHandOn(resources.1[i], now)
  {
    hide Verify;
    r := c.Spawn(agents.0, resources.0, "", expiresIn, now);
    q := c.Spawn(agents.1, resources.1, "", expiresIn, now);
  }

  /** Nor is the authority of the child's agent within that of the parent's agent: a
      context of an agent with no claim at all spawns one for an agent that may write. */
  method SpawnStrongerAgent(r: Resource, now: real) returns (parent: ExecutionContext, child: ExecutionContext)
    ensures child.Linked() && child.parent == parent && child.registry == parent.registry
    ensures forall key, op, t :: CanAct(parent.registry.Abs(), parent.agent, key, op, t).permitted ==> key.isPublic && op == Read
    ensures CanAct(child.registry.Abs(), child.agent, r.Key(), Write, now).permitted
    ensures !HolderWithin(parent.registry.Abs(), child.agent, parent.agent)
  {
    var registry := new OwnershipRegistry();
    var alice, bot := Entity("alice", Human), Entity("bot", Machine);
    var claim := RightsClaim(bot, r, true, true, false, 1.0, None);
    var outcome := registry.AddClaim(claim, now);
    assert registry.Abs().claims == [claim];
    parent := new ExecutionContext.Root("task", alice, registry, 4, None);
    var s := parent.Spawn(bot, [], "", None, now);
    child := s.child;
    hide CanAct;
    LoneClaim(registry.Abs(), claim, alice, now);
  }

  lemma {:induction false} LoneClaim(s: State, claim: RightsClaim, other: Entity, now: real)
    requires s.claims == [claim] && claim.holder != other && claim.canWrite && claim.IsValid(now)
    ensures forall key, op, t :: CanAct(s, other, key, op, t).permitted ==> key.isPublic && op == Read
    ensures CanAct(s, claim.holder, claim.resource.Key(), Write, now).permitted
    ensures !HolderWithin(s, claim.holder, other)
  {
    hide CanAct;
    forall key, op, t | CanAct(s, other, key, op, t).permitted ensures key.isPublic && op == Read {
      if !(key.isPublic && op == Read) {
        CanActMeaning(s, other, key, op, t);
      }
    }
    CanActMeaning(s, claim.holder, claim.resource.Key(), Write, now);
    assert claim in s.claims && Authorizes(claim, claim.holder, claim.resource.Key(), Write, now);
  }
}
