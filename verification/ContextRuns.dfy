/** Every sequence of spawns, revocations, verdicts and registry calls over a forest
    of execution contexts. */
module ContextRuns {
  import opened Entities
  import opened Registry
  import opened Gate
  import opened Context

  datatype Command =
    | SpawnFrom(index: nat, subAgent: Entity, resources: seq<Resource>, subTask: string, expiresIn: Option<real>, now: real)
    | RevokeAt(index: nat)
    | VerifyIn(index: nat, action: Action, now: real)
    | CallOn(registry: OwnershipRegistry, event: Event)

  /** The states of the registries in play. */
  type States = map<OwnershipRegistry, State>

  ghost predicate AllLinked(pool: seq<ExecutionContext>) { forall c :: c in pool ==> c.Linked() }

  /** A run: the contexts in the order in which they came to be; how many there were,
      and in which states the registries were, before each command and at the end;
      which commands were answered with a permission or an acceptance; who was revoked
      at the start; and the registry of the gate. */
  datatype History = History(
    pool: seq<ExecutionContext>,
    sizes: seq<nat>,
    states: seq<States>,
    answers: seq<bool>,
    initially: set<ExecutionContext>,
    gate: OwnershipRegistry)

  // ----- One command, on values

  /** `c` may spawn as the command says, given that it is not revoked. */
  predicate Admissible(states: States, c: ExecutionContext, command: Command)
    requires command.SpawnFrom?
  {
    && !c.IsExpired(command.now) && c.depth < c.maxDepth && c.registry in states
    && forall k :: 0 <= k < |command.resources| ==> MayHandOnIn(states[c.registry], c.agent, command.resources[k], command.now)
  }

  predicate IsChildOf(child: ExecutionContext, c: ExecutionContext, command: Command)
    requires command.SpawnFrom?
  {
    && child.parent == c && child.agent == command.subAgent && child.taskId == c.ChildName(command.subAgent, command.subTask)
    && child.expiresAt == ChildExpiry(c.expiresAt, command.expiresIn, command.now)
  }

  /** The gate permits and the context has not expired, given that it is not revoked. */
  ghost predicate Grants(states: States, gate: OwnershipRegistry, c: ExecutionContext, command: Command)
    requires command.VerifyIn?
  {
    !c.IsExpired(command.now) && gate in states && Verify(states[gate], command.action, command.now).permitted
  }

  predicate Accepts(states: States, command: Command) {
    command.CallOn? && command.registry in states && Handle(states[command.registry], command.event).1.Done?
  }

  /** Only a call on a registry changes a registry, and only that one. */
  function NextStates(states: States, command: Command): States {
    if command.CallOn? && command.registry in states
    then states[command.registry := Handle(states[command.registry], command.event).0] else states
  }

  // ----- Described runs

  /** The context that the `i`-th command names exists when it is issued. */
  predicate Names(h: History, commands: seq<Command>, i: nat, c: ExecutionContext) {
    i < |commands| && i < |h.sizes| && !commands[i].CallOn? && commands[i].index < h.sizes[i] && commands[i].index < |h.pool|
    && h.pool[commands[i].index] == c
  }

  /** `c` was revoked from the start, or one of the first `i` commands revokes it. */
  ghost predicate RevokedBefore(h: History, commands: seq<Command>, i: nat, c: ExecutionContext) {
    c in h.initially || exists j :: 0 <= j < i && j < |commands| && commands[j].RevokeAt? && Names(h, commands, j, c)
  }

  ghost predicate Spawns(h: History, commands: seq<Command>, i: nat) {
    i < |commands| && i < |h.states| && commands[i].SpawnFrom?
    && exists c :: c in h.pool && Names(h, commands, i, c) && !RevokedBefore(h, commands, i, c) && Admissible(h.states[i], c, commands[i])
  }

  ghost predicate Permits(h: History, commands: seq<Command>, i: nat) {
    i < |commands| && i < |h.states| && commands[i].VerifyIn?
    && exists c :: c in h.pool && Names(h, commands, i, c) && !RevokedBefore(h, commands, i, c) && Grants(h.states[i], h.gate, c, commands[i])
  }

  /** The `i`-th command adds a context exactly when it spawns, and then a child of
      the context it names; it is answered positively exactly when it permits or is
      accepted; and it leads the registries to their next states. */
  ghost predicate StepDescribed(h: History, commands: seq<Command>, i: nat) {
    && i < |commands| && i < |h.answers| && i + 1 < |h.sizes| && i + 1 < |h.states|
    && h.sizes[i] <= h.sizes[i + 1] <= |h.pool|
    && h.sizes[i + 1] == (if Spawns(h, commands, i) then h.sizes[i] + 1 else h.sizes[i])
    && (Spawns(h, commands, i) ==>
          commands[i].index < |h.pool| && IsChildOf(h.pool[h.sizes[i]], h.pool[commands[i].index], commands[i]))
    && (h.answers[i] <==> Permits(h, commands, i) || Accepts(h.states[i], commands[i]))
    && h.states[i + 1] == NextStates(h.states[i], commands[i])
  }

  ghost predicate Described(h: History, commands: seq<Command>) {
    && |h.sizes| == |h.states| == |commands| + 1 && |h.answers| == |commands| && h.sizes[|commands|] == |h.pool|
    && forall i :: 0 <= i < |commands| ==> StepDescribed(h, commands, i)
  }

  /** `g` is a longer run that starts with `h`. */
  ghost predicate Continues(g: History, h: History) {
    && h.pool <= g.pool && h.sizes <= g.sizes && h.states <= g.states && h.answers <= g.answers
    && g.initially == h.initially && g.gate == h.gate
  }

  lemma {:induction false} SizesWithin(h: History, commands: seq<Command>, i: nat)
    requires Described(h, commands) && i <= |commands|
    ensures h.sizes[i] <= |h.pool|
  {
    if i < |commands| {
      assert StepDescribed(h, commands, i);
    }
  }

  lemma {:induction false} NamesStable(h: History, commands: seq<Command>, g: History, more: seq<Command>, i: nat, c: ExecutionContext)
    requires Described(h, commands) && Continues(g, h) && commands <= more && i < |commands|
    ensures Names(g, more, i, c) <==> Names(h, commands, i, c)
  {
    SizesWithin(h, commands, i);
  }

  lemma {:induction false} RevokedStable(h: History, commands: seq<Command>, g: History, more: seq<Command>, i: nat, c: ExecutionContext)
    requires Described(h, commands) && Continues(g, h) && commands <= more && i <= |commands|
    ensures RevokedBefore(g, more, i, c) <==> RevokedBefore(h, commands, i, c)
  {
    hide Described, Names;
    forall j | 0 <= j < i ensures Names(g, more, j, c) <==> Names(h, commands, j, c) && more[j] == commands[j] {
      NamesStable(h, commands, g, more, j, c);
    }
  }

  /** What a command did stays described as the run goes on. */
  lemma {:induction false} StepStable(h: History, commands: seq<Command>, g: History, more: seq<Command>, i: nat)
    requires Described(h, commands) && Continues(g, h) && commands <= more && i < |commands|
    ensures StepDescribed(g, more, i)
  {
    assert StepDescribed(h, commands, i) && more[i] == commands[i];
    hide Described, RevokedBefore, Admissible, IsChildOf, Grants, Accepts, NextStates;
    forall c
      ensures Names(g, more, i, c) <==> Names(h, commands, i, c)
      ensures RevokedBefore(g, more, i, c) <==> RevokedBefore(h, commands, i, c)
    {
      NamesStable(h, commands, g, more, i, c);
      RevokedStable(h, commands, g, more, i, c);
    }
    assert Spawns(g, more, i) <==> Spawns(h, commands, i);
    assert Permits(g, more, i) <==> Permits(h, commands, i);
  }

  /** A run continued by one described step is described. */
  lemma {:induction false} DescribedStep(h: History, commands: seq<Command>, g: History, command: Command)
    requires Described(h, commands) && Continues(g, h)
    requires |g.sizes| == |g.states| == |h.sizes| + 1 && |g.answers| == |h.answers| + 1 && g.sizes[|h.sizes|] == |g.pool|
    requires StepDescribed(g, commands + [command], |commands|)
    ensures Described(g, commands + [command])
  {
    hide StepDescribed;
    forall i | 0 <= i < |commands| ensures StepDescribed(g, commands + [command], i) {
      StepStable(h, commands, g, commands + [command], i);
    }
  }

  /** Once revoked, a context neither spawns nor permits, for the rest of the run. */
  lemma {:induction false} RevokedForGood(h: History, commands: seq<Command>, i: nat, j: nat, c: ExecutionContext)
    requires Described(h, commands) && RevokedBefore(h, commands, i, c)
    requires i <= j < |commands| && Names(h, commands, j, c)
    ensures h.sizes[j + 1] == h.sizes[j] && !h.answers[j]
  {
    assert StepDescribed(h, commands, j);
  }

  // ----- One command, on the heap

  /** The objects that make up some registries. */
  ghost function Footprint(registries: set<OwnershipRegistry>): set<object> {
    set r, o | r in registries && o in r.Repr() :: o
  }

  /** The registries in play, which share nothing, are in the given states. */
  ghost predicate Hold(states: States)
    reads Footprint(states.Keys)
  {
    && (forall r :: r in states ==> r.Abs() == states[r])
    && forall r, q :: r in states && q in states && r != q ==> r.Repr() !! q.Repr()
  }

  predicate Covered(pool: seq<ExecutionContext>, states: States) { forall c :: c in pool ==> c.registry in states }

  method TrySpawn(c: ExecutionContext, command: Command, ghost states: States) returns (r: SpawnResult)
    requires command.SpawnFrom? && c.Linked() && c.registry in states && Hold(states)
    ensures r.Spawned? <==> !c.revoked && Admissible(states, c, command)
    ensures r.Spawned? ==> fresh(r.child) && r.child.Linked() && IsChildOf(r.child, c, command) && !r.child.revoked
                           && r.child.registry == c.registry
  {
    r := c.Spawn(command.subAgent, command.resources, command.subTask, command.expiresIn, command.now);
  }

  method TryVerify(c: ExecutionContext, command: Command, verifier: FreedomVerifier, ghost states: States) returns (answer: bool)
    requires command.VerifyIn? && verifier.registry in states && Hold(states)
    modifies verifier.Logs()
    ensures answer <==> !c.revoked && Grants(states, verifier.registry, c, command)
  {
    hide Verify;
    var result := c.RunVerify(verifier, command.action, command.now);
    answer := result.permitted;
  }

  method Call(command: Command, ghost states: States) returns (answer: bool)
    requires command.CallOn? && command.registry in states && Hold(states)
    modifies command.registry.Repr()
    ensures Hold(NextStates(states, command))
    ensures answer <==> Accepts(states, command)
  {
    hide Handle;
    var registry, event := command.registry, command.event;
    var outcome := registry.ServeOne(event);
    answer := outcome.Done?;
    assert registry.Abs() == Handle(states[registry], event).0;
    forall r | r in states && r != registry ensures r.Abs() == states[r] {
      assert r.Repr() !! registry.Repr();
    }
  }

  ghost predicate SpawnsNow(pool: seq<ExecutionContext>, states: States, command: Command)
    reads pool
  {
    command.SpawnFrom? && command.index < |pool| && !pool[command.index].revoked && Admissible(states, pool[command.index], command)
  }

  ghost predicate PermitsNow(pool: seq<ExecutionContext>, states: States, gate: OwnershipRegistry, command: Command)
    reads pool
  {
    command.VerifyIn? && command.index < |pool| && !pool[command.index].revoked && Grants(states, gate, pool[command.index], command)
  }

  method Obey(pool: seq<ExecutionContext>, command: Command, verifier: FreedomVerifier, ghost states: States)
    returns (after: seq<ExecutionContext>, answer: bool)
    requires AllLinked(pool) && Covered(pool, states) && Hold(states) && verifier.registry in states
    requires command.CallOn? ==> command.registry in states
    modifies pool, verifier.Logs(), Footprint(states.Keys)
    ensures pool <= after && AllLinked(after) && Covered(after, states) && Hold(NextStates(states, command))
    ensures |after| == if old(SpawnsNow(pool, states, command)) then |pool| + 1 else |pool|
    ensures |after| > |pool| ==>
              && fresh(after[|pool|]) && !after[|pool|].revoked
              && IsChildOf(after[|pool|], pool[command.index], command)
    ensures forall c :: c in pool ==>
              (c.revoked <==> old(c.revoked) || (command.RevokeAt? && command.index < |pool| && pool[command.index] == c))
    ensures answer <==> old(PermitsNow(pool, states, verifier.registry, command)) || Accepts(states, command)
  {
    hide Admissible, IsChildOf, Grants, Handle, ExecutionContext.Linked;
    after, answer := pool, false;
    match command {
      case CallOn(_, _) =>
        answer := Call(command, states);
      case RevokeAt(index) =>
        if index < |pool| {
          pool[index].Revoke();
        }
      case VerifyIn(index, _, _) =>
        if index < |pool| {
          answer := TryVerify(pool[index], command, verifier, states);
        }
      case SpawnFrom(index, _, _, _, _, _) =>
        if index < |pool| {
          var r := TrySpawn(pool[index], command, states);
          if r.Spawned? {
            after := pool + [r.child];
          }
        }
    }
  }

  /** What serving one command does is what the description of the run says. */
  lemma {:induction false} ObeyedStep(h: History, commands: seq<Command>, revoked: set<ExecutionContext>, g: History, command: Command)
    requires Described(h, commands) && Continues(g, h)
    requires forall c :: c in h.pool ==> (c in revoked <==> RevokedBefore(h, commands, |commands|, c))
    requires |g.sizes| == |g.states| == |h.sizes| + 1 && |g.answers| == |h.answers| + 1 && g.sizes[|h.sizes|] == |g.pool|
    requires var states := h.states[|commands|];
      var n := if command.CallOn? then |h.pool| else command.index;
      && g.states[|h.states|] == NextStates(states, command)
      && |g.pool| == (if command.SpawnFrom? && n < |h.pool| && h.pool[n] !in revoked && Admissible(states, h.pool[n], command)
                      then |h.pool| + 1 else |h.pool|)
      && (|g.pool| > |h.pool| ==> IsChildOf(g.pool[|h.pool|], h.pool[n], command))
      && (g.answers[|h.answers|] <==>
            || (command.VerifyIn? && n < |h.pool| && h.pool[n] !in revoked && Grants(states, h.gate, h.pool[n], command))
            || Accepts(states, command))
    ensures Described(g, commands + [command])
  {
    hide RevokedBefore, Admissible, IsChildOf, Grants, Accepts, NextStates;
    var more, i := commands + [command], |commands|;
    forall c ensures RevokedBefore(g, more, i, c) <==> RevokedBefore(h, commands, i, c) {
      RevokedStable(h, commands, g, more, i, c);
    }
    forall c ensures Names(g, more, i, c) <==> !command.CallOn? && command.index < |h.pool| && h.pool[command.index] == c {
    }
    assert StepDescribed(g, more, i);
    DescribedStep(h, commands, g, command);
  }

  /** One more command revokes the context it names, if it is a revocation. */
  lemma {:induction false} RevokedNext(h: History, commands: seq<Command>, g: History, command: Command, c: ExecutionContext)
    requires Described(h, commands) && Continues(g, h) && |g.sizes| == |h.sizes| + 1
    ensures RevokedBefore(g, commands + [command], |commands| + 1, c) <==>
            RevokedBefore(h, commands, |commands|, c)
            || (command.RevokeAt? && command.index < |h.pool| && h.pool[command.index] == c)
  {
    var more, i := commands + [command], |commands|;
    RevokedStable(h, commands, g, more, i, c);
    assert more[i] == command;
    assert Names(g, more, i, c) <==> !command.CallOn? && command.index < |h.pool| && h.pool[command.index] == c;
    hide Names, Described;
  }

  /** Nobody outside the pool is revoked by a command. */
  lemma {:induction false} StrangerNotRevoked(h: History, commands: seq<Command>, i: nat, c: ExecutionContext)
    requires c !in h.pool && c !in h.initially
    ensures !RevokedBefore(h, commands, i, c)
  {
  }

  // ----- Runs, on the heap

  /** `h` describes a run of `commands` that has led to the present contexts and registries. */
  ghost predicate Tracks(h: History, commands: seq<Command>)
    requires h.states != []
    reads h.pool, Footprint(h.states[|h.states| - 1].Keys)
  {
    var states := h.states[|h.states| - 1];
    && Described(h, commands) && AllLinked(h.pool) && Covered(h.pool, states) && Hold(states) && h.gate in states
    && (forall c :: c in h.pool ==> (c.revoked <==> RevokedBefore(h, commands, |commands|, c)))
    && forall c :: c in h.initially ==> c in h.pool
  }

  lemma {:induction false} LastState(h: History, commands: seq<Command>, command: Command)
    requires Described(h, commands)
    ensures |h.sizes| == |h.states| == |commands| + 1 && |h.answers| == |commands|
    ensures NextStates(h.states[|commands|], command).Keys == h.states[|commands|].Keys
  {
    hide StepDescribed;
  }

  method ServeCommand(pool: seq<ExecutionContext>, ghost h: History, ghost commands: seq<Command>, command: Command, verifier: FreedomVerifier)
    returns (after: seq<ExecutionContext>, answer: bool, ghost g: History)
    requires h.states != [] && Tracks(h, commands) && h.pool == pool && h.gate == verifier.registry
    requires command.CallOn? ==> command.registry in h.states[|h.states| - 1]
    modifies pool, verifier.Logs(), Footprint(h.states[|h.states| - 1].Keys)
    ensures g.states != [] && Tracks(g, commands + [command]) && g.pool == after
    ensures Continues(g, h) && g.answers == h.answers + [answer]
    ensures g.states[|g.states| - 1].Keys == h.states[|h.states| - 1].Keys
    ensures forall k :: |pool| <= k < |after| ==> fresh(after[k])
  {
    hide Described, RevokedBefore, Admissible, IsChildOf, Grants, Accepts, NextStates, Hold, Footprint, AllLinked;
    ghost var states := h.states[|h.states| - 1];
    LastState(h, commands, command);
    ghost var revoked := set c | c in pool && c.revoked;
    after, answer := Obey(pool, command, verifier, states);
    g := History(after, h.sizes + [|after|], h.states + [NextStates(states, command)], h.answers + [answer], h.initially, h.gate);
    ObeyedStep(h, commands, revoked, g, command);
    forall c | c in after ensures c.revoked <==> RevokedBefore(g, commands + [command], |commands| + 1, c) {
      RevokedNext(h, commands, g, command, c);
      if c !in pool {
        StrangerNotRevoked(h, commands, |commands|, c);
      }
    }
  }

  /** Before any command, all is as it was found. */
  ghost function Beginning(start: seq<ExecutionContext>, states: States, gate: OwnershipRegistry): History
    reads start
  {
    History(start, [|start|], [states], [], (set c | c in start && c.revoked), gate)
  }

  lemma {:induction false} BeginningTracked(start: seq<ExecutionContext>, states: States, gate: OwnershipRegistry)
    requires AllLinked(start) && Covered(start, states) && Hold(states) && gate in states
    ensures Tracks(Beginning(start, states, gate), [])
  {
    hide ExecutionContext.Linked, Hold;
  }

  /** Main theorem on runs: serving any commands, on contexts and registries in any
      state, gives a described run over linked contexts, at whose end the registries
      are in its last states, and exactly those contexts are revoked that were revoked
      at the start or were named by a revocation when they existed.  `states` tells
      the states of all registries in play at the start. */
  method RunCommands(start: seq<ExecutionContext>, commands: seq<Command>, verifier: FreedomVerifier, ghost states: States)
    returns (pool: seq<ExecutionContext>, answers: seq<bool>, ghost h: History)
    requires AllLinked(start) && Covered(start, states) && Hold(states) && verifier.registry in states
    requires forall i :: 0 <= i < |commands| && commands[i].CallOn? ==> commands[i].registry in states
    modifies start, verifier.Logs(), Footprint(states.Keys)
    ensures h.pool == pool && h.answers == answers && h.gate == verifier.registry
    ensures h.initially == old(set c | c in start && c.revoked)
    ensures Described(h, commands) && h.sizes[0] == |start| && h.states[0] == states
    ensures start <= pool && AllLinked(pool) && Hold(h.states[|commands|])
    ensures forall k :: |start| <= k < |pool| ==> fresh(pool[k])
    ensures forall c :: c in pool ==> (c.revoked <==> RevokedBefore(h, commands, |commands|, c))
  {
    hide StepDescribed, ExecutionContext.Linked, Hold, RevokedBefore;
    pool, answers, h := ServeAll(start, commands, verifier, states);
  }

  method ServeAll(start: seq<ExecutionContext>, commands: seq<Command>, verifier: FreedomVerifier, ghost states: States)
    returns (pool: seq<ExecutionContext>, answers: seq<bool>, ghost h: History)
    requires AllLinked(start) && Covered(start, states) && Hold(states) && verifier.registry in states
    requires forall i :: 0 <= i < |commands| && commands[i].CallOn? ==> commands[i].registry in states
    modifies start, verifier.Logs(), Footprint(states.Keys)
    ensures h.states != [] && Tracks(h, commands) && h.pool == pool && h.answers == answers
    ensures Continues(h, old(Beginning(start, states, verifier.registry)))
    ensures forall k :: |start| <= k < |pool| ==> fresh(pool[k])
  {
    hide Tracks, AllLinked, Hold, Footprint, Covered;
    pool, answers := start, [];
    h := Beginning(start, states, verifier.registry);
    BeginningTracked(start, states, verifier.registry);
    assert commands[..0] == [];
    for i := 0 to |commands|
      invariant h.states != [] && Tracks(h, commands[..i])
      invariant Continues(h, old(Beginning(start, states, verifier.registry)))
      invariant h.pool == pool && h.answers == answers && h.states[|h.states| - 1].Keys == states.Keys
      invariant forall k :: |start| <= k < |pool| ==> fresh(pool[k])
    {
      assert commands[..i + 1] == commands[..i] + [commands[i]];
      var answer;
      pool, answer, h := ServeCommand(pool, h, commands[..i], commands[i], verifier);
      answers := answers + [answer];
    }
    assert commands[..|commands|] == commands;
  }
}
