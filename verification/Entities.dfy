/** Typed entities, resources and rights claims.  Every predicate that the
    system evaluates against the wall clock takes the clock reading `now`. */
module Entities {
  datatype Option<+T> = None | Some(value: T)

  datatype AgentType = Human | Machine

  datatype Entity = Entity(name: string, kind: AgentType) {
    predicate IsHuman() { kind == Human }
    predicate IsMachine() { kind == Machine }
  }

  datatype ResourceType =
    | File | ApiEndpoint | DatabaseTable | NetworkEndpoint | ComputeSlot
    | MessageChannel | Credential | ModelWeights | Dataset | MemoryRegion

  /** The part of a resource that takes part in equality: the label does not. */
  datatype ResourceKey = ResourceKey(name: string, rtype: ResourceType, scope: string, isPublic: bool)

  datatype Resource = Resource(name: string, rtype: ResourceType, scope: string, isPublic: bool, ifcLabel: string) {
    function Key(): ResourceKey { ResourceKey(name, rtype, scope, isPublic) }
  }

  datatype Operation = Read | Write | Delegate

  datatype RightsClaim = RightsClaim(
    holder: Entity,
    resource: Resource,
    canRead: bool,
    canWrite: bool,
    canDelegate: bool,
    confidence: real,
    expiresAt: Option<real>)
  {
    predicate IsExpired(now: real) { expiresAt.Some? && now > expiresAt.value }

    predicate IsValid(now: real) { !IsExpired(now) && confidence > 0.0 }

    predicate Grants(op: Operation) {
      match op
      case Read => canRead
      case Write => canWrite
      case Delegate => canDelegate
    }

    predicate Covers(op: Operation, now: real) { IsValid(now) && Grants(op) }
  }

  /** The string value of a resource type, as it travels on the wire. */
  function TypeName(t: ResourceType): string {
    match t
    case File => "file"
    case ApiEndpoint => "api_endpoint"
    case DatabaseTable => "database_table"
    case NetworkEndpoint => "network_endpoint"
    case ComputeSlot => "compute_slot"
    case MessageChannel => "message_channel"
    case Credential => "credential"
    case ModelWeights => "model_weights"
    case Dataset => "dataset"
    case MemoryRegion => "memory_region"
  }

  /** The ten wire names. */
  lemma {:induction false} TypeNames()
    ensures TypeName(File) == "file" && TypeName(ApiEndpoint) == "api_endpoint" && TypeName(DatabaseTable) == "database_table"
    ensures TypeName(NetworkEndpoint) == "network_endpoint" && TypeName(ComputeSlot) == "compute_slot"
    ensures TypeName(MessageChannel) == "message_channel" && TypeName(Credential) == "credential"
    ensures TypeName(ModelWeights) == "model_weights" && TypeName(Dataset) == "dataset" && TypeName(MemoryRegion) == "memory_region"
  {
  }

  /** Two resource types with the same wire name are the same type. */
  lemma {:induction false} TypeNameInjective(t: ResourceType, u: ResourceType)
    ensures TypeName(t) == TypeName(u) <==> t == u
  {
  }

  /** The first index with the greatest confidence among the claims that satisfy
      `p`: Python's max over a filtered list, and the strict `>` fold in Rust. */
  function BestWhere(claims: seq<RightsClaim>, p: RightsClaim -> bool): (best: Option<nat>)
    ensures best.None? ==> forall i :: 0 <= i < |claims| ==> !p(claims[i])
    ensures best.Some? ==> IsFirstGreatest(claims, p, best.value)
  {
    if claims == [] then None
    else
      var n := |claims| - 1;
      var prior := BestWhere(claims[..n], p);
      if p(claims[n]) && (prior.None? || claims[n].confidence > claims[prior.value].confidence)
      then Some(n) else prior
  }

  ghost predicate IsFirstGreatest(claims: seq<RightsClaim>, p: RightsClaim -> bool, k: nat) {
    && k < |claims| && p(claims[k])
    && (forall i :: 0 <= i < |claims| && p(claims[i]) ==> claims[i].confidence <= claims[k].confidence)
    && (forall i :: 0 <= i < k && p(claims[i]) ==> claims[i].confidence < claims[k].confidence)
  }

  /** The choice is unique: whoever is first and greatest is the one selected. */
  lemma {:induction false} BestWhereUnique(claims: seq<RightsClaim>, p: RightsClaim -> bool, k: nat)
    requires IsFirstGreatest(claims, p, k)
    ensures BestWhere(claims, p) == Some(k)
  {
  }
}
