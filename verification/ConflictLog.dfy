/** What the conflict log records, over every run of the registry. */
module ConflictLog {
  import opened Entities
  import opened Sequences
  import opened Registry

  /** The clock reading at which each claim of `Run(EMPTY, events)` entered the list. */
  function ArrivalTimes(events: seq<Event>): seq<real> {
    if events == [] then []
    else
      var init, e := events[..|events| - 1], events[|events| - 1];
      match e.request
      case AddClaim(_) => ArrivalTimes(init) + [e.now]
      case RegisterMachine(_, _) => ArrivalTimes(init)
      case DelegateClaim(claim, grantor) =>
        if DelegateOutcome(Run(EMPTY, init).claims, claim, grantor, e.now).Done?
        then ArrivalTimes(init) + [e.now]
        else ArrivalTimes(init)
  }

  /** Claim `i` was a live write claim of another holder on the resource of claim
      `j` when `j` arrived. */
  predicate Clash(claims: seq<RightsClaim>, times: seq<real>, i: nat, j: nat) {
    i < j < |claims| && j < |times| && Contends(claims[i], claims[j], times[j])
  }

  /** The record of claim `j` names its first opponent `i`, then its own holder. */
  ghost predicate Names(r: Conflict, claims: seq<RightsClaim>, times: seq<real>, i: nat, j: nat) {
    && Clash(claims, times, i, j)
    && (forall k: nat :: k < i ==> !Clash(claims, times, k, j))
    && r == Conflict(claims[j].resource, claims[i].holder, claims[j].holder)
  }

  ghost predicate Records(r: Conflict, claims: seq<RightsClaim>, times: seq<real>, j: nat) {
    exists i :: Names(r, claims, times, i, j)
  }

  /** `log` holds one record for each index in `at`, and `at` lists exactly the
      claims that found an opponent, in order. */
  ghost predicate ExactLog(log: seq<Conflict>, at: seq<nat>, claims: seq<RightsClaim>, times: seq<real>) {
    && |log| == |at|
    && (forall k :: 0 <= k < |at| ==> at[k] < |claims| && Records(log[k], claims, times, at[k]))
    && (forall k, l :: 0 <= k < l < |at| ==> at[k] < at[l])
    && (forall i: nat, j: nat :: Clash(claims, times, i, j) ==> j in at)
  }

  function CollidingAt(claims: seq<RightsClaim>, times: seq<real>): seq<nat>
    requires |claims| == |times|
  {
    if claims == [] then []
    else
      var n := |claims| - 1;
      if FirstIndex(claims[..n], c => Contends(c, claims[n], times[n])).Some?
      then CollidingAt(claims[..n], times[..n]) + [n] else CollidingAt(claims[..n], times[..n])
  }

  lemma {:induction false} ClashStable(claims: seq<RightsClaim>, times: seq<real>, c: RightsClaim, t: real)
    requires |claims| == |times|
    ensures forall i: nat, j: nat :: j < |claims| ==>
              (Clash(claims + [c], times + [t], i, j) <==> Clash(claims, times, i, j))
    ensures forall i: nat :: Clash(claims + [c], times + [t], i, |claims|) <==>
              i < |claims| && Contends(claims[i], c, t)
  {
  }

  lemma {:induction false} RecordsStable(r: Conflict, claims: seq<RightsClaim>, times: seq<real>, c: RightsClaim, t: real, j: nat)
    requires |claims| == |times| && Records(r, claims, times, j)
    ensures Records(r, claims + [c], times + [t], j)
  {
    ClashStable(claims, times, c, t);
    var i :| Names(r, claims, times, i, j);
    assert Names(r, claims + [c], times + [t], i, j);
  }

  /** What `DetectConflict` reports for an arriving claim is its record. */
  lemma {:induction false} DetectConflictRecords(claims: seq<RightsClaim>, times: seq<real>, c: RightsClaim, t: real)
    requires |claims| == |times|
    ensures var hit := DetectConflict(claims, c, t);
      && (hit.Some? ==> Records(hit.value, claims + [c], times + [t], |claims|))
      && (hit.None? ==> forall i: nat :: !Clash(claims + [c], times + [t], i, |claims|))
  {
    ClashStable(claims, times, c, t);
    var p := d => Contends(d, c, t);
    var first := FirstIndex(claims, p);
    if first.Some? {
      assert Names(DetectConflict(claims, c, t).value, claims + [c], times + [t], first.value, |claims|);
    } else {
      forall i: nat | i < |claims| ensures !Contends(claims[i], c, t) {
        assert claims[i] in claims && !p(claims[i]);
      }
    }
  }

  /** An arrival without opponents leaves an exact log exact. */
  lemma {:induction false} QuietStep(log: seq<Conflict>, at: seq<nat>, claims: seq<RightsClaim>, times: seq<real>, c: RightsClaim, t: real)
    requires |claims| == |times| && ExactLog(log, at, claims, times)
    requires forall i: nat :: !Clash(claims + [c], times + [t], i, |claims|)
    ensures ExactLog(log, at, claims + [c], times + [t])
  {
    ClashStable(claims, times, c, t);
    forall k | 0 <= k < |at| ensures Records(log[k], claims + [c], times + [t], at[k]) {
      RecordsStable(log[k], claims, times, c, t, at[k]);
    }
  }

  /** An arrival with opponents needs its own record, and only that. */
  lemma {:induction false} ClashStep(log: seq<Conflict>, at: seq<nat>, claims: seq<RightsClaim>, times: seq<real>, c: RightsClaim, t: real, r: Conflict)
    requires |claims| == |times| && ExactLog(log, at, claims, times)
    requires Records(r, claims + [c], times + [t], |claims|)
    ensures ExactLog(log + [r], at + [|claims|], claims + [c], times + [t])
  {
    var log', at' := log + [r], at + [|claims|];
    ClashStable(claims, times, c, t);
    forall k | 0 <= k < |at'| ensures at'[k] <= |claims| && Records(log'[k], claims + [c], times + [t], at'[k]) {
      if k < |at| {
        RecordsStable(log[k], claims, times, c, t, at[k]);
      }
    }
    forall i: nat, j: nat | Clash(claims + [c], times + [t], i, j) ensures j in at' {
      if j < |claims| {
        assert Clash(claims, times, i, j);
      } else {
        assert at'[|at|] == j;
      }
    }
  }

  ghost predicate LogExact(s: State, times: seq<real>) {
    |times| == |s.claims| && ExactLog(s.conflicts, CollidingAt(s.claims, times), s.claims, times)
  }

  lemma {:induction false} AppendKeepsLogExact(s: State, times: seq<real>, claim: RightsClaim, now: real)
    requires LogExact(s, times)
    ensures LogExact(Append(s, claim, now), times + [now])
  {
    var hit, at := DetectConflict(s.claims, claim, now), CollidingAt(s.claims, times);
    DetectConflictRecords(s.claims, times, claim, now);
    assert (s.claims + [claim])[..|s.claims|] == s.claims && (times + [now])[..|times|] == times;
    if hit.Some? {
      ClashStep(s.conflicts, at, s.claims, times, claim, now, hit.value);
      assert CollidingAt(s.claims + [claim], times + [now]) == at + [|s.claims|];
    } else {
      QuietStep(s.conflicts, at, s.claims, times, claim, now);
      assert CollidingAt(s.claims + [claim], times + [now]) == at;
    }
  }

  /** Main theorem: after any run the log has one record for each claim that found
      a live opponent on arrival, in arrival order, and no other record. */
  lemma {:induction false} ConflictLogExact(events: seq<Event>)
    ensures LogExact(Run(EMPTY, events), ArrivalTimes(events))
  {
    if events != [] {
      var init, e := events[..|events| - 1], events[|events| - 1];
      ConflictLogExact(init);
      RunOnlyAppends(EMPTY, init);
      var s, times := Run(EMPTY, init), ArrivalTimes(init);
      match e.request
      case RegisterMachine(_, _) =>
      case AddClaim(claim) => AppendKeepsLogExact(s, times, claim, e.now);
      case DelegateClaim(claim, _) => AppendKeepsLogExact(s, times, claim, e.now);
    }
  }

  ghost predicate HasOpenConflict(s: State, key: ResourceKey) {
    exists r :: r in s.conflicts && r.resource.Key() == key
  }

  /** A resource has an open conflict exactly when two of its claims clashed at
      the later one's arrival. */
  lemma {:induction false} OpenConflictIffClash(events: seq<Event>, key: ResourceKey)
    ensures |ArrivalTimes(events)| == |Run(EMPTY, events).claims|
    ensures HasOpenConflict(Run(EMPTY, events), key) <==>
            exists i: nat, j: nat ::
              && Clash(Run(EMPTY, events).claims, ArrivalTimes(events), i, j)
              && Run(EMPTY, events).claims[j].resource.Key() == key
  {
    ConflictLogExact(events);
    hide Run, ArrivalTimes, CollidingAt, Contends;
    var claims, times, log := Run(EMPTY, events).claims, ArrivalTimes(events), Run(EMPTY, events).conflicts;
    var at := CollidingAt(claims, times);
    if HasOpenConflict(Run(EMPTY, events), key) {
      var r :| r in log && r.resource.Key() == key;
      var k :| 0 <= k < |log| && log[k] == r;
      var i :| Names(log[k], claims, times, i, at[k]);
      assert Clash(claims, times, i, at[k]);
    }
    forall i: nat, j: nat | Clash(claims, times, i, j) && claims[j].resource.Key() == key
      ensures HasOpenConflict(Run(EMPTY, events), key)
    {
      var k :| 0 <= k < |at| && at[k] == j;
      assert log[k] in log;
    }
  }

  /** `c` and `d` are write claims of different holders on `key`. */
  predicate Rivals(c: RightsClaim, d: RightsClaim, key: ResourceKey) {
    c.holder != d.holder && c.canWrite && d.canWrite && c.resource.Key() == key && d.resource.Key() == key
  }

  /** Two rivals have been logged as soon as the earlier one was still live when
      the later one arrived. */
  lemma {:induction false} RivalsLogged(events: seq<Event>, i: nat, j: nat, key: ResourceKey)
    requires i < |Run(EMPTY, events).claims| && j < |Run(EMPTY, events).claims| == |ArrivalTimes(events)|
    requires Rivals(Run(EMPTY, events).claims[i], Run(EMPTY, events).claims[j], key)
    requires Run(EMPTY, events).claims[i].IsValid(ArrivalTimes(events)[j])
    requires Run(EMPTY, events).claims[j].IsValid(ArrivalTimes(events)[i])
    ensures HasOpenConflict(Run(EMPTY, events), key)
  {
    OpenConflictIffClash(events, key);
    var claims, times := Run(EMPTY, events).claims, ArrivalTimes(events);
    assert Clash(claims, times, i, j) || Clash(claims, times, j, i);
  }

  /** Without expiries and with positive confidences, a resource has an open
      conflict exactly when it has two distinct write holders. */
  lemma {:induction false} ConflictIffTwoWriters(events: seq<Event>, key: ResourceKey)
    requires forall c :: c in Run(EMPTY, events).claims ==> c.expiresAt.None? && c.confidence > 0.0
    ensures HasOpenConflict(Run(EMPTY, events), key) <==>
            exists i: nat, j: nat ::
              && i < |Run(EMPTY, events).claims| && j < |Run(EMPTY, events).claims|
              && Rivals(Run(EMPTY, events).claims[i], Run(EMPTY, events).claims[j], key)
  {
    OpenConflictIffClash(events, key);
    var claims, times := Run(EMPTY, events).claims, ArrivalTimes(events);
    if HasOpenConflict(Run(EMPTY, events), key) {
      var i: nat, j: nat :| Clash(claims, times, i, j) && claims[j].resource.Key() == key;
      assert Rivals(claims[i], claims[j], key);
    }
    forall i: nat, j: nat | i < |claims| && j < |claims| && Rivals(claims[i], claims[j], key)
      ensures HasOpenConflict(Run(EMPTY, events), key)
    {
      assert claims[i] in claims && claims[j] in claims;
      RivalsLogged(events, i, j, key);
    }
  }

  lemma {:induction false} ArrivalsNoLaterThan(events: seq<Event>, now: real)
    requires forall e :: e in events ==> e.now <= now
    ensures forall k :: 0 <= k < |ArrivalTimes(events)| ==> ArrivalTimes(events)[k] <= now
  {
    if events != [] {
      var init, e := events[..|events| - 1], events[|events| - 1];
      assert e in events && forall d :: d in init ==> d in events;
      ArrivalsNoLaterThan(init, now);
    }
  }

  /** Two rivals that are both live now have already been logged, provided the
      clock has not run backwards. */
  lemma {:induction false} LiveRivalsAreLogged(events: seq<Event>, now: real, i: nat, j: nat, key: ResourceKey)
    requires forall e :: e in events ==> e.now <= now
    requires i < |Run(EMPTY, events).claims| && j < |Run(EMPTY, events).claims|
    requires Rivals(Run(EMPTY, events).claims[i], Run(EMPTY, events).claims[j], key)
    requires Run(EMPTY, events).claims[i].IsValid(now) && Run(EMPTY, events).claims[j].IsValid(now)
    ensures HasOpenConflict(Run(EMPTY, events), key)
  {
    OpenConflictIffClash(events, key);
    ArrivalsNoLaterThan(events, now);
    RivalsLogged(events, i, j, key);
  }

  /** Expiry is what separates the two readings: a writer that had expired when the
      second writer arrived leaves two write holders and an empty log. */
  lemma {:induction false} ExpiredWriterLeavesNoConflict(alice: Entity, bob: Entity, resource: Resource)
    requires alice != bob
    ensures var first := RightsClaim(alice, resource, true, true, false, 1.0, Some(1.0));
      var second := RightsClaim(bob, resource, true, true, false, 1.0, None);
      var s := Run(EMPTY, [Event(AddClaim(first), 0.0), Event(AddClaim(second), 2.0)]);
      s.claims == [first, second] && Rivals(first, second, resource.Key()) && s.conflicts == []
  {
    var first := RightsClaim(alice, resource, true, true, false, 1.0, Some(1.0));
    var second := RightsClaim(bob, resource, true, true, false, 1.0, None);
    var e, f := Event(AddClaim(first), 0.0), Event(AddClaim(second), 2.0);
    assert [e][..0] == [] && [e, f][..1] == [e];
    assert Run(EMPTY, [e]) == State([first], map[], [], false);
    var p := c => Contends(c, second, 2.0);
    assert FirstIndex([first], p).None?;
  }
}
