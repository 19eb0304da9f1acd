/** The non-interference checker: label sets and an arbitrary flow table. */
module Ifc {
  import opened Entities
  import opened Gate

  type FlowTable = map<string, seq<string>>

  /** The standard table: PUBLIC below INTERNAL below SECRET, and "" below all. */
  const DEFAULT: FlowTable := map[
    "" := ["", "PUBLIC", "INTERNAL", "SECRET"],
    "PUBLIC" := ["PUBLIC", "INTERNAL", "SECRET"],
    "INTERNAL" := ["INTERNAL", "SECRET"],
    "SECRET" := ["SECRET"]]

  /** A label without an entry flows to itself only. */
  predicate CanFlow(table: FlowTable, source: string, sink: string) {
    if source in table then sink in table[source] else sink == source
  }

  datatype IfcViolation = IfcViolation(actionId: string, source: string, sink: string)

  // ----- Specification

  function LabelSet(resources: seq<Resource>): set<string> { set r | r in resources :: r.ifcLabel }

  function LabelsUpTo(actions: seq<Action>): set<string> {
    if actions == [] then {}
    else LabelsUpTo(actions[..|actions| - 1]) + LabelSet(actions[|actions| - 1].resourcesRead)
  }

  /** Every label in `read` can flow to every label written by the action. */
  ghost predicate WritesAllowed(table: FlowTable, read: set<string>, a: Action) {
    forall l, w :: l in read && w in a.resourcesWrite ==> CanFlow(table, l, w.ifcLabel)
  }

  /** Every label read at or before step `j` can flow to every label written there. */
  ghost predicate StepSecure(table: FlowTable, actions: seq<Action>, j: nat)
    requires j < |actions|
  {
    forall i, r, w :: 0 <= i <= j && r in actions[i].resourcesRead && w in actions[j].resourcesWrite
      ==> CanFlow(table, r.ifcLabel, w.ifcLabel)
  }

  lemma {:induction false} LabelsUpToMember(actions: seq<Action>, l: string)
    ensures l in LabelsUpTo(actions) <==>
            exists i, r :: 0 <= i < |actions| && r in actions[i].resourcesRead && r.ifcLabel == l
  {
    if actions != [] {
      var n := |actions| - 1;
      LabelsUpToMember(actions[..n], l);
      if l in LabelsUpTo(actions[..n]) {
        var i, r :| 0 <= i < n && r in actions[..n][i].resourcesRead && r.ifcLabel == l;
        assert r in actions[i].resourcesRead;
      }
      forall i, r | 0 <= i < n && r in actions[i].resourcesRead && r.ifcLabel == l
        ensures l in LabelsUpTo(actions[..n])
      {
        assert r in actions[..n][i].resourcesRead;
      }
    }
  }

  /** The accumulated set decides the pairwise rule. */
  lemma {:induction false} SetDecides(table: FlowTable, actions: seq<Action>, j: nat)
    requires j < |actions|
    ensures StepSecure(table, actions, j) <==> WritesAllowed(table, LabelsUpTo(actions[..j + 1]), actions[j])
  {
    var prefix := actions[..j + 1];
    forall l, w | l in LabelsUpTo(prefix) && w in actions[j].resourcesWrite && StepSecure(table, actions, j)
      ensures CanFlow(table, l, w.ifcLabel)
    {
      LabelsUpToMember(prefix, l);
      var i, r :| 0 <= i < |prefix| && r in prefix[i].resourcesRead && r.ifcLabel == l;
      assert r in actions[i].resourcesRead;
    }
    forall i, r, w | 0 <= i <= j && r in actions[i].resourcesRead && w in actions[j].resourcesWrite
        && WritesAllowed(table, LabelsUpTo(prefix), actions[j])
      ensures CanFlow(table, r.ifcLabel, w.ifcLabel)
    {
      assert r in prefix[i].resourcesRead;
      LabelsUpToMember(prefix, r.ifcLabel);
    }
  }

  // ----- The checker

  /** The set of labels that a plan check passes from action to action. */
  class ReadLabels {
    var labels: set<string>

    constructor ()
      ensures labels == {}
    {
      labels := {};
    }
  }

  class NonInterferenceChecker {
    const table: FlowTable

    constructor (table: FlowTable := DEFAULT)
      ensures this.table == table
    {
      this.table := table;
    }

    /** Adds the labels of the action's reads to `read`, whether or not it raises;
        raises exactly when some label in the updated set cannot flow to some write. */
    method CheckAction(a: Action, read: ReadLabels) returns (raised: Option<IfcViolation>)
      modifies read
      ensures read.labels == old(read.labels) + LabelSet(a.resourcesRead)
      ensures raised.None? <==> WritesAllowed(table, read.labels, a)
      ensures raised.Some? ==>
                && raised.value.actionId == a.actionId
                && raised.value.source in read.labels
                && (exists w :: w in a.resourcesWrite && w.ifcLabel == raised.value.sink)
                && !CanFlow(table, raised.value.source, raised.value.sink)
    {
      for i := 0 to |a.resourcesRead|
        invariant read.labels == old(read.labels) + LabelSet(a.resourcesRead[..i])
      {
        read.labels := read.labels + {a.resourcesRead[i].ifcLabel};
      }
      assert a.resourcesRead[..|a.resourcesRead|] == a.resourcesRead;
      for i := 0 to |a.resourcesWrite|
        invariant forall l, k :: l in read.labels && 0 <= k < i ==> CanFlow(table, l, a.resourcesWrite[k].ifcLabel)
      {
        var sink := a.resourcesWrite[i].ifcLabel;
        var rest := read.labels;
        while rest != {}
          invariant rest <= read.labels
          invariant forall l :: l in read.labels - rest ==> CanFlow(table, l, sink)
          decreases rest
        {
          var source :| source in rest;
          if !CanFlow(table, source, sink) {
            return Some(IfcViolation(a.actionId, source, sink));
          }
          rest := rest - {source};
        }
      }
      return None;
    }

    /** Raises nothing exactly when every step is secure; otherwise the violation is
        one of the first insecure step, between a label read by then and a write there. */
    method CheckPlan(actions: seq<Action>) returns (raised: Option<IfcViolation>, ghost at: nat)
      ensures raised.None? <==> forall j :: 0 <= j < |actions| ==> StepSecure(table, actions, j)
      ensures raised.Some? ==>
                && at < |actions| && !StepSecure(table, actions, at)
                && (forall j :: 0 <= j < at ==> StepSecure(table, actions, j))
                && raised.value.actionId == actions[at].actionId
                && raised.value.source in LabelsUpTo(actions[..at + 1])
                && raised.value.sink in LabelSet(actions[at].resourcesWrite)
                && !CanFlow(table, raised.value.source, raised.value.sink)
    {
      var read := new ReadLabels();
      at := 0;
      for i := 0 to |actions|
        invariant fresh(read) && read.labels == LabelsUpTo(actions[..i])
        invariant forall j :: 0 <= j < i ==> StepSecure(table, actions, j)
      {
        assert actions[..i + 1][..i] == actions[..i];
        SetDecides(table, actions, i);
        raised := CheckAction(actions[i], read);
        if raised.Some? {
          at := i;
          return;
        }
      }
      raised := None;
    }
  }
}
