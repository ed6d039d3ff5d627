/**
 Validation of node groups: unique group names, existing nodes, and at most one group per node.

 The last check remembers the name of a node's group and reads an empty name as "no group", so it
 says what it means only for groups with non-empty names. The contract is exact for all inputs.
 */
module NodeGroups {
  import opened Common

  datatype Group = Group(name: string, nodeIds: seq<string>)

  datatype Occurrence = Occurrence(nodeId: string, group: string)

  datatype Outcome =
    | Accepted
    | DuplicateName(name: string)
    | UnknownNode(occurrence: Occurrence)
    | MultipleGroups(occurrence: Occurrence, existing: string)

  function OccurrencesIn(g: Group): (r: seq<Occurrence>)
    ensures |r| == |g.nodeIds| && forall i :: 0 <= i < |r| ==> r[i] == Occurrence(g.nodeIds[i], g.name)
  {
    seq(|g.nodeIds|, i requires 0 <= i < |g.nodeIds| => Occurrence(g.nodeIds[i], g.name))
  }

  /** Every mention of a node by a group, in order. */
  function Occurrences(groups: seq<Group>): seq<Occurrence> {
    if groups == [] then [] else OccurrencesIn(groups[0]) + Occurrences(groups[1..])
  }

  lemma {:induction false} OccurrencesSplit(groups: seq<Group>, k: nat)
    requires k < |groups|
    ensures Occurrences(groups) == Occurrences(groups[..k]) + OccurrencesIn(groups[k]) + Occurrences(groups[k + 1..])
    ensures Occurrences(groups[..k + 1]) == Occurrences(groups[..k]) + OccurrencesIn(groups[k])
  {
    if k == 0 {
      assert groups[..1] == [groups[0]] && [groups[0]][1..] == [];
    } else {
      OccurrencesSplit(groups[1..], k - 1);
      var head, before := OccurrencesIn(groups[0]), Occurrences(groups[..k][1..]);
      assert groups[1..][..k - 1] == groups[..k][1..] && groups[1..][k..] == groups[k + 1..];
      assert groups[1..][..k] == groups[..k + 1][1..];
      Associate(head, before, OccurrencesIn(groups[k]), Occurrences(groups[k + 1..]));
    }
  }

  lemma Associate<T>(a: seq<T>, b: seq<T>, c: seq<T>, d: seq<T>)
    ensures a + (b + c) == a + b + c && a + (b + c + d) == a + b + c + d
  {
  }

  predicate DistinctNames(groups: seq<Group>) {
    forall i, j :: 0 <= i < j < |groups| ==> groups[i].name != groups[j].name
  }

  predicate AllExist(known: set<string>, occurrences: seq<Occurrence>) {
    forall i :: 0 <= i < |occurrences| ==> occurrences[i].nodeId in known
  }

  /** A node mentioned again was so far only in the group with the empty name. */
  predicate NoSecondGroup(occurrences: seq<Occurrence>) {
    forall i, j :: 0 <= i < j < |occurrences| && occurrences[i].nodeId == occurrences[j].nodeId ==>
      occurrences[i].group == ""
  }

  predicate MentionsOk(known: set<string>, occurrences: seq<Occurrence>) {
    AllExist(known, occurrences) && NoSecondGroup(occurrences)
  }

  predicate NoRepeats(occurrences: seq<Occurrence>) {
    forall i, j :: 0 <= i < j < |occurrences| ==> occurrences[i].nodeId != occurrences[j].nodeId
  }

  function KnownIds(nodes: seq<Option<string>>): set<string> {
    set i | 0 <= i < |nodes| && nodes[i].Some? && nodes[i].value != "" :: nodes[i].value
  }

  /** With non-empty names the check is what it is meant to be: no node is mentioned twice. */
  lemma NonEmptyNamesMeanNoRepeats(groups: seq<Group>)
    requires forall i :: 0 <= i < |groups| ==> groups[i].name != ""
    ensures NoneAgain(groups) <==> NoRepeats(Occurrences(groups))
  {
    OccurrencesHaveGroups(groups);
    NoSecondGroupMeansNoneAgain(groups);
  }

  lemma {:induction false} OccurrencesHaveGroups(groups: seq<Group>)
    requires forall i :: 0 <= i < |groups| ==> groups[i].name != ""
    ensures forall i :: 0 <= i < |Occurrences(groups)| ==> Occurrences(groups)[i].group != ""
  {
    if groups != [] { OccurrencesHaveGroups(groups[1..]); }
  }

  function NamesOf(groups: seq<Group>): set<string> {
    set i | 0 <= i < |groups| :: groups[i].name
  }

  // ---------- The same, mention by mention ----------

  /** The `i`-th node of the `g`-th group. */
  predicate IsMention(groups: seq<Group>, g: int, i: int) {
    0 <= g < |groups| && 0 <= i < |groups[g].nodeIds|
  }

  predicate Before(g: int, i: int, h: int, j: int) {
    g < h || (g == h && i < j)
  }

  /** Every mentioned id is the non-empty id of some node. */
  ghost predicate MentionsExist(nodes: seq<Option<string>>, groups: seq<Group>) {
    forall g, i :: IsMention(groups, g, i) ==> groups[g].nodeIds[i] != "" && Some(groups[g].nodeIds[i]) in nodes
  }

  /** No node is mentioned again after a mention in a group that has a name. */
  ghost predicate NoneAgain(groups: seq<Group>) {
    forall g, i, h, j :: IsMention(groups, g, i) && IsMention(groups, h, j) && Before(g, i, h, j) ==>
      groups[g].nodeIds[i] == groups[h].nodeIds[j] ==> groups[g].name == ""
  }

  function Position(groups: seq<Group>, g: int, i: int): nat
    requires IsMention(groups, g, i)
  {
    |Occurrences(groups[..g])| + i
  }

  lemma OccurrenceAt(groups: seq<Group>, g: int, i: int)
    requires IsMention(groups, g, i)
    ensures Position(groups, g, i) < |Occurrences(groups)|
    ensures Occurrences(groups)[Position(groups, g, i)] == Occurrence(groups[g].nodeIds[i], groups[g].name)
  {
    OccurrencesSplit(groups, g);
  }

  lemma {:induction false} Locate(groups: seq<Group>, k: nat) returns (g: nat, i: nat)
    requires k < |Occurrences(groups)|
    ensures IsMention(groups, g, i) && Position(groups, g, i) == k
    ensures Occurrences(groups)[k] == Occurrence(groups[g].nodeIds[i], groups[g].name)
  {
    var n := |OccurrencesIn(groups[0])|;
    if k < n {
      g, i := 0, k;
    } else {
      var rest;
      rest, i := Locate(groups[1..], k - n);
      g := rest + 1;
      assert groups[..g] == [groups[0]] + groups[1..][..rest];
      assert groups[..g][1..] == groups[1..][..rest];
    }
    OccurrenceAt(groups, g, i);
  }

  lemma {:induction false} PositionsGrow(groups: seq<Group>, g: nat, h: nat)
    requires g < h <= |groups|
    ensures |Occurrences(groups[..g])| + |groups[g].nodeIds| <= |Occurrences(groups[..h])|
    decreases h
  {
    OccurrencesSplit(groups, h - 1);
    if g < h - 1 { PositionsGrow(groups, g, h - 1); }
  }

  lemma PositionsInOrder(groups: seq<Group>, g: int, i: int, h: int, j: int)
    requires IsMention(groups, g, i) && IsMention(groups, h, j)
    ensures Position(groups, g, i) < Position(groups, h, j) <==> Before(g, i, h, j)
  {
    if g < h { PositionsGrow(groups, g, h); }
    if h < g { PositionsGrow(groups, h, g); }
  }

  lemma AllExistMeansMentionsExist(nodes: seq<Option<string>>, groups: seq<Group>)
    ensures AllExist(KnownIds(nodes), Occurrences(groups)) <==> MentionsExist(nodes, groups)
  {
    if AllExist(KnownIds(nodes), Occurrences(groups)) {
      forall g, i | IsMention(groups, g, i)
        ensures groups[g].nodeIds[i] != "" && Some(groups[g].nodeIds[i]) in nodes
      {
        OccurrenceAt(groups, g, i);
        assert Occurrences(groups)[Position(groups, g, i)].nodeId in KnownIds(nodes);
      }
    }
    if MentionsExist(nodes, groups) {
      forall k | 0 <= k < |Occurrences(groups)| ensures Occurrences(groups)[k].nodeId in KnownIds(nodes) {
        var g, i := Locate(groups, k);
        assert Some(groups[g].nodeIds[i]) in nodes;
      }
    }
  }

  lemma NoSecondGroupMeansNoneAgain(groups: seq<Group>)
    ensures NoSecondGroup(Occurrences(groups)) <==> NoneAgain(groups)
  {
    var all := Occurrences(groups);
    if NoSecondGroup(all) {
      forall g, i, h, j | IsMention(groups, g, i) && IsMention(groups, h, j) && Before(g, i, h, j)
          && groups[g].nodeIds[i] == groups[h].nodeIds[j]
        ensures groups[g].name == ""
      {
        OccurrenceAt(groups, g, i);
        OccurrenceAt(groups, h, j);
        PositionsInOrder(groups, g, i, h, j);
        assert all[Position(groups, g, i)].nodeId == all[Position(groups, h, j)].nodeId;
      }
    }
    if NoneAgain(groups) {
      forall k, l | 0 <= k < l < |all| && all[k].nodeId == all[l].nodeId ensures all[k].group == "" {
        var g, i := Locate(groups, k);
        var h, j := Locate(groups, l);
        PositionsInOrder(groups, g, i, h, j);
      }
    }
  }

  // ---------- The loops ----------

  /** The group recorded for each node is that of its last mention. */
  ghost predicate Recorded(nodeToGroup: map<string, string>, seen: seq<Occurrence>) {
    && (forall i :: 0 <= i < |seen| ==> seen[i].nodeId in nodeToGroup)
    && (forall id :: id in nodeToGroup ==> Occurrence(id, nodeToGroup[id]) in seen)
    && (forall id, i :: id in nodeToGroup && nodeToGroup[id] == "" && 0 <= i < |seen| && seen[i].nodeId == id ==>
          seen[i].group == "")
  }

  lemma RecordNext(nodeToGroup: map<string, string>, seen: seq<Occurrence>, o: Occurrence)
    requires Recorded(nodeToGroup, seen) && NoSecondGroup(seen)
    ensures (o.nodeId !in nodeToGroup || nodeToGroup[o.nodeId] == "") <==> NoSecondGroup(seen + [o])
    ensures NoSecondGroup(seen + [o]) ==> Recorded(nodeToGroup[o.nodeId := o.group], seen + [o])
  {
    var all := seen + [o];
    assert all[|seen|] == o;
    if o.nodeId in nodeToGroup && nodeToGroup[o.nodeId] != "" {
      var i :| 0 <= i < |seen| && seen[i] == Occurrence(o.nodeId, nodeToGroup[o.nodeId]);
      assert all[i].nodeId == all[|seen|].nodeId && all[i].group != "";
    } else {
      forall i, j | 0 <= i < j < |all| && all[i].nodeId == all[j].nodeId ensures all[i].group == "" {
        if j < |seen| { assert seen[i].nodeId == seen[j].nodeId; } else { assert seen[i].nodeId == o.nodeId; }
      }
      var next := nodeToGroup[o.nodeId := o.group];
      forall id | id in next ensures Occurrence(id, next[id]) in all {
        if id == o.nodeId { assert all[|seen|] == o; } else { assert Occurrence(id, nodeToGroup[id]) in seen; }
      }
    }
  }

  lemma PrefixRejects(known: set<string>, prefix: seq<Occurrence>, all: seq<Occurrence>)
    requires prefix <= all
    ensures MentionsOk(known, all) ==> MentionsOk(known, prefix)
  {
    if AllExist(known, all) {
      forall i | 0 <= i < |prefix| ensures prefix[i].nodeId in known { assert prefix[i] == all[i]; }
    }
    if NoSecondGroup(all) {
      forall i, j | 0 <= i < j < |prefix| && prefix[i].nodeId == prefix[j].nodeId ensures prefix[i].group == "" {
        assert prefix[i] == all[i] && prefix[j] == all[j];
      }
    }
  }

  /** Adds the mentions of one group, stopping at the first that is unknown or already in a named group. */
  method AddGroup(known: set<string>, group: Group, nodeToGroup: map<string, string>, ghost seen: seq<Occurrence>)
    returns (outcome: Outcome, next: map<string, string>)
    requires Recorded(nodeToGroup, seen) && MentionsOk(known, seen)
    ensures outcome.Accepted? <==> MentionsOk(known, seen + OccurrencesIn(group))
    ensures outcome.Accepted? ==> Recorded(next, seen + OccurrencesIn(group))
    ensures outcome.UnknownNode? ==> outcome.occurrence in OccurrencesIn(group) && outcome.occurrence.nodeId !in known
    ensures outcome.MultipleGroups? ==>
      outcome.occurrence in OccurrencesIn(group) && outcome.existing != ""
      && Occurrence(outcome.occurrence.nodeId, outcome.existing) in seen + OccurrencesIn(group)
    ensures !outcome.DuplicateName?
  {
    next := nodeToGroup;
    ghost var mentions := OccurrencesIn(group);
    var i := 0;
    assert seen + mentions[..0] == seen;
    while i < |group.nodeIds|
      invariant i <= |group.nodeIds|
      invariant Recorded(next, seen + mentions[..i])
      invariant MentionsOk(known, seen + mentions[..i])
    {
      var nodeId := group.nodeIds[i];
      assert mentions[i] == Occurrence(nodeId, group.name);
      assert seen + mentions[..i + 1] == seen + mentions[..i] + [mentions[i]];
      PrefixRejects(known, seen + mentions[..i + 1], seen + mentions);
      if nodeId !in known {
        assert (seen + mentions[..i + 1])[|seen| + i].nodeId !in known;
        return UnknownNode(Occurrence(nodeId, group.name)), next;
      }
      RecordNext(next, seen + mentions[..i], mentions[i]);
      if nodeId in next && next[nodeId] != "" {
        return MultipleGroups(Occurrence(nodeId, group.name), next[nodeId]), next;
      }
      next := next[nodeId := group.name];
      i := i + 1;
    }
    assert mentions[..i] == mentions;
    outcome := Accepted;
  }

  lemma NextName(groups: seq<Group>, k: nat)
    requires k < |groups| && DistinctNames(groups[..k])
    ensures groups[k].name in NamesOf(groups[..k]) ==>
        exists i, j :: 0 <= i < j < |groups| && groups[i].name == groups[j].name == groups[k].name
    ensures groups[k].name !in NamesOf(groups[..k]) ==>
        DistinctNames(groups[..k + 1]) && NamesOf(groups[..k + 1]) == NamesOf(groups[..k]) + {groups[k].name}
  {
    var before, after := groups[..k], groups[..k + 1];
    assert after[k] == groups[k] && forall i :: 0 <= i < k ==> after[i] == before[i] == groups[i];
    if groups[k].name in NamesOf(before) {
      var i :| 0 <= i < k && before[i].name == groups[k].name;
      assert groups[i].name == groups[k].name;
    }
  }

  lemma MentionedSoFar(groups: seq<Group>, k: nat, o: Occurrence)
    requires k < |groups| && o in Occurrences(groups[..k]) + OccurrencesIn(groups[k])
    ensures o in Occurrences(groups)
  {
    OccurrencesSplit(groups, k);
  }

  lemma GroupRejects(known: set<string>, groups: seq<Group>, k: nat)
    requires k < |groups|
    ensures Occurrences(groups[..k + 1]) == Occurrences(groups[..k]) + OccurrencesIn(groups[k])
    ensures MentionsOk(known, Occurrences(groups)) ==> MentionsOk(known, Occurrences(groups[..k + 1]))
  {
    OccurrencesSplit(groups, k);
    PrefixRejects(known, Occurrences(groups[..k + 1]), Occurrences(groups));
  }

  /** The loop over the groups, and what each outcome is about. */
  method CheckGroups(known: set<string>, groups: seq<Group>) returns (outcome: Outcome)
    ensures outcome.Accepted? <==> DistinctNames(groups) && MentionsOk(known, Occurrences(groups))
    ensures outcome.DuplicateName? ==>
      exists i, j :: 0 <= i < j < |groups| && groups[i].name == groups[j].name == outcome.name
    ensures outcome.UnknownNode? ==>
      outcome.occurrence in Occurrences(groups) && outcome.occurrence.nodeId !in known
    ensures outcome.MultipleGroups? ==>
      outcome.occurrence in Occurrences(groups) && outcome.existing != ""
      && Occurrence(outcome.occurrence.nodeId, outcome.existing) in Occurrences(groups)
  {
    var seenNames: set<string> := {};
    var nodeToGroup: map<string, string> := map[];
    var k := 0;
    while k < |groups|
      invariant k <= |groups|
      invariant seenNames == NamesOf(groups[..k]) && DistinctNames(groups[..k])
      invariant Recorded(nodeToGroup, Occurrences(groups[..k])) && MentionsOk(known, Occurrences(groups[..k]))
    {
      var group := groups[k];
      NextName(groups, k);
      if group.name in seenNames {
        return DuplicateName(group.name);
      }
      seenNames := seenNames + {group.name};
      GroupRejects(known, groups, k);
      outcome, nodeToGroup := AddGroup(known, group, nodeToGroup, Occurrences(groups[..k]));
      if !outcome.Accepted? {
        MentionedSoFar(groups, k, outcome.occurrence);
        if outcome.MultipleGroups? {
          MentionedSoFar(groups, k, Occurrence(outcome.occurrence.nodeId, outcome.existing));
        }
        return;
      }
      k := k + 1;
    }
    assert groups[..k] == groups;
    outcome := Accepted;
  }

  /**
   Accepts exactly if the group names are distinct, every mentioned node exists, and no node is
   mentioned again after a mention in a group with a non-empty name.
   */
  method ValidateWorkflowNodeGroups(nodes: seq<Option<string>>, groups: seq<Group>) returns (outcome: Outcome)
    ensures outcome.Accepted? <==> DistinctNames(groups) && MentionsExist(nodes, groups) && NoneAgain(groups)
    ensures outcome.DuplicateName? ==>
      exists i, j :: 0 <= i < j < |groups| && groups[i].name == groups[j].name == outcome.name
    ensures outcome.UnknownNode? ==>
      outcome.occurrence in Occurrences(groups)
      && (outcome.occurrence.nodeId == "" || Some(outcome.occurrence.nodeId) !in nodes)
    ensures outcome.MultipleGroups? ==>
      outcome.occurrence in Occurrences(groups) && outcome.existing != ""
      && Occurrence(outcome.occurrence.nodeId, outcome.existing) in Occurrences(groups)
  {
    AllExistMeansMentionsExist(nodes, groups);
    NoSecondGroupMeansNoneAgain(groups);
    if |groups| == 0 {
      return Accepted;
    }
    outcome := CheckGroups(KnownIds(nodes), groups);
  }
}
