/**
  The groups of banks are state values, and a client writes them like any other value. The policy for
  such writes sees only the entries and the groups of one instance; the handler also stages the peers of
  the banks. Together they keep every instance from having two banks in one group.
 */
module GroupWrites {
  import opened Common
  import opened StateValues
  import opened Topology
  import opened BankGrouping
  import opened WiredPeers
  import E = StateEdits
  import G = GroupEdits

  /** The value that holds the group of a bank. */
  type Holders = map<BankAddress, StateValue>

  /** The bank whose group a value holds. */
  type Held = map<StateValue, BankAddress>

  ghost predicate HoldGroups(values: E.Snapshot, holders: Holders, held: Held) {
    && (forall b :: b in holders ==> holders[b] in held && held[holders[b]] == b)
    && (forall v :: v in held ==> held[v] in holders && holders[held[v]] == v)
    && (forall b :: b in holders ==> holders[b] in values && values[holders[b]].GroupOf?)
  }

  /** The groups that the values show. */
  function Shown(values: E.Snapshot, holders: Holders): (groups: Groups)
    requires forall b :: b in holders ==> holders[b] in values && values[holders[b]].GroupOf?
    ensures groups.Keys == holders.Keys
  {
    map b | b in holders :: values[holders[b]].group
  }

  /** A bank without a group is edited alone, a bank in a group at most together with banks of its group. */
  ghost predicate PeersShareTheGroup(values: E.Snapshot, peers: E.Peers, held: Held) {
    forall v, p :: v in peers && p in peers[v] && p in held ==>
      && v in held && v in values && p in values
      && (p == v || (values[v] != GroupOf(None) && values[p] == values[v]))
  }

  /** The entries as the policy sees them. */
  function GroupEntries(tree: E.Tree, held: Held, entries: seq<E.WriteEntry>): (r: seq<GroupEntry>)
    ensures forall i :: 0 <= i < |r| ==> r[i].bank in held.Values
    decreases |entries|
  {
    if entries == [] then []
    else
      var rest := GroupEntries(tree, held, entries[1..]);
      var e := entries[0];
      if E.IsLeaf(tree, e) && tree[e.path].value in held && e.value.GroupOf?
      then [GroupEntry(held[tree[e.path].value], e.value.group)] + rest
      else rest
  }

  lemma {:induction false} EntryIsSeen(tree: E.Tree, held: Held, entries: seq<E.WriteEntry>, k: nat)
    requires k < |entries| && E.IsLeaf(tree, entries[k]) && tree[entries[k].path].value in held
    requires entries[k].value.GroupOf?
    ensures GroupEntry(held[tree[entries[k].path].value], entries[k].value.group) in GroupEntries(tree, held, entries)
    decreases |entries|
  {
    if k > 0 {
      EntryIsSeen(tree, held, entries[1..], k - 1);
    }
  }

  /** An entry gives a group to its own bank, or to another one in the same group. */
  predicate Gives(groups: Groups, g: GroupEntry, b: BankAddress, group: Option<GroupId>) {
    && g.bank in groups && b in groups && group == g.group
    && (b == g.bank || (groups[g.bank].Some? && groups[b] == groups[g.bank]))
  }

  ghost predicate IsGiven(groups: Groups, entries: seq<GroupEntry>, b: BankAddress, group: Option<GroupId>) {
    exists g :: g in entries && Gives(groups, g, b, group)
  }

  /** If the policy allows the entries, what they give to banks and their peers keeps the groups proper. */
  lemma GivenKeepsProper(groups: Groups, after: Groups, entries: seq<GroupEntry>)
    requires Proper(groups) && AreKnown(groups, entries) && Allowed(groups, entries) && after.Keys == groups.Keys
    requires forall b :: b in groups && after[b] != groups[b] ==> IsGiven(groups, entries, b, after[b])
    ensures Proper(after)
  {
    forall g | g in entries ensures EntryAllowed(groups, entries, g) {
      var i :| 0 <= i < |entries| && entries[i] == g;
    }
    forall b, c | b in after && c in after && after[b].Some? && after[b] == after[c] && b.instanceId == c.instanceId
      ensures b == c
    {
      if after[b] != groups[b] {
        var g :| g in entries && Gives(groups, g, b, after[b]);
        assert g.bank == b;
      }
      if after[c] != groups[c] {
        var g :| g in entries && Gives(groups, g, c, after[c]);
        assert g.bank == c;
      }
    }
  }

  /** A group that the `k`-th entry reaches is given by an entry that the policy has seen. */
  lemma EntryGives(values: E.Snapshot, tree: E.Tree, peers: E.Peers, entries: seq<E.WriteEntry>,
                   holders: Holders, held: Held, k: nat, b: BankAddress)
    requires E.Wired(values, tree, peers) && E.WellTyped(tree, entries)
    requires HoldGroups(values, holders, held) && PeersShareTheGroup(values, peers, held) && b in holders
    requires var writes := E.Writes(tree, peers, entries);
      k < |writes| && holders[b] in writes[k].peers && writes[k].source in values
    ensures var given := G.Target(values, E.Writes(tree, peers, entries)[k], holders[b]);
      given.GroupOf? && IsGiven(Shown(values, holders), GroupEntries(tree, held, entries), b, given.group)
  {
    WritesAt(tree, peers, entries);
    var v := tree[entries[k].path].value;
    assert holders[b] in peers[v];
    EntryIsSeen(tree, held, entries, k);
    assert Gives(Shown(values, holders), GroupEntry(held[v], entries[k].value.group), b, entries[k].value.group);
  }

  /** A group that a command changes is the one that an entry for the bank or for a peer of it gives. */
  lemma ChangesAreGiven(values: E.Snapshot, ranges: G.Ranges<StateValue>, tree: E.Tree, peers: E.Peers,
                        derived: seq<(StateValue, Value)>, entries: seq<E.WriteEntry>, changes: E.Snapshot,
                        holders: Holders, held: Held, b: BankAddress)
    requires E.Wired(values, tree, peers) && E.WellTyped(tree, entries)
    requires HoldGroups(values, holders, held) && PeersShareTheGroup(values, peers, held)
    requires forall i :: 0 <= i < |derived| ==> derived[i].0 !in held
    requires b in holders && holders[b] in changes
    requires var staged := E.Direct(derived) + E.Writes(tree, peers, entries);
      G.AllKnown(values, staged) && G.Prepare(values, ranges, map[], staged) == Some(changes)
    ensures changes[holders[b]].GroupOf?
    ensures IsGiven(Shown(values, holders), GroupEntries(tree, held, entries), b, changes[holders[b]].group)
  {
    var writes := E.Writes(tree, peers, entries);
    var staged := E.Direct(derived) + writes;
    var i := G.StagedBy(values, ranges, map[], staged, holders[b]);
    assert i >= |derived| by {
      assert forall j :: 0 <= j < |derived| ==> staged[j].peers == [derived[j].0];
    }
    assert staged[i] == writes[i - |derived|];
    EntryGives(values, tree, peers, entries, holders, held, i - |derived|, b);
  }

  /** The policy for the groups of banks, on a command of the handler. */
  predicate GroupsAllowed(values: E.Snapshot, tree: E.Tree, entries: seq<E.WriteEntry>, holders: Holders, held: Held)
    requires HoldGroups(values, holders, held)
  {
    Allowed(Shown(values, holders), GroupEntries(tree, held, entries))
  }

  lemma GivenValuesKeepProper(values: E.Snapshot, changes: E.Snapshot, holders: Holders, held: Held,
                              seen: seq<GroupEntry>)
    requires HoldGroups(values, holders, held) && Proper(Shown(values, holders))
    requires AreKnown(Shown(values, holders), seen) && Allowed(Shown(values, holders), seen)
    requires forall b :: b in holders && holders[b] in changes ==>
      changes[holders[b]].GroupOf? && IsGiven(Shown(values, holders), seen, b, changes[holders[b]].group)
    ensures HoldGroups(values + changes, holders, held) && Proper(Shown(values + changes, holders))
  {
    var groups, after := Shown(values, holders), Shown(values + changes, holders);
    forall b | b in groups && after[b] != groups[b] ensures IsGiven(groups, seen, b, after[b]) {
      assert holders[b] in changes;
    }
    GivenKeepsProper(groups, after, seen);
  }

  lemma AcceptedKeepsProper(values: E.Snapshot, ranges: G.Ranges<StateValue>, tree: E.Tree, peers: E.Peers,
                            derived: seq<(StateValue, Value)>, entries: seq<E.WriteEntry>, changes: E.Snapshot,
                            holders: Holders, held: Held)
    requires E.Wired(values, tree, peers) && E.WellTyped(tree, entries)
    requires HoldGroups(values, holders, held) && PeersShareTheGroup(values, peers, held)
    requires forall i :: 0 <= i < |derived| ==> derived[i].0 !in held
    requires GroupsAllowed(values, tree, entries, holders, held) && Proper(Shown(values, holders))
    requires var staged := E.Direct(derived) + E.Writes(tree, peers, entries);
      G.AllKnown(values, staged) && G.Prepare(values, ranges, map[], staged) == Some(changes)
    ensures HoldGroups(values + changes, holders, held) && Proper(Shown(values + changes, holders))
  {
    var seen := GroupEntries(tree, held, entries);
    forall b | b in holders && holders[b] in changes
      ensures changes[holders[b]].GroupOf? && IsGiven(Shown(values, holders), seen, b, changes[holders[b]].group)
    {
      ChangesAreGiven(values, ranges, tree, peers, derived, entries, changes, holders, held, b);
    }
    GivenValuesKeepProper(values, changes, holders, held, seen);
  }

  /** Whatever else a command writes and whatever it derives, the groups stay proper. */
  lemma WritesKeepGroupsProper(values: E.Snapshot, ranges: G.Ranges<StateValue>, tree: E.Tree, peers: E.Peers,
                               derived: seq<(StateValue, Value)>, command: E.WriteCommand, allowed: bool,
                               holders: Holders, held: Held)
    requires E.Wired(values, tree, peers) && E.DerivedTyped(values, derived)
    requires HoldGroups(values, holders, held) && PeersShareTheGroup(values, peers, held)
    requires forall i :: 0 <= i < |derived| ==> derived[i].0 !in held
    requires allowed ==> GroupsAllowed(values, tree, command.entries, holders, held)
    requires Proper(Shown(values, holders))
    ensures var after := values + E.OrNothing(E.Effect(values, ranges, tree, peers, derived, command, allowed));
      HoldGroups(after, holders, held) && Proper(Shown(after, holders))
  {
    var effect := E.Effect(values, ranges, tree, peers, derived, command, allowed);
    if effect.None? {
      assert values + E.OrNothing(effect) == values;
    } else {
      E.AcceptedEntriesAreTyped(tree, command.entries, {});
      E.StagedIsKnown(values, tree, peers, derived, command);
      AcceptedKeepsProper(values, ranges, tree, peers, derived, command.entries, effect.value, holders, held);
    }
  }
}
