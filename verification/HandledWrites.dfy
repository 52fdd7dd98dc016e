/**
  The write handler as a whole: the policy for bank groups and the guard for compression types decide
  whether a command is allowed, the compression edits derive their writes, and everything is staged and
  committed together. Afterwards compression is mirrored and the groups are proper.
 */
module HandledWrites {
  import opened Common
  import opened StateValues
  import opened StateHistories
  import opened BankGrouping
  import opened GroupWrites
  import opened ProfileEdits
  import C = CompressionMirror
  import E = StateEdits
  import G = GroupEdits

  /** A world in which compression is mirrored and the groups are proper; entries of a command that names
      typed leaves do not meet. */
  ghost predicate Ready(values: E.Snapshot, tree: E.Tree, peers: E.Peers, at: Places, of: Keys, source: InstanceId,
                        targets: seq<InstanceId>, holders: Holders, held: Held, entries: seq<E.WriteEntry>)
  {
    && Setting(values, tree, peers, at, of, source, targets)
    && (E.Complaint(tree, entries, {}).None? ==> G.Separate(E.Writes(tree, peers, entries)))
    && HoldGroups(values, holders, held) && PeersShareTheGroup(values, peers, held) && Proper(Shown(values, holders))
  }

  /** The groups are proper after the changes, and compression is mirrored exactly when nothing is changed
      or the selected profile entries are left to the edits. */
  ghost predicate Kept(values: E.Snapshot, changes: Option<E.Snapshot>, tree: E.Tree, peers: E.Peers, at: Places,
                       of: Keys, source: InstanceId, targets: seq<InstanceId>, holders: Holders, held: Held,
                       entries: seq<E.WriteEntry>)
    requires Setting(values, tree, peers, at, of, source, targets)
  {
    var after := values + E.OrNothing(changes);
    && HoldGroups(after, holders, held) && Proper(Shown(after, holders))
    && (C.Mirror(View(after, at)) <==>
          (changes.None? || LeavesSelected(values, tree, peers, at, of, source, targets, entries)))
  }

  /** No write that the edits derive is for the group of a bank. */
  lemma DerivedLeavesGroups(values: E.Snapshot, tree: E.Tree, peers: E.Peers, at: Places, of: Keys, source: InstanceId,
                            targets: seq<InstanceId>, command: E.WriteCommand, holders: Holders, held: Held)
    requires Setting(values, tree, peers, at, of, source, targets) && HoldGroups(values, holders, held)
    ensures var derived := DerivedWrites(values, tree, peers, at, of, source, targets, command);
      forall i :: 0 <= i < |derived| ==> derived[i].0 !in held
  {
    var derived := DerivedWrites(values, tree, peers, at, of, source, targets, command);
    forall i | 0 <= i < |derived| ensures derived[i].0 !in held {
      var v := derived[i].0;
      assert at[of[v]] == v && v.initialValue.Float?;
      assert E.SameKind(values[v], v.initialValue);
    }
  }

  lemma CommandsAreKept(values: E.Snapshot, ranges: G.Ranges<StateValue>, tree: E.Tree, peers: E.Peers, at: Places,
                        of: Keys, source: InstanceId, targets: seq<InstanceId>, holders: Holders, held: Held,
                        command: E.WriteCommand, policies: bool)
    requires Ready(values, tree, peers, at, of, source, targets, holders, held, command.entries)
    requires policies ==> GroupsAllowed(values, tree, command.entries, holders, held)
    ensures Kept(values, Changes(values, ranges, tree, peers, at, of, source, targets, command, policies),
                 tree, peers, at, of, source, targets, holders, held, command.entries)
  {
    DerivedLeavesGroups(values, tree, peers, at, of, source, targets, command, holders, held);
    var derived := DerivedWrites(values, tree, peers, at, of, source, targets, command);
    var allowed := policies && C.IsWriteAllowed(KeyWrites(tree, peers, of, command.entries));
    WritesKeepGroupsProper(values, ranges, tree, peers, derived, command, allowed, holders, held);
    HandledWritesKeepTheMirrorExactly(values, ranges, tree, peers, at, of, source, targets, command, policies);
  }

  /** The writes that the edits derive, computed for commands that are not refused before. */
  method Derive(values: E.Snapshot, tree: E.Tree, peers: E.Peers, at: Places, of: Keys, source: InstanceId,
                targets: seq<InstanceId>, command: E.WriteCommand)
    returns (derived: seq<(StateValue, Value)>)
    requires Setting(values, tree, peers, at, of, source, targets)
    ensures derived == DerivedWrites(values, tree, peers, at, of, source, targets, command)
  {
    var writes := KeyWrites(tree, peers, of, command.entries);
    var refusal := E.Check(command, C.IsWriteAllowed(writes), tree);
    if refusal.Some? {
      return [];
    }
    E.AcceptedEntriesAreTyped(tree, command.entries, {});
    DerivedIsProper(values, tree, peers, at, of, source, targets, command.entries);
    var entries := C.PrepareWrite(View(values, at), source, targets, writes);
    derived := Stored(at, entries);
  }

  /** A write command in such a world. `guards` is the verdict of the policies that are not modelled; what
      the loops of `IsAllowed` and `Derive` compute enters as the functions that they are proved equal to. */
  method HandleWrite(command: E.WriteCommand, guards: bool, tree: E.Tree, peers: E.Peers, ranges: G.Ranges<StateValue>,
                     at: Places, of: Keys, source: InstanceId, targets: seq<InstanceId>, holders: Holders, held: Held,
                     values: E.Snapshot, history: StateHistory, ghost all: set<StateValue>, ghost seen: E.Snapshot)
    returns (status: E.WriteStatus, ghost changes: Option<E.Snapshot>)
    requires E.Idle(all, values) && history.Valid() && E.Registered(history, all) && E.Observed(all, seen)
    requires Ready(values, tree, peers, at, of, source, targets, holders, held, command.entries)
    modifies history`currentSlot, history`availableUndoCount, history`availableRedoCount, history`revision
    modifies all, set v | v in all :: v.slots
    ensures changes == Changes(values, ranges, tree, peers, at, of, source, targets, command,
                               guards && GroupsAllowed(values, tree, command.entries, holders, held))
    ensures E.Concluded(history, all, values, seen, old(history.Rings()), changes, command.OpensPoint())
    ensures Kept(values, changes, tree, peers, at, of, source, targets, holders, held, command.entries)
  {
    var policies := guards && GroupsAllowed(values, tree, command.entries, holders, held);
    var allowed := policies && C.IsWriteAllowed(KeyWrites(tree, peers, of, command.entries));
    var derived := DerivedWrites(values, tree, peers, at, of, source, targets, command);
    CommandsAreKept(values, ranges, tree, peers, at, of, source, targets, holders, held, command, policies);
    changes := Changes(values, ranges, tree, peers, at, of, source, targets, command, policies);
    status := E.HandleWrite(command, allowed, tree, peers, ranges, derived, history, all, values, seen);
  }
}
