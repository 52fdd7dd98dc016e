/**
  What becomes of a write command, entry by entry: when the handler takes it, which value every peer of a
  written leaf gets, and when it answers with a refusal. Entries and derived writes do not meet here;
  `GroupEdits.TwoParts` says what happens where they do.
 */
module WriteOutcomes {
  import opened Common
  import opened StateValues
  import opened StateEdits
  import opened WiredPeers
  import G = GroupEdits

  /** The guard of an entry for leaf `v`: a copy may always be written, a delta if it keeps every peer inside
      its own range. */
  ghost predicate Writable(values: Snapshot, ranges: G.Ranges<StateValue>, peers: seq<StateValue>, v: StateValue,
                           e: WriteEntry)
    requires v in values && forall p :: p in peers ==> p in values
  {
    e.mode.CopyValue? ||
    (e.value.Float? && values[v].Float? &&
     forall p :: p in peers ==>
       p in ranges && values[p].Float? &&
       ranges[p].minimum <= values[p].number + (e.value.number - values[v].number) <= ranges[p].maximum)
  }

  /** After an accepted entry for leaf `v`, peer `p` shows what was written, or is shifted by as much as `v`. */
  ghost predicate Follows(values: Snapshot, after: Snapshot, v: StateValue, p: StateValue, e: WriteEntry)
    requires v in values && p in values && p in after
  {
    if e.mode.CopyValue? || p == v then after[p] == e.value
    else
      e.value.Float? && values[v].Float? && values[p].Float? && after[p].Float? &&
      after[p].number - values[p].number == e.value.number - values[v].number
  }

  ghost predicate AllLeaves(tree: Tree, entries: seq<WriteEntry>) {
    forall i :: 0 <= i < |entries| ==> IsLeaf(tree, entries[i])
  }

  ghost predicate AllWritable(values: Snapshot, ranges: G.Ranges<StateValue>, tree: Tree, peers: Peers,
                              entries: seq<WriteEntry>)
    requires Wired(values, tree, peers) && AllLeaves(tree, entries)
  {
    forall i :: 0 <= i < |entries| ==>
      var v := tree[entries[i].path].value;
      Writable(values, ranges, peers[v], v, entries[i])
  }

  /** Every peer of every written leaf has followed. */
  ghost predicate AllFollow(values: Snapshot, after: Snapshot, tree: Tree, peers: Peers, entries: seq<WriteEntry>)
    requires Wired(values, tree, peers) && AllLeaves(tree, entries) && after.Keys == values.Keys
  {
    forall i, p :: 0 <= i < |entries| && p in peers[tree[entries[i].path].value] ==>
      Follows(values, after, tree[entries[i].path].value, p, entries[i])
  }

  ghost predicate IsWritten(tree: Tree, peers: Peers, entries: seq<WriteEntry>, p: StateValue)
    requires AllLeaves(tree, entries)
  {
    exists i :: 0 <= i < |entries| && tree[entries[i].path].value in peers && p in peers[tree[entries[i].path].value]
  }

  /** The derived values are there as well, and everything else is as it was. */
  ghost predicate NothingElse(values: Snapshot, after: Snapshot, tree: Tree, peers: Peers,
                              derived: seq<(StateValue, Value)>, entries: seq<WriteEntry>)
    requires AllLeaves(tree, entries) && after.Keys == values.Keys
  {
    && (forall i :: 0 <= i < |derived| ==> derived[i].0 in after && after[derived[i].0] == derived[i].1)
    && (forall p :: p in values && !IsWritten(tree, peers, entries, p) && !IsDerived(derived, p) ==>
          after[p] == values[p])
  }

  lemma {:induction false} WritesOfLeaves(values: Snapshot, tree: Tree, peers: Peers, entries: seq<WriteEntry>)
    requires Wired(values, tree, peers)
    ensures |Writes(tree, peers, entries)| == |entries| <==> AllLeaves(tree, entries)
    decreases |entries|
  {
    WritesAt(tree, peers, entries);
    if entries != [] && IsLeaf(tree, entries[0]) {
      WritesOfLeaves(values, tree, peers, entries[1..]);
      assert forall i :: 0 < i < |entries| ==> entries[i] == entries[1..][i - 1];
    }
  }

  lemma GuardIsWritable(values: Snapshot, ranges: G.Ranges<StateValue>, peers: seq<StateValue>, v: StateValue,
                        e: WriteEntry)
    requires v in values && v in peers && forall p :: p in peers ==> p in values
    ensures G.Admissible(values, ranges, G.Entry(v, peers, e.value, e.mode)) <==> Writable(values, ranges, peers, v, e)
  {
    var entry := G.Entry(v, peers, e.value, e.mode);
    if e.mode.ApplyDelta? && e.value.Float? && values[v].Float? {
      forall p | p in peers
        ensures G.Fits(values, ranges, p, G.Delta(values, entry)) <==>
          p in ranges && values[p].Float? &&
          ranges[p].minimum <= values[p].number + (e.value.number - values[v].number) <= ranges[p].maximum
      {
      }
    }
  }

  /** The entry for a leaf, as it is staged. */
  function Asked(tree: Tree, peers: Peers, e: WriteEntry): G.Entry<StateValue>
    requires IsLeaf(tree, e) && tree[e.path].value in peers
  {
    var v := tree[e.path].value;
    G.Entry(v, peers[v], e.value, e.mode)
  }

  /** Where the entries lie in the command that is staged. */
  lemma StagedAt(values: Snapshot, tree: Tree, peers: Peers, derived: seq<(StateValue, Value)>, command: WriteCommand)
    requires Wired(values, tree, peers) && AllLeaves(tree, command.entries)
    ensures var staged := Staged(tree, peers, derived, command);
      && |staged| == |derived| + |command.entries|
      && (forall i :: 0 <= i < |derived| ==>
            staged[i] == G.Entry(derived[i].0, [derived[i].0], derived[i].1, G.CopyValue))
      && (forall i :: |derived| <= i < |staged| ==> staged[i] == Asked(tree, peers, command.entries[i - |derived|]))
  {
    WritesAt(tree, peers, command.entries);
    WritesOfLeaves(values, tree, peers, command.entries);
  }

  lemma GuardsAreWritable(values: Snapshot, ranges: G.Ranges<StateValue>, tree: Tree, peers: Peers,
                          derived: seq<(StateValue, Value)>, command: WriteCommand)
    requires Wired(values, tree, peers) && AllLeaves(tree, command.entries)
    requires G.AllKnown(values, Staged(tree, peers, derived, command))
    ensures G.AllAdmissible(values, ranges, Staged(tree, peers, derived, command)) <==>
      AllWritable(values, ranges, tree, peers, command.entries)
  {
    var entries, staged, n := command.entries, Staged(tree, peers, derived, command), |derived|;
    StagedAt(values, tree, peers, derived, command);
    forall i | 0 <= i < |entries|
      ensures var v := tree[entries[i].path].value;
        G.Admissible(values, ranges, Asked(tree, peers, entries[i])) <==>
          Writable(values, ranges, peers[v], v, entries[i])
    {
      var v := tree[entries[i].path].value;
      GuardIsWritable(values, ranges, peers[v], v, entries[i]);
    }
    if AllWritable(values, ranges, tree, peers, entries) {
      forall i | 0 <= i < |staged| ensures G.Admissible(values, ranges, staged[i]) {
        if i >= n {
          var v := tree[entries[i - n].path].value;
          assert Writable(values, ranges, peers[v], v, entries[i - n]);
        }
      }
    } else {
      var i :| 0 <= i < |entries| && !G.Admissible(values, ranges, Asked(tree, peers, entries[i]));
      assert staged[n + i] == Asked(tree, peers, entries[i]);
    }
  }

  /** What the entry asks for is what its peers follow. */
  lemma TargetsFollow(values: Snapshot, ranges: G.Ranges<StateValue>, after: Snapshot, v: StateValue,
                      peers: seq<StateValue>, e: WriteEntry, p: StateValue)
    requires v in values && v in peers && (forall q :: q in peers ==> q in values) && p in peers && p in after
    requires Writable(values, ranges, peers, v, e)
    requires after[p] == G.Target(values, G.Entry(v, peers, e.value, e.mode), p)
    ensures Follows(values, after, v, p, e)
  {
  }

  lemma EntriesFollow(values: Snapshot, ranges: G.Ranges<StateValue>, tree: Tree, peers: Peers,
                      derived: seq<(StateValue, Value)>, command: WriteCommand, after: Snapshot)
    requires Wired(values, tree, peers) && AllLeaves(tree, command.entries)
    requires var staged := Staged(tree, peers, derived, command);
      && G.AllKnown(values, staged) && G.Separate(staged)
      && after.Keys == values.Keys && forall p :: p in values ==> after[p] == G.After(values, staged, p)
    requires AllWritable(values, ranges, tree, peers, command.entries)
    ensures AllFollow(values, after, tree, peers, command.entries)
  {
    var entries, staged := command.entries, Staged(tree, peers, derived, command);
    StagedAt(values, tree, peers, derived, command);
    forall i, p | 0 <= i < |entries| && p in peers[tree[entries[i].path].value]
      ensures Follows(values, after, tree[entries[i].path].value, p, entries[i])
    {
      var v := tree[entries[i].path].value;
      assert staged[|derived| + i] == Asked(tree, peers, entries[i]);
      G.AfterIsTarget(values, staged, |derived| + i, p);
      TargetsFollow(values, ranges, after, v, peers[v], entries[i], p);
    }
  }

  lemma NotStaged(values: Snapshot, tree: Tree, peers: Peers, derived: seq<(StateValue, Value)>, command: WriteCommand,
                  p: StateValue)
    requires Wired(values, tree, peers) && AllLeaves(tree, command.entries)
    requires !IsWritten(tree, peers, command.entries, p) && !IsDerived(derived, p)
    ensures forall e :: e in Staged(tree, peers, derived, command) ==> p !in e.peers
  {
    var staged := Staged(tree, peers, derived, command);
    StagedAt(values, tree, peers, derived, command);
    forall i | 0 <= i < |staged| ensures p !in staged[i].peers {
      if i < |derived| {
        assert derived[i].0 != p;
      } else {
        var e := command.entries[i - |derived|];
        assert staged[i].peers == peers[tree[e.path].value];
      }
    }
  }

  lemma OthersStay(values: Snapshot, tree: Tree, peers: Peers, derived: seq<(StateValue, Value)>, command: WriteCommand,
                   after: Snapshot)
    requires Wired(values, tree, peers) && DerivedTyped(values, derived) && AllLeaves(tree, command.entries)
    requires var staged := Staged(tree, peers, derived, command);
      && G.AllKnown(values, staged) && G.Separate(staged)
      && after.Keys == values.Keys && forall p :: p in values ==> after[p] == G.After(values, staged, p)
    ensures NothingElse(values, after, tree, peers, derived, command.entries)
  {
    var entries, staged := command.entries, Staged(tree, peers, derived, command);
    StagedAt(values, tree, peers, derived, command);
    forall i | 0 <= i < |derived| ensures after[derived[i].0] == derived[i].1 {
      G.AfterIsTarget(values, staged, i, derived[i].0);
    }
    forall p | p in values && !IsWritten(tree, peers, entries, p) && !IsDerived(derived, p)
      ensures after[p] == values[p]
    {
      NotStaged(values, tree, peers, derived, command, p);
      G.NotReached(values, staged, p);
    }
  }

  /** Everything that has to be right for a command to be taken. */
  ghost predicate Takeable(values: Snapshot, ranges: G.Ranges<StateValue>, tree: Tree, peers: Peers,
                           entries: seq<WriteEntry>)
    requires Wired(values, tree, peers)
  {
    AllFine(tree, entries, |entries|) && AllLeaves(tree, entries) && AllWritable(values, ranges, tree, peers, entries)
  }

  /** What a command that is taken leaves. */
  ghost predicate Taken(values: Snapshot, after: Snapshot, tree: Tree, peers: Peers,
                        derived: seq<(StateValue, Value)>, entries: seq<WriteEntry>)
    requires Wired(values, tree, peers) && AllLeaves(tree, entries)
  {
    && after.Keys == values.Keys && AllFollow(values, after, tree, peers, entries)
    && NothingElse(values, after, tree, peers, derived, entries)
  }

  /** Staging a command of fine entries for leaves succeeds exactly when all are writable. */
  lemma AcceptedExactly(values: Snapshot, ranges: G.Ranges<StateValue>, tree: Tree, peers: Peers,
                        derived: seq<(StateValue, Value)>, command: WriteCommand)
    requires Wired(values, tree, peers) && DerivedTyped(values, derived) && WellTyped(tree, command.entries)
    requires AllLeaves(tree, command.entries) && G.Separate(Staged(tree, peers, derived, command))
    ensures G.AllKnown(values, Staged(tree, peers, derived, command))
    ensures var changes := G.Prepare(values, ranges, map[], Staged(tree, peers, derived, command));
      && (changes.Some? <==> AllWritable(values, ranges, tree, peers, command.entries))
      && (changes.Some? ==> Taken(values, values + changes.value, tree, peers, derived, command.entries))
  {
    var staged := Staged(tree, peers, derived, command);
    StagedIsKnown(values, tree, peers, derived, command);
    GuardsAreWritable(values, ranges, tree, peers, derived, command);
    G.ExecutedEntries(values, ranges, staged);
    var changes := G.Prepare(values, ranges, map[], staged);
    if changes.Some? {
      var after := values + changes.value;
      assert after == G.Execute(values, ranges, staged);
      EntriesFollow(values, ranges, tree, peers, derived, command, after);
      OthersStay(values, tree, peers, derived, command, after);
    }
  }

  /** A command is taken exactly when it has entries, the policies allow it, every entry is the first for a
      leaf with a state value and of its type, and every guard is met. Then every peer follows, the derived
      values are there, and nothing else changes. */
  lemma CommandsAreTakenExactly(values: Snapshot, ranges: G.Ranges<StateValue>, tree: Tree, peers: Peers,
                                derived: seq<(StateValue, Value)>, command: WriteCommand, allowed: bool)
    requires Wired(values, tree, peers) && DerivedTyped(values, derived)
    requires AllFine(tree, command.entries, |command.entries|) ==> G.Separate(Staged(tree, peers, derived, command))
    ensures var effect := Effect(values, ranges, tree, peers, derived, command, allowed);
      && (effect.Some? <==>
            command.entries != [] && allowed && Takeable(values, ranges, tree, peers, command.entries))
      && (effect.Some? ==> Taken(values, values + effect.value, tree, peers, derived, command.entries))
  {
    var entries := command.entries;
    ComplaintIsAboutTheFirst(tree, entries);
    if Refusal(command, allowed, tree).None? {
      AcceptedEntriesAreTyped(tree, entries, {});
      WritesAt(tree, peers, entries);
      WritesOfLeaves(values, tree, peers, entries);
      if AllLeaves(tree, entries) {
        AcceptedExactly(values, ranges, tree, peers, derived, command);
      }
    }
  }

  /** The status of every command: it is applied or changes nothing when it is taken, and otherwise the first
      reason in the order of the handler decides. */
  lemma StatusIsTheFirstReason(values: Snapshot, ranges: G.Ranges<StateValue>, tree: Tree, peers: Peers,
                               derived: seq<(StateValue, Value)>, command: WriteCommand, allowed: bool)
    requires Wired(values, tree, peers) && DerivedTyped(values, derived)
    requires AllFine(tree, command.entries, |command.entries|) ==> G.Separate(Staged(tree, peers, derived, command))
    ensures var entries, n := command.entries, |command.entries|;
      var effect := Effect(values, ranges, tree, peers, derived, command, allowed);
      var status := Outcome(values, ranges, tree, peers, derived, command, allowed);
      if n == 0 then status == NotHandled
      else if !allowed then status == Rejected
      else if !AllFine(tree, entries, n) then JudgedByTheFirst(tree, entries, Some(status))
      else if !AllLeaves(tree, entries) then status == Rejected || status == Failed
      else if !AllWritable(values, ranges, tree, peers, entries) then status == Failed
      else effect.Some? && status == if values + effect.value == values then Unchanged else Applied
  {
    var entries := command.entries;
    ComplaintIsAboutTheFirst(tree, entries);
    CommandsAreTakenExactly(values, ranges, tree, peers, derived, command, allowed);
    if Refusal(command, allowed, tree).None? {
      AcceptedEntriesAreTyped(tree, entries, {});
      StagedIsKnown(values, tree, peers, derived, command);
      WritesAt(tree, peers, entries);
      WritesOfLeaves(values, tree, peers, entries);
      var changes := G.Prepare(values, ranges, map[], Staged(tree, peers, derived, command));
      if AllLeaves(tree, entries) && changes.Some? {
        StagedAreChanges(values, ranges, Staged(tree, peers, derived, command), changes.value);
      }
    }
  }

  lemma StagedAreChanges(values: Snapshot, ranges: G.Ranges<StateValue>, staged: seq<G.Entry<StateValue>>,
                         changes: Snapshot)
    requires G.AllKnown(values, staged) && G.Prepare(values, ranges, map[], staged) == Some(changes)
    ensures values + changes == values <==> changes == map[]
  {
    G.PreparingExtends(values, ranges, map[], staged);
    if v :| v in changes {
      assert (values + changes)[v] != values[v];
    }
  }
}
