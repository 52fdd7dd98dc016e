/**
  The write handler with the writes that the compression edits derive: the handler works on state values,
  the edits on compression values by their places. What the handler commits is what the edits say, so a
  handled write keeps active values and selected profiles equal.
 */
module ProfileEdits {
  import opened Common
  import opened StateValues
  import opened StateHistories
  import opened RenamedEdits
  import C = CompressionMirror
  import E = StateEdits
  import G = GroupEdits
  import H = HistoryModel

  /** Where the values of all instances are stored. */
  type Places = map<C.Key, StateValue>

  /** What is stored where. */
  type Keys = map<StateValue, C.Key>

  predicate Inverse(at: Places, of: Keys) {
    && (forall k :: k in at ==> at[k] in of && of[at[k]] == k)
    && (forall v :: v in of ==> of[v] in at && at[of[v]] == v)
  }

  /** What the values show, by their places. */
  function View(values: E.Snapshot, at: Places): C.Values
    requires forall k :: k in at ==> at[k] in values
  {
    map k | k in at :: values[at[k]]
  }

  function ViewRanges(ranges: G.Ranges<StateValue>, at: Places): G.Ranges<C.Key> {
    map k | k in at && at[k] in ranges :: ranges[at[k]]
  }

  /** The entry as the compression edits see it. */
  function Classified(of: Keys, peers: E.Peers, v: StateValue, e: E.WriteEntry): C.Write
    requires v in of && v in peers && Named(of, peers[v])
  {
    match of[v]
    case Type(_) => C.SetType(e.value, e.mode)
    case Active(_, n) => C.SetParameter(n, e.value, e.mode)
    case _ => C.SetOther(G.Entry(of[v], RenameKeys(of, peers[v]), e.value, e.mode))
  }

  /** Every leaf has a place and peers with places. */
  ghost predicate PlacedTree(tree: E.Tree, peers: E.Peers, of: Keys) {
    forall path :: path in tree && tree[path].Leaf? ==>
      && tree[path].value in of && tree[path].value in peers && Named(of, peers[tree[path].value])
  }

  /** The entries for leaves with state behind them. */
  function KeyWrites(tree: E.Tree, peers: E.Peers, of: Keys, entries: seq<E.WriteEntry>): seq<C.Write>
    requires PlacedTree(tree, peers, of)
    decreases |entries|
  {
    if entries == [] then []
    else if E.IsLeaf(tree, entries[0]) then
      [Classified(of, peers, tree[entries[0].path].value, entries[0])] + KeyWrites(tree, peers, of, entries[1..])
    else KeyWrites(tree, peers, of, entries[1..])
  }

  /** The tree is that of `source`, edits of its compression values reach the targets in order, and other
      values, profiles among them, are edited together with their like. */
  ghost predicate Reached(tree: E.Tree, peers: E.Peers, of: Keys, source: InstanceId, targets: seq<InstanceId>)
    requires PlacedTree(tree, peers, of)
  {
    forall path :: path in tree && tree[path].Leaf? ==>
      var v := tree[path].value;
      match of[v]
      case Type(i) => i == source && RenameKeys(of, peers[v]) == C.TypeKeys(targets)
      case Active(i, n) => i == source && n < PARAMETERS && RenameKeys(of, peers[v]) == C.ActiveKeys(targets, n)
      case Profile(_, _, _) => v.initialValue.Float? && forall p :: p in peers[v] ==> of[p].Profile?
      case Other(_) => forall p :: p in peers[v] ==> of[p].Other?
  }

  lemma EntryIsRenamed(tree: E.Tree, peers: E.Peers, at: Places, of: Keys, source: InstanceId, targets: seq<InstanceId>,
                       e: E.WriteEntry)
    requires Inverse(at, of) && PlacedTree(tree, peers, of) && Reached(tree, peers, of, source, targets)
    requires E.IsLeaf(tree, e)
    ensures var v := tree[e.path].value;
      var entry := C.Entry(source, targets, Classified(of, peers, v, e));
      NamedEntry(at, entry) && RenameEntry(at, entry) == G.Entry(v, peers[v], e.value, e.mode)
  {
    var v := tree[e.path].value;
    var entry := C.Entry(source, targets, Classified(of, peers, v, e));
    assert entry.source == of[v] && entry.peers == RenameKeys(of, peers[v]);
    RenamedTwice(at, of, peers[v]);
  }

  lemma RenamedTwice(at: Places, of: Keys, values: seq<StateValue>)
    requires Inverse(at, of) && Named(of, values)
    ensures Named(at, RenameKeys(of, values)) && RenameKeys(at, RenameKeys(of, values)) == values
  {
    var keys := RenameKeys(of, values);
    forall k | k in keys ensures k in at {
      var i :| 0 <= i < |keys| && keys[i] == k;
      assert values[i] in values;
    }
    forall i | 0 <= i < |values| ensures at[keys[i]] == values[i] {
      assert values[i] in values && keys[i] in keys;
    }
  }

  /** If every entry names a leaf, the handler's grouped writes are the entries of the edits. */
  lemma {:induction false} WritesAreRenamed(tree: E.Tree, peers: E.Peers, at: Places, of: Keys, source: InstanceId,
                                            targets: seq<InstanceId>, entries: seq<E.WriteEntry>)
    requires Inverse(at, of) && PlacedTree(tree, peers, of) && Reached(tree, peers, of, source, targets)
    requires |E.Writes(tree, peers, entries)| == |entries|
    ensures var writes := C.Entries(source, targets, KeyWrites(tree, peers, of, entries));
      AllNamed(at, writes) && RenameEntries(at, writes) == E.Writes(tree, peers, entries)
    decreases |entries|
  {
    if entries != [] {
      EntryIsRenamed(tree, peers, at, of, source, targets, entries[0]);
      WritesAreRenamed(tree, peers, at, of, source, targets, entries[1..]);
      var v := tree[entries[0].path].value;
      var first := C.Entry(source, targets, Classified(of, peers, v, entries[0]));
      var rest := C.Entries(source, targets, KeyWrites(tree, peers, of, entries[1..]));
      RenamePrepend(at, first, rest);
      EntriesPrepend(source, targets, Classified(of, peers, v, entries[0]), KeyWrites(tree, peers, of, entries[1..]));
    }
  }

  lemma EntriesPrepend(source: InstanceId, targets: seq<InstanceId>, w: C.Write, rest: seq<C.Write>)
    ensures C.Entries(source, targets, [w] + rest) == [C.Entry(source, targets, w)] + C.Entries(source, targets, rest)
  {
    assert ([w] + rest)[1..] == rest;
  }

  // The derived writes

  predicate IsSingle(e: G.Entry<C.Key>) {
    e == C.Single(e.source, e.value) && e.value.Float? && (e.source.Active? || e.source.Profile?)
  }

  predicate AreSingles(entries: seq<G.Entry<C.Key>>) {
    forall i :: 0 <= i < |entries| ==> IsSingle(entries[i])
  }

  lemma {:induction false} NodesAreSingles(values: C.Values, source: InstanceId, target: InstanceId,
                                           writes: seq<C.Write>, count: nat)
    requires C.Whole(values, source) && C.Whole(values, target) && C.WellFormed(writes) && count <= PARAMETERS
    ensures AreSingles(C.DerivedNodes(values, source, target, writes, count))
  {
    if count > 0 {
      NodesAreSingles(values, source, target, writes, count - 1);
    }
  }

  lemma {:induction false} DerivedAreSingles(values: C.Values, source: InstanceId, targets: seq<InstanceId>,
                                             writes: seq<C.Write>)
    requires C.Whole(values, source) && C.AllWhole(values, targets) && C.WellFormed(writes)
    ensures AreSingles(C.Derived(values, source, targets, writes))
    decreases |targets|
  {
    if targets != [] {
      NodesAreSingles(values, source, targets[0], writes, PARAMETERS);
      DerivedAreSingles(values, source, targets[1..], writes);
    }
  }

  /** The values that derived writes go to, as the handler stages them. */
  function Stored(at: Places, derived: seq<G.Entry<C.Key>>): (r: seq<(StateValue, Value)>)
    requires AllNamed(at, derived)
    ensures |r| == |derived| && forall i :: 0 <= i < |r| ==> r[i] == (at[derived[i].source], derived[i].value)
  {
    seq(|derived|, i requires 0 <= i < |derived| => (at[derived[i].source], derived[i].value))
  }

  lemma StoredIsRenamed(at: Places, derived: seq<G.Entry<C.Key>>)
    requires AllNamed(at, derived) && AreSingles(derived)
    ensures E.Direct(Stored(at, derived)) == RenameEntries(at, derived)
  {
    forall i | 0 <= i < |derived| ensures E.Direct(Stored(at, derived))[i] == RenameEntry(at, derived[i]) {
      assert IsSingle(derived[i]);
      assert RenameKeys(at, [derived[i].source]) == [at[derived[i].source]];
    }
  }

  // The command

  /** The world of a handled write: values with places, instances with compression values, and a tree and
      peers that reach them. */
  ghost predicate Setting(values: E.Snapshot, tree: E.Tree, peers: E.Peers, at: Places, of: Keys, source: InstanceId,
                          targets: seq<InstanceId>)
  {
    && Inverse(at, of) && (forall k :: k in at ==> at[k] in values)
    && E.Wired(values, tree, peers) && PlacedTree(tree, peers, of) && Reached(tree, peers, of, source, targets)
    && (forall k :: k in at && (k.Active? || k.Profile?) ==> at[k].initialValue.Float?)
    && C.Mirror(View(values, at)) && C.Type(source) in at
    && (forall t :: t in targets ==> C.Type(t) in at) && Distinct(targets)
  }

  lemma WritesAreWellFormed(values: E.Snapshot, tree: E.Tree, peers: E.Peers, at: Places, of: Keys, source: InstanceId,
                            targets: seq<InstanceId>, entries: seq<E.WriteEntry>)
    requires Setting(values, tree, peers, at, of, source, targets) && E.WellTyped(tree, entries)
    requires C.IsWriteAllowed(KeyWrites(tree, peers, of, entries))
    ensures C.WellFormed(KeyWrites(tree, peers, of, entries))
    decreases |entries|
  {
    if entries != [] {
      assert forall i :: 0 <= i < |entries[1..]| ==> entries[1..][i] == entries[i + 1];
      var writes := KeyWrites(tree, peers, of, entries);
      if E.IsLeaf(tree, entries[0]) {
        assert writes[1..] == KeyWrites(tree, peers, of, entries[1..]);
        assert forall w :: w in writes[1..] ==> w in writes;
        WritesAreWellFormed(values, tree, peers, at, of, source, targets, entries[1..]);
        LeafIsWellFormed(values, tree, peers, at, of, source, targets, entries[0]);
        assert forall w :: w in writes <==> w == writes[0] || w in writes[1..];
      } else {
        WritesAreWellFormed(values, tree, peers, at, of, source, targets, entries[1..]);
      }
    }
  }

  lemma LeafIsWellFormed(values: E.Snapshot, tree: E.Tree, peers: E.Peers, at: Places, of: Keys, source: InstanceId,
                         targets: seq<InstanceId>, e: E.WriteEntry)
    requires Setting(values, tree, peers, at, of, source, targets) && E.IsLeaf(tree, e)
    requires E.SameKind(tree[e.path].value.initialValue, e.value)
    ensures var w := Classified(of, peers, tree[e.path].value, e);
      && (w.SetParameter? ==> w.node < PARAMETERS && w.value.Float?)
      && (forall p :: w.SetOther? && p in w.entry.peers ==> p.Other? || (p.Profile? && w.entry.value.Float?))
  {
    var v := tree[e.path].value;
    assert at[of[v]] == v;
    var keys := RenameKeys(of, peers[v]);
    forall p | p in keys ensures exists x :: x in peers[v] && of[x] == p {
      var i :| 0 <= i < |keys| && keys[i] == p;
      assert peers[v][i] in peers[v];
    }
  }

  lemma EntriesAreKnown(values: E.Snapshot, at: Places, of: Keys, entries: seq<G.Entry<C.Key>>)
    requires Inverse(at, of) && (forall k :: k in at ==> at[k] in values)
    requires AllNamed(at, entries) && G.AllKnown(values, RenameEntries(at, entries))
    ensures G.AllKnown(View(values, at), entries)
  {
    var renamed := RenameEntries(at, entries);
    forall i | 0 <= i < |entries| ensures G.Known(View(values, at), entries[i]) {
      var e, f := entries[i], renamed[i];
      assert G.Known(values, f);
      var j :| 0 <= j < |f.peers| && f.peers[j] == f.source;
      assert e.peers[j] in e.peers && of[at[e.peers[j]]] == of[at[e.source]];
    }
  }

  lemma EntriesAreSeparate(at: Places, of: Keys, entries: seq<G.Entry<C.Key>>)
    requires Inverse(at, of) && AllNamed(at, entries) && G.Separate(RenameEntries(at, entries))
    ensures G.Separate(entries)
  {
    var renamed := RenameEntries(at, entries);
    forall i, k | 0 <= i < |entries| && k in entries[i].peers ensures k in at && at[k] in renamed[i].peers {
      assert NamedEntry(at, entries[i]);
      var n :| 0 <= n < |entries[i].peers| && entries[i].peers[n] == k;
      assert renamed[i].peers[n] == at[k];
    }
    forall i | 0 <= i < |entries| ensures Distinct(entries[i].peers) {
      assert Distinct(renamed[i].peers);
      forall m, n | 0 <= m < n < |entries[i].peers| ensures entries[i].peers[m] != entries[i].peers[n] {
        assert renamed[i].peers[m] != renamed[i].peers[n];
      }
    }
  }

  lemma DerivedIsTyped(values: E.Snapshot, tree: E.Tree, peers: E.Peers, at: Places, of: Keys, source: InstanceId,
                       targets: seq<InstanceId>, derived: seq<G.Entry<C.Key>>)
    requires Setting(values, tree, peers, at, of, source, targets)
    requires AllNamed(at, derived) && AreSingles(derived)
    ensures E.DerivedTyped(values, Stored(at, derived))
  {
    forall i | 0 <= i < |derived| ensures E.SameKind(values[at[derived[i].source]], derived[i].value) {
      assert IsSingle(derived[i]) && NamedEntry(at, derived[i]);
    }
  }

  /** What the edits derive for a typed and allowed command can be staged. */
  lemma DerivedIsProper(values: E.Snapshot, tree: E.Tree, peers: E.Peers, at: Places, of: Keys, source: InstanceId,
                        targets: seq<InstanceId>, entries: seq<E.WriteEntry>)
    requires Setting(values, tree, peers, at, of, source, targets) && E.WellTyped(tree, entries)
    requires C.IsWriteAllowed(KeyWrites(tree, peers, of, entries))
    ensures var view, writes := View(values, at), KeyWrites(tree, peers, of, entries);
      && C.Whole(view, source) && C.AllWhole(view, targets) && C.WellFormed(writes)
      && var derived := C.Derived(view, source, targets, writes);
      && AllNamed(at, derived) && AreSingles(derived) && E.DerivedTyped(values, Stored(at, derived))
  {
    var view, writes := View(values, at), KeyWrites(tree, peers, of, entries);
    WritesAreWellFormed(values, tree, peers, at, of, source, targets, entries);
    assert C.Mirrored(view, source);
    forall t | t in targets ensures C.Whole(view, t) {
      assert C.Mirrored(view, t);
    }
    var derived := C.Derived(view, source, targets, writes);
    C.DerivedGives(view, source, targets, writes, C.Type(source));
    DerivedAreSingles(view, source, targets, writes);
    forall i | 0 <= i < |derived| ensures NamedEntry(at, derived[i]) {
      assert G.Known(view, derived[i]);
    }
    DerivedIsTyped(values, tree, peers, at, of, source, targets, derived);
  }

  /** The command as the compression edits see it. */
  ghost predicate Accepts(values: E.Snapshot, tree: E.Tree, peers: E.Peers, at: Places, of: Keys, source: InstanceId,
                          targets: seq<InstanceId>, entries: seq<E.WriteEntry>)
  {
    && Setting(values, tree, peers, at, of, source, targets) && E.WellTyped(tree, entries)
    && |E.Writes(tree, peers, entries)| == |entries| && G.Separate(E.Writes(tree, peers, entries))
    && C.IsWriteAllowed(KeyWrites(tree, peers, of, entries))
  }

  lemma EditIsProper(values: E.Snapshot, tree: E.Tree, peers: E.Peers, at: Places, of: Keys, source: InstanceId,
                     targets: seq<InstanceId>, entries: seq<E.WriteEntry>)
    requires Accepts(values, tree, peers, at, of, source, targets, entries)
    ensures var written := C.Entries(source, targets, KeyWrites(tree, peers, of, entries));
      && G.AllKnown(View(values, at), written) && G.Separate(written)
      && AllNamed(at, written) && RenameEntries(at, written) == E.Writes(tree, peers, entries)
  {
    var writes := KeyWrites(tree, peers, of, entries);
    WritesAreRenamed(tree, peers, at, of, source, targets, entries);
    E.WritesAreKnown(values, tree, peers, entries);
    EntriesAreKnown(values, at, of, C.Entries(source, targets, writes));
    EntriesAreSeparate(at, of, C.Entries(source, targets, writes));
  }

  /** What the handler stages is what the edits say, value by value. */
  lemma CommandIsRenamed(values: E.Snapshot, tree: E.Tree, peers: E.Peers, at: Places, of: Keys, source: InstanceId,
                         targets: seq<InstanceId>, command: E.WriteCommand)
    requires Accepts(values, tree, peers, at, of, source, targets, command.entries)
    requires var view, writes := View(values, at), KeyWrites(tree, peers, of, command.entries);
      && C.Whole(view, source) && C.AllWhole(view, targets) && C.WellFormed(writes)
      && AllNamed(at, C.Derived(view, source, targets, writes)) && AreSingles(C.Derived(view, source, targets, writes))
    ensures var view, writes := View(values, at), KeyWrites(tree, peers, of, command.entries);
      var derived, all := C.Derived(view, source, targets, writes), C.Command(view, source, targets, writes);
      && AllNamed(at, all) && G.AllKnown(view, all)
      && E.Staged(tree, peers, Stored(at, derived), command) == RenameEntries(at, all)
  {
    var view, writes := View(values, at), KeyWrites(tree, peers, of, command.entries);
    var derived := C.Derived(view, source, targets, writes);
    EditIsProper(values, tree, peers, at, of, source, targets, command.entries);
    C.CommandIsKnown(view, source, targets, writes);
    StoredIsRenamed(at, derived);
    RenameAppend(at, derived, C.Entries(source, targets, writes));
  }

  lemma ViewOf(at: Places, of: Keys, values: E.Snapshot, after: C.Values)
    requires Inverse(at, of) && (forall k :: k in at ==> at[k] in values)
    requires Agrees(at, after, values) && after.Keys == at.Keys
    ensures View(values, at) == after
  {
  }

  lemma ViewAgrees(at: Places, of: Keys, values: E.Snapshot, ranges: G.Ranges<StateValue>)
    requires Inverse(at, of) && (forall k :: k in at ==> at[k] in values)
    ensures OneToOne(at) && Agrees(at, View(values, at), values) && Agrees(at, ViewRanges(ranges, at), ranges)
  {
  }

  /** Whatever `all` does to the view, its renaming does to the values. */
  lemma OutcomeIsRenamed(values: E.Snapshot, ranges: G.Ranges<StateValue>, at: Places, of: Keys,
                         all: seq<G.Entry<C.Key>>, entries: seq<G.Entry<StateValue>>, changes: Option<E.Snapshot>)
    requires Inverse(at, of) && (forall k :: k in at ==> at[k] in values)
    requires AllNamed(at, all) && G.AllKnown(View(values, at), all)
    requires entries == RenameEntries(at, all) && G.AllKnown(values, entries)
    requires changes == G.Prepare(values, ranges, map[], entries)
    ensures changes.Some? <==> G.Accepted(View(values, at), ViewRanges(ranges, at), all)
    ensures View(values + E.OrNothing(changes), at) == G.Execute(View(values, at), ViewRanges(ranges, at), all)
  {
    var view, bounds := View(values, at), ViewRanges(ranges, at);
    ViewAgrees(at, of, values, ranges);
    RenamedCommand(at, view, values, bounds, ranges, all);
    assert values + E.OrNothing(changes) == G.Execute(values, ranges, entries);
    G.StagedKeysAreKnown(view, bounds, all);
    ViewOf(at, of, values + E.OrNothing(changes), G.Execute(view, bounds, all));
  }

  /** What a handled write leaves is what the compression edits leave. */
  lemma HandledAsEdited(values: E.Snapshot, ranges: G.Ranges<StateValue>, tree: E.Tree, peers: E.Peers, at: Places,
                        of: Keys, source: InstanceId, targets: seq<InstanceId>, command: E.WriteCommand)
    requires Accepts(values, tree, peers, at, of, source, targets, command.entries)
    requires var view, writes := View(values, at), KeyWrites(tree, peers, of, command.entries);
      && C.Whole(view, source) && C.AllWhole(view, targets) && C.WellFormed(writes)
      && AllNamed(at, C.Derived(view, source, targets, writes)) && AreSingles(C.Derived(view, source, targets, writes))
      && E.DerivedTyped(values, Stored(at, C.Derived(view, source, targets, writes)))
    ensures var view, writes := View(values, at), KeyWrites(tree, peers, of, command.entries);
      var derived, all :=
        Stored(at, C.Derived(view, source, targets, writes)), C.Command(view, source, targets, writes);
      var changes := E.Accepted(values, ranges, tree, peers, derived, command);
      && G.AllKnown(view, all)
      && (changes.Some? <==> G.Accepted(view, ViewRanges(ranges, at), all))
      && View(values + E.OrNothing(changes), at) == G.Execute(view, ViewRanges(ranges, at), all)
  {
    var view, writes := View(values, at), KeyWrites(tree, peers, of, command.entries);
    var derived := Stored(at, C.Derived(view, source, targets, writes));
    CommandIsRenamed(values, tree, peers, at, of, source, targets, command);
    E.StagedIsKnown(values, tree, peers, derived, command);
    OutcomeIsRenamed(values, ranges, at, of, C.Command(view, source, targets, writes),
                     E.Staged(tree, peers, derived, command),
                     E.Accepted(values, ranges, tree, peers, derived, command));
  }

  // The handler's write with everything that the edits derive for it

  /** The writes that are staged before the entries; none when the command is refused before. */
  function DerivedWrites(values: E.Snapshot, tree: E.Tree, peers: E.Peers, at: Places, of: Keys, source: InstanceId,
                               targets: seq<InstanceId>, command: E.WriteCommand): (r: seq<(StateValue, Value)>)
    requires Setting(values, tree, peers, at, of, source, targets)
    ensures E.DerivedTyped(values, r)
    ensures forall i :: 0 <= i < |r| ==> r[i].0 in of && (of[r[i].0].Active? || of[r[i].0].Profile?)
  {
    var writes := KeyWrites(tree, peers, of, command.entries);
    if E.Refusal(command, C.IsWriteAllowed(writes), tree).Some? then []
    else
      E.AcceptedEntriesAreTyped(tree, command.entries, {});
      DerivedIsProper(values, tree, peers, at, of, source, targets, command.entries);
      var derived := C.Derived(View(values, at), source, targets, writes);
      assert forall i :: 0 <= i < |derived| ==> IsSingle(derived[i]) && NamedEntry(at, derived[i]);
      Stored(at, derived)
  }

  /** What the command changes; `policies` is the verdict of the other guards. */
  ghost function Changes(values: E.Snapshot, ranges: G.Ranges<StateValue>, tree: E.Tree, peers: E.Peers, at: Places,
                         of: Keys, source: InstanceId, targets: seq<InstanceId>, command: E.WriteCommand,
                         policies: bool): Option<E.Snapshot>
    requires Setting(values, tree, peers, at, of, source, targets)
  {
    E.Effect(values, ranges, tree, peers, DerivedWrites(values, tree, peers, at, of, source, targets, command), command,
             policies && C.IsWriteAllowed(KeyWrites(tree, peers, of, command.entries)))
  }

  /** The command, as the compression edits see it, leaves the selected profile entries to them. */
  ghost predicate LeavesSelected(values: E.Snapshot, tree: E.Tree, peers: E.Peers, at: Places, of: Keys,
                                 source: InstanceId, targets: seq<InstanceId>, entries: seq<E.WriteEntry>)
    requires Setting(values, tree, peers, at, of, source, targets)
  {
    var view, writes := View(values, at), KeyWrites(tree, peers, of, entries);
    && C.WellFormed(writes) && G.AllKnown(view, C.Entries(source, targets, writes))
    && C.SelectedAreLeft(view, source, targets, writes)
  }

  /** A handled write keeps the mirror exactly when it is refused or changes no selected profile entry
      directly. */
  lemma HandledWritesKeepTheMirrorExactly(values: E.Snapshot, ranges: G.Ranges<StateValue>, tree: E.Tree,
                                          peers: E.Peers, at: Places, of: Keys, source: InstanceId,
                                          targets: seq<InstanceId>, command: E.WriteCommand, policies: bool)
    requires Setting(values, tree, peers, at, of, source, targets)
    requires E.Complaint(tree, command.entries, {}).None? ==> G.Separate(E.Writes(tree, peers, command.entries))
    ensures var changes := Changes(values, ranges, tree, peers, at, of, source, targets, command, policies);
      C.Mirror(View(values + E.OrNothing(changes), at)) <==>
        (changes.None? || LeavesSelected(values, tree, peers, at, of, source, targets, command.entries))
  {
    var changes := Changes(values, ranges, tree, peers, at, of, source, targets, command, policies);
    if changes.None? {
      assert values + E.OrNothing(changes) == values;
    } else {
      AcceptedWritesKeepTheMirrorExactly(values, ranges, tree, peers, at, of, source, targets, command);
    }
  }

  lemma AcceptedWritesKeepTheMirrorExactly(values: E.Snapshot, ranges: G.Ranges<StateValue>, tree: E.Tree,
                                           peers: E.Peers, at: Places, of: Keys, source: InstanceId,
                                           targets: seq<InstanceId>, command: E.WriteCommand)
    requires Setting(values, tree, peers, at, of, source, targets) && G.Separate(E.Writes(tree, peers, command.entries))
    requires Changes(values, ranges, tree, peers, at, of, source, targets, command, true).Some?
    ensures var changes := Changes(values, ranges, tree, peers, at, of, source, targets, command, true);
      C.Mirror(View(values + changes.value, at)) <==>
        LeavesSelected(values, tree, peers, at, of, source, targets, command.entries)
  {
    E.AcceptedEntriesAreTyped(tree, command.entries, {});
    E.WritesAreKnown(values, tree, peers, command.entries);
    DerivedIsProper(values, tree, peers, at, of, source, targets, command.entries);
    CommittedKeepsTheMirrorExactly(values, ranges, tree, peers, at, of, source, targets, command,
                                   Changes(values, ranges, tree, peers, at, of, source, targets, command, true));
  }

  lemma CommittedKeepsTheMirrorExactly(values: E.Snapshot, ranges: G.Ranges<StateValue>, tree: E.Tree, peers: E.Peers,
                                       at: Places, of: Keys, source: InstanceId, targets: seq<InstanceId>,
                                       command: E.WriteCommand, changes: Option<E.Snapshot>)
    requires Accepts(values, tree, peers, at, of, source, targets, command.entries)
    requires var view, writes := View(values, at), KeyWrites(tree, peers, of, command.entries);
      && C.Whole(view, source) && C.AllWhole(view, targets) && C.WellFormed(writes)
      && AllNamed(at, C.Derived(view, source, targets, writes)) && AreSingles(C.Derived(view, source, targets, writes))
      && E.DerivedTyped(values, Stored(at, C.Derived(view, source, targets, writes)))
      && changes ==
           E.Accepted(values, ranges, tree, peers, Stored(at, C.Derived(view, source, targets, writes)), command)
    requires changes.Some?
    ensures C.Mirror(View(values + changes.value, at)) <==>
      LeavesSelected(values, tree, peers, at, of, source, targets, command.entries)
  {
    var view, writes := View(values, at), KeyWrites(tree, peers, of, command.entries);
    EditIsProper(values, tree, peers, at, of, source, targets, command.entries);
    HandledAsEdited(values, ranges, tree, peers, at, of, source, targets, command);
    C.WritesKeepTheMirrorExactly(view, ViewRanges(ranges, at), source, targets, writes);
  }
}
