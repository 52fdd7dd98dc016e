/**
  The reset handler for a compression leaf, with the writes that the compression edits derive: the leaf goes
  to its initial value in every target, the selected profiles and the active values follow, and compression
  stays mirrored.
 */
module HandledResets {
  import opened Common
  import opened StateValues
  import opened StateHistories
  import opened RenamedEdits
  import opened ProfileEdits
  import C = CompressionMirror
  import E = StateEdits
  import G = GroupEdits
  import R = StateResets

  /** The values that the reset of a leaf reaches, by their places. */
  function LeafKeys(targets: seq<InstanceId>, leaf: C.Leaf): (keys: seq<C.Key>)
    ensures leaf.TypeLeaf? ==> forall k :: k in keys <==> k.Type? && k.instance in targets
    ensures leaf.ParameterLeaf? ==> forall k :: k in keys <==> k.Active? && k.node == leaf.node && k.instance in targets
  {
    if leaf.TypeLeaf? then C.TypeKeys(targets) else C.ActiveKeys(targets, leaf.node)
  }

  lemma {:induction false} TypeKeysAreDistinct(targets: seq<InstanceId>)
    requires Distinct(targets)
    ensures Distinct(C.TypeKeys(targets))
    decreases |targets|
  {
    if targets != [] {
      TypeKeysAreDistinct(targets[1..]);
      assert C.Type(targets[0]) !in C.TypeKeys(targets[1..]);
    }
  }

  lemma {:induction false} ActiveKeysAreDistinct(targets: seq<InstanceId>, node: nat)
    requires Distinct(targets)
    ensures Distinct(C.ActiveKeys(targets, node))
    decreases |targets|
  {
    if targets != [] {
      ActiveKeysAreDistinct(targets[1..], node);
      assert C.Active(targets[0], node) !in C.ActiveKeys(targets[1..], node);
    }
  }

  // What the edits say

  /** The reset of a leaf gives its initial value to what it reaches, and derives nothing for that. */
  lemma LeafIsGiven(view: C.Values, source: InstanceId, targets: seq<InstanceId>, leaf: C.Leaf, k: C.Key)
    requires C.Whole(view, source) && C.AllWhole(view, targets) && C.ProperLeaf(leaf) && k in view && !k.Other?
    requires C.WellFormed(C.AsWrite(leaf)) && G.AllKnown(view, C.Entries(source, targets, C.AsWrite(leaf)))
    ensures C.GivenValue(view, source, targets, C.AsWrite(leaf), k) ==
      if k in LeafKeys(targets, leaf) then Some(C.InitialValue(k)) else None
    ensures k in LeafKeys(targets, leaf) ==> C.DerivedAnywhere(view, source, targets, C.AsWrite(leaf), k).None?
  {
    var writes := C.AsWrite(leaf);
    var entry := C.Entry(source, targets, writes[0]);
    assert writes[1..] == [] && C.Entries(source, targets, writes) == [entry];
    C.EntriesGive(view, source, targets, writes, k);
    assert [entry][0] == entry && [entry][1..] == [];
    assert C.Reaches([entry], k) <==> k in entry.peers;
  }

  /** If the leaf is at its initial value wherever it was reached and displaced, and all else is what the
      derived writes leave, compression is mirrored. */
  lemma LeafResetKeepsTheMirror(view: C.Values, after: C.Values, source: InstanceId, targets: seq<InstanceId>,
                                leaf: C.Leaf)
    requires C.Mirror(view) && C.Whole(view, source) && C.AllWhole(view, targets) && C.ProperLeaf(leaf)
    requires C.WellFormed(C.AsWrite(leaf)) && Distinct(targets)
    requires G.AllKnown(view, C.Entries(source, targets, C.AsWrite(leaf)))
    requires G.AllKnown(view, C.Derived(view, source, targets, C.AsWrite(leaf)))
    requires after.Keys == view.Keys
    requires forall k :: k in view && !k.Other? ==>
      after[k] == if k in LeafKeys(targets, leaf) && view[k] != C.InitialValue(k) then C.InitialValue(k)
                  else G.After(view, C.Derived(view, source, targets, C.AsWrite(leaf)), k)
    ensures C.Mirror(after)
  {
    var writes := C.AsWrite(leaf);
    forall k | k in view && !k.Other?
      ensures after[k] == C.Outcome(view, source, targets, writes, k)
      ensures var derived := C.DerivedAnywhere(view, source, targets, writes, k);
        derived.Some? && derived.value != view[k] ==> C.GivenValue(view, source, targets, writes, k).None?
    {
      LeafIsGiven(view, source, targets, leaf, k);
      C.DerivedGives(view, source, targets, writes, k);
    }
    assert C.NoClash(view, source, targets, writes);
    C.NothingIsChangedDirectly(view, source, targets, writes);
    forall i | C.Type(i) in after ensures C.Mirrored(after, i) {
      C.MirrorAfterCommand(view, after, source, targets, writes, i);
    }
  }

  // What the handler does

  /** The world of a reset: that of a write, with the initial values that the edits know, and `v` the value
      of the leaf. */
  ghost predicate Resetting(values: E.Snapshot, tree: E.Tree, peers: E.Peers, at: Places, of: Keys, source: InstanceId,
                            targets: seq<InstanceId>, leaf: C.Leaf, v: StateValue)
  {
    && Setting(values, tree, peers, at, of, source, targets) && C.ProperLeaf(leaf)
    && (forall k :: k in at && !k.Other? ==> at[k].initialValue == C.InitialValue(k))
    && (exists path :: path in tree && tree[path] == E.Leaf(v))
    && v in of && of[v] == if leaf.TypeLeaf? then C.Type(source) else C.Active(source, leaf.node)
  }

  /** The writes that the edits derive. */
  function LeafWrites(values: E.Snapshot, tree: E.Tree, peers: E.Peers, at: Places, of: Keys, source: InstanceId,
                      targets: seq<InstanceId>, leaf: C.Leaf, v: StateValue): (derived: seq<(StateValue, Value)>)
    requires Resetting(values, tree, peers, at, of, source, targets, leaf, v)
    ensures E.DerivedTyped(values, derived) && R.Unrepeated(derived)
  {
    LeafIsProper(values, tree, peers, at, of, source, targets, leaf, v);
    LeafWritesAreProper(values, tree, peers, at, of, source, targets, leaf, v);
    Stored(at, C.Derived(View(values, at), source, targets, C.AsWrite(leaf)))
  }

  lemma ApartByName(of: Keys, values: seq<StateValue>)
    requires Named(of, values) && Distinct(RenameKeys(of, values))
    ensures Distinct(values)
  {
    var keys := RenameKeys(of, values);
    forall i, j | 0 <= i < j < |values| ensures values[i] != values[j] {
      assert keys[i] != keys[j];
    }
  }

  lemma LeafKeysAreDistinct(targets: seq<InstanceId>, leaf: C.Leaf)
    requires Distinct(targets)
    ensures Distinct(LeafKeys(targets, leaf))
  {
    if leaf.TypeLeaf? {
      TypeKeysAreDistinct(targets);
    } else {
      ActiveKeysAreDistinct(targets, leaf.node);
    }
  }

  /** The leaf and its peers, by value and by place. */
  lemma LeafPeers(values: E.Snapshot, tree: E.Tree, peers: E.Peers, at: Places, of: Keys, source: InstanceId,
                  targets: seq<InstanceId>, leaf: C.Leaf, v: StateValue)
    requires Resetting(values, tree, peers, at, of, source, targets, leaf, v)
    ensures v in peers && Named(of, peers[v]) && RenameKeys(of, peers[v]) == LeafKeys(targets, leaf)
    ensures (forall w :: w in peers[v] ==> w in values) && v in peers[v]
  {
    var path :| path in tree && tree[path] == E.Leaf(v);
    assert E.Wired(values, tree, peers) && tree[path].value == v;
  }

  lemma TargetsAreWhole(values: E.Snapshot, tree: E.Tree, peers: E.Peers, at: Places, of: Keys, source: InstanceId,
                        targets: seq<InstanceId>)
    requires Setting(values, tree, peers, at, of, source, targets)
    ensures C.Whole(View(values, at), source) && C.AllWhole(View(values, at), targets)
  {
    var view := View(values, at);
    assert C.Mirrored(view, source);
    forall t | t in targets ensures C.Whole(view, t) {
      assert C.Mirrored(view, t);
    }
  }

  lemma LeafIsKnown(view: C.Values, source: InstanceId, targets: seq<InstanceId>, leaf: C.Leaf)
    requires C.AllWhole(view, targets) && source in targets && C.ProperLeaf(leaf)
    ensures C.WellFormed(C.AsWrite(leaf)) && G.AllKnown(view, C.Entries(source, targets, C.AsWrite(leaf)))
  {
    C.LeafIsWellFormed(leaf);
    var writes := C.AsWrite(leaf);
    assert C.Entries(source, targets, writes) == [C.Entry(source, targets, writes[0])];
  }

  lemma LeafIsProper(values: E.Snapshot, tree: E.Tree, peers: E.Peers, at: Places, of: Keys, source: InstanceId,
                     targets: seq<InstanceId>, leaf: C.Leaf, v: StateValue)
    requires Resetting(values, tree, peers, at, of, source, targets, leaf, v)
    ensures v in peers && Named(of, peers[v]) && RenameKeys(of, peers[v]) == LeafKeys(targets, leaf)
    ensures (forall w :: w in peers[v] ==> w in values) && Distinct(peers[v])
    ensures var view := View(values, at);
      && C.Whole(view, source) && C.AllWhole(view, targets) && C.WellFormed(C.AsWrite(leaf))
      && G.AllKnown(view, C.Entries(source, targets, C.AsWrite(leaf)))
  {
    LeafPeers(values, tree, peers, at, of, source, targets, leaf, v);
    LeafKeysAreDistinct(targets, leaf);
    ApartByName(of, peers[v]);
    TargetsAreWhole(values, tree, peers, at, of, source, targets);
    var j :| 0 <= j < |peers[v]| && peers[v][j] == v;
    assert RenameKeys(of, peers[v])[j] == of[v];
    LeafIsKnown(View(values, at), source, targets, leaf);
  }

  lemma LeafWritesAreProper(values: E.Snapshot, tree: E.Tree, peers: E.Peers, at: Places, of: Keys, source: InstanceId,
                            targets: seq<InstanceId>, leaf: C.Leaf, v: StateValue)
    requires Resetting(values, tree, peers, at, of, source, targets, leaf, v)
    requires var view := View(values, at);
      C.Whole(view, source) && C.AllWhole(view, targets) && C.WellFormed(C.AsWrite(leaf))
    ensures var derived := C.Derived(View(values, at), source, targets, C.AsWrite(leaf));
      && AllNamed(at, derived) && AreSingles(derived) && G.AllKnown(View(values, at), derived) && G.Separate(derived)
      && E.DerivedTyped(values, Stored(at, derived)) && R.Unrepeated(Stored(at, derived))
  {
    var view, writes := View(values, at), C.AsWrite(leaf);
    var derived := C.Derived(view, source, targets, writes);
    C.DerivedGives(view, source, targets, writes, C.Type(source));
    C.TargetsAreSeparate(view, source, targets, writes);
    DerivedAreSingles(view, source, targets, writes);
    forall i | 0 <= i < |derived| ensures NamedEntry(at, derived[i]) {
      assert G.Known(view, derived[i]);
    }
    DerivedIsTyped(values, tree, peers, at, of, source, targets, derived);
    forall i, j | 0 <= i < j < |derived| ensures at[derived[i].source] != at[derived[j].source] {
      assert IsSingle(derived[i]) && IsSingle(derived[j]);
      assert derived[i].source in derived[i].peers && derived[j].source in derived[j].peers;
    }
  }

  /** No derived write is for a value that the reset reaches. */
  lemma LeafIsNotDerived(view: C.Values, source: InstanceId, targets: seq<InstanceId>, leaf: C.Leaf, i: nat)
    requires C.Whole(view, source) && C.AllWhole(view, targets) && C.ProperLeaf(leaf) && Distinct(targets)
    requires C.WellFormed(C.AsWrite(leaf)) && G.AllKnown(view, C.Entries(source, targets, C.AsWrite(leaf)))
    requires var derived := C.Derived(view, source, targets, C.AsWrite(leaf));
      G.AllKnown(view, derived) && AreSingles(derived) && i < |derived|
    ensures C.Derived(view, source, targets, C.AsWrite(leaf))[i].source !in LeafKeys(targets, leaf)
  {
    var writes := C.AsWrite(leaf);
    var derived := C.Derived(view, source, targets, writes);
    var k := derived[i].source;
    assert G.Known(view, derived[i]) && IsSingle(derived[i]);
    C.TargetsGive(view, source, targets, writes, k);
    assert C.Reaches(derived, k) by {
      assert derived[i] in derived;
    }
    LeafIsGiven(view, source, targets, leaf, k);
  }

  /** What the reset leaves at the place `k`. */
  lemma PlaceAfterReset(values: E.Snapshot, after: E.Snapshot, at: Places, of: Keys, derived: seq<G.Entry<C.Key>>,
                        reached: seq<StateValue>, k: C.Key)
    requires Inverse(at, of) && (forall l :: l in at ==> at[l] in values) && after.Keys == values.Keys
    requires AllNamed(at, derived) && AreSingles(derived) && G.AllKnown(View(values, at), derived)
    requires G.Separate(derived) && Named(of, reached) && k in at && at[k].initialValue == C.InitialValue(k)
    requires E.DerivedTyped(values, Stored(at, derived)) && R.ResetLeaves(values, after, Stored(at, derived), reached)
    ensures after[at[k]] ==
      if k in RenameKeys(of, reached) && values[at[k]] != C.InitialValue(k) then C.InitialValue(k)
      else G.After(View(values, at), derived, k)
  {
    var v, view, stored := at[k], View(values, at), Stored(at, derived);
    assert v in reached <==> k in RenameKeys(of, reached) by {
      if v in reached {
        var j :| 0 <= j < |reached| && reached[j] == v;
        assert RenameKeys(of, reached)[j] == k;
      }
      if j :| 0 <= j < |reached| && RenameKeys(of, reached)[j] == k {
        assert at[of[reached[j]]] == reached[j];
      }
    }
    if i :| 0 <= i < |derived| && derived[i].source == k {
      assert IsSingle(derived[i]) && k in derived[i].peers && stored[i].0 == v;
      G.AfterIsTarget(view, derived, i, k);
    } else {
      forall i | 0 <= i < |derived| ensures k !in derived[i].peers && stored[i].0 != v {
        assert IsSingle(derived[i]) && NamedEntry(at, derived[i]) && of[at[derived[i].source]] == derived[i].source;
      }
      G.NotReached(view, derived, k);
    }
  }

  lemma MirrorAfterReset(values: E.Snapshot, after: E.Snapshot, at: Places, of: Keys, source: InstanceId,
                         targets: seq<InstanceId>, leaf: C.Leaf, reached: seq<StateValue>)
    requires Inverse(at, of) && (forall k :: k in at ==> at[k] in values) && after.Keys == values.Keys
    requires forall k :: k in at && !k.Other? ==> at[k].initialValue == C.InitialValue(k)
    requires Distinct(targets) && C.ProperLeaf(leaf) && C.Mirror(View(values, at))
    requires Named(of, reached) && RenameKeys(of, reached) == LeafKeys(targets, leaf)
    requires var view := View(values, at);
      && C.Whole(view, source) && C.AllWhole(view, targets) && C.WellFormed(C.AsWrite(leaf))
      && G.AllKnown(view, C.Entries(source, targets, C.AsWrite(leaf)))
      && var derived := C.Derived(view, source, targets, C.AsWrite(leaf));
      && AllNamed(at, derived) && AreSingles(derived) && G.AllKnown(view, derived) && G.Separate(derived)
      && E.DerivedTyped(values, Stored(at, derived)) && R.ResetLeaves(values, after, Stored(at, derived), reached)
    ensures C.Mirror(View(after, at))
  {
    var view := View(values, at);
    var derived := C.Derived(view, source, targets, C.AsWrite(leaf));
    forall k | k in view && !k.Other?
      ensures View(after, at)[k] ==
        if k in LeafKeys(targets, leaf) && view[k] != C.InitialValue(k) then C.InitialValue(k)
        else G.After(view, derived, k)
    {
      PlaceAfterReset(values, after, at, of, derived, reached, k);
    }
    LeafResetKeepsTheMirror(view, View(after, at), source, targets, leaf);
  }

  /** What the reset of a leaf has to leave. */
  ghost predicate LeafIsReset(values: E.Snapshot, changes: E.Snapshot, at: Places, derived: seq<(StateValue, Value)>,
                              reached: seq<StateValue>)
    requires E.DerivedTyped(values, derived) && forall k :: k in at ==> at[k] in values
  {
    && changes.Keys <= values.Keys && R.ResetLeaves(values, values + changes, derived, reached)
    && C.Mirror(View(values + changes, at))
  }

  lemma DerivedResetsAreTaken(values: E.Snapshot, at: Places, of: Keys, source: InstanceId,
                              targets: seq<InstanceId>, leaf: C.Leaf, reached: seq<StateValue>)
    requires Inverse(at, of) && (forall k :: k in at ==> at[k] in values)
    requires forall k :: k in at && !k.Other? ==> at[k].initialValue == C.InitialValue(k)
    requires Distinct(targets) && C.ProperLeaf(leaf) && C.Mirror(View(values, at))
    requires Named(of, reached) && RenameKeys(of, reached) == LeafKeys(targets, leaf) && Distinct(reached)
    requires forall w :: w in reached ==> w in values
    requires var view := View(values, at);
      && C.Whole(view, source) && C.AllWhole(view, targets) && C.WellFormed(C.AsWrite(leaf))
      && G.AllKnown(view, C.Entries(source, targets, C.AsWrite(leaf)))
      && var derived := C.Derived(view, source, targets, C.AsWrite(leaf));
      && AllNamed(at, derived) && AreSingles(derived) && G.AllKnown(view, derived) && G.Separate(derived)
      && E.DerivedTyped(values, Stored(at, derived)) && R.Unrepeated(Stored(at, derived))
    ensures var stored := Stored(at, C.Derived(View(values, at), source, targets, C.AsWrite(leaf)));
      var effect := R.ResetEffect(values, stored, reached);
      effect.Some? && LeafIsReset(values, effect.value, at, stored, reached)
  {
    var stored := Stored(at, C.Derived(View(values, at), source, targets, C.AsWrite(leaf)));
    NothingCollides(values, at, of, source, targets, leaf, reached);
    R.ResetGives(values, stored, reached);
    var after := values + R.ResetEffect(values, stored, reached).value;
    MirrorAfterReset(values, after, at, of, source, targets, leaf, reached);
  }

  /** Resetting a compression leaf is always accepted, and keeps compression mirrored. */
  lemma LeafResetsAreTaken(values: E.Snapshot, tree: E.Tree, peers: E.Peers, at: Places, of: Keys, source: InstanceId,
                           targets: seq<InstanceId>, leaf: C.Leaf, v: StateValue)
    requires Resetting(values, tree, peers, at, of, source, targets, leaf, v)
    ensures v in peers && forall w :: w in peers[v] ==> w in values
    ensures var derived := LeafWrites(values, tree, peers, at, of, source, targets, leaf, v);
      var effect := R.ResetEffect(values, derived, peers[v]);
      effect.Some? && LeafIsReset(values, effect.value, at, derived, peers[v])
  {
    LeafIsProper(values, tree, peers, at, of, source, targets, leaf, v);
    LeafWritesAreProper(values, tree, peers, at, of, source, targets, leaf, v);
    DerivedResetsAreTaken(values, at, of, source, targets, leaf, peers[v]);
  }

  lemma NothingCollides(values: E.Snapshot, at: Places, of: Keys, source: InstanceId, targets: seq<InstanceId>,
                        leaf: C.Leaf, reached: seq<StateValue>)
    requires Inverse(at, of) && (forall k :: k in at ==> at[k] in values) && Distinct(targets) && C.ProperLeaf(leaf)
    requires Named(of, reached) && RenameKeys(of, reached) == LeafKeys(targets, leaf) && Distinct(reached)
    requires forall w :: w in reached ==> w in values
    requires var view := View(values, at);
      && C.Whole(view, source) && C.AllWhole(view, targets) && C.WellFormed(C.AsWrite(leaf))
      && G.AllKnown(view, C.Entries(source, targets, C.AsWrite(leaf)))
      && var derived := C.Derived(view, source, targets, C.AsWrite(leaf));
      && AllNamed(at, derived) && AreSingles(derived) && G.AllKnown(view, derived)
      && E.DerivedTyped(values, Stored(at, derived))
    ensures R.Resettable(values, Stored(at, C.Derived(View(values, at), source, targets, C.AsWrite(leaf))), reached)
  {
    var view := View(values, at);
    var derived := C.Derived(view, source, targets, C.AsWrite(leaf));
    forall i | 0 <= i < |derived| ensures at[derived[i].source] !in reached {
      LeafIsNotDerived(view, source, targets, leaf, i);
      assert NamedEntry(at, derived[i]) && of[at[derived[i].source]] == derived[i].source;
      assert forall j :: 0 <= j < |reached| ==> RenameKeys(of, reached)[j] == of[reached[j]];
    }
  }

  /** The loops of the compression edits compute the writes that a reset derives. */
  method Derive(values: E.Snapshot, tree: E.Tree, peers: E.Peers, at: Places, of: Keys, source: InstanceId,
                targets: seq<InstanceId>, leaf: C.Leaf, v: StateValue)
    returns (derived: seq<(StateValue, Value)>)
    requires Resetting(values, tree, peers, at, of, source, targets, leaf, v)
    ensures derived == LeafWrites(values, tree, peers, at, of, source, targets, leaf, v)
  {
    LeafIsProper(values, tree, peers, at, of, source, targets, leaf, v);
    LeafWritesAreProper(values, tree, peers, at, of, source, targets, leaf, v);
    var entries := C.PrepareReset(View(values, at), source, targets, leaf);
    derived := Stored(at, entries);
  }

  /** Resets one leaf, with what is derived for it. */
  method ResetLeaf(v: StateValue, derived: seq<(StateValue, Value)>, peers: E.Peers, history: StateHistory,
                   ghost all: set<StateValue>, ghost values: E.Snapshot, ghost seen: E.Snapshot)
    returns (ok: bool)
    requires E.Idle(all, values) && history.Valid() && E.Registered(history, all) && E.Observed(all, seen)
    requires v in peers && E.DerivedTyped(values, derived) && forall w :: w in peers[v] ==> w in values
    modifies history`currentSlot, history`availableUndoCount, history`availableRedoCount, history`revision
    modifies all, set w | w in all :: w.slots
    ensures var effect := R.ResetEffect(values, derived, peers[v]);
      ok == effect.Some? && E.Concluded(history, all, values, seen, old(history.Rings()), effect, true)
  {
    assert R.AllTargets([], R.Value(v), peers) == peers[v];
    ok := R.HandleReset(Some(R.Value(v)), derived, [], peers, history, all, values, seen);
  }

  /** The reset command for a compression leaf. What the loops of `Derive` compute enters as the function that
      they are proved equal to. */
  method HandleReset(tree: E.Tree, peers: E.Peers, at: Places, of: Keys, source: InstanceId,
                     targets: seq<InstanceId>, leaf: C.Leaf, v: StateValue, values: E.Snapshot, history: StateHistory,
                     ghost all: set<StateValue>, ghost seen: E.Snapshot)
    returns (ok: bool, ghost changes: E.Snapshot)
    requires E.Idle(all, values) && history.Valid() && E.Registered(history, all) && E.Observed(all, seen)
    requires Resetting(values, tree, peers, at, of, source, targets, leaf, v)
    modifies history`currentSlot, history`availableUndoCount, history`availableRedoCount, history`revision
    modifies all, set w | w in all :: w.slots
    ensures ok && v in peers
    ensures E.Concluded(history, all, values, seen, old(history.Rings()), Some(changes), true)
    ensures var derived := LeafWrites(values, tree, peers, at, of, source, targets, leaf, v);
      LeafIsReset(values, changes, at, derived, peers[v])
  {
    var derived := LeafWrites(values, tree, peers, at, of, source, targets, leaf, v);
    LeafResetsAreTaken(values, tree, peers, at, of, source, targets, leaf, v);
    changes := R.ResetEffect(values, derived, peers[v]).value;
    ok := ResetLeaf(v, derived, peers, history, all, values, seen);
  }
}
