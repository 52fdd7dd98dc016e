/**
  What the check of a snapshot means for the rest of the program: an accepted restore keeps the
  compression mirror, a mirrored instance passes that part of the check, and a copied value can lie
  outside its range, in which case the instance can be captured but not restored.
 */
module RestoreConditions {
  import opened Common
  import opened StateValues
  import opened StateHistories
  import P = Persistence
  import C = CompressionMirror
  import E = StateEdits
  import G = GroupEdits
  import H = HistoryModel
  import B = BankGrouping
  import T = Topology

  /** Where a compression value of an instance lies among its persisted items. */
  function PlaceOf(layout: P.Layout, k: C.Key, i: InstanceId): (place: nat)
    requires P.Placed(layout) && C.IsKeyOf(k, i)
    ensures P.IsField(layout.items, place)
  {
    match k
    case Type(_) => layout.compression.typeAt
    case Active(_, n) => layout.compression.active[n]
    case Profile(_, p, n) =>
      assert P.AreParameters(layout.items, layout.compression.profiles[p]);
      layout.compression.profiles[p][n]
  }

  /** What a snapshot holds for the compression values of instance `i`. */
  function BaselineOf(layout: P.Layout, snapshot: P.Snapshot, i: InstanceId): (baseline: C.Values)
    requires P.Placed(layout) && P.Shaped(layout.items, snapshot)
    ensures forall k :: k in baseline <==> C.IsKeyOf(k, i)
    ensures forall k :: k in baseline ==> baseline[k] == snapshot[PlaceOf(layout, k, i)].content
  {
    map k | k in C.KeysOf(i) :: snapshot[PlaceOf(layout, k, i)].content
  }

  lemma RecordIsFloat(layout: P.Layout, snapshot: P.Snapshot, k: C.Key, i: InstanceId)
    requires P.Placed(layout) && P.Shaped(layout.items, snapshot)
    requires forall j :: 0 <= j < |layout.items| ==> P.RecordInRange(layout.items[j], snapshot[j])
    requires !k.Type? && C.IsKeyOf(k, i)
    ensures snapshot[PlaceOf(layout, k, i)].content.Float?
  {
    var place := PlaceOf(layout, k, i);
    assert P.RecordInRange(layout.items[place], snapshot[place]);
    if k.Profile? {
      assert P.AreParameters(layout.items, layout.compression.profiles[k.profile]);
    }
  }

  lemma BaselineIsWhole(layout: P.Layout, snapshot: P.Snapshot, i: InstanceId)
    requires P.Placed(layout) && P.Validated(layout, snapshot)
    ensures C.Whole(BaselineOf(layout, snapshot, i), i)
  {
    var baseline := BaselineOf(layout, snapshot, i);
    assert C.IsKeyOf(C.Type(i), i);
    forall n | 0 <= n < PARAMETERS ensures C.Active(i, n) in baseline && baseline[C.Active(i, n)].Float? {
      assert C.IsKeyOf(C.Active(i, n), i);
      RecordIsFloat(layout, snapshot, C.Active(i, n), i);
    }
    forall p, n | 0 <= p < PROFILES && 0 <= n < PARAMETERS
      ensures C.Profile(i, p, n) in baseline && baseline[C.Profile(i, p, n)].Float?
    {
      assert C.IsKeyOf(C.Profile(i, p, n), i);
      RecordIsFloat(layout, snapshot, C.Profile(i, p, n), i);
    }
  }

  lemma SelectedRecord(layout: P.Layout, snapshot: P.Snapshot, i: InstanceId, n: nat)
    requires P.Placed(layout) && P.Validated(layout, snapshot) && n < PARAMETERS
    requires C.Whole(BaselineOf(layout, snapshot, i), i)
    ensures var baseline := BaselineOf(layout, snapshot, i);
      baseline[C.Active(i, n)] == baseline[C.Profile(i, baseline[C.Type(i)].integer, n)]
  {
    var baseline := BaselineOf(layout, snapshot, i);
    var selected := baseline[C.Type(i)].integer;
    assert P.ProfilesAt(layout, snapshot)[selected][n] == P.RecordsAt(snapshot, layout.compression.active)[n];
  }

  /** A snapshot that passes the check gives an instance mirrored compression values, so restoring it
      is one of the events that keep the mirror in every slot. */
  lemma AcceptedRestoresAreEnabled(layout: P.Layout, snapshot: P.Snapshot, i: InstanceId, r: C.Rings)
    requires P.Placed(layout) && P.Validated(layout, snapshot) && H.Valid(r)
    ensures C.Enabled(r, C.Restore(i, BaselineOf(layout, snapshot, i)))
  {
    var baseline := BaselineOf(layout, snapshot, i);
    BaselineIsWhole(layout, snapshot, i);
    forall n | 0 <= n < PARAMETERS
      ensures baseline[C.Active(i, n)] == baseline[C.Profile(i, baseline[C.Type(i)].integer, n)]
    {
      SelectedRecord(layout, snapshot, i, n);
    }
  }

  // Captures

  /** What instance `i` shows of its compression. */
  ghost function Shown(layout: P.Layout, i: InstanceId): (values: C.Values)
    requires P.Placed(layout)
    reads P.AllValues(layout.items), set v | v in P.AllValues(layout.items) :: v.slots
    ensures forall k :: k in values <==> C.IsKeyOf(k, i)
    ensures forall k :: k in values ==> values[k] == P.FieldContent(layout.items, PlaceOf(layout, k, i))
  {
    map k | k in C.KeysOf(i) :: P.FieldContent(layout.items, PlaceOf(layout, k, i))
  }

  lemma SelectedParameter(layout: P.Layout, i: InstanceId, n: nat)
    requires P.Placed(layout) && C.Mirrored(Shown(layout, i), i) && n < PARAMETERS
    ensures var selected := P.FieldContent(layout.items, layout.compression.typeAt);
      && selected.Int? && 0 <= selected.integer < PROFILES
      && P.AreParameters(layout.items, layout.compression.profiles[selected.integer])
      && P.FieldContent(layout.items, layout.compression.active[n])
         == P.FieldContent(layout.items, layout.compression.profiles[selected.integer][n])
  {
    var values := Shown(layout, i);
    assert C.IsKeyOf(C.Type(i), i) && C.IsKeyOf(C.Active(i, n), i);
    var selected := values[C.Type(i)].integer;
    assert C.IsKeyOf(C.Profile(i, selected, n), i);
    assert values[C.Active(i, n)] == values[C.Profile(i, selected, n)];
  }

  lemma MirroredShowsSelected(layout: P.Layout, i: InstanceId)
    requires P.Placed(layout) && C.Mirrored(Shown(layout, i), i)
    ensures P.ShowsSelected(layout)
  {
    SelectedParameter(layout, i, 0);
    var profile := layout.compression.profiles[P.FieldContent(layout.items, layout.compression.typeAt).integer];
    var shown, selected := P.ContentsAt(layout.items, layout.compression.active), P.ContentsAt(layout.items, profile);
    forall n | 0 <= n < PARAMETERS ensures shown[n] == selected[n] {
      SelectedParameter(layout, i, n);
    }
  }

  /** As long as the mirror and the bank groups are kept, a capture can be restored exactly when every
      float of the instance lies in its range. */
  lemma MirroredCapturesNeedOnlyRanges(layout: P.Layout, snapshot: P.Snapshot, i: InstanceId)
    requires P.Placed(layout) && P.Disjoint(layout.items) && P.Captures(layout.items, snapshot)
    requires C.Mirrored(Shown(layout, i), i) && P.AreBankGroups(P.ContentsAt(layout.items, layout.groups))
    ensures P.Effect(layout, snapshot).Some? <==> P.InRanges(layout.items)
  {
    MirroredShowsSelected(layout, i);
    P.CapturesAreAcceptedExactly(layout, snapshot);
  }

  /** The groups that a list of records gives to the banks of instance `i`. */
  function GroupsOf(records: seq<Value>, i: InstanceId): (groups: B.Groups)
    requires |records| == BANK_COUNT && forall b :: 0 <= b < BANK_COUNT ==> records[b].GroupOf?
    ensures forall b :: b in groups <==> b.instanceId == i && b.bank < BANK_COUNT
    ensures forall b :: b in groups ==> groups[b] == records[b.bank].group
  {
    var banks := set n | 0 <= n < BANK_COUNT :: T.BankAddress(i, n);
    map b | b in banks :: records[b.bank].group
  }

  /** Proper bank groups are exactly those that the check of a snapshot accepts. */
  lemma AcceptedGroupsAreProper(records: seq<Value>, i: InstanceId)
    requires |records| == BANK_COUNT && forall b :: 0 <= b < BANK_COUNT ==> records[b].GroupOf?
    ensures P.AreBankGroups(records) <==> B.RestoresInstance(GroupsOf(records, i), i)
  {
    var groups := GroupsOf(records, i);
    assert forall b :: 0 <= b < BANK_COUNT ==>
      T.BankAddress(i, b) in groups && groups[T.BankAddress(i, b)] == records[b].group;
    if B.Proper(groups) {
      forall b, c | 0 <= b < c < BANK_COUNT && records[b] != GroupOf(None) ensures records[b] != records[c] {
        assert T.BankAddress(i, b) != T.BankAddress(i, c);
      }
    }
    if P.AreBankGroups(records) {
      forall b, c | b in groups && c in groups && groups[b].Some? && groups[b] == groups[c] ensures b == c {
        assert records[b.bank] == records[c.bank];
      }
    }
  }

  // A copy beyond the range

  lemma CopyEffect(values: E.Snapshot, ranges: G.Ranges<StateValue>, tree: E.Tree, peers: E.Peers, path: Path, x: Value)
    requires E.Wired(values, tree, peers) && path in tree && tree[path].Leaf?
    requires E.SameKind(tree[path].value.initialValue, x) && peers[tree[path].value] == [tree[path].value]
    ensures E.DerivedTyped(values, [])
    ensures var command := E.WriteCommand([E.WriteEntry(path, x, G.CopyValue)], 0, false);
      var effect := E.Effect(values, ranges, tree, peers, [], command, true);
      effect.Some? && tree[path].value in values + effect.value && (values + effect.value)[tree[path].value] == x
  {
    var v, entries := tree[path].value, [E.WriteEntry(path, x, G.CopyValue)];
    var command := E.WriteCommand(entries, 0, false);
    var e := G.Entry(v, [v], x, G.CopyValue);
    assert entries[1..] == [];
    assert E.Writes(tree, peers, entries) == [e];
    assert E.Direct([]) + [e] == [e];
    assert E.Staged(tree, peers, [], command) == [e];
    E.AcceptedEntriesAreTyped(tree, entries, {});
    E.StagedIsKnown(values, tree, peers, [], command);
    G.CopyIsTaken(values, ranges, v, x);
  }

  method WriteCopy(path: Path, x: Value, tree: E.Tree, peers: E.Peers, ranges: G.Ranges<StateValue>,
                   history: StateHistory, ghost all: set<StateValue>, ghost values: E.Snapshot, ghost seen: E.Snapshot)
    returns (status: E.WriteStatus)
    requires E.Wired(values, tree, peers) && path in tree && tree[path].Leaf?
    requires E.SameKind(tree[path].value.initialValue, x) && peers[tree[path].value] == [tree[path].value]
    requires E.Idle(all, values) && history.Valid() && E.Registered(history, all) && E.Observed(all, seen)
    modifies history`currentSlot, history`availableUndoCount, history`availableRedoCount, history`revision
    modifies all, set v | v in all :: v.slots
    ensures status == E.Applied || status == E.Unchanged
    ensures E.Shows(tree[path].value, x)
  {
    var command := E.WriteCommand([E.WriteEntry(path, x, G.CopyValue)], 0, false);
    CopyEffect(values, ranges, tree, peers, path, x);
    ghost var effect := E.Effect(values, ranges, tree, peers, [], command, true);
    status := E.HandleWrite(command, true, tree, peers, ranges, [], history, all, values, seen);
    assert E.Resting(tree[path].value, (values + effect.value)[tree[path].value]);
  }

  lemma CapturedField(items: seq<P.Item>, snapshot: P.Snapshot, place: nat)
    requires P.IsField(items, place) && P.Captures(items, snapshot)
    ensures snapshot[place] == P.FieldValue(P.Content(items[place].value))
  {
    assert snapshot[place] == P.CaptureItem(items[place]);
  }

  lemma OutOfRangeIsRefused(layout: P.Layout, snapshot: P.Snapshot, place: nat, x: Value)
    requires P.Placed(layout) && P.IsField(layout.items, place) && place < |snapshot|
    requires snapshot[place] == P.FieldValue(x)
    requires layout.items[place].range.Some? && !P.InRange(x, layout.items[place].range.value)
    ensures !P.Validated(layout, snapshot)
  {
    assert P.Shaped(layout.items, snapshot) ==> !P.RecordInRange(layout.items[place], snapshot[place]);
  }

  /** A copy is not checked against the range of the value it is written to. Written beyond it, the
      value is taken over, and the snapshot captured afterwards is refused. */
  method CopyBeyondRange(layout: P.Layout, place: nat, x: real, path: Path, tree: E.Tree, peers: E.Peers,
                         ranges: G.Ranges<StateValue>, history: StateHistory,
                         ghost all: set<StateValue>, ghost values: E.Snapshot, ghost seen: E.Snapshot)
    returns (status: E.WriteStatus, snapshot: P.Snapshot)
    requires P.Placed(layout) && P.IsField(layout.items, place) && layout.items[place].range.Some?
    requires !layout.items[place].range.value.Contains(x)
    requires path in tree && tree[path] == E.Leaf(layout.items[place].value)
    requires layout.items[place].value.initialValue.Float?
    requires E.Wired(values, tree, peers) && peers[tree[path].value] == [tree[path].value]
    requires E.Idle(all, values) && history.Valid() && E.Registered(history, all) && E.Observed(all, seen)
    modifies history`currentSlot, history`availableUndoCount, history`availableRedoCount, history`revision
    modifies all, set v | v in all :: v.slots
    ensures status == E.Applied || status == E.Unchanged
    ensures P.Captures(layout.items, snapshot) && snapshot[place] == P.FieldValue(Float(x))
    ensures !P.Validated(layout, snapshot)
  {
    status := WriteCopy(path, Float(x), tree, peers, ranges, history, all, values, seen);
    snapshot := P.CreateSnapshot(layout.items);
    CapturedField(layout.items, snapshot, place);
    OutOfRangeIsRefused(layout, snapshot, place, Float(x));
  }
}
