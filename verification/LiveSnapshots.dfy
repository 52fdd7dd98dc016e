/**
  The runtime states follow the values. Every projected value is shown by a field of the runtime state of
  its instance, and the mute and solo values by the flags of the audibility observer; this holds between
  operations, together with the marks that lead to publications. Observers are told in the course of a
  commit or a jump, after all values hold what they will show; they touch nothing but runtime states,
  flags and marks, so telling them right afterwards comes to the same.
 */
module LiveSnapshots {
  import opened Common
  import opened StateValues
  import opened StateHistories
  import opened D = DspStates
  import E = StateEdits
  import R = StateResets
  import P = Persistence
  import G = GroupEdits
  import H = HistoryModel

  /** What the observers of a value do with it. */
  datatype Binding = Field(instance: InstanceId, field: nat) | Mute(instance: InstanceId) | Solo(instance: InstanceId)

  type Bindings = map<StateValue, Binding>

  predicate IsOn(x: Value) { x == Bool(true) }

  predicate FieldShows(runtime: DspRuntimeState, field: nat, x: Value)
    reads runtime`fields
  {
    field in runtime.fields && runtime.fields[field] == x
  }

  predicate FlagShows(entries: Entries, i: InstanceId, solo: bool, x: Value) {
    i in entries && (if solo then entries[i].solo else entries[i].mute) == IsOn(x)
  }

  /** The runtime side shows `x` where the binding leads. */
  ghost predicate Projects(registry: InstanceRegistry, b: Binding, x: Value)
    reads registry`instances, registry.audibility`entries, registry.Runtimes()`fields
  {
    && b.instance in registry.instances
    && match b
       case Field(i, f) => FieldShows(registry.instances[i].runtime, f, x)
       case Mute(i) => FlagShows(registry.audibility.entries, i, false, x)
       case Solo(i) => FlagShows(registry.audibility.entries, i, true, x)
  }

  predicate Injective(bindings: Bindings) {
    forall v, w :: v in bindings && w in bindings && v != w ==> bindings[v] != bindings[w]
  }

  /** The runtime side shows `contents`. */
  ghost predicate Shown(registry: InstanceRegistry, bindings: Bindings, contents: map<StateValue, Value>)
    reads registry`instances, registry.audibility`entries, registry.Runtimes()`fields
  {
    && Injective(bindings) && bindings.Keys <= contents.Keys
    && forall v {:trigger Projects(registry, bindings[v], contents[v])} :: v in bindings ==>
         Projects(registry, bindings[v], contents[v])
  }

  /** The projection of a value: nothing but its own field changes. */
  method Project(registry: InstanceRegistry, i: InstanceId, field: nat, x: Value)
    requires registry.Consistent() && i in registry.instances
    modifies registry.Runtimes(), registry.tracker
    ensures registry.Consistent() && Projects(registry, Field(i, field), x)
    ensures forall c: Binding, y: Value {:trigger Projects(registry, c, y)} :: c != Field(i, field) ==>
      Projects(registry, c, y) == old(Projects(registry, c, y))
  {
    registry.ValueChanged(i, field, x);
  }

  /** The flag of an instance: nothing but it and the audibility that follows from it changes. */
  method Flag(registry: InstanceRegistry, i: InstanceId, solo: bool, x: Value)
    requires registry.Consistent() && i in registry.instances
    modifies registry.tracker, registry.audibility`entries, registry.audibility.Runtimes()`audible
    ensures registry.Consistent() && Projects(registry, if solo then Solo(i) else Mute(i), x)
    ensures registry.audibility.Runtimes() == old(registry.audibility.Runtimes())
    ensures forall c: Binding, y: Value {:trigger Projects(registry, c, y)} ::
      c != (if solo then Solo(i) else Mute(i)) ==>
      Projects(registry, c, y) == old(Projects(registry, c, y))
  {
    ghost var before := registry.audibility.entries;
    registry.FlagChanged(i, solo, IsOn(x));
    OtherFlags(before, i, solo, x);
    forall c: Binding, y: Value | c != (if solo then Solo(i) else Mute(i))
      ensures Projects(registry, c, y) == old(Projects(registry, c, y))
    {
      assert c.Field? && c.instance in registry.instances ==>
        FieldShows(registry.instances[c.instance].runtime, c.field, y)
        == old(FieldShows(registry.instances[c.instance].runtime, c.field, y));
    }
  }

  lemma OtherFlags(entries: Entries, i: InstanceId, solo: bool, x: Value)
    requires i in entries
    ensures var next := entries[i := WithFlag(entries[i], solo, IsOn(x))];
      && FlagShows(next, i, solo, x)
      && forall j, other, y {:trigger FlagShows(next, j, other, y)} :: j != i || other != solo ==>
           FlagShows(next, j, other, y) == FlagShows(entries, j, other, y)
  {
  }

  method Tell(registry: InstanceRegistry, b: Binding, x: Value)
    requires registry.Consistent() && b.instance in registry.instances
    modifies registry.Runtimes(), registry.tracker, registry.audibility`entries, registry.audibility.Runtimes()`audible
    ensures registry.Consistent() && Projects(registry, b, x)
    ensures registry.audibility.Runtimes() == old(registry.audibility.Runtimes())
    ensures forall c: Binding, y: Value {:trigger Projects(registry, c, y)} :: c != b ==>
      Projects(registry, c, y) == old(Projects(registry, c, y))
  {
    match b
    case Field(i, f) => Project(registry, i, f, x);
    case Mute(i) => Flag(registry, i, false, x);
    case Solo(i) => Flag(registry, i, true, x);
  }

  /** One value tells its observers. */
  method Notify(registry: InstanceRegistry, bindings: Bindings, v: StateValue, x: Value,
                ghost contents: map<StateValue, Value>)
    requires registry.Consistent() && Shown(registry, bindings, contents) && v in bindings
    modifies registry.Runtimes(), registry.tracker, registry.audibility`entries, registry.audibility.Runtimes()`audible
    ensures registry.Consistent() && Shown(registry, bindings, contents[v := x])
    ensures registry.audibility.Runtimes() == old(registry.audibility.Runtimes())
  {
    var b := bindings[v];
    assert Projects(registry, b, contents[v]);
    Tell(registry, b, x);
    ghost var next := contents[v := x];
    forall w | w in bindings ensures Projects(registry, bindings[w], next[w]) {
      assert old(Projects(registry, bindings[w], contents[w]));
      assert w != v ==> bindings[w] != b;
    }
  }

  /** All changed values tell their observers what they show now. */
  method Deliver(registry: InstanceRegistry, bindings: Bindings, changed: set<StateValue>,
                 ghost contents: map<StateValue, Value>)
    requires registry.Consistent() && Shown(registry, bindings, contents) && changed <= bindings.Keys
    requires forall v :: v in bindings && v !in changed ==> v.observed == contents[v]
    modifies registry.Runtimes(), registry.tracker, registry.audibility`entries, registry.audibility.Runtimes()`audible
    ensures registry.Consistent() && registry.instances == old(registry.instances)
    ensures Shown(registry, bindings, map v | v in bindings :: v.observed)
  {
    var rest := changed;
    ghost var now := contents;
    while rest != {}
      invariant rest <= changed
      invariant registry.Consistent() && Shown(registry, bindings, now)
      invariant registry.instances == old(registry.instances)
      invariant registry.audibility.Runtimes() == old(registry.audibility.Runtimes())
      invariant now.Keys == contents.Keys && forall v :: v in bindings && v !in rest ==> now[v] == v.observed
      decreases rest
    {
      var v :| v in rest;
      Notify(registry, bindings, v, v.observed, now);
      now := now[v := v.observed];
      rest := rest - {v};
    }
    Same(registry, bindings, now);
  }

  lemma Same(registry: InstanceRegistry, bindings: Bindings, contents: map<StateValue, Value>)
    requires Shown(registry, bindings, contents) && forall v :: v in bindings ==> contents[v] == v.observed
    ensures Shown(registry, bindings, map v | v in bindings :: v.observed)
  {
    ghost var now := map v | v in bindings :: v.observed;
    forall v | v in bindings ensures Projects(registry, bindings[v], now[v]) {
      assert Projects(registry, bindings[v], contents[v]);
    }
  }

  // The invariant

  function Told(bindings: Bindings): map<StateValue, Value>
    reads bindings.Keys`observed
  {
    map v | v in bindings :: v.observed
  }

  ghost predicate UpToDate(v: StateValue)
    reads v`currentSlot, v`observed, v.slots
  {
    v.currentSlot < v.slots.Length && v.observed == v.Current()
  }

  ghost predicate AllUpToDate(bindings: Bindings)
    reads bindings.Keys, set v | v in bindings :: v.slots
  {
    forall v {:trigger UpToDate(v)} :: v in bindings ==> UpToDate(v)
  }

  /** Between operations: the runtime side shows what every projected value holds, audibility is settled,
      and what is not published is marked. */
  ghost predicate Live(registry: InstanceRegistry, bindings: Bindings)
    reads registry, registry.tracker, registry.audibility, registry.Runtimes(), registry.audibility.Runtimes()
    reads bindings.Keys, set v | v in bindings :: v.slots
  {
    registry.Consistent() && AllUpToDate(bindings) && Shown(registry, bindings, Told(bindings))
  }

  /** What that means for one value. */
  lemma LiveValues(registry: InstanceRegistry, bindings: Bindings, v: StateValue)
    requires Live(registry, bindings) && v in bindings
    ensures v.currentSlot < v.slots.Length && bindings[v].instance in registry.instances
    ensures var instance := registry.instances[bindings[v].instance];
      match bindings[v]
      case Field(_, f) => f in instance.runtime.fields && instance.runtime.fields[f] == v.Current()
      case Mute(i) =>
        && i in registry.audibility.entries
        && registry.audibility.entries[i].mute == (v.Current() == Bool(true))
      case Solo(i) =>
        && i in registry.audibility.entries
        && registry.audibility.entries[i].solo == (v.Current() == Bool(true))
  {
    assert UpToDate(v) && Projects(registry, bindings[v], Told(bindings)[v]);
  }

  /** The end of an operation: values that have changed since they told `told` to their observers tell
      them, and what is marked is published if `publish` asks for it. */
  method Conclude(registry: InstanceRegistry, bindings: Bindings, told: map<StateValue, Value>, publish: bool)
    requires registry.Consistent() && Shown(registry, bindings, told) && AllUpToDate(bindings)
    modifies registry`instances, registry.Runtimes(), registry.tracker
    modifies registry.audibility`entries, registry.audibility.Runtimes()`audible
    ensures Live(registry, bindings) && (publish ==> registry.UpToDate())
    ensures SameRuntimes(old(registry.instances), registry.instances)
  {
    var changed := set v | v in bindings && v.observed != told[v];
    Deliver(registry, bindings, changed, told);
    Publish(registry, bindings, publish);
  }

  method Publish(registry: InstanceRegistry, bindings: Bindings, publish: bool)
    requires Live(registry, bindings)
    modifies registry`instances, registry.tracker
    ensures Live(registry, bindings) && (publish ==> registry.UpToDate())
    ensures SameRuntimes(old(registry.instances), registry.instances)
  {
    OthersAreShown(registry, bindings);
    PublishMarked(registry, publish);
    AreShown(registry, bindings);
  }

  /** Publishing does not change what is shown. */
  method PublishMarked(registry: InstanceRegistry, publish: bool)
    requires registry.Consistent()
    modifies registry`instances, registry.tracker
    ensures registry.Consistent() && (publish ==> registry.UpToDate())
    ensures SameRuntimes(old(registry.instances), registry.instances)
    ensures forall c: Binding, y: Value {:trigger Projects(registry, c, y)} :: old(Projects(registry, c, y)) ==>
      Projects(registry, c, y)
  {
    registry.FinishCommand(true, publish);
  }

  // What keeps it

  /** A write command. */
  method Write(registry: InstanceRegistry, bindings: Bindings,
               command: E.WriteCommand, allowed: bool, tree: E.Tree, peers: E.Peers, ranges: G.Ranges<StateValue>,
               derived: seq<(StateValue, Value)>, history: StateHistory,
               ghost all: set<StateValue>, ghost values: E.Snapshot, ghost seen: E.Snapshot)
    returns (status: E.WriteStatus)
    requires Live(registry, bindings) && bindings.Keys <= all
    requires E.Idle(all, values) && history.Valid() && E.Registered(history, all) && E.Observed(all, seen)
    requires E.Wired(values, tree, peers) && E.DerivedTyped(values, derived)
    modifies history`currentSlot, history`availableUndoCount, history`availableRedoCount, history`revision
    modifies all, set v | v in all :: v.slots
    modifies registry`instances, registry.Runtimes(), registry.tracker
    modifies registry.audibility`entries, registry.audibility.Runtimes()`audible
    ensures Live(registry, bindings) && (status.Applied? ==> registry.UpToDate())
    ensures status == E.Outcome(values, ranges, tree, peers, derived, command, allowed)
  {
    var told := Told(bindings);
    status := Edit(bindings, command, allowed, tree, peers, ranges, derived, history, all, values, seen);
    Conclude(registry, bindings, told, status.Applied?);
  }

  method Edit(ghost bindings: Bindings, command: E.WriteCommand, allowed: bool, tree: E.Tree, peers: E.Peers,
              ranges: G.Ranges<StateValue>, derived: seq<(StateValue, Value)>, history: StateHistory,
              ghost all: set<StateValue>, ghost values: E.Snapshot, ghost seen: E.Snapshot)
    returns (status: E.WriteStatus)
    requires AllUpToDate(bindings) && bindings.Keys <= all
    requires E.Idle(all, values) && history.Valid() && E.Registered(history, all) && E.Observed(all, seen)
    requires E.Wired(values, tree, peers) && E.DerivedTyped(values, derived)
    modifies history`currentSlot, history`availableUndoCount, history`availableRedoCount, history`revision
    modifies all, set v | v in all :: v.slots
    ensures AllUpToDate(bindings)
    ensures status == E.Outcome(values, ranges, tree, peers, derived, command, allowed)
  {
    KnownBefore(bindings, all, values, seen);
    ghost var before := history.Rings();
    status := E.HandleWrite(command, allowed, tree, peers, ranges, derived, history, all, values, seen);
    E.ObserversStayUpToDate(history, all, values, seen, before,
                            E.Effect(values, ranges, tree, peers, derived, command, allowed), command.OpensPoint());
    KnownAfter(bindings, all, values, seen);
  }

  lemma KnownBefore(bindings: Bindings, all: set<StateValue>, values: E.Snapshot, seen: E.Snapshot)
    requires AllUpToDate(bindings) && bindings.Keys <= all && E.Idle(all, values) && E.Observed(all, seen)
    ensures forall v :: v in bindings ==> v in seen && v in values && seen[v] == values[v]
  {
    forall v | v in bindings ensures v in seen && v in values && seen[v] == values[v] {
      assert UpToDate(v) && E.Resting(v, values[v]);
    }
  }

  lemma KnownAfter(bindings: Bindings, all: set<StateValue>, values: E.Snapshot, seen: E.Snapshot)
    requires bindings.Keys <= all && values.Keys == all && seen.Keys == all
    requires forall v :: v in bindings ==> seen[v] == values[v]
    requires forall v :: v in all ==> v.Valid() && (seen[v] == values[v] ==> v.observed == v.Current())
    ensures AllUpToDate(bindings)
  {
  }

  /** A reset command, which publishes whenever it succeeds. */
  method Reset(registry: InstanceRegistry, bindings: Bindings,
               target: Option<R.ResetNode>, derived: seq<(StateValue, Value)>, resets: seq<StateValue>, peers: E.Peers,
               history: StateHistory, ghost all: set<StateValue>, ghost values: E.Snapshot, ghost seen: E.Snapshot)
    returns (ok: bool)
    requires Live(registry, bindings) && bindings.Keys <= all
    requires E.Idle(all, values) && history.Valid() && E.Registered(history, all) && E.Observed(all, seen)
    requires E.DerivedTyped(values, derived)
    requires (target.Some? ==> R.Within(R.AllTargets(resets, target.value, peers), all))
    modifies history`currentSlot, history`availableUndoCount, history`availableRedoCount, history`revision
    modifies all, set v | v in all :: v.slots
    modifies registry`instances, registry.Runtimes(), registry.tracker
    modifies registry.audibility`entries, registry.audibility.Runtimes()`audible
    ensures Live(registry, bindings) && (ok ==> registry.UpToDate())
  {
    var told := Told(bindings);
    ok := ResetValues(bindings, target, derived, resets, peers, history, all, values, seen);
    Conclude(registry, bindings, told, ok);
  }

  method ResetValues(ghost bindings: Bindings, target: Option<R.ResetNode>, derived: seq<(StateValue, Value)>,
                     resets: seq<StateValue>, peers: E.Peers, history: StateHistory,
                     ghost all: set<StateValue>, ghost values: E.Snapshot, ghost seen: E.Snapshot)
    returns (ok: bool)
    requires AllUpToDate(bindings) && bindings.Keys <= all
    requires E.Idle(all, values) && history.Valid() && E.Registered(history, all) && E.Observed(all, seen)
    requires E.DerivedTyped(values, derived)
    requires (target.Some? ==> R.Within(R.AllTargets(resets, target.value, peers), all))
    modifies history`currentSlot, history`availableUndoCount, history`availableRedoCount, history`revision
    modifies all, set v | v in all :: v.slots
    ensures AllUpToDate(bindings)
  {
    KnownBefore(bindings, all, values, seen);
    ghost var before := history.Rings();
    ghost var effect :=
      if target.Some? then R.ResetEffect(values, derived, R.AllTargets(resets, target.value, peers)) else None;
    ok := R.HandleReset(target, derived, resets, peers, history, all, values, seen);
    E.ObserversStayUpToDate(history, all, values, seen, before, effect, true);
    KnownAfter(bindings, all, values, seen);
  }

  /** A jump through the history. */
  method Jump(registry: InstanceRegistry, bindings: Bindings, history: StateHistory, cursor: int) returns (ok: bool)
    requires Live(registry, bindings) && history.Valid()
    modifies history`currentSlot, history`availableUndoCount, history`availableRedoCount, history`revision
    modifies history.values`currentSlot, history.values`previousSlotValue, history.values`observed
    modifies registry`instances, registry.Runtimes(), registry.tracker
    modifies registry.audibility`entries, registry.audibility.Runtimes()`audible
    ensures history.Valid() && ok == (0 <= cursor <= old(history.availableUndoCount + history.availableRedoCount))
    ensures Live(registry, bindings) && (ok ==> registry.UpToDate())
  {
    var told := Told(bindings);
    ok := MoveTo(bindings, history, cursor);
    Conclude(registry, bindings, told, ok);
  }

  method MoveTo(bindings: Bindings, history: StateHistory, cursor: int) returns (ok: bool)
    requires AllUpToDate(bindings) && history.Valid()
    modifies history`currentSlot, history`availableUndoCount, history`availableRedoCount, history`revision
    modifies history.values`currentSlot, history.values`previousSlotValue, history.values`observed
    ensures history.Valid() && history.Rings() == H.Apply(old(history.Rings()), H.Operation.Jump(cursor))
    ensures ok == (0 <= cursor <= old(history.availableUndoCount + history.availableRedoCount))
    ensures AllUpToDate(bindings)
  {
    ok := history.JumpToHistory(cursor);
    forall v | v in bindings ensures UpToDate(v) {
      assert old(UpToDate(v));
      if i :| 0 <= i < |history.values| && history.values[i] == v {
        assert history.values[i].Valid();
      }
    }
  }

  /** Restoring an instance. */
  method Restore(registry: InstanceRegistry, bindings: Bindings, layout: P.Layout, snapshot: P.Snapshot,
                 history: StateHistory, ghost all: set<StateValue>, ghost before: map<StateValue, P.Holding>)
    returns (ok: bool)
    requires Live(registry, bindings) && bindings.Keys <= all
    requires P.Ready(all) && P.Held(all, before) && P.Placed(layout) && P.Disjoint(layout.items)
    requires P.AllValues(layout.items) <= all
    requires history.Valid() && forall i :: 0 <= i < |history.values| ==> history.values[i] in all
    modifies all, set v | v in all :: v.slots
    modifies registry`instances, registry.Runtimes(), registry.tracker
    modifies registry.audibility`entries, registry.audibility.Runtimes()`audible
    ensures ok == P.Effect(layout, snapshot).Some?
    ensures Live(registry, bindings) && (ok ==> registry.UpToDate())
  {
    var told := Told(bindings);
    ok := RestoreValues(bindings, layout, snapshot, history, all, before);
    Conclude(registry, bindings, told, ok);
  }

  method RestoreValues(ghost bindings: Bindings, layout: P.Layout, snapshot: P.Snapshot,
                       history: StateHistory, ghost all: set<StateValue>, ghost before: map<StateValue, P.Holding>)
    returns (ok: bool)
    requires AllUpToDate(bindings) && bindings.Keys <= all
    requires P.Ready(all) && P.Held(all, before) && P.Placed(layout) && P.Disjoint(layout.items)
    requires P.AllValues(layout.items) <= all
    requires history.Valid() && forall i :: 0 <= i < |history.values| ==> history.values[i] in all
    modifies all, set v | v in all :: v.slots
    ensures ok == P.Effect(layout, snapshot).Some?
    ensures AllUpToDate(bindings)
  {
    forall v | v in bindings ensures before[v].UpToDate() {
      assert UpToDate(v) && P.HoldingOf(v) == before[v];
    }
    ok := P.Restore(layout, snapshot, history, all, before);
    RestoredAreUpToDate(bindings, all, before, P.OrNothing(P.Effect(layout, snapshot)));
  }

  lemma RestoredAreUpToDate(bindings: Bindings, all: set<StateValue>, before: map<StateValue, P.Holding>,
                            plan: P.Baselines)
    requires bindings.Keys <= all && before.Keys == all && P.AllRestored(all, before, plan)
    requires forall v :: v in bindings ==> before[v].UpToDate()
    ensures AllUpToDate(bindings)
  {
    forall v | v in bindings ensures UpToDate(v) {
      assert P.Restored(v, before[v], Lookup(plan, v)) && P.HoldingOf(v).UpToDate();
    }
  }

  // Instances come and go

  /** The bindings of an instance. */
  function BindingsOf(i: InstanceId, fields: map<StateValue, nat>, mute: StateValue, solo: StateValue): Bindings {
    (map v | v in fields :: Field(i, fields[v])) + map[mute := Mute(i), solo := Solo(i)]
  }

  /** Every value has a field of its own. */
  predicate OwnFields(fields: map<StateValue, nat>) {
    forall v, w :: v in fields && w in fields && v != w ==> fields[v] != fields[w]
  }

  /** New values, projected to fields of their own and to the flags. */
  ghost predicate NewValues(bindings: Bindings, fields: map<StateValue, nat>, mute: StateValue, solo: StateValue)
    reads fields.Keys, mute, solo, set v | v in fields :: v.slots
    reads mute.slots, solo.slots
  {
    && mute != solo && mute !in fields && solo !in fields && UpToDate(mute) && UpToDate(solo)
    && (forall v {:trigger UpToDate(v)} :: v in fields ==> UpToDate(v))
    && OwnFields(fields)
    && fields.Keys !! bindings.Keys && mute !in bindings && solo !in bindings
  }

  ghost predicate IsNew(registry: InstanceRegistry, i: InstanceId, runtime: DspRuntimeState)
    reads registry`instances, registry.audibility`entries
  {
    && i !in registry.instances && i !in registry.audibility.entries
    && runtime !in registry.Runtimes() && runtime !in registry.audibility.Runtimes()
  }

  lemma AttachedTwice(entries: Entries, i: InstanceId, runtime: DspRuntimeState, mute: bool, solo: bool)
    requires i !in entries
    ensures Attached(Attached(entries, i, runtime, false, mute), i, runtime, true, solo)
      == entries[i := Entry(runtime, mute, solo, 2)]
  {
  }

  method AttachFlags(registry: InstanceRegistry, i: InstanceId, runtime: DspRuntimeState, mute: bool, solo: bool)
    requires registry.Consistent() && IsNew(registry, i, runtime)
    modifies runtime`audible, registry.tracker, registry.audibility`entries, registry.audibility.Runtimes()`audible
    ensures registry.Consistent()
    ensures registry.audibility.entries == old(registry.audibility.entries)[i := Entry(runtime, mute, solo, 2)]
  {
    AttachedTwice(registry.audibility.entries, i, runtime, mute, solo);
    AttachMute(registry, i, runtime, mute);
    registry.AttachFlag(i, runtime, true, solo);
  }

  method AttachMute(registry: InstanceRegistry, i: InstanceId, runtime: DspRuntimeState, mute: bool)
    requires registry.Consistent() && IsNew(registry, i, runtime)
    modifies runtime`audible, registry.tracker, registry.audibility`entries, registry.audibility.Runtimes()`audible
    ensures registry.Consistent()
    ensures registry.audibility.entries == Attached(old(registry.audibility.entries), i, runtime, false, mute)
    ensures registry.audibility.Runtimes() == old(registry.audibility.Runtimes()) + {runtime}
    ensures forall j :: j in registry.audibility.entries && j != i ==> registry.audibility.entries[j].runtime != runtime
  {
    assert forall j :: j in registry.audibility.entries ==>
      registry.audibility.entries[j].runtime in registry.audibility.Runtimes();
    ghost var before := registry.audibility.entries;
    registry.AttachFlag(i, runtime, false, mute);
    assert forall j :: j in before ==> registry.audibility.entries[j].runtime == before[j].runtime;
    assert registry.audibility.entries[i].runtime == runtime;
  }

  /** The state of an instance is built: its flags attach, and its values are projected. */
  method Build(registry: InstanceRegistry, i: InstanceId, runtime: DspRuntimeState, fields: map<StateValue, nat>,
               mute: StateValue, solo: StateValue)
    requires registry.Consistent() && IsNew(registry, i, runtime) && OwnFields(fields)
    modifies runtime, registry.tracker, registry.audibility`entries, registry.audibility.Runtimes()`audible
    ensures registry.Consistent()
    ensures registry.audibility.entries ==
      old(registry.audibility.entries)[i := Entry(runtime, IsOn(mute.observed), IsOn(solo.observed), 2)]
    ensures forall v :: v in fields ==> FieldShows(runtime, fields[v], v.observed)
  {
    AttachFlags(registry, i, runtime, IsOn(mute.observed), IsOn(solo.observed));
    ProjectAll(registry, i, runtime, fields);
  }

  method ProjectAll(registry: InstanceRegistry, ghost i: InstanceId, runtime: DspRuntimeState,
                    fields: map<StateValue, nat>)
    requires registry.Consistent() && runtime !in registry.Runtimes() && OwnFields(fields)
    modifies runtime`fields
    ensures registry.Consistent()
    ensures forall v :: v in fields ==> FieldShows(runtime, fields[v], v.observed)
  {
    var rest := fields.Keys;
    while rest != {}
      invariant rest <= fields.Keys && registry.Consistent()
      invariant forall v :: v in fields && v !in rest ==> FieldShows(runtime, fields[v], v.observed)
      decreases rest
    {
      var v :| v in rest;
      runtime.fields := runtime.fields[fields[v] := v.observed];
      rest := rest - {v};
    }
  }

  /** Bindings of other instances are shown as before. */
  twostate predicate OthersStay(registry: InstanceRegistry, i: InstanceId)
    reads registry`instances, registry.audibility`entries, registry.Runtimes()`fields
  {
    forall c: Binding, y: Value {:trigger Projects(registry, c, y)} ::
      c.instance != i && old(Projects(registry, c, y)) ==>
      Projects(registry, c, y)
  }

  lemma NewAreUpToDate(bindings: Bindings, joined: Bindings, fields: map<StateValue, nat>, mute: StateValue,
                       solo: StateValue)
    requires AllUpToDate(bindings) && NewValues(bindings, fields, mute, solo)
    requires joined.Keys == bindings.Keys + fields.Keys + {mute, solo}
    ensures AllUpToDate(joined)
  {
  }

  lemma OthersAreShown(registry: InstanceRegistry, bindings: Bindings)
    requires Shown(registry, bindings, Told(bindings))
    ensures forall v :: v in bindings ==> Projects(registry, bindings[v], v.observed)
  {
    forall v | v in bindings ensures Projects(registry, bindings[v], v.observed) {
      assert Projects(registry, bindings[v], Told(bindings)[v]);
    }
  }

  /** An instance joins. */
  method Join(registry: InstanceRegistry, bindings: Bindings, i: InstanceId, runtime: DspRuntimeState,
              fields: map<StateValue, nat>, mute: StateValue, solo: StateValue)
    returns (joined: Bindings)
    requires Live(registry, bindings) && IsNew(registry, i, runtime) && NewValues(bindings, fields, mute, solo)
    modifies registry`instances, runtime, registry.tracker,
      registry.audibility`entries, registry.audibility.Runtimes()`audible
    ensures joined == bindings + BindingsOf(i, fields, mute, solo)
    ensures Live(registry, joined) && registry.UpToDate()
  {
    joined := bindings + BindingsOf(i, fields, mute, solo);
    JoinedBindings(bindings, i, fields, mute, solo);
    NewAreUpToDate(bindings, joined, fields, mute, solo);
    OthersAreShown(registry, bindings);
    JoinShown(registry, bindings, joined, i, runtime, fields, mute, solo);
  }

  method JoinShown(registry: InstanceRegistry, ghost bindings: Bindings, ghost joined: Bindings, i: InstanceId,
                   runtime: DspRuntimeState, fields: map<StateValue, nat>, mute: StateValue, solo: StateValue)
    requires registry.Consistent() && IsNew(registry, i, runtime) && AllUpToDate(joined) && Injective(bindings)
    requires forall v :: v in bindings ==> Projects(registry, bindings[v], v.observed)
    requires mute != solo && mute !in fields && solo !in fields
    requires OwnFields(fields)
    requires joined.Keys == bindings.Keys + fields.Keys + {mute, solo} && joined[mute] == Mute(i)
    requires joined[solo] == Solo(i)
    requires forall v :: v in fields ==> joined[v] == Field(i, fields[v])
    requires forall v :: v in bindings ==> joined[v] == bindings[v]
    modifies registry`instances, runtime, registry.tracker,
      registry.audibility`entries, registry.audibility.Runtimes()`audible
    ensures Live(registry, joined) && registry.UpToDate()
  {
    BuildAndRegister(registry, i, runtime, fields, mute, solo);
    JoinedIsShown(registry, bindings, joined, i, fields, mute, solo);
  }

  method BuildAndRegister(registry: InstanceRegistry, i: InstanceId, runtime: DspRuntimeState,
                          fields: map<StateValue, nat>, mute: StateValue, solo: StateValue)
    requires registry.Consistent() && IsNew(registry, i, runtime) && OwnFields(fields)
    modifies registry`instances, runtime, registry.tracker,
      registry.audibility`entries, registry.audibility.Runtimes()`audible
    ensures registry.Consistent() && registry.UpToDate() && OthersStay(registry, i)
    ensures i in registry.instances && registry.instances[i].runtime == runtime
    ensures forall v :: v in fields ==> FieldShows(runtime, fields[v], v.observed)
    ensures FlagShows(registry.audibility.entries, i, false, mute.observed)
    ensures FlagShows(registry.audibility.entries, i, true, solo.observed)
  {
    Build(registry, i, runtime, fields, mute, solo);
    assert OthersStay(registry, i) by {
      forall c: Binding, y: Value | c.instance != i && old(Projects(registry, c, y)) ensures Projects(registry, c, y) {
        assert registry.instances[c.instance].runtime in registry.Runtimes();
      }
    }
    Register(registry, i, runtime);
  }

  method Register(registry: InstanceRegistry, i: InstanceId, runtime: DspRuntimeState)
    requires registry.Consistent() && i !in registry.instances
    requires i in registry.audibility.entries && registry.audibility.entries[i].runtime == runtime
    modifies registry`instances, registry.tracker
    ensures registry.Consistent() && registry.UpToDate() && OthersStay(registry, i)
    ensures i in registry.instances && registry.instances[i].runtime == runtime
  {
    ghost var before := registry.instances;
    registry.RegisterInstance(i, runtime);
    forall c: Binding, y: Value | c.instance != i && old(Projects(registry, c, y)) ensures Projects(registry, c, y) {
      assert registry.instances[c.instance].runtime == before[c.instance].runtime;
    }
  }

  lemma JoinedBindings(bindings: Bindings, i: InstanceId, fields: map<StateValue, nat>, mute: StateValue,
                       solo: StateValue)
    requires mute != solo && mute !in fields && solo !in fields
    requires fields.Keys !! bindings.Keys && mute !in bindings && solo !in bindings
    ensures var joined := bindings + BindingsOf(i, fields, mute, solo);
      && joined.Keys == bindings.Keys + fields.Keys + {mute, solo}
      && joined[mute] == Mute(i) && joined[solo] == Solo(i)
      && (forall v :: v in fields ==> joined[v] == Field(i, fields[v]))
      && (forall v :: v in bindings ==> joined[v] == bindings[v])
  {
  }

  lemma JoinedIsShown(registry: InstanceRegistry, bindings: Bindings, joined: Bindings, i: InstanceId,
                      fields: map<StateValue, nat>, mute: StateValue, solo: StateValue)
    requires i in registry.instances && Injective(bindings) && mute != solo && mute !in fields && solo !in fields
    requires OwnFields(fields)
    requires joined.Keys == bindings.Keys + fields.Keys + {mute, solo} && joined[mute] == Mute(i)
    requires joined[solo] == Solo(i)
    requires forall v :: v in fields ==> joined[v] == Field(i, fields[v])
    requires forall v :: v in bindings ==> joined[v] == bindings[v] && bindings[v].instance != i
    requires forall v :: v in bindings ==> Projects(registry, bindings[v], v.observed)
    requires forall v :: v in fields ==> FieldShows(registry.instances[i].runtime, fields[v], v.observed)
    requires FlagShows(registry.audibility.entries, i, false, mute.observed)
    requires FlagShows(registry.audibility.entries, i, true, solo.observed)
    ensures Shown(registry, joined, Told(joined))
  {
    forall v | v in joined ensures Projects(registry, joined[v], Told(joined)[v]) {
    }
  }

  method Unregister(registry: InstanceRegistry, i: InstanceId)
    requires registry.Consistent()
    requires i in registry.instances ==> registry.audibility.entries[i].observerCount == 2
    modifies registry`instances, registry.tracker, registry.audibility`entries, registry.audibility.Runtimes()`audible
    ensures registry.Consistent() && OthersStay(registry, i)
    ensures i in old(registry.instances) ==> registry.UpToDate()
  {
    ghost var instances, entries := registry.instances, registry.audibility.entries;
    registry.UnregisterInstance(i);
    forall c: Binding, y: Value | c.instance != i && old(Projects(registry, c, y)) ensures Projects(registry, c, y) {
      assert registry.instances[c.instance].runtime == instances[c.instance].runtime;
      assert forall solo ::
        FlagShows(registry.audibility.entries, c.instance, solo, y) == FlagShows(entries, c.instance, solo, y);
    }
  }

  /** An instance leaves, with its two flag observers. */
  method Leave(registry: InstanceRegistry, bindings: Bindings, i: InstanceId) returns (rest: Bindings)
    requires Live(registry, bindings)
    requires i in registry.instances ==> registry.audibility.entries[i].observerCount == 2
    modifies registry`instances, registry.tracker, registry.audibility`entries, registry.audibility.Runtimes()`audible
    ensures rest == map v | v in bindings && bindings[v].instance != i :: bindings[v]
    ensures Live(registry, rest) && (i in old(registry.instances) ==> registry.UpToDate())
  {
    rest := map v | v in bindings && bindings[v].instance != i :: bindings[v];
    OthersAreShown(registry, bindings);
    assert AllUpToDate(rest) by {
      forall v | v in rest ensures UpToDate(v) {
        assert v in bindings;
      }
    }
    LeaveShown(registry, rest, i);
  }

  method LeaveShown(registry: InstanceRegistry, ghost rest: Bindings, i: InstanceId)
    requires registry.Consistent() && AllUpToDate(rest) && Injective(rest)
    requires forall v :: v in rest ==> Projects(registry, rest[v], v.observed) && rest[v].instance != i
    requires i in registry.instances ==> registry.audibility.entries[i].observerCount == 2
    modifies registry`instances, registry.tracker, registry.audibility`entries, registry.audibility.Runtimes()`audible
    ensures Live(registry, rest) && (i in old(registry.instances) ==> registry.UpToDate())
  {
    Unregister(registry, i);
    AreShown(registry, rest);
  }

  lemma AreShown(registry: InstanceRegistry, bindings: Bindings)
    requires Injective(bindings) && forall v :: v in bindings ==> Projects(registry, bindings[v], v.observed)
    ensures Shown(registry, bindings, Told(bindings))
  {
  }
}
