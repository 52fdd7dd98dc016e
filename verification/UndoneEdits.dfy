/** Undoing and redoing the edit that a command has just concluded. */
module UndoneEdits {
  import opened Common
  import opened StateValues
  import opened StateHistories
  import opened StateEdits
  import G = GroupEdits
  import H = HistoryModel

  lemma StepBack(before: H.Rings<StateValue, Value>, changes: Snapshot, edited: H.Rings<StateValue, Value>,
                 undone: H.Rings<StateValue, Value>)
    requires H.Valid(before)
    requires edited == H.Apply(H.Apply(before, H.Operation.Advance), H.Operation.Write(changes))
    requires undone == H.Apply(edited, H.Operation.Jump(edited.undo - 1))
    ensures 0 < edited.undo <= edited.undo + edited.redo && undone.redo > 0
    ensures H.Current(undone) == H.Current(before)
    ensures H.View(H.Apply(undone, H.Operation.Jump(undone.undo + 1))) == H.View(edited)
    ensures H.Current(H.Apply(undone, H.Operation.Jump(undone.undo + 1))) == H.Overwrite(H.Current(before), changes)
  {
    H.UndoIsExact(before, changes);
    H.CurrentIsAtTheCursor(H.Apply(undone, H.Operation.Jump(undone.undo + 1)));
    H.CurrentIsAtTheCursor(edited);
  }

  /** The values of the world show `shown`. */
  ghost predicate Showing(all: set<StateValue>, shown: Snapshot)
    reads all`currentSlot, set v | v in all :: v.slots
  {
    shown.Keys == all && forall v {:trigger Shows(v, shown[v])} :: v in all ==> Shows(v, shown[v])
  }

  /** A jump changes what the registered values show to the state it lands on, and nothing else. */
  method Navigate(history: StateHistory, cursor: nat, ghost all: set<StateValue>, ghost shown: Snapshot)
    requires history.Valid() && Registered(history, all) && Showing(all, shown)
    requires cursor <= history.availableUndoCount + history.availableRedoCount
    modifies history`currentSlot, history`availableUndoCount, history`availableRedoCount, history`revision
    modifies history.values`currentSlot, history.values`previousSlotValue, history.values`observed
    ensures history.Valid() && history.Rings() == H.Apply(old(history.Rings()), H.Operation.Jump(cursor))
    ensures Showing(all, shown + H.Current(history.Rings()))
  {
    var ok := history.JumpToHistory(cursor);
    ghost var now := shown + H.Current(history.Rings());
    forall v | v in all ensures Shows(v, now[v]) {
      assert old(Shows(v, shown[v]));
      if v in history.values {
        RegisteredShows(history, v);
      }
    }
  }

  lemma RegisteredShows(history: StateHistory, v: StateValue)
    requires history.Valid() && v in history.values
    ensures v in H.Current(history.Rings()) && Shows(v, H.Current(history.Rings())[v])
  {
  }

  lemma RegisteredAre(history: StateHistory, all: set<StateValue>, values: Snapshot)
    requires history.Valid() && Registered(history, all) && Idle(all, values)
    ensures H.Current(history.Rings()) == map v | v in history.values :: values[v]
  {
    forall v | v in history.values ensures H.Current(history.Rings())[v] == values[v] {
      RegisteredShows(history, v);
      assert Resting(v, values[v]);
    }
  }

  lemma IdleShows(all: set<StateValue>, values: Snapshot)
    requires Idle(all, values)
    ensures Showing(all, values)
  {
    forall v | v in all ensures Shows(v, values[v]) {
      assert Resting(v, values[v]);
    }
  }

  /** An accepted edit that opens a history point. */
  method WriteEdit(command: WriteCommand, allowed: bool, tree: Tree, peers: Peers, ranges: G.Ranges<StateValue>,
                   derived: seq<(StateValue, Value)>, history: StateHistory,
                   ghost all: set<StateValue>, ghost values: Snapshot, ghost seen: Snapshot, ghost changes: Snapshot)
    requires Idle(all, values) && history.Valid() && Registered(history, all) && Observed(all, seen)
    requires Wired(values, tree, peers) && DerivedTyped(values, derived)
    requires command.transactionId == 0 && !command.topologyScope
    requires Effect(values, ranges, tree, peers, derived, command, allowed) == Some(changes)
    requires changes.Keys <= all && OpensPoint(history, changes)
    modifies history`currentSlot, history`availableUndoCount, history`availableRedoCount, history`revision
    modifies all, set v | v in all :: v.slots
    ensures history.Valid() && Showing(all, values + changes)
    ensures history.Rings() == H.Apply(H.Apply(old(history.Rings()), H.Operation.Advance), H.Operation.Write(changes))
  {
    var status := HandleWrite(command, allowed, tree, peers, ranges, derived, history, all, values, seen);
    IdleShows(all, values + changes);
  }

  /** One step back from an edit. */
  method StepBackwards(history: StateHistory, ghost all: set<StateValue>, ghost before: H.Rings<StateValue, Value>,
                       ghost edited: Snapshot, ghost changes: Snapshot)
    requires history.Valid() && H.Valid(before) && Registered(history, all) && Showing(all, edited)
    requires history.Rings() == H.Apply(H.Apply(before, H.Operation.Advance), H.Operation.Write(changes))
    modifies history`currentSlot, history`availableUndoCount, history`availableRedoCount, history`revision
    modifies history.values`currentSlot, history.values`previousSlotValue, history.values`observed
    ensures history.Valid() && Showing(all, edited + H.Current(before)) && history.availableRedoCount > 0
    ensures H.Current(H.Apply(history.Rings(), H.Operation.Jump(history.availableUndoCount + 1)))
      == H.Overwrite(H.Current(before), changes)
  {
    ghost var undone := H.Apply(history.Rings(), H.Operation.Jump(history.availableUndoCount - 1));
    StepBack(before, changes, history.Rings(), undone);
    Navigate(history, history.availableUndoCount - 1, all, edited);
    assert history.Rings() == undone;
  }

  method StepForwards(history: StateHistory, ghost all: set<StateValue>, ghost shown: Snapshot)
    requires history.Valid() && Registered(history, all) && Showing(all, shown) && history.availableRedoCount > 0
    modifies history`currentSlot, history`availableUndoCount, history`availableRedoCount, history`revision
    modifies history.values`currentSlot, history.values`previousSlotValue, history.values`observed
    ensures history.Valid()
    ensures Showing(all, shown +
      old(H.Current(H.Apply(history.Rings(), H.Operation.Jump(history.availableUndoCount + 1)))))
  {
    ghost var redone := H.Apply(history.Rings(), H.Operation.Jump(history.availableUndoCount + 1));
    Navigate(history, history.availableUndoCount + 1, all, shown);
    assert history.Rings() == redone;
  }

  /** An edit and one step back. */
  method WriteAndStepBack(command: WriteCommand, allowed: bool, tree: Tree, peers: Peers, ranges: G.Ranges<StateValue>,
                          derived: seq<(StateValue, Value)>, history: StateHistory, ghost all: set<StateValue>,
                          ghost values: Snapshot, ghost seen: Snapshot, ghost changes: Snapshot, ghost shown: Snapshot)
    requires Idle(all, values) && history.Valid() && Registered(history, all) && Observed(all, seen)
    requires Wired(values, tree, peers) && DerivedTyped(values, derived)
    requires command.transactionId == 0 && !command.topologyScope
    requires Effect(values, ranges, tree, peers, derived, command, allowed) == Some(changes)
    requires changes.Keys <= all && OpensPoint(history, changes) && shown == H.Current(history.Rings())
    modifies history`currentSlot, history`availableUndoCount, history`availableRedoCount, history`revision
    modifies all, set v | v in all :: v.slots
    ensures history.Valid() && Showing(all, values + changes + shown) && history.availableRedoCount > 0
    ensures H.Current(H.Apply(history.Rings(), H.Operation.Jump(history.availableUndoCount + 1))) ==
      H.Overwrite(shown, changes)
  {
    ghost var before, edited := history.Rings(), values + changes;
    WriteEdit(command, allowed, tree, peers, ranges, derived, history, all, values, seen, changes);
    StepBackwards(history, all, before, edited, changes);
  }

  /** An edit, one step back, and the step forward again if `redo` asks for it. Undone, the registered
      values show what they showed before the edit, and the others what the edit made of them; redone,
      all of them show what the edit made of them. */
  method WriteAndUndo(command: WriteCommand, allowed: bool, tree: Tree, peers: Peers, ranges: G.Ranges<StateValue>,
                      derived: seq<(StateValue, Value)>, history: StateHistory, redo: bool,
                      ghost all: set<StateValue>, ghost values: Snapshot, ghost seen: Snapshot, ghost changes: Snapshot)
    requires Idle(all, values) && history.Valid() && Registered(history, all) && Observed(all, seen)
    requires Wired(values, tree, peers) && DerivedTyped(values, derived)
    requires command.transactionId == 0 && !command.topologyScope
    requires Effect(values, ranges, tree, peers, derived, command, allowed) == Some(changes)
    requires changes.Keys <= all && OpensPoint(history, changes)
    modifies history`currentSlot, history`availableUndoCount, history`availableRedoCount, history`revision
    modifies all, set v | v in all :: v.slots
    ensures history.Valid()
    ensures Showing(all, if redo then values + changes else values + changes + map v | v in history.values :: values[v])
  {
    RegisteredAre(history, all, values);
    ghost var shown := H.Current(history.Rings());
    WriteAndStepBack(command, allowed, tree, peers, ranges, derived, history, all, values, seen, changes, shown);
    if redo {
      StepForwards(history, all, values + changes + shown);
      BackAndForth(all, values, changes, shown);
    }
  }

  /** A command of a gesture, or for the topology, opens no history point, whatever its effect; an ordinary one
      opens one exactly when it changes a registered value. */
  lemma PointsAreOpenedByOrdinaryEdits(history: StateHistory, all: set<StateValue>, values: Snapshot, seen: Snapshot,
                                       before: H.Rings<StateValue, Value>, effect: Option<Snapshot>,
                                       command: WriteCommand)
    requires H.Valid(before) && Concluded(history, all, values, seen, before, effect, command.OpensPoint())
    ensures var ordinary := command.transactionId == 0 && !command.topologyScope;
      history.Rings() == H.WriteAll(
        if effect.Some? && ordinary && (exists v :: v in effect.value && v in history.values)
        then H.Apply(before, H.Operation.Advance) else before,
        if effect.Some? then [effect.value] else [])
  {
    if effect.Some? {
      assert [effect.value][1..] == [];
    }
  }

  lemma BackAndForth(all: set<StateValue>, values: Snapshot, changes: Snapshot, shown: Snapshot)
    requires values.Keys == all && changes.Keys <= all && shown.Keys <= all
    requires forall v :: v in shown ==> shown[v] == values[v]
    ensures values + changes + shown + H.Overwrite(shown, changes) == values + changes
  {
  }
}
