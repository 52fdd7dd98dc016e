/**
  The undo/redo engine over the rings of its registered values. Every method is specified by the
  operation of HistoryModel that it performs on those rings, so the refinement proved there (the
  rings show a list of at most 32 states with a cursor) holds of every run of this class.
 */
module StateHistories {
  import opened Common
  import opened StateValues
  import H = HistoryModel

  class StateHistory {
    var values: seq<StateValue>
    var currentSlot: nat
    var availableUndoCount: nat
    var availableRedoCount: nat
    var revision: nat

    ghost function Arrays(): set<array<Value>>
      reads this`values
    {
      set i | 0 <= i < |values| :: values[i].slots
    }

    ghost predicate Valid()
      reads this`values, this`currentSlot, this`availableUndoCount, this`availableRedoCount
      reads values`currentSlot, values`pendingTransaction, values`pendingBaselineValues, values`pendingBaselineSlot
    {
      && currentSlot < H.CAPACITY
      && availableUndoCount + availableRedoCount <= H.CAPACITY - 1
      && (forall i, j :: 0 <= i < j < |values| ==> values[i] != values[j] && values[i].slots != values[j].slots)
      && (forall i :: 0 <= i < |values| ==> values[i].Valid() && values[i].currentSlot == currentSlot)
    }

    /** The storage the engine works on, as HistoryModel sees it. */
    ghost function Rings(): (r: H.Rings<StateValue, Value>)
      requires Valid()
      reads this`values, this`currentSlot, this`availableUndoCount, this`availableRedoCount
      reads values`currentSlot, values`pendingTransaction, values`pendingBaselineValues, values`pendingBaselineSlot
      reads Arrays()
      ensures H.Valid(r)
    {
      H.Rings(map v | v in values :: v.slots[..], currentSlot, availableUndoCount, availableRedoCount)
    }

    constructor ()
      ensures Valid() && Rings() == H.Empty()
    {
      values, currentSlot, availableUndoCount, availableRedoCount, revision := [], 0, 0, 0, 0;
    }

    /** The ring of a new value joins as it is; if every slot holds `initial`, the value shows it in every
        state of the list. */
    method Register(value: StateValue)
      requires Valid() && value.Valid()
      requires forall i :: 0 <= i < |values| && values[i] != value ==> values[i].slots != value.slots
      modifies this`values, value`currentSlot, value`previousSlotValue
      ensures Valid() && values == if value in old(values) then old(values) else old(values) + [value]
      ensures Rings() == if value in old(values) then old(Rings())
                         else old(Rings()).(slots := old(Rings()).slots[value := value.slots[..]])
      ensures forall initial: Value :: value.slots[..] == seq(H.CAPACITY, _ => initial) ==>
        Rings() == H.Apply(old(Rings()), H.Operation.Register(value, initial))
    {
      if value !in values {
        values := values + [value];
        value.SetCurrentSlot(currentSlot);
      }
    }

    method Unregister(value: StateValue)
      requires Valid()
      modifies this`values
      ensures Valid()
      ensures Rings() == H.Apply(old(Rings()), H.Operation.Unregister(value))
    {
      if i :| 0 <= i < |values| && values[i] == value {
        values := values[..i] + values[i + 1..];
        RemainingAreDistinct(i);
        Unregistered(value);
      }
    }

    twostate lemma Unregistered(value: StateValue)
      requires old(Valid())
      requires forall j, k :: 0 <= j < k < |values| ==> values[j] != values[k] && values[j].slots != values[k].slots
      requires forall v :: v in values <==> v in old(values) && v != value
      requires currentSlot == old(currentSlot)
      requires availableUndoCount == old(availableUndoCount) && availableRedoCount == old(availableRedoCount)
      requires forall v :: v in old(values) ==>
        v.Valid() && v.currentSlot == currentSlot && v.slots[..] == old(v.slots[..])
      ensures Valid() && Rings() == H.Apply(old(Rings()), H.Operation.Unregister(value))
    {
      assert forall j :: 0 <= j < |values| ==> values[j] in old(values);
      var next := H.Apply(old(Rings()), H.Operation.Unregister(value));
      assert forall v :: v in values ==> Rings().slots[v] == next.slots[v];
    }

    twostate lemma RemainingAreDistinct(i: nat)
      requires old(Valid()) && i < |old(values)| && values == old(values)[..i] + old(values)[i + 1..]
      ensures forall j, k :: 0 <= j < k < |values| ==> values[j] != values[k] && values[j].slots != values[k].slots
      ensures forall v :: v in values <==> v in old(values) && v != old(values)[i]
    {
      var was := old(values);
      forall j, k | 0 <= j < k < |values| ensures values[j] != values[k] && values[j].slots != values[k].slots {
        var a, b := if j < i then j else j + 1, if k < i then k else k + 1;
        assert values[j] == was[a] && values[k] == was[b];
      }
    }

    predicate HasHistoryChanges(transaction: StateHistoryTransaction)
      reads this`values, transaction`changedValues
    {
      exists v :: v in transaction.changedValues && v in values
    }

    /** Copies the current slot of every registered value into the next slot and moves there. */
    method AdvanceHistoryPoint()
      requires Valid()
      modifies this`currentSlot, this`availableUndoCount, this`availableRedoCount, this`revision
      modifies Arrays(), values`currentSlot, values`previousSlotValue
      ensures Valid() && Rings() == H.Apply(old(Rings()), H.Operation.Advance)
      ensures forall i :: 0 <= i < |values| ==> values[i].Current() == old(values[i].Current())
      ensures revision == old(revision) + 1
    {
      var destination := H.NextSlot(currentSlot);
      MoveValues(currentSlot, destination);
      currentSlot := destination;
      availableUndoCount := if availableUndoCount + 1 < H.CAPACITY - 1 then availableUndoCount + 1 else H.CAPACITY - 1;
      availableRedoCount := 0;
      revision := revision + 1;
      Advanced();
    }

    /** Copies every registered value into another slot and moves it there. */
    method MoveValues(source: nat, destination: nat)
      requires Valid() && source == currentSlot && destination < H.CAPACITY
      modifies Arrays(), values`currentSlot, values`previousSlotValue
      ensures forall i :: 0 <= i < |values| ==>
        && values[i].Valid() && values[i].currentSlot == destination
        && values[i].slots[..] == old(values[i].slots[..])[destination := old(values[i].slots[source])]
    {
      CopySlots(source, destination);
      assert forall i :: 0 <= i < |values| ==> values[i].Valid();
      SetCurrentSlots(destination);
    }

    twostate lemma Advanced()
      requires old(Valid()) && values == old(values)
      requires var destination := H.NextSlot(old(currentSlot));
        && currentSlot == destination
        && (forall i :: 0 <= i < |values| ==>
              && values[i].Valid() && values[i].currentSlot == destination
              && values[i].slots[..] == old(values[i].slots[..])[destination := old(values[i].slots[currentSlot])])
      requires availableUndoCount == Min(old(availableUndoCount) + 1, H.CAPACITY - 1) && availableRedoCount == 0
      ensures Valid() && Rings() == H.Apply(old(Rings()), H.Operation.Advance)
    {
      var next := H.Apply(old(Rings()), H.Operation.Advance);
      forall v | v in values ensures Rings().slots[v] == next.slots[v] {
        var i :| 0 <= i < |values| && values[i] == v;
        assert old(v.slots[..])[old(currentSlot)] == old(values[i].slots[currentSlot]);
      }
    }

    method CopySlots(source: nat, destination: nat)
      requires Valid() && source < H.CAPACITY && destination < H.CAPACITY
      modifies Arrays()
      ensures forall i :: 0 <= i < |values| ==>
        values[i].slots[..] == old(values[i].slots[..])[destination := old(values[i].slots[source])]
    {
      for index := 0 to |values|
        invariant forall i :: 0 <= i < index ==>
          values[i].slots[..] == old(values[i].slots[..])[destination := old(values[i].slots[source])]
        invariant forall i :: index <= i < |values| ==> values[i].slots[..] == old(values[i].slots[..])
      {
        assert values[index].slots[..][source] == old(values[index].slots[..])[source];
        values[index].CopySlot(source, destination);
      }
    }

    method SetCurrentSlots(slot: nat)
      requires slot < H.CAPACITY
      requires forall i :: 0 <= i < |values| ==> values[i].Valid()
      requires forall i, j :: 0 <= i < j < |values| ==> values[i] != values[j]
      modifies values`currentSlot, values`previousSlotValue
      ensures forall i :: 0 <= i < |values| ==>
        && old(values[i].Valid()) && values[i].Valid() && values[i].currentSlot == slot
        && values[i].previousSlotValue == old(values[i].Current())
    {
      for index := 0 to |values|
        invariant forall i :: 0 <= i < |values| ==> values[i].Valid()
        invariant forall i :: 0 <= i < index ==>
          values[i].currentSlot == slot && values[i].previousSlotValue == old(values[i].Current())
        invariant forall i :: index <= i < |values| ==> values[i].currentSlot == old(values[i].currentSlot)
      {
        values[index].SetCurrentSlot(slot);
      }
    }

    /** Walks the ring one slot at a time. */
    static method MoveSlot(slot: nat, offset: int) returns (r: nat)
      requires slot < H.CAPACITY
      ensures r == H.SlotAt(slot, offset)
    {
      r := slot;
      var count := if offset >= 0 then offset else -offset;
      for index := 0 to count
        invariant r == H.SlotAt(slot, if offset >= 0 then index else -index)
      {
        H.SlotShift(slot, if offset >= 0 then index else -index, if offset >= 0 then 1 else -1);
        H.SlotZero(r);
        r := if offset >= 0 then H.NextSlot(r) else H.PreviousSlot(r);
      }
    }

    /** Moves to a point of the history and tells the observers of every value that shows something
        else there than before. */
    method JumpToHistory(cursor: int) returns (ok: bool)
      requires Valid()
      modifies this`currentSlot, this`availableUndoCount, this`availableRedoCount, this`revision
      modifies values`currentSlot, values`previousSlotValue, values`observed
      ensures Valid() && Rings() == H.Apply(old(Rings()), H.Operation.Jump(cursor))
      ensures ok <==> 0 <= cursor <= old(availableUndoCount + availableRedoCount)
      ensures revision == old(revision) + if ok then 1 else 0
      ensures forall i :: 0 <= i < |values| ==>
        values[i].observed ==
        if values[i].Current() != old(values[i].Current()) then values[i].Current() else old(values[i].observed)
    {
      var entryCount := availableUndoCount + availableRedoCount;
      if cursor < 0 || cursor > entryCount {
        return false;
      }
      currentSlot := MoveSlot(currentSlot, cursor - availableUndoCount);
      availableUndoCount := cursor;
      availableRedoCount := entryCount - cursor;
      SetCurrentSlots(currentSlot);
      revision := revision + 1;
      ApplyCurrent(currentSlot);
      Jumped(cursor);
      ok := true;
    }

    twostate lemma Jumped(cursor: nat)
      requires old(Valid()) && values == old(values)
      requires cursor <= old(availableUndoCount + availableRedoCount)
      requires currentSlot == H.SlotAt(old(currentSlot), cursor - old(availableUndoCount))
      requires forall i :: 0 <= i < |values| ==>
        values[i].Valid() && values[i].currentSlot == currentSlot && values[i].slots[..] == old(values[i].slots[..])
      requires availableUndoCount == cursor
      requires availableRedoCount == old(availableUndoCount + availableRedoCount) - cursor
      ensures Valid() && Rings() == H.Apply(old(Rings()), H.Operation.Jump(cursor))
    {
      var next := H.Apply(old(Rings()), H.Operation.Jump(cursor));
      forall v | v in values ensures Rings().slots[v] == next.slots[v] {
        var i :| 0 <= i < |values| && values[i] == v;
      }
    }

    method ApplyCurrent(slot: nat)
      requires slot < H.CAPACITY
      requires forall i :: 0 <= i < |values| ==> values[i].slots.Length == H.CAPACITY
      requires forall i, j :: 0 <= i < j < |values| ==> values[i] != values[j]
      modifies values`observed
      ensures forall i :: 0 <= i < |values| ==>
        values[i].observed ==
        if values[i].previousSlotValue != values[i].slots[slot] then values[i].slots[slot] else old(values[i].observed)
    {
      for index := 0 to |values|
        invariant forall i :: 0 <= i < index ==>
          values[i].observed ==
          if values[i].previousSlotValue != values[i].slots[slot] then values[i].slots[slot]
          else old(values[i].observed)
        invariant forall i :: index <= i < |values| ==> values[i].observed == old(values[i].observed)
      {
        values[index].ApplySlot(slot);
      }
    }
  }
}
