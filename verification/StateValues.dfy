/**
  State values and the transactions that stage their changes. A value owns a ring of history slots
  and remembers what its observers were last told; a transaction collects entries, commits all of
  them or rolls all of them back, and only then notifies the observers.
 */
module StateValues {
  import opened Common
  import opened HistoryModel

  datatype Entry =
    | ValueEntry(value: StateValue)
    | BaselineEntry(value: StateValue, baseline: Value)

  /** A notification queued for the observers of `value`. */
  datatype Change = Change(value: StateValue, previous: Value, current: Value)

  class StateValue {
    const initialValue: Value
    const slots: array<Value>
    var currentSlot: nat
    var previousSlotValue: Value
    var pendingTransaction: StateHistoryTransaction?
    var pendingValue: Value
    var previousValue: Value
    var pendingBaselineValues: Option<seq<Value>>
    var pendingBaselineSlot: nat
    /** The value the observers (runtime projection included) have last been given. */
    var observed: Value

    ghost predicate Valid()
      reads this`currentSlot, this`pendingTransaction, this`pendingBaselineValues, this`pendingBaselineSlot
    {
      && slots.Length == CAPACITY
      && currentSlot < CAPACITY
      && pendingBaselineSlot < CAPACITY
      && (pendingBaselineValues.Some? ==> |pendingBaselineValues.value| == CAPACITY)
      && (pendingTransaction == null ==> pendingBaselineValues.None?)
    }

    function Current(): Value
      requires currentSlot < slots.Length
      reads this`currentSlot, slots
    {
      slots[currentSlot]
    }

    /** Attaching the observers hands them the initial value. */
    constructor (initialValue: Value)
      ensures Valid() && fresh(slots) && this.initialValue == initialValue
      ensures slots[..] == seq(CAPACITY, _ => initialValue)
      ensures currentSlot == 0 && pendingTransaction == null && pendingBaselineValues.None?
      ensures observed == initialValue
    {
      this.initialValue := initialValue;
      slots := new Value[CAPACITY](_ => initialValue);
      currentSlot, pendingBaselineSlot := 0, 0;
      previousSlotValue, pendingValue, previousValue, observed :=
        initialValue, initialValue, initialValue, initialValue;
      pendingTransaction := null;
      pendingBaselineValues := None;
      new;
      assert slots[..] == seq(CAPACITY, _ => initialValue);
    }

    // IHistoryValue

    method CopySlot(source: nat, destination: nat)
      requires Valid() && source < CAPACITY && destination < CAPACITY
      modifies slots
      ensures slots[..] == old(slots[..])[destination := old(slots[source])]
    {
      slots[destination] := slots[source];
    }

    method SetCurrentSlot(slot: nat)
      requires Valid() && slot < CAPACITY
      modifies this`currentSlot, this`previousSlotValue
      ensures Valid() && currentSlot == slot && previousSlotValue == old(Current())
    {
      previousSlotValue := slots[currentSlot];
      currentSlot := slot;
    }

    method ApplySlot(slot: nat)
      requires slot < slots.Length
      modifies this`observed
      ensures observed == if previousSlotValue != slots[slot] then slots[slot] else old(observed)
    {
      if previousSlotValue != slots[slot] {
        observed := slots[slot];
      }
    }

    // Staging

    /** Stages `value` for the current slot. `false` is the exception raised for a value that already
        belongs to a transaction, this one or another. */
    method Prepare(value: Value, transaction: StateHistoryTransaction) returns (ok: bool)
      requires Valid() && transaction.Valid() && !transaction.completed
      requires transaction.SeparateFrom(this)
      modifies this`pendingTransaction, this`pendingValue, this`previousValue
      modifies transaction`entries, transaction`committedChanges, transaction`changedValues
      ensures Valid() && transaction.Valid() && !transaction.completed
      ensures ok <==> old(pendingTransaction) == null
      ensures !ok || value == old(Current()) ==>
        && unchanged(`pendingTransaction, `pendingValue, `previousValue)
        && unchanged(transaction`entries, transaction`committedChanges, transaction`changedValues)
      ensures ok && value != old(Current()) ==>
        && pendingTransaction == transaction && pendingValue == value && previousValue == Current()
        && transaction.entries == old(transaction.entries) + [ValueEntry(this)]
        && transaction.committedChanges == old(transaction.committedChanges) + [Change(this, Current(), value)]
        && transaction.changedValues == old(transaction.changedValues) + {this}
    {
      if pendingTransaction != null {
        return false;
      }
      ok := true;
      var previous := slots[currentSlot];
      if previous == value {
        return;
      }
      previousValue := previous;
      pendingValue := value;
      pendingTransaction := transaction;
      transaction.changedValues := transaction.changedValues + {this};
      transaction.committedChanges := transaction.committedChanges + [Change(this, previous, value)];
      transaction.entries := transaction.entries + [ValueEntry(this)];
      assert transaction.committedChanges[old(|transaction.committedChanges|)].value == this;
      transaction.Appended(ValueEntry(this));
    }

    /** Stages `value` for every slot. Staging is skipped when all slots already hold it. */
    method PrepareBaseline(value: Value, transaction: StateHistoryTransaction) returns (ok: bool)
      requires Valid() && transaction.Valid() && !transaction.completed
      requires transaction.SeparateFrom(this)
      modifies this`pendingTransaction, this`pendingBaselineValues, this`pendingBaselineSlot
      modifies transaction`entries, transaction`committedChanges
      ensures Valid() && transaction.Valid() && !transaction.completed
      ensures ok <==> old(pendingTransaction) == null
      ensures !ok || slots[..] == seq(CAPACITY, _ => value) ==> unchanged(this) && unchanged(transaction)
      ensures ok && slots[..] != seq(CAPACITY, _ => value) ==>
        && pendingTransaction == transaction
        && pendingBaselineValues == Some(slots[..]) && pendingBaselineSlot == currentSlot
        && transaction.entries == old(transaction.entries) + [BaselineEntry(this, value)]
    {
      if pendingTransaction != null {
        return false;
      }
      ok := true;
      var previous := slots[currentSlot];
      var applied := true;
      var index := 0;
      while index < slots.Length
        invariant index <= slots.Length && applied
        invariant forall i :: 0 <= i < index ==> slots[i] == value
      {
        if slots[index] != value {
          applied := false;
          break;
        }
        index := index + 1;
      }
      if applied {
        assert slots[..] == seq(CAPACITY, _ => value);
        return;
      }
      assert slots[..][index] != value;
      pendingBaselineValues := Some(slots[..]);
      pendingBaselineSlot := currentSlot;
      pendingTransaction := transaction;
      transaction.entries := transaction.entries + [BaselineEntry(this, value)];
      if previous != value {
        transaction.committedChanges := transaction.committedChanges + [Change(this, previous, value)];
        assert transaction.committedChanges[old(|transaction.committedChanges|)].value == this;
      }
      transaction.Appended(BaselineEntry(this, value));
    }

    /** Stages the initial value; `reset` says whether anything was staged. */
    method PrepareResetDirect(transaction: StateHistoryTransaction) returns (ok: bool, reset: bool)
      requires Valid() && transaction.Valid() && !transaction.completed
      requires transaction.SeparateFrom(this)
      modifies this`pendingTransaction, this`pendingValue, this`previousValue
      modifies transaction`entries, transaction`committedChanges, transaction`changedValues
      ensures Valid() && transaction.Valid() && !transaction.completed
      ensures reset <==> ok && old(Current()) != initialValue
      ensures !reset ==> unchanged(this) && unchanged(transaction)
      ensures reset ==>
        && pendingTransaction == transaction && pendingValue == initialValue && previousValue == Current()
        && transaction.entries == old(transaction.entries) + [ValueEntry(this)]
        && transaction.changedValues == old(transaction.changedValues) + {this}
      ensures !ok ==> old(pendingTransaction) != null && old(Current()) != initialValue
    {
      if slots[currentSlot] == initialValue {
        return true, false;
      }
      ok := Prepare(initialValue, transaction);
      reset := ok;
    }

    // Transaction entries

    method CommitPending()
      requires Valid()
      modifies slots
      ensures slots[..] == if pendingTransaction == null then old(slots[..])
                           else old(slots[..])[currentSlot := pendingValue]
    {
      if pendingTransaction != null {
        slots[currentSlot] := pendingValue;
      }
    }

    method RollbackPending()
      requires Valid() && pendingBaselineValues.None?
      modifies slots, this`pendingTransaction
      ensures Valid() && pendingTransaction == null
      ensures slots[..] == if old(pendingTransaction) == null then old(slots[..])
                           else old(slots[..])[currentSlot := previousValue]
    {
      if pendingTransaction == null {
        return;
      }
      slots[currentSlot] := previousValue;
      pendingTransaction := null;
    }

    method CommitBaseline(value: Value)
      requires Valid()
      modifies slots, this`previousSlotValue
      ensures slots[..] == seq(CAPACITY, _ => value)
    {
      forall i | 0 <= i < slots.Length { slots[i] := value; }
      previousSlotValue := value;
      assert slots[..] == seq(CAPACITY, _ => value);
    }

    method RollbackBaseline()
      requires Valid() && pendingBaselineValues.Some?
      modifies slots, this`currentSlot, this`previousSlotValue, this`pendingBaselineValues, this`pendingTransaction
      ensures Valid() && pendingTransaction == null
      ensures slots[..] == old(pendingBaselineValues.value) && currentSlot == pendingBaselineSlot
    {
      var saved := pendingBaselineValues.value;
      forall i | 0 <= i < slots.Length { slots[i] := saved[i]; }
      currentSlot := pendingBaselineSlot;
      previousSlotValue := slots[currentSlot];
      pendingBaselineValues := None;
      pendingTransaction := null;
      assert slots[..] == saved;
    }

    method Complete()
      requires Valid()
      modifies this`pendingTransaction, this`pendingBaselineValues
      ensures Valid() && pendingTransaction == null
    {
      pendingTransaction := null;
      pendingBaselineValues := None;
    }
  }

  /** The value an entry gives to the current slot when it is committed. */
  ghost function Next(e: Entry): Value
    reads e.value
  {
    match e
    case ValueEntry(v) => v.pendingValue
    case BaselineEntry(_, baseline) => baseline
  }

  function Overwritten(slots: seq<Value>, slot: nat, value: Value): seq<Value> {
    if slot < |slots| then slots[slot := value] else slots
  }

  /** The slots of an entry's value once the entry is committed. */
  ghost function CommittedSlots(e: Entry): seq<Value>
    reads e.value, e.value.slots
  {
    match e
    case ValueEntry(v) => Overwritten(v.slots[..], v.currentSlot, v.pendingValue)
    case BaselineEntry(_, baseline) => seq(CAPACITY, _ => baseline)
  }

  /** The slots, and the current slot, of an entry's value once the entry is rolled back. */
  ghost function RestoredSlots(e: Entry): (seq<Value>, nat)
    reads e.value, e.value.slots
  {
    match e
    case ValueEntry(v) => (Overwritten(v.slots[..], v.currentSlot, v.previousValue), v.currentSlot)
    case BaselineEntry(v, _) =>
      (if v.pendingBaselineValues.Some? then v.pendingBaselineValues.value else v.slots[..], v.pendingBaselineSlot)
  }

  ghost predicate Apart(v: StateValue, w: StateValue) {
    v != w ==> v.slots != w.slots
  }

  /** Every value owns its slots. */
  ghost predicate AllApart(all: set<StateValue>) {
    forall v, w {:trigger Apart(v, w)} :: v in all && w in all ==> Apart(v, w)
  }

  function Lookup(contents: map<StateValue, Value>, v: StateValue): Option<Value> {
    if v in contents then Some(contents[v]) else None
  }

  ghost predicate EntriesApart(a: Entry, b: Entry) {
    a.value != b.value && a.value.slots != b.value.slots
  }

  class StateHistoryTransaction {
    var entries: seq<Entry>
    var committedChanges: seq<Change>
    var changedValues: set<StateValue>
    var completed: bool

    ghost function Touched(): set<StateValue>
      reads this
    {
      set i | 0 <= i < |entries| :: entries[i].value
    }

    ghost function Arrays(): set<array<Value>>
      reads this
    {
      set i | 0 <= i < |entries| :: entries[i].value.slots
    }

    ghost predicate SeparateFrom(v: StateValue)
      reads this
    {
      forall i :: 0 <= i < |entries| && entries[i].value != v ==> entries[i].value.slots != v.slots
    }

    ghost predicate EntryValid(e: Entry)
      reads this, e.value
    {
      && e.value.Valid()
      && e.value.pendingTransaction == this
      && (e.BaselineEntry? <==> e.value.pendingBaselineValues.Some?)
      && (e.value in Told() || Silent(e))
    }

    /** Only a baseline that the current slot already showed is not announced. */
    ghost predicate Silent(e: Entry)
      requires e.value.Valid()
      reads e.value
    {
      && e.BaselineEntry? && e.value.pendingBaselineValues.Some?
      && e.value.pendingBaselineValues.value[e.value.pendingBaselineSlot] == e.baseline
    }

    /** Every queued notification tells what its entry is going to commit. */
    ghost predicate ChangeValid(c: Change)
      reads this, Touched()
    {
      exists i :: 0 <= i < |entries| && entries[i].value == c.value && c.current == Next(entries[i])
    }

    ghost predicate Valid()
      reads this, Touched()
    {
      && (forall i, j {:trigger EntriesApart(entries[i], entries[j])} :: 0 <= i < j < |entries| ==>
            EntriesApart(entries[i], entries[j]))
      && (forall i {:trigger EntryValid(entries[i])} :: 0 <= i < |entries| ==> EntryValid(entries[i]))
      && (forall k {:trigger ChangeValid(committedChanges[k])} ::
            0 <= k < |committedChanges| ==> ChangeValid(committedChanges[k]))
      && changedValues == set i | 0 <= i < |entries| && entries[i].ValueEntry? :: entries[i].value
    }

    /** No two entries share a value or its slots. */
    lemma AllEntriesApart()
      requires Valid()
      ensures forall i, j :: 0 <= i < j < |entries| ==>
        entries[i].value != entries[j].value && entries[i].value.slots != entries[j].value.slots
    {
      forall i, j | 0 <= i < j < |entries| ensures EntriesApart(entries[i], entries[j]) {}
    }

    lemma AllValid()
      requires Valid()
      ensures forall i :: 0 <= i < |entries| ==> EntryValid(entries[i])
    {
    }

    constructor ()
      ensures Valid() && entries == [] && committedChanges == [] && changedValues == {} && !completed
    {
      entries, committedChanges, changedValues, completed := [], [], {}, false;
    }

    /** Appending an entry for a value of no transaction keeps the transaction valid. */
    twostate lemma Appended(e: Entry)
      requires old(Valid()) && old(allocated(e.value)) && old(e.value.pendingTransaction) == null
      requires old(SeparateFrom(e.value))
      requires entries == old(entries) + [e] && old(committedChanges) <= committedChanges
      requires EntryValid(e)
      requires forall i :: 0 <= i < old(|entries|) ==> entries[i].value == e.value || unchanged(entries[i].value)
      requires forall k :: old(|committedChanges|) <= k < |committedChanges| ==>
        committedChanges[k].value == e.value && committedChanges[k].current == Next(e)
      requires changedValues == old(changedValues) + (if e.ValueEntry? then {e.value} else {})
      ensures Valid()
    {
      var n := old(|entries|);
      assert entries[n] == e;
      forall i | 0 <= i < n
        ensures entries[i] == old(entries[i]) && entries[i].value != e.value && EntryValid(entries[i])
      {
        assert old(EntryValid(entries[i]));
        if entries[i].value in old(Told()) {
          var k :| 0 <= k < old(|committedChanges|) && old(committedChanges)[k].value == entries[i].value;
          assert committedChanges[k].value == entries[i].value;
        }
      }
      forall k | 0 <= k < |committedChanges| ensures ChangeValid(committedChanges[k])
      {
        if k < old(|committedChanges|) {
          assert old(ChangeValid(committedChanges[k]));
          var c := committedChanges[k];
          var i :| 0 <= i < n && old(entries[i].value == c.value && c.current == Next(entries[i]));
          assert entries[i].value == c.value && c.current == Next(entries[i]);
        } else {
          assert entries[n].value == committedChanges[k].value;
        }
      }
    }

    /** Moving values to another slot does not disturb the transaction they are staged in. */
    twostate lemma Undisturbed()
      requires old(Valid()) && unchanged(this)
      requires forall i :: 0 <= i < |entries| ==>
        && entries[i].value.Valid()
        && entries[i].value.pendingTransaction == old(entries[i].value.pendingTransaction)
        && entries[i].value.pendingBaselineValues == old(entries[i].value.pendingBaselineValues)
        && entries[i].value.pendingBaselineSlot == old(entries[i].value.pendingBaselineSlot)
        && entries[i].value.pendingValue == old(entries[i].value.pendingValue)
      ensures Valid()
    {
      forall i, j | 0 <= i < j < |entries| ensures EntriesApart(entries[i], entries[j]) {
        assert old(EntriesApart(entries[i], entries[j]));
      }
      forall i | 0 <= i < |entries| ensures EntryValid(entries[i]) {
        assert old(EntryValid(entries[i]));
      }
      forall k | 0 <= k < |committedChanges| ensures ChangeValid(committedChanges[k]) {
        assert old(ChangeValid(committedChanges[k]));
      }
    }

    /** Nothing has happened to the staged values since they were staged. */
    ghost predicate Fresh()
      reads this, Touched(), Arrays()
    {
      forall i :: 0 <= i < |entries| ==>
        match entries[i]
        case ValueEntry(v) => v.currentSlot < v.slots.Length && v.previousValue == v.Current()
        case BaselineEntry(v, _) =>
          v.pendingBaselineValues == Some(v.slots[..]) && v.pendingBaselineSlot == v.currentSlot
    }

    /** The value of `e` holds what was staged and belongs to no transaction. */
    twostate predicate Settled(e: Entry)
      reads e.value`currentSlot, e.value`pendingTransaction, e.value`pendingBaselineValues, e.value`pendingBaselineSlot
      reads e.value.slots
    {
      && e.value.Valid() && e.value.pendingTransaction == null
      && e.value.currentSlot == old(e.value.currentSlot)
      && e.value.slots[..] == old(CommittedSlots(e))
    }

    method CommitEntries()
      requires Valid()
      modifies Touched()`previousSlotValue, Arrays()
      ensures forall i :: 0 <= i < |entries| ==> entries[i].value.slots[..] == old(CommittedSlots(entries[i]))
      ensures forall i :: 0 <= i < |entries| ==> entries[i].value.Valid()
    {
      AllEntriesApart();
      AllValid();
      for index := 0 to |entries|
        invariant forall i :: 0 <= i < index ==> entries[i].value.slots[..] == old(CommittedSlots(entries[i]))
        invariant forall i :: index <= i < |entries| ==> entries[i].value.slots[..] == old(entries[i].value.slots[..])
        invariant forall i :: 0 <= i < |entries| ==> entries[i].value.Valid()
      {
        CommitAt(index);
      }
    }

    method CommitAt(index: nat)
      requires index < |entries|
      requires forall i :: 0 <= i < |entries| ==> entries[i].value.Valid()
      requires forall i :: 0 <= i < |entries| && i != index ==> entries[i].value.slots != entries[index].value.slots
      requires entries[index].value.pendingTransaction == this
      modifies entries[index].value`previousSlotValue, entries[index].value.slots
      ensures entries[index].value.slots[..] == old(CommittedSlots(entries[index]))
      ensures forall i :: 0 <= i < |entries| && i != index ==>
        entries[i].value.slots[..] == old(entries[i].value.slots[..])
    {
      match entries[index]
      case ValueEntry(v) => v.CommitPending();
      case BaselineEntry(v, baseline) => v.CommitBaseline(baseline);
    }

    method CompleteEntries()
      requires forall i :: 0 <= i < |entries| ==> entries[i].value.Valid()
      modifies Touched()`pendingTransaction, Touched()`pendingBaselineValues
      ensures forall i :: 0 <= i < |entries| ==> entries[i].value.Valid() && entries[i].value.pendingTransaction == null
    {
      for index := 0 to |entries|
        invariant forall i :: 0 <= i < |entries| ==> entries[i].value.Valid()
        invariant forall i :: 0 <= i < index ==> entries[i].value.pendingTransaction == null
      {
        entries[index].value.Complete();
      }
    }

    ghost function Told(): set<StateValue>
      reads this
    {
      set k | 0 <= k < |committedChanges| :: committedChanges[k].value
    }

    /** What the observers of each announced value are going to be told. */
    ghost function Announcements(): (m: map<StateValue, Value>)
      requires Valid()
      reads this, Touched()
      ensures m.Keys == Told()
      ensures forall k :: 0 <= k < |committedChanges| ==> committedChanges[k].current == m[committedChanges[k].value]
      ensures forall i :: 0 <= i < |entries| && entries[i].value in m ==> m[entries[i].value] == Next(entries[i])
    {
      var m := map v | v in Told() ::
        var k :| 0 <= k < |committedChanges| && committedChanges[k].value == v; committedChanges[k].current;
      AllEntriesApart();
      assert forall k :: 0 <= k < |committedChanges| ==> ChangeValid(committedChanges[k]);
      m
    }

    /** Runs the queued notifications in order. */
    method NotifyObservers(ghost announcements: map<StateValue, Value>)
      requires announcements.Keys == Told()
      requires forall k :: 0 <= k < |committedChanges| ==>
        committedChanges[k].current == announcements[committedChanges[k].value]
      modifies Told()`observed
      ensures forall v :: v in Told() ==> v.observed == announcements[v]
    {
      for index := 0 to |committedChanges|
        invariant forall k :: 0 <= k < index ==>
          committedChanges[k].value.observed == announcements[committedChanges[k].value]
      {
        committedChanges[index].value.observed := committedChanges[index].current;
      }
    }

    /** The observers of `e` were told what it committed, unless the current slot showed that before. */
    twostate predicate Informed(e: Entry)
      reads e.value`observed
    {
      e.value.observed == old(Next(e)) ||
      (e.value.observed == old(e.value.observed) && old(e.value.Valid() && Silent(e)))
    }

    /** Commits every entry, completes them, and then notifies in the order of staging. */
    method Commit()
      requires Valid() && !completed
      modifies this`completed, Touched(), Arrays()
      ensures completed
      ensures forall i :: 0 <= i < |entries| ==> Settled(entries[i])
      ensures forall i :: 0 <= i < |entries| ==> Informed(entries[i])
    {
      ghost var announcements := Announcements();
      ToldAreTouched();
      AllValid();
      StoreAll();
      NotifyObservers(announcements);
    }

    /** Both passes over the entries. */
    method StoreAll()
      requires Valid()
      modifies this`completed, Arrays()
      modifies Touched()`previousSlotValue, Touched()`pendingTransaction, Touched()`pendingBaselineValues
      ensures completed
      ensures forall i :: 0 <= i < |entries| ==> Settled(entries[i])
    {
      AllValid();
      CommitEntries();
      CompleteEntries();
      completed := true;
    }

    lemma ToldAreTouched()
      requires Valid()
      ensures Told() <= Touched()
    {
      forall v | v in Told() ensures v in Touched() {
        var k :| 0 <= k < |committedChanges| && committedChanges[k].value == v;
        assert ChangeValid(committedChanges[k]);
      }
    }

    /** The value of `e` is back where it was staged and belongs to no transaction. */
    twostate predicate Undone(e: Entry)
      reads e.value`currentSlot, e.value`pendingTransaction, e.value`pendingBaselineValues, e.value`pendingBaselineSlot
      reads e.value.slots
    {
      && e.value.Valid() && e.value.pendingTransaction == null
      && (e.value.slots[..], e.value.currentSlot) == old(RestoredSlots(e))
    }

    /** Disposing a transaction that was not committed rolls its entries back, last staged first. A
        transaction that is disposed before anything else happened leaves every slot as it was. */
    method Rollback()
      requires completed || Valid()
      modifies this`completed, this`committedChanges, Arrays()
      modifies Touched()`currentSlot, Touched()`previousSlotValue,
        Touched()`pendingTransaction, Touched()`pendingBaselineValues
      ensures completed
      ensures old(completed) ==>
        forall i :: 0 <= i < |entries| ==> unchanged(entries[i].value) && unchanged(entries[i].value.slots)
      ensures !old(completed) ==> forall i :: 0 <= i < |entries| ==> Undone(entries[i])
      ensures !old(completed) && old(Fresh()) ==>
        forall i :: 0 <= i < |entries| ==>
          entries[i].value.slots[..] == old(entries[i].value.slots[..]) &&
          entries[i].value.currentSlot == old(entries[i].value.currentSlot)
    {
      if completed {
        return;
      }
      RollbackEntries();
      committedChanges := [];
      completed := true;
    }

    method RollbackEntries()
      requires Valid()
      modifies Arrays()
      modifies Touched()`currentSlot, Touched()`previousSlotValue,
        Touched()`pendingTransaction, Touched()`pendingBaselineValues
      ensures forall i :: 0 <= i < |entries| ==> Undone(entries[i])
    {
      AllEntriesApart();
      AllValid();
      var index := |entries| - 1;
      while index >= 0
        invariant -1 <= index < |entries|
        invariant forall i :: index < i < |entries| ==> Undone(entries[i])
        invariant forall i :: 0 <= i <= index ==>
          && entries[i].value.slots[..] == old(entries[i].value.slots[..])
          && entries[i].value.currentSlot == old(entries[i].value.currentSlot)
          && entries[i].value.pendingTransaction == this
          && entries[i].value.pendingBaselineValues == old(entries[i].value.pendingBaselineValues)
      {
        RollbackAt(index);
        index := index - 1;
      }
    }

    method RollbackAt(index: nat)
      requires index < |entries|
      requires forall i :: 0 <= i < |entries| && i != index ==>
        entries[i].value.slots != entries[index].value.slots && entries[i].value != entries[index].value
      requires entries[index].value.Valid() && entries[index].value.pendingTransaction == this
      requires entries[index].BaselineEntry? <==> entries[index].value.pendingBaselineValues.Some?
      modifies entries[index].value`currentSlot, entries[index].value`previousSlotValue
      modifies entries[index].value`pendingTransaction, entries[index].value`pendingBaselineValues
      modifies entries[index].value.slots
      ensures Undone(entries[index])
      ensures forall i :: 0 <= i < |entries| && i != index ==>
        entries[i].value.slots[..] == old(entries[i].value.slots[..])
    {
      match entries[index]
      case ValueEntry(v) => v.RollbackPending();
      case BaselineEntry(v, baseline) => v.RollbackBaseline();
    }
  }
}
