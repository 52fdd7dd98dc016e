/**
  Write commands on real state values: peers are staged one by one into a transaction, and the
  handler then opens a history point, if one is due, and commits; every refusal rolls back.
 */
module StateEdits {
  import opened Common
  import opened StateValues
  import opened StateHistories
  import G = GroupEdits
  import H = HistoryModel

  type Snapshot = map<StateValue, Value>

  ghost predicate Shows(v: StateValue, value: Value)
    reads v`currentSlot, v.slots
  {
    v.currentSlot < v.slots.Length && v.Current() == value
  }

  /** `v` belongs to the transaction if it is staged, and to none otherwise. */
  ghost predicate Held(v: StateValue, transaction: StateHistoryTransaction, value: Value, staged: Option<Value>)
    reads v, v.slots
  {
    && v.Valid() && v.pendingBaselineValues.None? && Shows(v, value)
    && v.pendingTransaction == (if staged.Some? then transaction else null)
    && (staged.Some? ==> v.pendingValue == staged.value && v.previousValue == value)
  }

  /** `v` shows `value` and belongs to no transaction. */
  ghost predicate Resting(v: StateValue, value: Value)
    reads v, v.slots
  {
    v.Valid() && v.pendingTransaction == null && Shows(v, value)
  }

  /** Between commands: the values of the world show `values` and nothing is staged. */
  ghost predicate Idle(all: set<StateValue>, values: Snapshot)
    reads all, set v | v in all :: v.slots
  {
    && AllApart(all) && values.Keys == all
    && forall v {:trigger Resting(v, values[v])} :: v in all ==> Resting(v, values[v])
  }

  ghost predicate OnlyStaged(entries: seq<Entry>, staged: Snapshot) {
    forall i :: 0 <= i < |entries| ==> entries[i].ValueEntry? && entries[i].value in staged
  }

  /** `transaction` holds exactly the changes `staged` of values that still show `values`. */
  ghost predicate Staging(all: set<StateValue>, transaction: StateHistoryTransaction, values: Snapshot,
                          staged: Snapshot)
    reads all, set v | v in all :: v.slots
    reads transaction`entries, transaction`changedValues, transaction`completed
  {
    && AllApart(all) && values.Keys == all
    && !transaction.completed && transaction.changedValues == staged.Keys <= all
    && OnlyStaged(transaction.entries, staged)
    && (forall v {:trigger Held(v, transaction, values[v], Lookup(staged, v))} ::
          v in all ==> Held(v, transaction, values[v], Lookup(staged, v)))
  }

  method StageValue(v: StateValue, value: Value, transaction: StateHistoryTransaction,
                    ghost all: set<StateValue>, ghost values: Snapshot, ghost staged: Snapshot)
    returns (ok: bool)
    requires Staging(all, transaction, values, staged) && transaction.Valid() && v in all
    modifies v`pendingTransaction, v`pendingValue, v`previousValue
    modifies transaction`entries, transaction`committedChanges, transaction`changedValues
    ensures ok <==> G.Stage(values, staged, v, value).Some?
    ensures Staging(all, transaction, values, if ok then G.Stage(values, staged, v, value).value else staged)
    ensures transaction.Valid()
  {
    assert Held(v, transaction, values[v], Lookup(staged, v));
    assert transaction.SeparateFrom(v) by {
      forall i | 0 <= i < |transaction.entries| ensures Apart(transaction.entries[i].value, v) {}
    }
    ok := v.Prepare(value, transaction);
    ghost var next := if ok then G.Stage(values, staged, v, value).value else staged;
    assert OnlyStaged(transaction.entries, next);
    forall w | w in all ensures Held(w, transaction, values[w], Lookup(next, w)) {
      assert old(Held(w, transaction, values[w], Lookup(staged, w)));
    }
  }

  // Grouped writes

  predicate SameKind(a: Value, b: Value) {
    a.Float? == b.Float? && a.Int? == b.Int? && a.Bool? == b.Bool? && a.GroupOf? == b.GroupOf?
  }

  /** The peers of an entry are typed alike, and the written value has their type. */
  ghost predicate Typed(values: Snapshot, e: G.Entry<StateValue>)
    requires G.Known(values, e)
  {
    forall p :: p in e.peers ==> SameKind(values[p], e.value)
  }

  ghost predicate AllShow(values: Snapshot, peers: seq<StateValue>)
    reads peers, set v | v in peers :: v.slots
  {
    forall p :: p in peers ==> p in values && Shows(p, values[p])
  }

  function Read(peers: seq<StateValue>): (m: Snapshot)
    requires forall p :: p in peers ==> p.currentSlot < p.slots.Length
    reads peers, set v | v in peers :: v.slots
    ensures m.Keys == set p | p in peers
    ensures forall p :: p in m ==> m[p] == p.Current()
  {
    map p | p in peers :: p.Current()
  }

  /** The checks made before any peer is staged. */
  method CheckEntry(e: G.Entry<StateValue>, ranges: G.Ranges<StateValue>, ghost values: Snapshot) returns (ok: bool)
    requires G.Known(values, e) && AllShow(values, e.peers) && Typed(values, e)
    ensures ok <==> G.Admissible(values, ranges, e)
  {
    if e.mode.CopyValue? {
      return true;
    }
    if !e.value.Float? || e.source !in ranges {
      return false;
    }
    var delta := e.value.number - e.source.Current().number;
    var read := Read(e.peers);
    var range := G.CalculateEffectiveDeltaRange(read, ranges, e.peers);
    assert G.FitAll(read, ranges, e.peers, delta) <==> G.FitAll(values, ranges, e.peers, delta) by {
      assert forall p :: p in e.peers ==> read[p] == values[p];
    }
    ok := range.Some? && range.value.Contains(delta);
  }

  /** Stages an entry peer by peer. A refusal leaves the peers before it staged; rolling them back is
      up to the owner of the transaction. */
  method StageEntry(e: G.Entry<StateValue>, ranges: G.Ranges<StateValue>, transaction: StateHistoryTransaction,
                    ghost all: set<StateValue>, ghost values: Snapshot, ghost staged: Snapshot)
    returns (ok: bool, ghost next: Snapshot)
    requires Staging(all, transaction, values, staged) && transaction.Valid()
    requires G.Known(values, e) && Typed(values, e)
    modifies all`pendingTransaction, all`pendingValue, all`previousValue
    modifies transaction`entries, transaction`committedChanges, transaction`changedValues
    ensures Staging(all, transaction, values, next) && transaction.Valid()
    ensures if ok then G.PrepareEntry(values, ranges, staged, e) == Some(next)
            else G.PrepareEntry(values, ranges, staged, e).None?
  {
    next := staged;
    PeersShow(e.peers, transaction, all, values, staged);
    ok := CheckEntry(e, ranges, values);
    assert old(transaction.Touched()) == transaction.Touched() && unchanged(transaction.Touched());
    if ok {
      ok, next := StagePeers(e, transaction, all, values, staged);
    }
  }

  lemma PeersShow(peers: seq<StateValue>, transaction: StateHistoryTransaction, all: set<StateValue>,
                  values: Snapshot, staged: Snapshot)
    requires Staging(all, transaction, values, staged) && forall p :: p in peers ==> p in all
    ensures AllShow(values, peers)
  {
    forall p | p in peers ensures Shows(p, values[p]) {
      assert Held(p, transaction, values[p], Lookup(staged, p));
    }
  }

  method StagePeers(e: G.Entry<StateValue>, transaction: StateHistoryTransaction,
                    ghost all: set<StateValue>, ghost values: Snapshot, ghost staged: Snapshot)
    returns (ok: bool, ghost next: Snapshot)
    requires Staging(all, transaction, values, staged) && transaction.Valid()
    requires G.Known(values, e) && Typed(values, e) && (e.mode.ApplyDelta? ==> e.value.Float?)
    modifies all`pendingTransaction, all`pendingValue, all`previousValue
    modifies transaction`entries, transaction`committedChanges, transaction`changedValues
    ensures Staging(all, transaction, values, next) && transaction.Valid()
    ensures G.StagePeers(values, staged, e, e.peers) == if ok then Some(next) else None
  {
    ok, next := true, staged;
    PeersShow([e.source], transaction, all, values, staged);
    assert e.source in [e.source];
    var delta := if e.mode.ApplyDelta? then e.value.number - e.source.Current().number else 0.0;
    for index := 0 to |e.peers|
      invariant Staging(all, transaction, values, next) && transaction.Valid()
      invariant G.StagePeers(values, staged, e, e.peers) == G.StagePeers(values, next, e, e.peers[index..])
    {
      ok, next := StagePeer(e, index, delta, transaction, all, values, next);
      if !ok {
        return;
      }
    }
  }

  method StagePeer(e: G.Entry<StateValue>, index: nat, delta: real, transaction: StateHistoryTransaction,
                   ghost all: set<StateValue>, ghost values: Snapshot, ghost staged: Snapshot)
    returns (ok: bool, ghost next: Snapshot)
    requires Staging(all, transaction, values, staged) && transaction.Valid()
    requires G.Known(values, e) && Typed(values, e) && (e.mode.ApplyDelta? ==> e.value.Float?)
    requires index < |e.peers| && (e.mode.ApplyDelta? ==> delta == G.Delta(values, e))
    modifies all`pendingTransaction, all`pendingValue, all`previousValue
    modifies transaction`entries, transaction`committedChanges, transaction`changedValues
    ensures Staging(all, transaction, values, next) && transaction.Valid()
    ensures var r := G.StagePeers(values, staged, e, e.peers[index..]);
      if ok then r == G.StagePeers(values, next, e, e.peers[index + 1..]) else r.None?
  {
    var peer := e.peers[index];
    PeersShow(e.peers, transaction, all, values, staged);
    var value :=
      if peer == e.source || e.mode.CopyValue? then e.value else Float(peer.Current().number + delta);
    assert value == G.Target(values, e, peer);
    assert e.peers[index..][0] == peer && e.peers[index..][1..] == e.peers[index + 1..];
    ok := StageValue(peer, value, transaction, all, values, staged);
    next := if ok then G.Stage(values, staged, peer, value).value else staged;
  }

  predicate AllKnown(values: Snapshot, entries: seq<G.Entry<StateValue>>) {
    forall i :: 0 <= i < |entries| ==> G.Known(values, entries[i])
  }

  ghost predicate AllTyped(values: Snapshot, entries: seq<G.Entry<StateValue>>)
    requires AllKnown(values, entries)
  {
    forall i :: 0 <= i < |entries| ==> Typed(values, entries[i])
  }

  method StageEntries(entries: seq<G.Entry<StateValue>>, ranges: G.Ranges<StateValue>,
                      transaction: StateHistoryTransaction, ghost all: set<StateValue>, ghost values: Snapshot)
    returns (ok: bool, ghost staged: Snapshot)
    requires Staging(all, transaction, values, map[]) && transaction.Valid()
    requires AllKnown(values, entries) && AllTyped(values, entries)
    modifies all`pendingTransaction, all`pendingValue, all`previousValue
    modifies transaction`entries, transaction`committedChanges, transaction`changedValues
    ensures Staging(all, transaction, values, staged) && transaction.Valid()
    ensures G.Prepare(values, ranges, map[], entries) == if ok then Some(staged) else None
  {
    ok, staged := true, map[];
    for index := 0 to |entries|
      invariant Staging(all, transaction, values, staged) && transaction.Valid()
      invariant G.Prepare(values, ranges, map[], entries) == G.Prepare(values, ranges, staged, entries[index..])
    {
      assert entries[index..][0] == entries[index] && entries[index..][1..] == entries[index + 1..];
      ok, staged := StageEntry(entries[index], ranges, transaction, all, values, staged);
      if !ok {
        return;
      }
    }
  }

  // The end of a transaction

  ghost predicate Registered(history: StateHistory, all: set<StateValue>)
    reads history`values
  {
    forall i :: 0 <= i < |history.values| ==> history.values[i] in all
  }

  /** `v` shows what it showed, in whatever slot, and its staging is untouched. */
  twostate predicate Carried(v: StateValue)
    reads v, v.slots
  {
    && v.Valid() && old(v.Valid()) && v.Current() == old(v.Current())
    && v.pendingTransaction == old(v.pendingTransaction)
    && v.pendingValue == old(v.pendingValue) && v.previousValue == old(v.previousValue)
    && v.pendingBaselineValues == old(v.pendingBaselineValues) && v.pendingBaselineSlot == old(v.pendingBaselineSlot)
    && v.observed == old(v.observed)
  }

  method Advance(history: StateHistory, ghost all: set<StateValue>)
    requires history.Valid() && Registered(history, all) && AllApart(all)
    requires forall v :: v in all ==> v.Valid()
    modifies history`currentSlot, history`availableUndoCount, history`availableRedoCount, history`revision
    modifies history.Arrays(), history.values`currentSlot, history.values`previousSlotValue
    ensures history.Valid() && history.Rings() == H.Apply(old(history.Rings()), H.Operation.Advance)
    ensures forall v :: v in all ==> Carried(v)
  {
    history.AdvanceHistoryPoint();
    forall v | v in all ensures Carried(v) {
      if i :| 0 <= i < |history.values| && history.values[i] == v {
        assert v.Current() == old(v.Current());
      } else {
        forall i | 0 <= i < |history.values| ensures Apart(history.values[i], v) {}
      }
    }
  }

  /** Opening a history point while changes are staged: the values still show what they showed, in
      the new slot, and the transaction is none the wiser. */
  method AdvanceStaged(history: StateHistory, transaction: StateHistoryTransaction,
                       ghost all: set<StateValue>, ghost values: Snapshot, ghost staged: Snapshot)
    requires history.Valid() && Registered(history, all)
    requires Staging(all, transaction, values, staged) && transaction.Valid()
    modifies history`currentSlot, history`availableUndoCount, history`availableRedoCount, history`revision
    modifies history.Arrays(), history.values`currentSlot, history.values`previousSlotValue
    ensures Staging(all, transaction, values, staged) && transaction.Valid()
    ensures history.Valid() && history.Rings() == H.Apply(old(history.Rings()), H.Operation.Advance)
    ensures forall v :: v in all ==> v.observed == old(v.observed)
  {
    assert forall v :: v in all ==> Held(v, transaction, values[v], Lookup(staged, v));
    Advance(history, all);
    assert forall v :: v in all ==> Carried(v);
    forall v | v in all ensures Held(v, transaction, values[v], Lookup(staged, v)) {
      assert old(Held(v, transaction, values[v], Lookup(staged, v)));
    }
    transaction.Undisturbed();
  }

  /** What ending a transaction did to `v`: its current slot holds the staged value, if it had one,
      its other slots are as they were, and its observers know. */
  twostate predicate Written(v: StateValue, staged: Option<Value>)
    reads v, v.slots
  {
    && v.Valid() && v.pendingTransaction == null && v.currentSlot == old(v.currentSlot)
    && v.slots[..] ==
         (if staged.Some? then Overwritten(old(v.slots[..]), v.currentSlot, staged.value) else old(v.slots[..]))
    && v.observed == (if staged.Some? then staged.value else old(v.observed))
  }

  /** Commits the entries; what each of them staged is written. */
  method CommitEntries(transaction: StateHistoryTransaction, ghost all: set<StateValue>, ghost values: Snapshot,
                       ghost staged: Snapshot)
    requires Staging(all, transaction, values, staged) && transaction.Valid()
    modifies transaction`completed, transaction.Touched(), transaction.Arrays()
    ensures forall i {:trigger transaction.entries[i]} :: 0 <= i < |transaction.entries| ==>
      Written(transaction.entries[i].value, Some(staged[transaction.entries[i].value]))
  {
    transaction.Commit();
    forall i | 0 <= i < |transaction.entries|
      ensures Written(transaction.entries[i].value, Some(staged[transaction.entries[i].value]))
    {
      var v := transaction.entries[i].value;
      assert old(Held(v, transaction, values[v], Lookup(staged, v)));
      assert transaction.Settled(transaction.entries[i]) && transaction.Informed(transaction.entries[i]);
    }
  }

  method CommitStaged(transaction: StateHistoryTransaction, ghost all: set<StateValue>, ghost values: Snapshot,
                      ghost staged: Snapshot)
    requires Staging(all, transaction, values, staged) && transaction.Valid()
    modifies transaction`completed, transaction.Touched(), transaction.Arrays()
    ensures forall v :: v in all ==> Written(v, Lookup(staged, v))
  {
    CommitEntries(transaction, all, values, staged);
    forall v | v in all ensures Written(v, Lookup(staged, v)) {
      if v in staged {
        assert v in transaction.changedValues;
        var i :| 0 <= i < |transaction.entries| && transaction.entries[i] == ValueEntry(v);
        assert Written(transaction.entries[i].value, Some(staged[v]));
      } else {
        assert old(Held(v, transaction, values[v], Lookup(staged, v)));
        forall i | 0 <= i < |transaction.entries| ensures Apart(transaction.entries[i].value, v) {}
        assert v.slots !in old(transaction.Arrays()) && v.slots[..] == old(v.slots[..]);
      }
    }
  }

  /** Afterwards the values show the staged changes and rest. */
  method CommitAndRest(transaction: StateHistoryTransaction, ghost all: set<StateValue>, ghost values: Snapshot,
                       ghost staged: Snapshot)
    requires Staging(all, transaction, values, staged) && transaction.Valid()
    modifies transaction`completed, transaction.Touched(), transaction.Arrays()
    ensures Idle(all, values + staged)
    ensures forall v :: v in all ==> Written(v, Lookup(staged, v))
  {
    CommitStaged(transaction, all, values, staged);
    forall v | v in all ensures Resting(v, (values + staged)[v]) {
      assert Written(v, Lookup(staged, v)) && old(Held(v, transaction, values[v], Lookup(staged, v)));
      assert v.Current() == v.slots[..][v.currentSlot];
    }
  }

  method RollbackStaged(transaction: StateHistoryTransaction, ghost all: set<StateValue>, ghost values: Snapshot,
                        ghost staged: Snapshot)
    requires Staging(all, transaction, values, staged) && transaction.Valid()
    modifies transaction`completed, transaction`committedChanges, transaction.Arrays()
    modifies transaction.Touched()`currentSlot, transaction.Touched()`previousSlotValue
    modifies transaction.Touched()`pendingTransaction, transaction.Touched()`pendingBaselineValues
    ensures Idle(all, values)
    ensures forall v :: v in all ==> Written(v, None)
  {
    assert transaction.Fresh() by {
      forall i | 0 <= i < |transaction.entries|
        ensures transaction.entries[i].ValueEntry?
        ensures Shows(transaction.entries[i].value, transaction.entries[i].value.previousValue)
      {
        var v := transaction.entries[i].value;
        assert Held(v, transaction, values[v], Lookup(staged, v));
      }
    }
    transaction.Rollback();
    forall v | v in all ensures Written(v, None) && Resting(v, values[v]) {
      assert old(Held(v, transaction, values[v], Lookup(staged, v)));
      if i :| 0 <= i < |transaction.entries| && transaction.entries[i].value == v {
        assert transaction.Undone(transaction.entries[i]);
      } else {
        forall i | 0 <= i < |transaction.entries| ensures Apart(transaction.entries[i].value, v) {}
      }
      assert v.Current() == v.slots[..][v.currentSlot];
    }
  }

  lemma WriteInHistory(history: StateHistory, before: H.Rings<StateValue, Value>, staged: Snapshot)
    requires history.Valid() && H.Valid(before)
    requires history.Rings() == before.(slots := history.Rings().slots)
    requires before.slots.Keys == set v | v in history.values
    requires forall v :: v in history.values ==>
      v.slots[..] == if v in staged then Overwritten(before.slots[v], before.slot, staged[v]) else before.slots[v]
    ensures history.Rings() == H.Apply(before, H.Operation.Write(staged))
  {
  }

  method RollbackToHistory(history: StateHistory, transaction: StateHistoryTransaction,
                           ghost all: set<StateValue>, ghost values: Snapshot, ghost staged: Snapshot)
    requires history.Valid() && Registered(history, all)
    requires Staging(all, transaction, values, staged) && transaction.Valid()
    modifies transaction`completed, transaction`committedChanges, transaction.Arrays()
    modifies transaction.Touched()`currentSlot, transaction.Touched()`previousSlotValue
    modifies transaction.Touched()`pendingTransaction, transaction.Touched()`pendingBaselineValues
    ensures history.Valid() && Idle(all, values)
    ensures history.Rings() == old(history.Rings())
    ensures forall v :: v in all ==> Written(v, None)
  {
    ghost var before := history.Rings();
    RollbackStaged(transaction, all, values, staged);
    forall i | 0 <= i < |history.values| ensures Written(history.values[i], None) {}
    assert history.Rings().slots == before.slots;
  }

  // Commands

  ghost predicate OpensPoint(history: StateHistory, staged: Snapshot)
    reads history`values
  {
    exists v :: v in staged && v in history.values
  }

  method CommitToHistory(history: StateHistory, transaction: StateHistoryTransaction,
                         ghost all: set<StateValue>, ghost values: Snapshot, ghost staged: Snapshot)
    requires history.Valid() && Registered(history, all)
    requires Staging(all, transaction, values, staged) && transaction.Valid()
    modifies transaction`completed, transaction.Touched(), transaction.Arrays()
    ensures history.Valid() && Idle(all, values + staged)
    ensures history.Rings() == H.Apply(old(history.Rings()), H.Operation.Write(staged))
    ensures forall v :: v in all ==> v.observed == if v in staged then staged[v] else old(v.observed)
  {
    ghost var before := history.Rings();
    CommitAndRest(transaction, all, values, staged);
    forall i | 0 <= i < |history.values| ensures Written(history.values[i], Lookup(staged, history.values[i])) {}
    WriteInHistory(history, before, staged);
  }

  /** What a handler leaves behind, given what the history (`before`) and the observers (`seen`) held:
      everything staged has been committed, behind a history point if `point` asks for one and a
      registered value changes; or nothing has happened. */
  ghost predicate Concluded(history: StateHistory, all: set<StateValue>, values: Snapshot, seen: Snapshot,
                            before: H.Rings<StateValue, Value>, staged: Option<Snapshot>, point: bool)
    requires H.Valid(before)
    reads history, history.values, history.Arrays(), all, set v | v in all :: v.slots
  {
    && history.Valid() && seen.Keys == all
    && match staged
       case None =>
         && Idle(all, values) && history.Rings() == before
         && forall v :: v in all ==> v.observed == seen[v]
       case Some(changes) =>
         && Idle(all, values + changes)
         && history.Rings() ==
            H.Apply(H.Opened(before, point && OpensPoint(history, changes)), H.Operation.Write(changes))
         && forall v :: v in all ==> v.observed == if v in changes then changes[v] else seen[v]
  }

  /** Observers, the runtime projection among them, that know what a value shows before a command know
      it afterwards. */
  lemma ObserversStayUpToDate(history: StateHistory, all: set<StateValue>, values: Snapshot, seen: Snapshot,
                              before: H.Rings<StateValue, Value>, staged: Option<Snapshot>, point: bool)
    requires H.Valid(before) && Concluded(history, all, values, seen, before, staged, point) && values.Keys == all
    ensures forall v :: v in all ==> v.Valid() && (seen[v] == values[v] ==> v.observed == v.Current())
  {
    forall v | v in all ensures v.Valid() && (seen[v] == values[v] ==> v.observed == v.Current()) {
      assert Resting(v, if staged.Some? then (values + staged.value)[v] else values[v]);
    }
  }

  ghost predicate Observed(all: set<StateValue>, seen: Snapshot)
    reads all`observed
  {
    seen.Keys == all && forall v :: v in all ==> v.observed == seen[v]
  }

  /** The tail of both edit handlers: opens a history point if one is asked for and a registered value
      changes, then commits. */
  method Finish(history: StateHistory, transaction: StateHistoryTransaction, point: bool,
                ghost all: set<StateValue>, ghost values: Snapshot, ghost staged: Snapshot, ghost seen: Snapshot)
    requires history.Valid() && Registered(history, all) && Observed(all, seen)
    requires Staging(all, transaction, values, staged) && transaction.Valid()
    modifies history`currentSlot, history`availableUndoCount, history`availableRedoCount, history`revision
    modifies transaction`completed, all, set v | v in all :: v.slots
    ensures Concluded(history, all, values, seen, old(history.Rings()), Some(staged), point)
  {
    OpenPoint(history, transaction, point, all, values, staged);
    CommitToHistory(history, transaction, all, values, staged);
  }

  method OpenPoint(history: StateHistory, transaction: StateHistoryTransaction, point: bool,
                   ghost all: set<StateValue>, ghost values: Snapshot, ghost staged: Snapshot)
    requires history.Valid() && Registered(history, all)
    requires Staging(all, transaction, values, staged) && transaction.Valid()
    modifies history`currentSlot, history`availableUndoCount, history`availableRedoCount, history`revision
    modifies history.Arrays(), history.values`currentSlot, history.values`previousSlotValue
    ensures Staging(all, transaction, values, staged) && transaction.Valid() && history.Valid()
    ensures history.Rings() == H.Opened(old(history.Rings()), point && OpensPoint(history, staged))
    ensures forall v :: v in all ==> v.observed == old(v.observed)
  {
    assert transaction.changedValues == staged.Keys;
    if point && history.HasHistoryChanges(transaction) {
      AdvanceStaged(history, transaction, all, values, staged);
    }
  }

  /** Leaving a handler without committing disposes the transaction: nothing has happened. */
  method Abandon(history: StateHistory, transaction: StateHistoryTransaction, ghost point: bool,
                 ghost all: set<StateValue>, ghost values: Snapshot, ghost staged: Snapshot, ghost seen: Snapshot)
    requires history.Valid() && Registered(history, all) && Observed(all, seen)
    requires Staging(all, transaction, values, staged) && transaction.Valid()
    modifies transaction`completed, transaction`committedChanges, all, set v | v in all :: v.slots
    ensures Concluded(history, all, values, seen, old(history.Rings()), None, point)
  {
    RollbackToHistory(history, transaction, all, values, staged);
  }

  method Conclude(history: StateHistory, transaction: StateHistoryTransaction, ok: bool, point: bool,
                  ghost all: set<StateValue>, ghost values: Snapshot, ghost staged: Snapshot, ghost seen: Snapshot)
    requires history.Valid() && Registered(history, all) && Observed(all, seen)
    requires Staging(all, transaction, values, staged) && transaction.Valid()
    modifies history`currentSlot, history`availableUndoCount, history`availableRedoCount, history`revision
    modifies transaction`completed, transaction`committedChanges, all, set v | v in all :: v.slots
    ensures Concluded(history, all, values, seen, old(history.Rings()), if ok then Some(staged) else None, point)
  {
    if ok {
      Finish(history, transaction, point, all, values, staged, seen);
    } else {
      Abandon(history, transaction, point, all, values, staged, seen);
    }
  }

  // The write command

  /** What the state tree holds at a path. A transient leaf has no state value behind it. */
  datatype Node = Container | Leaf(value: StateValue) | Transient(current: Value)

  type Tree = map<Path, Node>

  type Peers = map<StateValue, seq<StateValue>>

  datatype WriteEntry = WriteEntry(path: Path, value: Value, mode: G.Mode)

  /** `Failed` stands for the exception that a refused preparation raises. */
  datatype WriteStatus = NotHandled | Unchanged | Applied | Rejected | Failed

  function KindOf(node: Node): Value
    requires !node.Container?
  {
    if node.Leaf? then node.value.initialValue else node.current
  }

  /** The first complaint about the entries, each of which must name a typed leaf, once. */
  function Complaint(tree: Tree, entries: seq<WriteEntry>, seen: set<Path>): (r: Option<WriteStatus>)
    ensures r.None? || r.value.NotHandled? || r.value.Rejected?
    decreases |entries|
  {
    if entries == [] then None
    else
      var e := entries[0];
      if e.path !in tree || tree[e.path].Container? || e.path in seen then Some(NotHandled)
      else if !SameKind(KindOf(tree[e.path]), e.value) then Some(Rejected)
      else Complaint(tree, entries[1..], seen + {e.path})
  }

  /** The entry names a leaf of the tree. */
  predicate NamesLeaf(tree: Tree, e: WriteEntry) { e.path in tree && !tree[e.path].Container? }

  /** An entry before names the same leaf. */
  predicate Repeats(entries: seq<WriteEntry>, i: nat)
    requires i < |entries|
  {
    exists j :: 0 <= j < i && entries[j].path == entries[i].path
  }

  /** The entry is the first for its leaf and of its type. */
  predicate Fine(tree: Tree, entries: seq<WriteEntry>, i: nat)
    requires i < |entries|
  {
    && NamesLeaf(tree, entries[i]) && !Repeats(entries, i)
    && SameKind(KindOf(tree[entries[i].path]), entries[i].value)
  }

  predicate AllFine(tree: Tree, entries: seq<WriteEntry>, count: nat)
    requires count <= |entries|
  {
    forall i :: 0 <= i < count ==> Fine(tree, entries, i)
  }

  /** The status that the first entry that is not fine gives; there is none exactly when all are fine. */
  ghost predicate JudgedByTheFirst(tree: Tree, entries: seq<WriteEntry>, r: Option<WriteStatus>) {
    && (r.None? <==> AllFine(tree, entries, |entries|))
    && (forall i :: 0 <= i < |entries| && AllFine(tree, entries, i) && !Fine(tree, entries, i) ==>
          r == Some(if NamesLeaf(tree, entries[i]) && !Repeats(entries, i) then Rejected else NotHandled))
  }

  ghost predicate SeenBefore(entries: seq<WriteEntry>, index: nat, paths: set<Path>)
    requires index <= |entries|
  {
    forall path :: path in paths <==> exists j :: 0 <= j < index && entries[j].path == path
  }

  lemma {:induction false} ComplaintFrom(tree: Tree, entries: seq<WriteEntry>, index: nat, paths: set<Path>)
    requires index <= |entries| && SeenBefore(entries, index, paths) && AllFine(tree, entries, index)
    ensures JudgedByTheFirst(tree, entries, Complaint(tree, entries[index..], paths))
    decreases |entries| - index
  {
    if index < |entries| {
      var e := entries[index];
      assert entries[index..][0] == e && entries[index..][1..] == entries[index + 1..];
      assert e.path in paths <==> Repeats(entries, index);
      if Fine(tree, entries, index) {
        ComplaintFrom(tree, entries, index + 1, paths + {e.path});
      }
    }
  }

  /** A complaint is about the first entry that names no leaf, names a leaf again, or is of the wrong type. */
  lemma ComplaintIsAboutTheFirst(tree: Tree, entries: seq<WriteEntry>)
    ensures JudgedByTheFirst(tree, entries, Complaint(tree, entries, {}))
  {
    assert entries[0..] == entries;
    ComplaintFrom(tree, entries, 0, {});
  }

  predicate IsLeaf(tree: Tree, e: WriteEntry) {
    e.path in tree && tree[e.path].Leaf?
  }

  /** The grouped writes that the entries ask for, up to the first transient leaf. */
  function Writes(tree: Tree, peers: Peers, entries: seq<WriteEntry>): seq<G.Entry<StateValue>>
    decreases |entries|
  {
    if entries == [] || !IsLeaf(tree, entries[0]) || tree[entries[0].path].value !in peers then []
    else
      var e := entries[0];
      var v := tree[e.path].value;
      [G.Entry(v, peers[v], e.value, e.mode)] + Writes(tree, peers, entries[1..])
  }

  /** A write derived from the command, staged directly on one value. */
  function Direct(derived: seq<(StateValue, Value)>): seq<G.Entry<StateValue>> {
    seq(|derived|, i requires 0 <= i < |derived| =>
      G.Entry(derived[i].0, [derived[i].0], derived[i].1, G.CopyValue))
  }

  ghost predicate IsDerived(derived: seq<(StateValue, Value)>, v: StateValue) {
    exists i :: 0 <= i < |derived| && derived[i].0 == v
  }

  method Validate(tree: Tree, entries: seq<WriteEntry>) returns (r: Option<WriteStatus>)
    ensures r == Complaint(tree, entries, {})
    ensures JudgedByTheFirst(tree, entries, r)
  {
    ComplaintIsAboutTheFirst(tree, entries);
    var paths: set<Path> := {};
    for index := 0 to |entries|
      invariant Complaint(tree, entries, {}) == Complaint(tree, entries[index..], paths)
    {
      var e := entries[index];
      assert entries[index..][0] == e && entries[index..][1..] == entries[index + 1..];
      if e.path !in tree || tree[e.path].Container? || e.path in paths {
        return Some(NotHandled);
      }
      if !SameKind(KindOf(tree[e.path]), e.value) {
        return Some(Rejected);
      }
      paths := paths + {e.path};
    }
    r := None;
  }

  /** The peers of a value are values of its own type, itself among them; every leaf has peers. */
  ghost predicate Wired(values: Snapshot, tree: Tree, peers: Peers) {
    && (forall v :: v in values ==> SameKind(values[v], v.initialValue))
    && (forall path :: path in tree && tree[path].Leaf? ==> tree[path].value in peers)
    && (forall v :: v in peers ==> v in peers[v])
    && (forall v, p :: v in peers && p in peers[v] ==> p in values && SameKind(p.initialValue, v.initialValue))
  }

  predicate WellTyped(tree: Tree, entries: seq<WriteEntry>) {
    forall i :: 0 <= i < |entries| ==>
      && entries[i].path in tree && !tree[entries[i].path].Container?
      && SameKind(KindOf(tree[entries[i].path]), entries[i].value)
  }

  lemma {:induction false} AcceptedEntriesAreTyped(tree: Tree, entries: seq<WriteEntry>, seen: set<Path>)
    requires Complaint(tree, entries, seen).None?
    ensures WellTyped(tree, entries)
    decreases |entries|
  {
    if entries != [] {
      AcceptedEntriesAreTyped(tree, entries[1..], seen + {entries[0].path});
      assert forall i :: 0 < i < |entries| ==> entries[i] == entries[1..][i - 1];
    }
  }

  lemma {:induction false} WritesAreKnown(values: Snapshot, tree: Tree, peers: Peers, entries: seq<WriteEntry>)
    requires Wired(values, tree, peers) && WellTyped(tree, entries)
    ensures AllKnown(values, Writes(tree, peers, entries)) && AllTyped(values, Writes(tree, peers, entries))
    ensures |Writes(tree, peers, entries)| <= |entries|
    decreases |entries|
  {
    if entries != [] {
      assert forall i :: 0 <= i < |entries[1..]| ==> entries[1..][i] == entries[i + 1];
      WritesAreKnown(values, tree, peers, entries[1..]);
    }
  }

  /** Stages the resolved entries in order. `Some(Rejected)` is a transient leaf, `Some(Failed)` a
      refused preparation. */
  method StageWrites(tree: Tree, peers: Peers, entries: seq<WriteEntry>, ranges: G.Ranges<StateValue>,
                     transaction: StateHistoryTransaction,
                     ghost all: set<StateValue>, ghost values: Snapshot, ghost staged: Snapshot)
    returns (r: Option<WriteStatus>, ghost next: Snapshot)
    requires Staging(all, transaction, values, staged) && transaction.Valid()
    requires Wired(values, tree, peers) && WellTyped(tree, entries)
    modifies all`pendingTransaction, all`pendingValue, all`previousValue
    modifies transaction`entries, transaction`committedChanges, transaction`changedValues
    ensures Staging(all, transaction, values, next) && transaction.Valid()
    ensures AllKnown(values, Writes(tree, peers, entries))
    ensures match G.Prepare(values, ranges, staged, Writes(tree, peers, entries))
      case None => r == Some(Failed)
      case Some(s) => next == s && r == if |Writes(tree, peers, entries)| == |entries| then None else Some(Rejected)
  {
    r, next := None, staged;
    WritesAreKnown(values, tree, peers, entries);
    for index := 0 to |entries|
      invariant Staging(all, transaction, values, next) && transaction.Valid()
      invariant WellTyped(tree, entries[index..]) && AllKnown(values, Writes(tree, peers, entries[index..]))
      invariant |Writes(tree, peers, entries)| == index + |Writes(tree, peers, entries[index..])|
      invariant G.Prepare(values, ranges, staged, Writes(tree, peers, entries)) ==
        G.Prepare(values, ranges, next, Writes(tree, peers, entries[index..]))
    {
      var e, rest := entries[index], entries[index..];
      assert rest[0] == e && rest[1..] == entries[index + 1..];
      WritesAreKnown(values, tree, peers, rest);
      if tree[e.path].Transient? {
        return Some(Rejected), next;
      }
      var v := tree[e.path].value;
      assert Writes(tree, peers, rest)[0] == G.Entry(v, peers[v], e.value, e.mode);
      assert Writes(tree, peers, rest)[1..] == Writes(tree, peers, rest[1..]);
      var ok;
      ok, next := StageEntry(G.Entry(v, peers[v], e.value, e.mode), ranges, transaction, all, values, next);
      if !ok {
        return Some(Failed), next;
      }
    }
  }

  datatype WriteCommand = WriteCommand(entries: seq<WriteEntry>, transactionId: nat, topologyScope: bool) {
    predicate OpensPoint() { transactionId == 0 && !topologyScope }
  }

  /** Everything a command stages: its derived writes, then its entries. */
  function Staged(tree: Tree, peers: Peers, derived: seq<(StateValue, Value)>,
                  command: WriteCommand): seq<G.Entry<StateValue>> {
    Direct(derived) + Writes(tree, peers, command.entries)
  }

  ghost predicate DerivedTyped(values: Snapshot, derived: seq<(StateValue, Value)>) {
    forall i :: 0 <= i < |derived| ==>
      derived[i].0 in values && SameKind(values[derived[i].0], derived[i].1)
  }

  lemma StagedIsKnown(values: Snapshot, tree: Tree, peers: Peers, derived: seq<(StateValue, Value)>,
                      command: WriteCommand)
    requires Wired(values, tree, peers) && DerivedTyped(values, derived) && WellTyped(tree, command.entries)
    ensures AllKnown(values, Direct(derived)) && AllTyped(values, Direct(derived))
    ensures AllKnown(values, Writes(tree, peers, command.entries))
    ensures AllKnown(values, Staged(tree, peers, derived, command))
  {
    WritesAreKnown(values, tree, peers, command.entries);
    forall i | 0 <= i < |derived|
      ensures G.Known(values, Direct(derived)[i]) && Typed(values, Direct(derived)[i])
    {
      assert Direct(derived)[i].peers == [derived[i].0];
    }
  }

  /** Begins a transaction and stages the whole command in it, as far as it can be staged. */
  method StageCommand(command: WriteCommand, tree: Tree, peers: Peers, ranges: G.Ranges<StateValue>,
                      derived: seq<(StateValue, Value)>, ghost all: set<StateValue>, ghost values: Snapshot)
    returns (transaction: StateHistoryTransaction, r: Option<WriteStatus>, ghost staged: Snapshot)
    requires Idle(all, values) && Wired(values, tree, peers) && DerivedTyped(values, derived)
    requires WellTyped(tree, command.entries)
    modifies all`pendingTransaction, all`pendingValue, all`previousValue
    ensures fresh(transaction)
    ensures Staging(all, transaction, values, staged) && transaction.Valid()
    ensures AllKnown(values, Staged(tree, peers, derived, command))
    ensures match G.Prepare(values, ranges, map[], Staged(tree, peers, derived, command))
      case None => r == Some(Failed)
      case Some(s) =>
        staged == s && r == if |Writes(tree, peers, command.entries)| < |command.entries| then Some(Rejected) else None
  {
    StagedIsKnown(values, tree, peers, derived, command);
    G.PrepareAppend(values, ranges, map[], Direct(derived), Writes(tree, peers, command.entries));
    transaction := new StateHistoryTransaction();
    assert Staging(all, transaction, values, map[]) by {
      forall v | v in all ensures Held(v, transaction, values[v], Lookup(map[], v)) {
        assert Resting(v, values[v]);
      }
    }
    var ok;
    ok, staged := StageEntries(Direct(derived), ranges, transaction, all, values);
    if !ok {
      return transaction, Some(Failed), staged;
    }
    WritesAreKnown(values, tree, peers, command.entries);
    r, staged := StageWrites(tree, peers, command.entries, ranges, transaction, all, values, staged);
  }

  /** What a command stages if it is accepted. */
  ghost function Accepted(values: Snapshot, ranges: G.Ranges<StateValue>, tree: Tree, peers: Peers,
                          derived: seq<(StateValue, Value)>, command: WriteCommand): Option<Snapshot>
    requires Wired(values, tree, peers) && DerivedTyped(values, derived) && WellTyped(tree, command.entries)
  {
    StagedIsKnown(values, tree, peers, derived, command);
    if |Writes(tree, peers, command.entries)| < |command.entries| then None
    else G.Prepare(values, ranges, map[], Staged(tree, peers, derived, command))
  }

  /** The status of a command whose entries all name typed leaves. */
  ghost function Verdict(values: Snapshot, ranges: G.Ranges<StateValue>, tree: Tree, peers: Peers,
                         derived: seq<(StateValue, Value)>, command: WriteCommand): WriteStatus
    requires Wired(values, tree, peers) && DerivedTyped(values, derived) && WellTyped(tree, command.entries)
  {
    StagedIsKnown(values, tree, peers, derived, command);
    if !G.Accepted(values, ranges, Staged(tree, peers, derived, command)) then Failed
    else
      match Accepted(values, ranges, tree, peers, derived, command)
      case None => Rejected
      case Some(changes) => if changes == map[] then Unchanged else Applied
  }

  method StageAndJudge(command: WriteCommand, tree: Tree, peers: Peers, ranges: G.Ranges<StateValue>,
                       derived: seq<(StateValue, Value)>, ghost all: set<StateValue>, ghost values: Snapshot)
    returns (transaction: StateHistoryTransaction, r: Option<WriteStatus>, ghost staged: Snapshot)
    requires Idle(all, values) && Wired(values, tree, peers) && DerivedTyped(values, derived)
    requires WellTyped(tree, command.entries)
    modifies all`pendingTransaction, all`pendingValue, all`previousValue
    ensures fresh(transaction)
    ensures Staging(all, transaction, values, staged) && transaction.Valid()
    ensures Accepted(values, ranges, tree, peers, derived, command) == if r.None? then Some(staged) else None
    ensures Verdict(values, ranges, tree, peers, derived, command) ==
      if r.Some? then r.value else if staged == map[] then Unchanged else Applied
  {
    WritesAreKnown(values, tree, peers, command.entries);
    transaction, r, staged := StageCommand(command, tree, peers, ranges, derived, all, values);
  }

  /** Staging does not show in the history. */
  method BeginCommand(command: WriteCommand, tree: Tree, peers: Peers, ranges: G.Ranges<StateValue>,
                      derived: seq<(StateValue, Value)>, history: StateHistory,
                      ghost all: set<StateValue>, ghost values: Snapshot)
    returns (transaction: StateHistoryTransaction, r: Option<WriteStatus>, ghost staged: Snapshot)
    requires Idle(all, values) && Wired(values, tree, peers) && DerivedTyped(values, derived)
    requires WellTyped(tree, command.entries)
    requires history.Valid() && Registered(history, all)
    modifies all`pendingTransaction, all`pendingValue, all`previousValue
    ensures fresh(transaction)
    ensures Staging(all, transaction, values, staged) && transaction.Valid()
    ensures Accepted(values, ranges, tree, peers, derived, command) == if r.None? then Some(staged) else None
    ensures Verdict(values, ranges, tree, peers, derived, command) ==
      if r.Some? then r.value else if staged == map[] then Unchanged else Applied
    ensures history.Valid() && history.Rings() == old(history.Rings())
  {
    transaction, r, staged := StageAndJudge(command, tree, peers, ranges, derived, all, values);
    forall i | 0 <= i < |history.values| ensures history.values[i].Valid() {
      var v := history.values[i];
      assert Held(v, transaction, values[v], Lookup(staged, v));
    }
    assert history.Rings().slots == old(history.Rings().slots);
  }

  method ExecuteWrite(command: WriteCommand, tree: Tree, peers: Peers, ranges: G.Ranges<StateValue>,
                      derived: seq<(StateValue, Value)>, history: StateHistory,
                      ghost all: set<StateValue>, ghost values: Snapshot, ghost seen: Snapshot)
    returns (status: WriteStatus)
    requires Idle(all, values) && history.Valid() && Registered(history, all) && Observed(all, seen)
    requires Wired(values, tree, peers) && DerivedTyped(values, derived) && WellTyped(tree, command.entries)
    modifies history`currentSlot, history`availableUndoCount, history`availableRedoCount, history`revision
    modifies all, set v | v in all :: v.slots
    ensures status == Verdict(values, ranges, tree, peers, derived, command)
    ensures Concluded(history, all, values, seen, old(history.Rings()),
                      Accepted(values, ranges, tree, peers, derived, command), command.OpensPoint())
  {
    var transaction, failure;
    ghost var staged;
    transaction, failure, staged := BeginCommand(command, tree, peers, ranges, derived, history, all, values);
    status :=
      if failure.Some? then failure.value
      else if transaction.changedValues != {} then Applied
      else Unchanged;
    Conclude(history, transaction, failure.None?, command.OpensPoint(), all, values, staged, seen);
  }

  function OrNothing(changes: Option<Snapshot>): Snapshot {
    if changes.Some? then changes.value else map[]
  }

  /** What a write command changes; `None` when it is refused. */
  ghost function Effect(values: Snapshot, ranges: G.Ranges<StateValue>, tree: Tree, peers: Peers,
                        derived: seq<(StateValue, Value)>, command: WriteCommand, allowed: bool): Option<Snapshot>
    requires Wired(values, tree, peers) && DerivedTyped(values, derived)
  {
    if Refusal(command, allowed, tree).Some? then None
    else
      AcceptedEntriesAreTyped(tree, command.entries, {});
      Accepted(values, ranges, tree, peers, derived, command)
  }

  ghost function Outcome(values: Snapshot, ranges: G.Ranges<StateValue>, tree: Tree, peers: Peers,
                         derived: seq<(StateValue, Value)>, command: WriteCommand, allowed: bool): WriteStatus
    requires Wired(values, tree, peers) && DerivedTyped(values, derived)
  {
    match Refusal(command, allowed, tree)
    case Some(status) => status
    case None =>
      AcceptedEntriesAreTyped(tree, command.entries, {});
      Verdict(values, ranges, tree, peers, derived, command)
  }

  /** Everything that is decided before a transaction is begun. */
  function Refusal(command: WriteCommand, allowed: bool, tree: Tree): Option<WriteStatus> {
    if command.entries == [] then Some(NotHandled)
    else if !allowed then Some(Rejected)
    else Complaint(tree, command.entries, {})
  }

  method Check(command: WriteCommand, allowed: bool, tree: Tree) returns (r: Option<WriteStatus>)
    ensures r == Refusal(command, allowed, tree)
  {
    if command.entries == [] {
      return Some(NotHandled);
    }
    if !allowed {
      return Some(Rejected);
    }
    r := Validate(tree, command.entries);
  }

  /** The write command: which status it answers, and what it leaves behind. */
  method HandleWrite(command: WriteCommand, allowed: bool, tree: Tree, peers: Peers, ranges: G.Ranges<StateValue>,
                     derived: seq<(StateValue, Value)>, history: StateHistory,
                     ghost all: set<StateValue>, ghost values: Snapshot, ghost seen: Snapshot)
    returns (status: WriteStatus)
    requires Idle(all, values) && history.Valid() && Registered(history, all) && Observed(all, seen)
    requires Wired(values, tree, peers) && DerivedTyped(values, derived)
    modifies history`currentSlot, history`availableUndoCount, history`availableRedoCount, history`revision
    modifies all, set v | v in all :: v.slots
    ensures status == Outcome(values, ranges, tree, peers, derived, command, allowed)
    ensures Concluded(history, all, values, seen, old(history.Rings()),
                      Effect(values, ranges, tree, peers, derived, command, allowed), command.OpensPoint())
  {
    var refusal := Check(command, allowed, tree);
    assert history.Rings() == old(history.Rings());
    ghost var effect := Effect(values, ranges, tree, peers, derived, command, allowed);
    if refusal.Some? {
      assert Concluded(history, all, values, seen, history.Rings(), effect, command.OpensPoint());
      return refusal.value;
    }
    AcceptedEntriesAreTyped(tree, command.entries, {});
    assert effect == Accepted(values, ranges, tree, peers, derived, command);
    status := ExecuteWrite(command, tree, peers, ranges, derived, history, all, values, seen);
  }
}
