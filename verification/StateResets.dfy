/**
  Reset commands: every leaf below the target is reset, with its peers, in one transaction and behind
  one history point.
 */
module StateResets {
  import opened Common
  import opened StateValues
  import opened StateHistories
  import opened StateEdits
  import G = GroupEdits
  import H = HistoryModel

  /** The target of a reset: a subtree of the state tree. */
  datatype ResetNode = Branch(children: seq<ResetNode>) | Value(value: StateValue) | NoValue

  /** Resetting one value: nothing to do when it is at its initial value already, even if it has been
      staged before. */
  function ResetOne(values: Snapshot, staged: Snapshot, v: StateValue): Option<Snapshot>
    requires v in values
  {
    if values[v] == v.initialValue then Some(staged) else G.Stage(values, staged, v, v.initialValue)
  }

  function ResetAll(values: Snapshot, staged: Snapshot, targets: seq<StateValue>): Option<Snapshot>
    requires forall v :: v in targets ==> v in values
    decreases |targets|
  {
    if targets == [] then Some(staged)
    else
      match ResetOne(values, staged, targets[0])
      case None => None
      case Some(next) => ResetAll(values, next, targets[1..])
  }

  lemma {:induction false} ResetAppend(values: Snapshot, staged: Snapshot, first: seq<StateValue>,
                                       second: seq<StateValue>)
    requires forall v :: v in first + second ==> v in values
    ensures ResetAll(values, staged, first + second) ==
      match ResetAll(values, staged, first)
      case None => None
      case Some(next) => ResetAll(values, next, second)
    decreases |first|
  {
    if first == [] {
      assert first + second == second;
    } else {
      assert (first + second)[0] == first[0] && (first + second)[1..] == first[1..] + second;
      var next := ResetOne(values, staged, first[0]);
      if next.Some? {
        ResetAppend(values, next.value, first[1..], second);
      }
    }
  }

  /** No value away from its initial value is reached twice. */
  predicate ReachedOnce(values: Snapshot, targets: seq<StateValue>)
    requires forall v :: v in targets ==> v in values
  {
    forall i, j :: 0 <= i < j < |targets| && targets[i] == targets[j] ==> values[targets[i]] == targets[i].initialValue
  }

  predicate Displaced(values: Snapshot, v: StateValue)
    requires v in values
  {
    values[v] != v.initialValue
  }

  /** Onto what has been staged before, a reset is accepted exactly when it reaches no displaced value twice
      and none that is staged. Displaced values get their initial value, all others stay as they were. */
  lemma {:induction false} ResetOnto(values: Snapshot, staged: Snapshot, targets: seq<StateValue>)
    requires (forall v :: v in targets ==> v in values) && staged.Keys <= values.Keys
    ensures var r := ResetAll(values, staged, targets);
      && (r.Some? <==>
            ReachedOnce(values, targets) && forall v :: v in targets && Displaced(values, v) ==> v !in staged)
      && (r.Some? ==>
            && r.value.Keys <= values.Keys
            && forall v :: v in values ==>
                 (values + r.value)[v] ==
                 if v in targets && Displaced(values, v) then v.initialValue else (values + staged)[v])
    decreases |targets|
  {
    if targets != [] {
      var v, rest := targets[0], targets[1..];
      assert forall w :: w in targets <==> w == v || w in rest;
      if !Displaced(values, v) {
        ResetOnto(values, staged, rest);
        OneMoreTarget(values, targets);
      } else if v in staged {
      } else if v in rest {
        DisplacedTwice(values, staged[v := v.initialValue], rest, v);
        var j :| 0 <= j < |rest| && rest[j] == v;
        assert targets[0] == targets[j + 1];
      } else {
        ResetOnto(values, staged[v := v.initialValue], rest);
        OneMoreTarget(values, targets);
      }
    }
  }

  lemma OneMoreTarget(values: Snapshot, targets: seq<StateValue>)
    requires targets != [] && forall v :: v in targets ==> v in values
    requires !Displaced(values, targets[0]) || targets[0] !in targets[1..]
    ensures ReachedOnce(values, targets) <==> ReachedOnce(values, targets[1..])
  {
    assert forall i :: 0 < i < |targets| ==> targets[i] == targets[1..][i - 1];
  }

  /** A reset is accepted exactly when no displaced value is reached twice, and it gives every value it
      reaches its initial value and touches no other. */
  lemma ResetRestoresInitialValues(values: Snapshot, staged: Snapshot, targets: seq<StateValue>)
    requires forall v :: v in targets ==> v in values && v !in staged
    requires staged.Keys <= values.Keys
    ensures var r := ResetAll(values, staged, targets);
      && (r.Some? <==> ReachedOnce(values, targets))
      && (r.Some? ==>
            && r.value.Keys <= values.Keys
            && forall v :: v in values ==>
                 (values + r.value)[v] == if v in targets then v.initialValue else (values + staged)[v])
  {
    ResetOnto(values, staged, targets);
  }

  lemma {:induction false} DisplacedTwice(values: Snapshot, staged: Snapshot, targets: seq<StateValue>, v: StateValue)
    requires forall w :: w in targets ==> w in values
    requires v in targets && v in staged && values[v] != v.initialValue
    ensures ResetAll(values, staged, targets).None?
    decreases |targets|
  {
    if targets[0] != v {
      var next := ResetOne(values, staged, targets[0]);
      if next.Some? {
        DisplacedTwice(values, next.value, targets[1..], v);
      }
    }
  }

  // Which values a reset reaches

  function Targets(node: ResetNode, peers: Peers): seq<StateValue>
    decreases node
  {
    match node
    case Branch(children) => TargetsOf(children, peers)
    case Value(v) => if v in peers then peers[v] else []
    case NoValue => []
  }

  function TargetsOf(children: seq<ResetNode>, peers: Peers): seq<StateValue>
    decreases children
  {
    if children == [] then [] else Targets(children[0], peers) + TargetsOf(children[1..], peers)
  }

  /** Resets the peers of one leaf. */
  method ResetPeers(peers: seq<StateValue>, transaction: StateHistoryTransaction,
                    ghost all: set<StateValue>, ghost values: Snapshot, ghost staged: Snapshot)
    returns (ok: bool, ghost next: Snapshot)
    requires Staging(all, transaction, values, staged) && transaction.Valid()
    requires forall p :: p in peers ==> p in all
    modifies all`pendingTransaction, all`pendingValue, all`previousValue
    modifies transaction`entries, transaction`committedChanges, transaction`changedValues
    ensures Staging(all, transaction, values, next) && transaction.Valid()
    ensures ResetAll(values, staged, peers) == if ok then Some(next) else None
  {
    ok, next := true, staged;
    for index := 0 to |peers|
      invariant Staging(all, transaction, values, next) && transaction.Valid()
      invariant ResetAll(values, staged, peers) == ResetAll(values, next, peers[index..])
    {
      assert peers[index..][0] == peers[index] && peers[index..][1..] == peers[index + 1..];
      ok, next := ResetValue(peers[index], transaction, all, values, next);
      if !ok {
        return;
      }
    }
  }

  method ResetValue(v: StateValue, transaction: StateHistoryTransaction,
                    ghost all: set<StateValue>, ghost values: Snapshot, ghost staged: Snapshot)
    returns (ok: bool, ghost next: Snapshot)
    requires Staging(all, transaction, values, staged) && transaction.Valid() && v in all
    modifies v`pendingTransaction, v`pendingValue, v`previousValue
    modifies transaction`entries, transaction`committedChanges, transaction`changedValues
    ensures Staging(all, transaction, values, next) && transaction.Valid()
    ensures ResetOne(values, staged, v) == if ok then Some(next) else None
  {
    next := staged;
    assert Held(v, transaction, values[v], Lookup(staged, v));
    if v.Current() == v.initialValue {
      return true, next;
    }
    ok := StageValue(v, v.initialValue, transaction, all, values, staged);
    if ok {
      next := G.Stage(values, staged, v, v.initialValue).value;
    }
  }

  ghost predicate Within(targets: seq<StateValue>, all: set<StateValue>) {
    forall v :: v in targets ==> v in all
  }

  /** Walks the subtree. */
  method PrepareResetRecursive(node: ResetNode, peers: Peers, transaction: StateHistoryTransaction,
                               ghost all: set<StateValue>, ghost values: Snapshot, ghost staged: Snapshot)
    returns (ok: bool, ghost next: Snapshot)
    requires Staging(all, transaction, values, staged) && transaction.Valid()
    requires Within(Targets(node, peers), all)
    modifies all`pendingTransaction, all`pendingValue, all`previousValue
    modifies transaction`entries, transaction`committedChanges, transaction`changedValues
    ensures Staging(all, transaction, values, next) && transaction.Valid()
    ensures ResetAll(values, staged, Targets(node, peers)) == if ok then Some(next) else None
    decreases node
  {
    match node
    case NoValue => ok, next := true, staged;
    case Value(v) =>
      if v in peers {
        ok, next := ResetPeers(peers[v], transaction, all, values, staged);
      } else {
        ok, next := true, staged;
      }
    case Branch(children) =>
      ok, next := true, staged;
      for index := 0 to |children|
        invariant Staging(all, transaction, values, next) && transaction.Valid()
        invariant Within(TargetsOf(children[index..], peers), all)
        invariant ResetAll(values, staged, Targets(node, peers)) ==
          ResetAll(values, next, TargetsOf(children[index..], peers))
      {
        assert children[index..][0] == children[index] && children[index..][1..] == children[index + 1..];
        ResetAppend(values, next, Targets(children[index], peers), TargetsOf(children[index + 1..], peers));
        ok, next := PrepareResetRecursive(children[index], peers, transaction, all, values, next);
        if !ok {
          return;
        }
      }
  }

  // The reset command

  /** The values that are reset: those of the frozen profile first, then those below the target. */
  function AllTargets(resets: seq<StateValue>, node: ResetNode, peers: Peers): seq<StateValue> {
    resets + Targets(node, peers)
  }

  /** What a reset changes: the writes derived from it and the resets, or `None` when it is refused. */
  ghost function ResetEffect(values: Snapshot, derived: seq<(StateValue, Value)>,
                             targets: seq<StateValue>): Option<Snapshot>
    requires DerivedTyped(values, derived) && forall v :: v in targets ==> v in values
  {
    DerivedIsKnown(values, derived);
    match G.Prepare(values, map[], map[], Direct(derived))
    case None => None
    case Some(staged) => ResetAll(values, staged, targets)
  }

  lemma DerivedIsKnown(values: Snapshot, derived: seq<(StateValue, Value)>)
    requires DerivedTyped(values, derived)
    ensures AllKnown(values, Direct(derived)) && AllTyped(values, Direct(derived))
  {
  }

  ghost predicate Unrepeated(derived: seq<(StateValue, Value)>) {
    forall i, j :: 0 <= i < j < |derived| ==> derived[i].0 != derived[j].0
  }

  /** The derived write changes a value that the reset wants to change as well. */
  ghost predicate Collides(values: Snapshot, d: (StateValue, Value), targets: seq<StateValue>)
    requires d.0 in values
  {
    d.0 in targets && Displaced(values, d.0) && d.1 != values[d.0]
  }

  ghost predicate Resettable(values: Snapshot, derived: seq<(StateValue, Value)>, targets: seq<StateValue>)
    requires DerivedTyped(values, derived) && forall v :: v in targets ==> v in values
  {
    && ReachedOnce(values, targets)
    && forall i :: 0 <= i < |derived| ==> !Collides(values, derived[i], targets)
  }

  lemma DerivedAreStaged(values: Snapshot, derived: seq<(StateValue, Value)>)
    requires DerivedTyped(values, derived) && Unrepeated(derived)
    ensures G.AllKnown(values, Direct(derived)) && G.Separate(Direct(derived))
    ensures var staged := G.Prepare(values, map[], map[], Direct(derived));
      && staged.Some? && staged.value.Keys <= values.Keys
      && (forall v :: v in staged.value ==> staged.value[v] != values[v])
      && (forall i :: 0 <= i < |derived| ==> (values + staged.value)[derived[i].0] == derived[i].1)
      && (forall v :: v in values && !IsDerived(derived, v) ==> (values + staged.value)[v] == values[v])
  {
    var direct := Direct(derived);
    DerivedIsKnown(values, derived);
    assert forall i :: 0 <= i < |direct| ==> direct[i].peers == [derived[i].0];
    G.PreparedEntries(values, map[], map[], direct);
    G.PreparingExtends(values, map[], map[], direct);
    forall i | 0 <= i < |derived| ensures G.After(values, direct, derived[i].0) == derived[i].1 {
      G.AfterIsTarget(values, direct, i, derived[i].0);
    }
    forall v | v in values && !IsDerived(derived, v) ensures G.After(values, direct, v) == values[v] {
      assert forall i :: 0 <= i < |derived| ==> derived[i].0 != v;
      G.NotReached(values, direct, v);
    }
  }

  /** The reset moves the value. */
  ghost predicate IsMoved(values: Snapshot, targets: seq<StateValue>, v: StateValue)
    requires v in values
  {
    v in targets && Displaced(values, v)
  }

  /** Every displaced value that the reset reaches is at its initial value, every other derived one at its
      derived value, and all the rest is as it was. */
  ghost predicate ResetLeaves(values: Snapshot, after: Snapshot, derived: seq<(StateValue, Value)>,
                              targets: seq<StateValue>)
    requires DerivedTyped(values, derived) && after.Keys == values.Keys
  {
    && (forall v :: v in values && IsMoved(values, targets, v) ==> after[v] == v.initialValue)
    && (forall i :: 0 <= i < |derived| && !IsMoved(values, targets, derived[i].0) ==>
          after[derived[i].0] == derived[i].1)
    && (forall v :: v in values && !IsMoved(values, targets, v) && !IsDerived(derived, v) ==> after[v] == values[v])
  }

  /** A reset with derived writes for different values is accepted exactly when it reaches no displaced value
      twice and none that a derived write changes. */
  lemma ResetGives(values: Snapshot, derived: seq<(StateValue, Value)>, targets: seq<StateValue>)
    requires DerivedTyped(values, derived) && Unrepeated(derived) && forall v :: v in targets ==> v in values
    ensures var effect := ResetEffect(values, derived, targets);
      && (effect.Some? <==> Resettable(values, derived, targets))
      && (effect.Some? ==>
            effect.value.Keys <= values.Keys && ResetLeaves(values, values + effect.value, derived, targets))
  {
    DerivedAreStaged(values, derived);
    var staged := G.Prepare(values, map[], map[], Direct(derived)).value;
    ResetOnto(values, staged, targets);
  }

  method StageReset(derived: seq<(StateValue, Value)>, resets: seq<StateValue>, node: ResetNode, peers: Peers,
                    ghost all: set<StateValue>, ghost values: Snapshot)
    returns (transaction: StateHistoryTransaction, ok: bool, ghost staged: Snapshot)
    requires Idle(all, values) && DerivedTyped(values, derived) && Within(AllTargets(resets, node, peers), all)
    modifies all`pendingTransaction, all`pendingValue, all`previousValue
    ensures fresh(transaction)
    ensures Staging(all, transaction, values, staged) && transaction.Valid()
    ensures ResetEffect(values, derived, AllTargets(resets, node, peers)) == if ok then Some(staged) else None
  {
    DerivedIsKnown(values, derived);
    transaction := new StateHistoryTransaction();
    assert Staging(all, transaction, values, map[]) by {
      forall v | v in all ensures Held(v, transaction, values[v], Lookup(map[], v)) {
        assert Resting(v, values[v]);
      }
    }
    ok, staged := StageEntries(Direct(derived), map[], transaction, all, values);
    if !ok {
      return;
    }
    ResetAppend(values, staged, resets, Targets(node, peers));
    ok, staged := ResetPeers(resets, transaction, all, values, staged);
    if !ok {
      return;
    }
    ok, staged := PrepareResetRecursive(node, peers, transaction, all, values, staged);
  }

  method BeginReset(derived: seq<(StateValue, Value)>, resets: seq<StateValue>, node: ResetNode, peers: Peers,
                    history: StateHistory, ghost all: set<StateValue>, ghost values: Snapshot)
    returns (transaction: StateHistoryTransaction, ok: bool, ghost staged: Snapshot)
    requires Idle(all, values) && DerivedTyped(values, derived) && Within(AllTargets(resets, node, peers), all)
    requires history.Valid() && Registered(history, all)
    modifies all`pendingTransaction, all`pendingValue, all`previousValue
    ensures fresh(transaction)
    ensures Staging(all, transaction, values, staged) && transaction.Valid()
    ensures ResetEffect(values, derived, AllTargets(resets, node, peers)) == if ok then Some(staged) else None
    ensures history.Valid() && history.Rings() == old(history.Rings())
  {
    transaction, ok, staged := StageReset(derived, resets, node, peers, all, values);
    forall i | 0 <= i < |history.values| ensures history.values[i].Valid() {
      var v := history.values[i];
      assert Held(v, transaction, values[v], Lookup(staged, v));
    }
    assert history.Rings().slots == old(history.Rings().slots);
  }

  /** The reset command. A missing target and a refused preparation raise an exception and change
      nothing; anything else is committed behind a history point if a registered value changes. */
  method HandleReset(target: Option<ResetNode>, derived: seq<(StateValue, Value)>, resets: seq<StateValue>,
                     peers: Peers, history: StateHistory, ghost all: set<StateValue>, ghost values: Snapshot,
                     ghost seen: Snapshot)
    returns (ok: bool)
    requires Idle(all, values) && history.Valid() && Registered(history, all) && Observed(all, seen)
    requires DerivedTyped(values, derived) && (target.Some? ==> Within(AllTargets(resets, target.value, peers), all))
    modifies history`currentSlot, history`availableUndoCount, history`availableRedoCount, history`revision
    modifies all, set v | v in all :: v.slots
    ensures var effect :=
        if target.Some? then ResetEffect(values, derived, AllTargets(resets, target.value, peers)) else None;
      ok == effect.Some? && Concluded(history, all, values, seen, old(history.Rings()), effect, true)
    ensures Unrepeated(derived) ==>
      (ok <==> target.Some? && Resettable(values, derived, AllTargets(resets, target.value, peers)))
  {
    if target.None? {
      return false;
    }
    if Unrepeated(derived) {
      ResetGives(values, derived, AllTargets(resets, target.value, peers));
    }
    var transaction;
    ghost var staged;
    transaction, ok, staged := BeginReset(derived, resets, target.value, peers, history, all, values);
    Conclude(history, transaction, ok, true, all, values, staged, seen);
  }
}
