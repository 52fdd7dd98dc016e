/**
  Restoring a persisted instance: every value is given a baseline, in all its history slots, within one
  transaction. A snapshot that turns out not to fit half way leaves everything as it was.
 */
module Persistence {
  import opened Common
  import opened StateValues
  import opened StateHistories
  import H = HistoryModel

  /** The persisted values of an instance, in the order in which they are applied: plain fields and
      three kinds of filters. A field that holds a float has a range. */
  datatype Item =
    | Field(value: StateValue, range: Option<FloatRange>)
    | GainFilter(gain: StateValue, bypass: StateValue)
    | FixedQFilter(frequency: StateValue, gain: StateValue, bypass: StateValue)
    | BellFilter(frequency: StateValue, q: StateValue, gain: StateValue, bypass: StateValue)

  datatype PersistentItem =
    | FieldValue(content: Value)
    | PersistentFilter(frequencyHz: Option<Value>, q: Option<Value>, gainDb: Value, bypassed: Value)

  type Snapshot = seq<PersistentItem>

  type Baselines = map<StateValue, Value>

  function ValuesOf(item: Item): set<StateValue> {
    match item
    case Field(v, _) => {v}
    case GainFilter(g, b) => {g, b}
    case FixedQFilter(f, g, b) => {f, g, b}
    case BellFilter(f, q, g, b) => {f, q, g, b}
  }

  /** The values of an item are different from each other. */
  predicate Proper(item: Item) {
    match item
    case Field(_, _) => true
    case GainFilter(g, b) => g != b
    case FixedQFilter(f, g, b) => f != g && f != b && g != b
    case BellFilter(f, q, g, b) => f != q && f != g && f != b && q != g && q != b && g != b
  }

  ghost predicate Disjoint(items: seq<Item>) {
    && (forall i :: 0 <= i < |items| ==> Proper(items[i]))
    && (forall i, j :: 0 <= i < j < |items| ==> ValuesOf(items[i]) !! ValuesOf(items[j]))
  }

  function AllValues(items: seq<Item>): set<StateValue> {
    set i, v | 0 <= i < |items| && v in ValuesOf(items[i]) :: v
  }

  // Capturing

  function Content(v: StateValue): Value
    reads v`currentSlot, v.slots
  {
    if v.currentSlot < v.slots.Length then v.Current() else v.initialValue
  }

  function CaptureItem(item: Item): PersistentItem
    reads ValuesOf(item)`currentSlot, set v | v in ValuesOf(item) :: v.slots
  {
    match item
    case Field(v, _) => FieldValue(Content(v))
    case GainFilter(g, b) => PersistentFilter(None, None, Content(g), Content(b))
    case FixedQFilter(f, g, b) => PersistentFilter(Some(Content(f)), None, Content(g), Content(b))
    case BellFilter(f, q, g, b) => PersistentFilter(Some(Content(f)), Some(Content(q)), Content(g), Content(b))
  }

  // What a snapshot asks for

  /** The snapshot has the array lengths of the instance. */
  predicate Shaped(items: seq<Item>, snapshot: Snapshot) {
    && |items| == |snapshot|
    && forall i :: 0 <= i < |items| ==> (items[i].Field? <==> snapshot[i].FieldValue?)
  }

  /** The baselines of one item; `None` when a filter misses a parameter or has one too many. */
  function ItemPlan(item: Item, source: PersistentItem): Option<Baselines>
    requires item.Field? <==> source.FieldValue?
  {
    match item
    case Field(v, _) => Some(map[v := source.content])
    case GainFilter(g, b) =>
      if source.frequencyHz.Some? || source.q.Some? then None
      else Some(map[g := source.gainDb, b := source.bypassed])
    case FixedQFilter(f, g, b) =>
      if source.frequencyHz.None? || source.q.Some? then None
      else Some(map[f := source.frequencyHz.value, g := source.gainDb, b := source.bypassed])
    case BellFilter(f, q, g, b) =>
      if source.frequencyHz.None? || source.q.None? then None
      else Some(map[f := source.frequencyHz.value, q := source.q.value, g := source.gainDb, b := source.bypassed])
  }

  function Plan(items: seq<Item>, snapshot: Snapshot): Option<Baselines>
    requires Shaped(items, snapshot)
    decreases |items|
  {
    if items == [] then Some(map[])
    else
      match (ItemPlan(items[0], snapshot[0]), Plan(items[1..], snapshot[1..]))
      case (Some(first), Some(rest)) => Some(first + rest)
      case _ => None
  }

  // Staging baselines

  ghost predicate Uniform(v: StateValue, x: Value)
    reads v.slots
  {
    v.slots[..] == seq(H.CAPACITY, _ => x)
  }

  /** `v` waits to be given a baseline by `transaction`, or has no need to. */
  ghost predicate Waiting(v: StateValue, transaction: StateHistoryTransaction, x: Option<Value>)
    reads v, v.slots
  {
    && v.Valid()
    && match x
       case None => v.pendingTransaction == null
       case Some(baseline) =>
         if v.pendingTransaction == null then Uniform(v, baseline)
         else
           && v.pendingTransaction == transaction
           && v.pendingBaselineValues == Some(v.slots[..]) && v.pendingBaselineSlot == v.currentSlot
  }

  ghost predicate OnlyBaselines(entries: seq<Entry>, staged: Baselines) {
    forall i :: 0 <= i < |entries| ==>
      entries[i].BaselineEntry? && entries[i].value in staged && entries[i].baseline == staged[entries[i].value]
  }

  ghost predicate Entered(entries: seq<Entry>, v: StateValue) {
    exists i :: 0 <= i < |entries| && entries[i].value == v
  }

  ghost predicate Staging(all: set<StateValue>, transaction: StateHistoryTransaction, staged: Baselines)
    reads all, set v | v in all :: v.slots
    reads transaction`entries, transaction`completed
  {
    && AllApart(all) && !transaction.completed && staged.Keys <= all
    && OnlyBaselines(transaction.entries, staged)
    && (forall v {:trigger Waiting(v, transaction, Lookup(staged, v))} :: v in all ==>
          && Waiting(v, transaction, Lookup(staged, v))
          && (v.pendingTransaction != null ==> Entered(transaction.entries, v)))
  }

  method StageBaseline(v: StateValue, x: Value, transaction: StateHistoryTransaction,
                       ghost all: set<StateValue>, ghost staged: Baselines)
    requires Staging(all, transaction, staged) && transaction.Valid() && v in all && v !in staged
    modifies v`pendingTransaction, v`pendingBaselineValues, v`pendingBaselineSlot
    modifies transaction`entries, transaction`committedChanges
    ensures Staging(all, transaction, staged[v := x]) && transaction.Valid()
  {
    assert Waiting(v, transaction, Lookup(staged, v));
    assert transaction.SeparateFrom(v) by {
      forall i | 0 <= i < |transaction.entries| ensures Apart(transaction.entries[i].value, v) {}
    }
    var ok := v.PrepareBaseline(x, transaction);
    ghost var next := staged[v := x];
    assert OnlyBaselines(transaction.entries, next);
    if v.pendingTransaction != null {
      assert transaction.entries[|transaction.entries| - 1].value == v;
    }
    forall w | w in all
      ensures Waiting(w, transaction, Lookup(next, w))
      ensures (w.pendingTransaction != null ==> Entered(transaction.entries, w))
    {
      assert old(Waiting(w, transaction, Lookup(staged, w)));
      if w != v && w.pendingTransaction != null {
        assert old(Entered(transaction.entries, w));
        var i :| 0 <= i < old(|transaction.entries|) && old(transaction.entries)[i].value == w;
        assert transaction.entries[i].value == w;
      }
    }
  }

  /** One item, in the order of the source: a filter stages its parameters, with the checks in between,
      and then its gain and its bypass. */
  method ApplyItem(item: Item, source: PersistentItem, transaction: StateHistoryTransaction,
                   ghost all: set<StateValue>, ghost staged: Baselines)
    returns (ok: bool, ghost next: Baselines)
    requires Staging(all, transaction, staged) && transaction.Valid()
    requires Proper(item) && ValuesOf(item) <= all && ValuesOf(item) !! staged.Keys
    requires item.Field? <==> source.FieldValue?
    modifies all`pendingTransaction, all`pendingBaselineValues, all`pendingBaselineSlot
    modifies transaction`entries, transaction`committedChanges
    ensures Staging(all, transaction, next) && transaction.Valid()
    ensures match ItemPlan(item, source)
      case None => !ok
      case Some(plan) => ok && next == staged + plan
  {
    ok, next := true, staged;
    if item.Field? {
      StageBaseline(item.value, source.content, transaction, all, next);
      next := next[item.value := source.content];
      return;
    }
    if item.GainFilter? {
      if source.frequencyHz.Some? || source.q.Some? {
        return false, next;
      }
    } else {
      ok, next := ApplyParameters(item, source, transaction, all, staged);
      if !ok {
        return;
      }
    }
    StageBaseline(item.gain, source.gainDb, transaction, all, next);
    next := next[item.gain := source.gainDb];
    StageBaseline(item.bypass, source.bypassed, transaction, all, next);
    next := next[item.bypass := source.bypassed];
  }

  function Parameters(item: Item, source: PersistentItem): Baselines
    requires (item.FixedQFilter? || item.BellFilter?) && source.PersistentFilter?
    requires source.frequencyHz.Some? && (item.BellFilter? <==> source.q.Some?)
  {
    if item.BellFilter? then map[item.frequency := source.frequencyHz.value, item.q := source.q.value]
    else map[item.frequency := source.frequencyHz.value]
  }

  /** The frequency of a filter, and its Q if it has one. A fixed-Q filter has staged its frequency when
      it finds that the snapshot brings a Q. */
  method ApplyParameters(item: Item, source: PersistentItem, transaction: StateHistoryTransaction,
                         ghost all: set<StateValue>, ghost staged: Baselines)
    returns (ok: bool, ghost next: Baselines)
    requires Staging(all, transaction, staged) && transaction.Valid()
    requires Proper(item) && ValuesOf(item) <= all && ValuesOf(item) !! staged.Keys
    requires (item.FixedQFilter? || item.BellFilter?) && source.PersistentFilter?
    modifies all`pendingTransaction, all`pendingBaselineValues, all`pendingBaselineSlot
    modifies transaction`entries, transaction`committedChanges
    ensures Staging(all, transaction, next) && transaction.Valid()
    ensures ok == (source.frequencyHz.Some? && (item.BellFilter? <==> source.q.Some?))
    ensures ok ==> next == staged + Parameters(item, source)
  {
    next := staged;
    if source.frequencyHz.None? {
      return false, next;
    }
    StageBaseline(item.frequency, source.frequencyHz.value, transaction, all, next);
    next := next[item.frequency := source.frequencyHz.value];
    if item.FixedQFilter? {
      return source.q.None?, next;
    }
    if source.q.None? {
      return false, next;
    }
    StageBaseline(item.q, source.q.value, transaction, all, next);
    next := next[item.q := source.q.value];
    ok := true;
  }

  method ApplyItems(items: seq<Item>, snapshot: Snapshot, transaction: StateHistoryTransaction,
                    ghost all: set<StateValue>)
    returns (ok: bool, ghost staged: Baselines)
    requires Staging(all, transaction, map[]) && transaction.Valid()
    requires Disjoint(items) && AllValues(items) <= all && Shaped(items, snapshot)
    modifies all`pendingTransaction, all`pendingBaselineValues, all`pendingBaselineSlot
    modifies transaction`entries, transaction`committedChanges
    ensures Staging(all, transaction, staged) && transaction.Valid()
    ensures Plan(items, snapshot) == if ok then Some(staged) else None
  {
    ok, staged := true, map[];
    AfterNothing(Plan(items, snapshot));
    assert items[0..] == items && snapshot[0..] == snapshot;
    for index := 0 to |items|
      invariant Staging(all, transaction, staged) && transaction.Valid()
      invariant staged.Keys <= AllValues(items[..index])
      invariant Plan(items, snapshot) == After(staged, Plan(items[index..], snapshot[index..]))
    {
      ok, staged := ApplyAt(items, snapshot, index, transaction, all, staged);
      if !ok {
        return;
      }
    }
    assert staged + map[] == staged;
  }

  method ApplyAt(items: seq<Item>, snapshot: Snapshot, index: nat, transaction: StateHistoryTransaction,
                 ghost all: set<StateValue>, ghost staged: Baselines)
    returns (ok: bool, ghost next: Baselines)
    requires Staging(all, transaction, staged) && transaction.Valid()
    requires Disjoint(items) && AllValues(items) <= all && Shaped(items, snapshot) && index < |items|
    requires staged.Keys <= AllValues(items[..index])
    modifies all`pendingTransaction, all`pendingBaselineValues, all`pendingBaselineSlot
    modifies transaction`entries, transaction`committedChanges
    ensures Staging(all, transaction, next) && transaction.Valid()
    ensures ok ==> next.Keys <= AllValues(items[..index + 1])
    ensures After(staged, Plan(items[index..], snapshot[index..])) ==
      if ok then After(next, Plan(items[index + 1..], snapshot[index + 1..])) else None
  {
    assert items[index..][0] == items[index] && items[index..][1..] == items[index + 1..];
    assert snapshot[index..][0] == snapshot[index] && snapshot[index..][1..] == snapshot[index + 1..];
    NotYetStaged(items, index);
    var plan := ItemPlan(items[index], snapshot[index]);
    PlanKeys(items[index], snapshot[index]);
    if plan.Some? {
      AfterTwice(staged, plan.value, Plan(items[index + 1..], snapshot[index + 1..]));
    }
    ok, next := ApplyItem(items[index], snapshot[index], transaction, all, staged);
  }

  lemma PlanKeys(item: Item, source: PersistentItem)
    requires item.Field? <==> source.FieldValue?
    ensures ItemPlan(item, source).Some? ==> ItemPlan(item, source).value.Keys == ValuesOf(item)
  {
  }

  lemma AfterNothing(rest: Option<Baselines>)
    ensures After(map[], rest) == rest
  {
    if rest.Some? {
      assert map[] + rest.value == rest.value;
    }
  }

  function After(done: Baselines, rest: Option<Baselines>): Option<Baselines> {
    match rest
    case None => None
    case Some(more) => Some(done + more)
  }

  lemma AfterTwice(a: Baselines, b: Baselines, rest: Option<Baselines>)
    ensures After(a, After(b, rest)) == After(a + b, rest)
  {
    if rest.Some? {
      assert a + (b + rest.value) == (a + b) + rest.value;
    }
  }

  lemma NotYetStaged(items: seq<Item>, index: nat)
    requires Disjoint(items) && index < |items|
    ensures ValuesOf(items[index]) !! AllValues(items[..index]) && ValuesOf(items[index]) <= AllValues(items)
    ensures AllValues(items[..index + 1]) == AllValues(items[..index]) + ValuesOf(items[index])
  {
    assert forall i :: 0 <= i < index ==> items[..index][i] == items[i];
    assert forall i :: 0 <= i <= index ==> items[..index + 1][i] == items[i];
    forall v | v in AllValues(items[..index + 1]) ensures v in AllValues(items[..index]) + ValuesOf(items[index]) {
      var i :| 0 <= i <= index && v in ValuesOf(items[..index + 1][i]);
      if i < index {
        assert v in ValuesOf(items[..index][i]);
      }
    }
    forall v | v in AllValues(items[..index]) ensures v in AllValues(items[..index + 1]) {
      var i :| 0 <= i < index && v in ValuesOf(items[..index][i]);
      assert v in ValuesOf(items[..index + 1][i]);
    }
    forall v | v in ValuesOf(items[index]) ensures v in AllValues(items[..index + 1]) {
      assert v in ValuesOf(items[..index + 1][index]);
    }
  }

  // Ending the transaction

  /** What a value holds and what its observers know. */
  datatype Holding = Holding(slots: seq<Value>, currentSlot: nat, observed: Value) {
    predicate UpToDate() { currentSlot < |slots| && observed == slots[currentSlot] }
  }

  function HoldingOf(v: StateValue): Holding
    reads v`currentSlot, v`observed, v.slots
  {
    Holding(v.slots[..], v.currentSlot, v.observed)
  }

  ghost predicate Held(all: set<StateValue>, before: map<StateValue, Holding>)
    reads all`currentSlot, all`observed, set v | v in all :: v.slots
  {
    before.Keys == all && forall v {:trigger before[v]} :: v in all ==> HoldingOf(v) == before[v]
  }

  /** What the end of a restore did to `v`: a baseline fills every slot, nothing else changes, and
      observers that were up to date still are. */
  ghost predicate Restored(v: StateValue, before: Holding, x: Option<Value>)
    reads v, v.slots
  {
    && v.Valid() && v.pendingTransaction == null && v.currentSlot == before.currentSlot
    && v.slots[..] == (if x.Some? then seq(H.CAPACITY, _ => x.value) else before.slots)
    && (before.UpToDate() ==> HoldingOf(v).UpToDate())
  }

  ghost predicate AllRestored(all: set<StateValue>, before: map<StateValue, Holding>, plan: Baselines)
    requires before.Keys == all
    reads all, set v | v in all :: v.slots
  {
    forall v {:trigger before[v]} :: v in all ==> Restored(v, before[v], Lookup(plan, v))
  }

  method CommitBaselines(transaction: StateHistoryTransaction, ghost all: set<StateValue>, ghost staged: Baselines,
                         ghost before: map<StateValue, Holding>)
    requires Staging(all, transaction, staged) && transaction.Valid() && Held(all, before)
    modifies transaction`completed, transaction.Touched(), transaction.Arrays()
    ensures AllRestored(all, before, staged)
  {
    transaction.Commit();
    forall v | v in all ensures Restored(v, before[v], Lookup(staged, v)) {
      assert old(HoldingOf(v)) == before[v] && old(Waiting(v, transaction, Lookup(staged, v)));
      if i :| 0 <= i < |transaction.entries| && transaction.entries[i].value == v {
        assert transaction.Settled(transaction.entries[i]) && transaction.Informed(transaction.entries[i]);
        CurrentOf(v);
      } else {
        forall i | 0 <= i < |transaction.entries| ensures Apart(transaction.entries[i].value, v) {}
        assert old(v.pendingTransaction) == null;
      }
    }
  }

  lemma CurrentOf(v: StateValue)
    requires v.Valid()
    ensures v.Current() == v.slots[..][v.currentSlot]
  {
  }

  method RollbackBaselines(transaction: StateHistoryTransaction, ghost all: set<StateValue>, ghost staged: Baselines,
                           ghost before: map<StateValue, Holding>)
    requires Staging(all, transaction, staged) && transaction.Valid() && Held(all, before)
    modifies transaction`completed, transaction`committedChanges, transaction.Arrays()
    modifies transaction.Touched()`currentSlot, transaction.Touched()`previousSlotValue
    modifies transaction.Touched()`pendingTransaction, transaction.Touched()`pendingBaselineValues
    ensures AllRestored(all, before, map[])
  {
    assert transaction.Fresh() by {
      forall i | 0 <= i < |transaction.entries|
        ensures transaction.entries[i].BaselineEntry? && Kept(transaction.entries[i].value)
      {
        var v := transaction.entries[i].value;
        transaction.AllValid();
        assert Waiting(v, transaction, Lookup(staged, v));
      }
    }
    transaction.Rollback();
    forall v | v in all ensures Restored(v, before[v], Lookup(map[], v)) {
      assert old(HoldingOf(v)) == before[v] && old(Waiting(v, transaction, Lookup(staged, v)));
      if i :| 0 <= i < |transaction.entries| && transaction.entries[i].value == v {
        assert transaction.Undone(transaction.entries[i]);
        CurrentOf(v);
      } else {
        forall i | 0 <= i < |transaction.entries| ensures Apart(transaction.entries[i].value, v) {}
        assert old(v.pendingTransaction) == null;
      }
    }
  }

  ghost predicate Kept(v: StateValue)
    reads v, v.slots
  {
    v.pendingBaselineValues == Some(v.slots[..]) && v.pendingBaselineSlot == v.currentSlot
  }

  // Capturing what was restored

  ghost predicate Ready(all: set<StateValue>)
    reads all
  {
    && AllApart(all)
    && forall v :: v in all ==> v.Valid() && v.pendingTransaction == null
  }

  /** The snapshot shows the current values of the items. */
  ghost predicate Captures(items: seq<Item>, snapshot: Snapshot)
    reads set i, v | 0 <= i < |items| && v in ValuesOf(items[i]) :: v
    reads set i, v | 0 <= i < |items| && v in ValuesOf(items[i]) :: v.slots
  {
    |snapshot| == |items| && forall i {:trigger snapshot[i]} :: 0 <= i < |items| ==>
      snapshot[i] == CaptureItem(items[i])
  }

  method CreateSnapshot(items: seq<Item>) returns (snapshot: Snapshot)
    ensures Captures(items, snapshot)
  {
    snapshot := [];
    for index := 0 to |items|
      invariant |snapshot| == index
      invariant forall i {:trigger snapshot[i]} :: 0 <= i < index ==> snapshot[i] == CaptureItem(items[i])
    {
      snapshot := snapshot + [CaptureItem(items[index])];
    }
  }

  /** The plan of a snapshot gives every item exactly what its record says. */
  lemma {:induction false} PlanAt(items: seq<Item>, snapshot: Snapshot, i: nat)
    requires Disjoint(items) && Shaped(items, snapshot) && Plan(items, snapshot).Some? && i < |items|
    ensures ItemPlan(items[i], snapshot[i]).Some?
    ensures forall v :: v in ValuesOf(items[i]) ==>
      && v in Plan(items, snapshot).value && v in ItemPlan(items[i], snapshot[i]).value
      && Plan(items, snapshot).value[v] == ItemPlan(items[i], snapshot[i]).value[v]
    decreases |items|
  {
    var rest := items[1..];
    assert forall j :: 0 <= j < |rest| ==> rest[j] == items[j + 1];
    PlanKeys(items[0], snapshot[0]);
    PlanIsOver(rest, snapshot[1..]);
    if i == 0 {
      assert forall j :: 0 <= j < |rest| ==> ValuesOf(items[0]) !! ValuesOf(rest[j]);
    } else {
      PlanAt(rest, snapshot[1..], i - 1);
    }
  }

  lemma {:induction false} PlanIsOver(items: seq<Item>, snapshot: Snapshot)
    requires Shaped(items, snapshot)
    ensures Plan(items, snapshot).Some? ==> Plan(items, snapshot).value.Keys == AllValues(items)
    decreases |items|
  {
    if items != [] {
      var rest := items[1..];
      assert forall j :: 0 <= j < |rest| ==> rest[j] == items[j + 1];
      PlanKeys(items[0], snapshot[0]);
      PlanIsOver(rest, snapshot[1..]);
      forall v ensures v in AllValues(items) <==> v in ValuesOf(items[0]) || v in AllValues(rest) {
        if v in AllValues(rest) {
          var j :| 0 <= j < |rest| && v in ValuesOf(rest[j]);
          assert v in ValuesOf(items[j + 1]);
        }
      }
    }
  }

  lemma ItemIsCaptured(item: Item, source: PersistentItem)
    requires item.Field? <==> source.FieldValue?
    requires ItemPlan(item, source).Some? && Proper(item)
    ensures source == CaptureItem(item) <==>
      forall v :: v in ValuesOf(item) ==> ItemPlan(item, source).value[v] == Content(v)
  {
  }

  /** Capturing right after a restore gives the restored snapshot back. */
  lemma RestoredIsCaptured(items: seq<Item>, snapshot: Snapshot)
    requires Disjoint(items) && Shaped(items, snapshot) && Plan(items, snapshot).Some?
    requires forall v :: v in Plan(items, snapshot).value ==> Content(v) == Plan(items, snapshot).value[v]
    ensures Captures(items, snapshot)
  {
    forall i | 0 <= i < |items| ensures snapshot[i] == CaptureItem(items[i]) {
      PlanAt(items, snapshot, i);
      ItemIsCaptured(items[i], snapshot[i]);
    }
  }

  /** A captured snapshot has the shape of the instance and fits its filters, and asks for what is
      there. */
  lemma CapturedIsPlanned(items: seq<Item>, snapshot: Snapshot)
    requires Disjoint(items) && Captures(items, snapshot)
    ensures Shaped(items, snapshot) && Plan(items, snapshot).Some?
    ensures forall v :: v in AllValues(items) ==>
      v in Plan(items, snapshot).value && Plan(items, snapshot).value[v] == Content(v)
  {
    forall i | 0 <= i < |items|
      ensures (items[i].Field? <==> snapshot[i].FieldValue?) && ItemPlan(items[i], snapshot[i]).Some?
    {
      assert snapshot[i] == CaptureItem(items[i]);
    }
    AllPlansMakeAPlan(items, snapshot);
    forall v | v in AllValues(items)
      ensures v in Plan(items, snapshot).value && Plan(items, snapshot).value[v] == Content(v)
    {
      var i :| 0 <= i < |items| && v in ValuesOf(items[i]);
      assert snapshot[i] == CaptureItem(items[i]);
      PlanAt(items, snapshot, i);
      ItemIsCaptured(items[i], snapshot[i]);
    }
  }

  lemma {:induction false} AllPlansMakeAPlan(items: seq<Item>, snapshot: Snapshot)
    requires Shaped(items, snapshot)
    requires forall i :: 0 <= i < |items| ==> ItemPlan(items[i], snapshot[i]).Some?
    ensures Plan(items, snapshot).Some?
    decreases |items|
  {
    if items != [] {
      assert forall j :: 0 <= j < |items[1..]| ==> items[1..][j] == items[j + 1] && snapshot[1..][j] == snapshot[j + 1];
      AllPlansMakeAPlan(items[1..], snapshot[1..]);
    }
  }

  // Validation

  const GAIN_RANGE := FloatRange(-24.0, 24.0)

  const FREQUENCY_RANGE := FloatRange(20.0, 20000.0)

  const Q_RANGE := FloatRange(0.1, 10.0)

  /** Where the compression values lie among the items of an instance. */
  datatype CompressionPlaces = CompressionPlaces(typeAt: nat, active: seq<nat>, profiles: seq<seq<nat>>)

  /** The items of an instance, and where the groups of its banks and its compression values lie. */
  datatype Layout = Layout(items: seq<Item>, groups: seq<nat>, compression: CompressionPlaces)

  predicate IsField(items: seq<Item>, place: nat) {
    place < |items| && items[place].Field?
  }

  /** Parameters lie at float fields. */
  predicate AreParameters(items: seq<Item>, places: seq<nat>) {
    && |places| == PARAMETERS
    && forall n :: 0 <= n < PARAMETERS ==> IsField(items, places[n]) && items[places[n]].range.Some?
  }

  predicate Placed(layout: Layout) {
    && |layout.groups| == BANK_COUNT
    && (forall b :: 0 <= b < BANK_COUNT ==> IsField(layout.items, layout.groups[b]))
    && IsField(layout.items, layout.compression.typeAt)
    && AreParameters(layout.items, layout.compression.active)
    && |layout.compression.profiles| == PROFILES
    && (forall p :: 0 <= p < PROFILES ==> AreParameters(layout.items, layout.compression.profiles[p]))
  }

  predicate InRange(content: Value, range: FloatRange) {
    content.Float? && range.Contains(content.number)
  }

  predicate RecordInRange(item: Item, source: PersistentItem)
    requires item.Field? <==> source.FieldValue?
  {
    if item.Field? then item.range.Some? ==> InRange(source.content, item.range.value)
    else
      && InRange(source.gainDb, GAIN_RANGE)
      && (source.frequencyHz.Some? ==> InRange(source.frequencyHz.value, FREQUENCY_RANGE))
      && (source.q.Some? ==> InRange(source.q.value, Q_RANGE))
  }

  /** The last bank is in group 0 and no other is; no two banks are in one group. */
  predicate AreBankGroups(groups: seq<Value>) {
    && |groups| == BANK_COUNT && groups[BANK_COUNT - 1] == GroupOf(Some(0))
    && (forall b :: 0 <= b < BANK_COUNT - 1 ==> groups[b] != GroupOf(Some(0)))
    && (forall b, c :: 0 <= b < c < BANK_COUNT && groups[b] != GroupOf(None) ==> groups[b] != groups[c])
  }

  /** The type is that of a profile, and the active values are those of that profile. */
  predicate SelectsActive(profile: Value, active: seq<Value>, profiles: seq<seq<Value>>) {
    profile.Int? && 0 <= profile.integer < |profiles| && profiles[profile.integer] == active
  }

  function RecordsAt(snapshot: Snapshot, places: seq<nat>): (r: seq<Value>)
    requires forall i :: 0 <= i < |places| ==> places[i] < |snapshot| && snapshot[places[i]].FieldValue?
    ensures |r| == |places| && forall i :: 0 <= i < |r| ==> r[i] == snapshot[places[i]].content
  {
    seq(|places|, i requires 0 <= i < |places| => snapshot[places[i]].content)
  }

  function ProfilesAt(layout: Layout, snapshot: Snapshot): (r: seq<seq<Value>>)
    requires Placed(layout) && Shaped(layout.items, snapshot)
    ensures |r| == PROFILES
    ensures forall p :: 0 <= p < PROFILES ==> r[p] == RecordsAt(snapshot, layout.compression.profiles[p])
  {
    seq(PROFILES, p requires 0 <= p < PROFILES => RecordsAt(snapshot, layout.compression.profiles[p]))
  }

  /** What is checked before anything is applied. */
  predicate Validated(layout: Layout, snapshot: Snapshot)
    requires Placed(layout)
  {
    && Shaped(layout.items, snapshot)
    && (forall i :: 0 <= i < |layout.items| ==> RecordInRange(layout.items[i], snapshot[i]))
    && AreBankGroups(RecordsAt(snapshot, layout.groups))
    && SelectsActive(snapshot[layout.compression.typeAt].content, RecordsAt(snapshot, layout.compression.active),
                     ProfilesAt(layout, snapshot))
  }

  method Validate(layout: Layout, snapshot: Snapshot) returns (ok: bool)
    requires Placed(layout)
    ensures ok == Validated(layout, snapshot)
  {
    ok := ValidateShape(layout.items, snapshot);
    if !ok {
      return;
    }
    ok := ValidateGroups(RecordsAt(snapshot, layout.groups));
    if !ok {
      return;
    }
    ok := ValidateRanges(layout.items, snapshot);
    if !ok {
      return;
    }
    var selected := snapshot[layout.compression.typeAt].content;
    if !selected.Int? || selected.integer < 0 || selected.integer > 3 {
      return false;
    }
    var active := RecordsAt(snapshot, layout.compression.active);
    var profile := RecordsAt(snapshot, layout.compression.profiles[selected.integer]);
    for n := 0 to PARAMETERS
      invariant forall m :: 0 <= m < n ==> profile[m] == active[m]
    {
      if profile[n] != active[n] {
        return false;
      }
    }
    assert profile == active;
  }

  method ValidateShape(items: seq<Item>, snapshot: Snapshot) returns (ok: bool)
    ensures ok == Shaped(items, snapshot)
  {
    if |items| != |snapshot| {
      return false;
    }
    for index := 0 to |items|
      invariant forall i :: 0 <= i < index ==> (items[i].Field? <==> snapshot[i].FieldValue?)
    {
      if items[index].Field? != snapshot[index].FieldValue? {
        return false;
      }
    }
    ok := true;
  }

  method ValidateRanges(items: seq<Item>, snapshot: Snapshot) returns (ok: bool)
    requires Shaped(items, snapshot)
    ensures ok <==> forall i :: 0 <= i < |items| ==> RecordInRange(items[i], snapshot[i])
  {
    for index := 0 to |items|
      invariant forall i :: 0 <= i < index ==> RecordInRange(items[i], snapshot[i])
    {
      if !RecordInRange(items[index], snapshot[index]) {
        return false;
      }
    }
    ok := true;
  }

  method ValidateGroups(groups: seq<Value>) returns (ok: bool)
    requires |groups| == BANK_COUNT
    ensures ok <==> AreBankGroups(groups)
  {
    if groups[BANK_COUNT - 1] != GroupOf(Some(0)) {
      return false;
    }
    for bank := 0 to BANK_COUNT - 1
      invariant forall b :: 0 <= b < bank ==> groups[b] != GroupOf(Some(0))
    {
      if groups[bank] == GroupOf(Some(0)) {
        return false;
      }
    }
    var seen: set<Value> := {};
    for bank := 0 to BANK_COUNT
      invariant forall g :: g in seen <==> exists b :: 0 <= b < bank && groups[b] == g && g != GroupOf(None)
      invariant forall b, c :: 0 <= b < c < bank && groups[b] != GroupOf(None) ==> groups[b] != groups[c]
    {
      if groups[bank] in seen {
        return false;
      }
      if groups[bank] != GroupOf(None) {
        seen := seen + {groups[bank]};
      }
    }
    ok := true;
  }

  // Which captures can be restored

  /** What an item holds lies in the ranges of its values. */
  predicate ItemInRange(item: Item)
    reads ValuesOf(item)`currentSlot, set v | v in ValuesOf(item) :: v.slots
  {
    match item
    case Field(v, range) => range.Some? ==> InRange(Content(v), range.value)
    case GainFilter(g, _) => InRange(Content(g), GAIN_RANGE)
    case FixedQFilter(f, g, _) => InRange(Content(f), FREQUENCY_RANGE) && InRange(Content(g), GAIN_RANGE)
    case BellFilter(f, q, g, _) =>
      InRange(Content(f), FREQUENCY_RANGE) && InRange(Content(q), Q_RANGE) && InRange(Content(g), GAIN_RANGE)
  }

  predicate AreFields(items: seq<Item>, places: seq<nat>) {
    forall i :: 0 <= i < |places| ==> IsField(items, places[i])
  }

  ghost function FieldContent(items: seq<Item>, place: nat): Value
    requires IsField(items, place)
    reads AllValues(items), set v | v in AllValues(items) :: v.slots
  {
    assert items[place].value in ValuesOf(items[place]);
    Content(items[place].value)
  }

  ghost function ContentsAt(items: seq<Item>, places: seq<nat>): (r: seq<Value>)
    requires AreFields(items, places)
    reads AllValues(items), set v | v in AllValues(items) :: v.slots
    ensures |r| == |places| && forall i :: 0 <= i < |r| ==>
      IsField(items, places[i]) && r[i] == FieldContent(items, places[i])
  {
    if places == [] then []
    else
      assert IsField(items, places[0]) && forall i :: 0 <= i < |places[1..]| ==> places[1..][i] == places[i + 1];
      [FieldContent(items, places[0])] + ContentsAt(items, places[1..])
  }

  ghost predicate InRanges(items: seq<Item>)
    reads AllValues(items), set v | v in AllValues(items) :: v.slots
  {
    forall i :: 0 <= i < |items| ==>
      (assert forall v :: v in ValuesOf(items[i]) ==> v in AllValues(items); ItemInRange(items[i]))
  }

  /** The active compression values are those of the profile the type selects. */
  ghost predicate ShowsSelected(layout: Layout)
    requires Placed(layout)
    reads AllValues(layout.items), set v | v in AllValues(layout.items) :: v.slots
  {
    var selected := FieldContent(layout.items, layout.compression.typeAt);
    && selected.Int? && 0 <= selected.integer < PROFILES
    && ContentsAt(layout.items, layout.compression.active)
       == ContentsAt(layout.items, layout.compression.profiles[selected.integer])
  }

  /** What the values of an instance have to be for its snapshot to be restorable. */
  ghost predicate Restorable(layout: Layout)
    requires Placed(layout)
    reads AllValues(layout.items), set v | v in AllValues(layout.items) :: v.slots
  {
    InRanges(layout.items) && AreBankGroups(ContentsAt(layout.items, layout.groups)) && ShowsSelected(layout)
  }

  lemma CapturedContents(items: seq<Item>, snapshot: Snapshot, places: seq<nat>)
    requires Captures(items, snapshot) && AreFields(items, places)
    ensures forall i :: 0 <= i < |places| ==> places[i] < |snapshot| && snapshot[places[i]].FieldValue?
    ensures RecordsAt(snapshot, places) == ContentsAt(items, places)
  {
    forall i | 0 <= i < |places|
      ensures IsField(items, places[i]) && snapshot[places[i]] == FieldValue(FieldContent(items, places[i]))
    {
      assert IsField(items, places[i]) && snapshot[places[i]] == CaptureItem(items[places[i]]);
    }
  }

  lemma CapturedRanges(items: seq<Item>, snapshot: Snapshot)
    requires Captures(items, snapshot) && Shaped(items, snapshot)
    ensures (forall i :: 0 <= i < |items| ==> RecordInRange(items[i], snapshot[i])) <==> InRanges(items)
  {
    forall i | 0 <= i < |items| ensures RecordInRange(items[i], snapshot[i]) == ItemInRange(items[i]) {
      assert snapshot[i] == CaptureItem(items[i]);
    }
  }

  lemma CapturedSelection(layout: Layout, snapshot: Snapshot)
    requires Placed(layout) && Captures(layout.items, snapshot) && Shaped(layout.items, snapshot)
    ensures ShowsSelected(layout) <==>
      SelectsActive(snapshot[layout.compression.typeAt].content, RecordsAt(snapshot, layout.compression.active),
                    ProfilesAt(layout, snapshot))
  {
    assert snapshot[layout.compression.typeAt] == CaptureItem(layout.items[layout.compression.typeAt]);
    CapturedContents(layout.items, snapshot, layout.compression.active);
    forall p | 0 <= p < PROFILES
      ensures ProfilesAt(layout, snapshot)[p] == ContentsAt(layout.items, layout.compression.profiles[p])
    {
      CapturedContents(layout.items, snapshot, layout.compression.profiles[p]);
    }
  }

  /** A captured snapshot can be restored exactly when every float of the instance lies in its range,
      its bank groups are proper, and its active compression values are those of the selected profile.
      Whenever it can, it asks for what is there. */
  lemma CapturesAreAcceptedExactly(layout: Layout, snapshot: Snapshot)
    requires Placed(layout) && Disjoint(layout.items) && Captures(layout.items, snapshot)
    ensures Effect(layout, snapshot).Some? <==> Restorable(layout)
    ensures Restorable(layout) ==> forall v :: v in AllValues(layout.items) ==>
      v in Effect(layout, snapshot).value && Effect(layout, snapshot).value[v] == Content(v)
  {
    CapturedIsPlanned(layout.items, snapshot);
    CapturedRanges(layout.items, snapshot);
    CapturedContents(layout.items, snapshot, layout.groups);
    CapturedSelection(layout, snapshot);
  }

  // Restoring

  /** What a restore gives: nothing if it is refused. */
  ghost function Effect(layout: Layout, snapshot: Snapshot): Option<Baselines>
    requires Placed(layout)
  {
    if Validated(layout, snapshot) then Plan(layout.items, snapshot) else None
  }

  function OrNothing(plan: Option<Baselines>): Baselines {
    if plan.Some? then plan.value else map[]
  }

  /** Restores an instance. `false` is the exception for a snapshot that is not valid or does not fit the
      filters: nothing has changed then. Otherwise every value holds its baseline in all its slots, for
      the history this is one baseline operation, and capturing gives the snapshot back. */
  method Restore(layout: Layout, snapshot: Snapshot, ghost history: StateHistory, ghost all: set<StateValue>,
                 ghost before: map<StateValue, Holding>)
    returns (ok: bool)
    requires Ready(all) && Held(all, before) && Placed(layout) && Disjoint(layout.items)
    requires AllValues(layout.items) <= all
    requires history.Valid() && forall i :: 0 <= i < |history.values| ==> history.values[i] in all
    modifies all, set v | v in all :: v.slots
    ensures ok == Effect(layout, snapshot).Some? && Ready(all) && history.Valid()
    ensures AllRestored(all, before, OrNothing(Effect(layout, snapshot)))
    ensures ok ==> Captures(layout.items, snapshot)
    ensures history.Rings() == H.Apply(old(history.Rings()), H.Operation.Baseline(OrNothing(Effect(layout, snapshot))))
  {
    assert forall v :: v in history.values ==> HoldingOf(v) == before[v];
    ghost var rings := history.Rings();
    ok := RestoreValues(layout, snapshot, all, before);
    RestoredHistory(history, all, before, rings, OrNothing(Effect(layout, snapshot)));
  }

  method RestoreValues(layout: Layout, snapshot: Snapshot, ghost all: set<StateValue>,
                       ghost before: map<StateValue, Holding>)
    returns (ok: bool)
    requires Ready(all) && Held(all, before) && Placed(layout) && Disjoint(layout.items)
    requires AllValues(layout.items) <= all
    modifies all, set v | v in all :: v.slots
    ensures ok == Effect(layout, snapshot).Some? && Ready(all)
    ensures AllRestored(all, before, OrNothing(Effect(layout, snapshot)))
    ensures ok ==> Captures(layout.items, snapshot)
  {
    ok := Validate(layout, snapshot);
    if !ok {
      assert forall v :: v in all ==> HoldingOf(v) == before[v];
      return;
    }
    ok := Apply(layout.items, snapshot, all, before);
    assert forall v :: v in all ==> Restored(v, before[v], Lookup(OrNothing(Plan(layout.items, snapshot)), v));
    if ok {
      PlanIsOver(layout.items, snapshot);
      RestoredContents(all, before, Plan(layout.items, snapshot).value);
      RestoredIsCaptured(layout.items, snapshot);
    }
  }

  lemma RestoredHistory(history: StateHistory, all: set<StateValue>, before: map<StateValue, Holding>,
                        rings: H.Rings<StateValue, Value>, plan: Baselines)
    requires before.Keys == all && AllRestored(all, before, plan) && H.Valid(rings)
    requires forall i :: 0 <= i < |history.values| ==> history.values[i] in all
    requires forall i, j :: 0 <= i < j < |history.values| ==>
      history.values[i] != history.values[j] && history.values[i].slots != history.values[j].slots
    requires rings == H.Rings(map v: StateValue | v in history.values :: before[v].slots, history.currentSlot,
                              history.availableUndoCount, history.availableRedoCount)
    requires forall v :: v in history.values ==> before[v].currentSlot == history.currentSlot
    ensures history.Valid() && history.Rings() == H.Apply(rings, H.Operation.Baseline(plan))
  {
  }

  lemma RestoredContents(all: set<StateValue>, before: map<StateValue, Holding>, plan: Baselines)
    requires before.Keys == all && AllRestored(all, before, plan) && plan.Keys <= all
    ensures forall v :: v in plan ==> Content(v) == plan[v]
  {
  }

  /** The transaction of a restore. Leaving it with an exception disposes it. */
  method Apply(items: seq<Item>, snapshot: Snapshot, ghost all: set<StateValue>, ghost before: map<StateValue, Holding>)
    returns (ok: bool)
    requires Ready(all) && Held(all, before) && Disjoint(items) && AllValues(items) <= all && Shaped(items, snapshot)
    modifies all, set v | v in all :: v.slots
    ensures ok <==> Plan(items, snapshot).Some?
    ensures AllRestored(all, before, OrNothing(Plan(items, snapshot)))
  {
    var transaction;
    ghost var staged;
    transaction, ok, staged := StageAll(items, snapshot, all);
    if ok {
      CommitBaselines(transaction, all, staged, before);
    } else {
      RollbackBaselines(transaction, all, staged, before);
    }
  }

  method StageAll(items: seq<Item>, snapshot: Snapshot, ghost all: set<StateValue>)
    returns (transaction: StateHistoryTransaction, ok: bool, ghost staged: Baselines)
    requires Ready(all) && Disjoint(items) && AllValues(items) <= all && Shaped(items, snapshot)
    modifies all`pendingTransaction, all`pendingBaselineValues, all`pendingBaselineSlot
    ensures fresh(transaction) && Staging(all, transaction, staged) && transaction.Valid()
    ensures Plan(items, snapshot) == if ok then Some(staged) else None
  {
    transaction := new StateHistoryTransaction();
    assert Staging(all, transaction, map[]) by {
      forall v | v in all ensures Waiting(v, transaction, Lookup(map[], v)) {}
    }
    ok, staged := ApplyItems(items, snapshot, transaction, all);
  }

  /** After a restore no advance and no jump can change a restored value: it shows its baseline at every
      point of the history. */
  lemma RestoredCannotBeUndone(r: H.Rings<StateValue, Value>, plan: Baselines,
                               ops: seq<H.Operation<StateValue, Value>>, v: StateValue)
    requires H.Valid(r) && v in r.slots && v in plan
    requires forall i :: 0 <= i < |ops| ==> ops[i].Advance? || ops[i].Jump?
    ensures var q := H.Run(H.Apply(r, H.Operation.Baseline(plan)), ops);
      forall i :: 0 <= i < |H.View(q).states| ==> v in H.View(q).states[i] && H.View(q).states[i][v] == plan[v]
  {
    H.UniformValuesStay(H.Apply(r, H.Operation.Baseline(plan)), ops, v, plan[v]);
  }
}
