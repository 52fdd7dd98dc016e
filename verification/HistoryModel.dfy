/**
  What the undo/redo engine means. `Rings` is the storage of the engine: every registered value
  owns a ring of 32 slots, and one current slot and two counts are shared by all of them.
  `Timeline` is what a user sees: a list of global states with a cursor. The lemmas say that every
  operation on the rings is the evident operation on the list.
 */
module HistoryModel {
  import opened Common

  const CAPACITY: nat := 32

  datatype Rings<K(==), T> = Rings(slots: map<K, seq<T>>, slot: nat, undo: nat, redo: nat)

  datatype Timeline<K(==), T> = Timeline(states: seq<map<K, T>>, cursor: nat)

  datatype Operation<K(==), T> =
    | Register(key: K, initial: T)
    | Unregister(key: K)
    | Advance
    | Jump(cursor: int)
    | Write(changes: map<K, T>)
    | Baseline(changes: map<K, T>)

  predicate Valid<K, T>(r: Rings<K, T>) {
    && (forall k :: k in r.slots ==> |r.slots[k]| == CAPACITY)
    && r.slot < CAPACITY
    && r.undo + r.redo <= CAPACITY - 1
  }

  function NextSlot(slot: nat): nat { (slot + 1) % CAPACITY }

  function PreviousSlot(slot: nat): nat { (slot + CAPACITY - 1) % CAPACITY }

  /** The slot that lies `offset` history points after `slot`. */
  function SlotAt(slot: nat, offset: int): (r: nat)
    ensures r < CAPACITY
  {
    (slot + offset) % CAPACITY
  }

  // The engine's operations on its storage.

  function Apply<K, T>(r: Rings<K, T>, op: Operation<K, T>): (q: Rings<K, T>)
    requires Valid(r)
    ensures Valid(q)
  {
    match op
    case Register(key, initial) =>
      // A new value owns a ring filled with its initial value before it is registered.
      if key in r.slots then r else r.(slots := r.slots[key := seq(CAPACITY, _ => initial)])
    case Unregister(key) => r.(slots := r.slots - {key})
    case Advance =>
      var next := NextSlot(r.slot);
      Rings(map k | k in r.slots :: r.slots[k][next := r.slots[k][r.slot]],
            next, Min(r.undo + 1, CAPACITY - 1), 0)
    case Jump(cursor) =>
      if cursor < 0 || cursor > r.undo + r.redo then r
      else r.(slot := SlotAt(r.slot, cursor - r.undo), undo := cursor, redo := r.undo + r.redo - cursor)
    case Write(changes) =>
      r.(slots := map k | k in r.slots ::
           if k in changes then r.slots[k][r.slot := changes[k]] else r.slots[k])
    case Baseline(changes) =>
      r.(slots := map k | k in r.slots ::
           if k in changes then seq(CAPACITY, _ => changes[k]) else r.slots[k])
  }

  // The list of states.

  function StateAt<K, T>(r: Rings<K, T>, slot: nat): (state: map<K, T>)
    requires Valid(r) && slot < CAPACITY
    ensures state.Keys == r.slots.Keys
  {
    map k | k in r.slots :: r.slots[k][slot]
  }

  function Current<K, T>(r: Rings<K, T>): map<K, T>
    requires Valid(r)
  {
    StateAt(r, r.slot)
  }

  /** The state at history point `i`, counted from the oldest reachable one. */
  function PointAt<K, T>(r: Rings<K, T>, i: int): (state: map<K, T>)
    requires Valid(r)
    ensures state.Keys == r.slots.Keys
  {
    StateAt(r, SlotAt(r.slot, i - r.undo))
  }

  function View<K, T>(r: Rings<K, T>): (t: Timeline<K, T>)
    requires Valid(r)
    ensures |t.states| == r.undo + r.redo + 1 && t.cursor == r.undo
    ensures forall i :: 0 <= i < |t.states| ==> t.states[i] == PointAt(r, i)
    ensures Proper(t)
  {
    Timeline(seq(r.undo + r.redo + 1, i requires 0 <= i => PointAt(r, i)), r.undo)
  }

  function Overwrite<K, T>(state: map<K, T>, changes: map<K, T>): map<K, T> {
    map k | k in state :: if k in changes then changes[k] else state[k]
  }

  function DropOldest<K, T>(states: seq<map<K, T>>): seq<map<K, T>> {
    if |states| > CAPACITY then states[1..] else states
  }

  predicate Proper<K, T>(t: Timeline<K, T>) {
    && t.cursor < |t.states| <= CAPACITY
    && forall i :: 0 <= i < |t.states| ==> t.states[i].Keys == t.states[0].Keys
  }

  /** The operations on the list: this is the whole promise of the history. */
  function Edit<K, T>(t: Timeline<K, T>, op: Operation<K, T>): (u: Timeline<K, T>)
    requires Proper(t)
    ensures Proper(u)
  {
    match op
    case Register(key, initial) =>
      if key in t.states[0] then t
      else t.(states := seq(|t.states|, i requires 0 <= i < |t.states| => t.states[i][key := initial]))
    case Unregister(key) =>
      t.(states := seq(|t.states|, i requires 0 <= i < |t.states| => t.states[i] - {key}))
    case Advance =>
      var states := DropOldest(t.states[..t.cursor + 1] + [t.states[t.cursor]]);
      Timeline(states, |states| - 1)
    case Jump(cursor) => if 0 <= cursor < |t.states| then t.(cursor := cursor) else t
    case Write(changes) =>
      t.(states := t.states[t.cursor := Overwrite(t.states[t.cursor], changes)])
    case Baseline(changes) =>
      t.(states := seq(|t.states|, i requires 0 <= i < |t.states| => Overwrite(t.states[i], changes)))
  }

  // Slot arithmetic.

  lemma SlotShift(slot: nat, a: int, b: int)
    ensures SlotAt(SlotAt(slot, a), b) == SlotAt(slot, a + b)
  {
  }

  lemma SlotInjective(slot: nat, a: int, b: int)
    requires a < b < a + CAPACITY
    ensures SlotAt(slot, a) != SlotAt(slot, b)
  {
  }

  lemma SlotZero(slot: nat)
    requires slot < CAPACITY
    ensures SlotAt(slot, 0) == slot && SlotAt(slot, 1) == NextSlot(slot) && SlotAt(slot, -1) == PreviousSlot(slot)
  {
  }

  // One lemma per operation.

  lemma AdvanceSlot<K, T>(r: Rings<K, T>, slot: nat)
    requires Valid(r) && slot < CAPACITY
    ensures StateAt(Apply(r, Advance), slot) == if slot == NextSlot(r.slot) then Current(r) else StateAt(r, slot)
  {
  }

  /** History point `i` after an advance, counted from its own new oldest point. */
  lemma AdvanceState<K, T>(r: Rings<K, T>, i: nat)
    requires Valid(r) && i <= Apply(r, Advance).undo
    ensures View(Apply(r, Advance)).states[i] ==
      if i == Apply(r, Advance).undo then View(r).states[r.undo]
      else View(r).states[i + (r.undo + 1 - Apply(r, Advance).undo)]
  {
    var q := Apply(r, Advance);
    var offset := i - q.undo;
    SlotZero(r.slot);
    SlotShift(r.slot, 1, offset);
    AdvanceSlot(r, SlotAt(q.slot, offset));
    if offset < 0 {
      SlotInjective(r.slot, 1 + offset, 1);
    }
  }

  lemma DuplicatedAt<K, T>(t: Timeline<K, T>, i: nat)
    requires Proper(t) && i <= Min(t.cursor + 1, CAPACITY - 1)
    ensures var u, last := Edit(t, Advance), Min(t.cursor + 1, CAPACITY - 1);
      && |u.states| == last + 1 && u.cursor == last
      && u.states[i] == if i == last then t.states[t.cursor] else t.states[i + (t.cursor + 1 - last)]
  {
  }

  lemma AdvanceRefines<K, T>(r: Rings<K, T>)
    requires Valid(r)
    ensures View(Apply(r, Advance)) == Edit(View(r), Advance)
  {
    var u, e := View(Apply(r, Advance)), Edit(View(r), Advance);
    DuplicatedAt(View(r), 0);
    forall i | 0 <= i < |u.states| ensures u.states[i] == e.states[i] {
      AdvancedAt(r, i);
    }
  }

  lemma AdvancedAt<K, T>(r: Rings<K, T>, i: nat)
    requires Valid(r) && i <= Apply(r, Advance).undo
    ensures i < |Edit(View(r), Advance).states|
    ensures View(Apply(r, Advance)).states[i] == Edit(View(r), Advance).states[i]
  {
    AdvanceState(r, i);
    DuplicatedAt(View(r), i);
  }

  lemma JumpRefines<K, T>(r: Rings<K, T>, cursor: int)
    requires Valid(r)
    ensures View(Apply(r, Jump(cursor))) == Edit(View(r), Jump(cursor))
  {
    if 0 <= cursor <= r.undo + r.redo {
      var q := Apply(r, Jump(cursor));
      forall i | 0 <= i < |View(r).states| ensures View(q).states[i] == View(r).states[i]
      {
        SlotShift(r.slot, cursor - r.undo, i - cursor);
        assert StateAt(q, SlotAt(q.slot, i - q.undo)) == StateAt(r, SlotAt(r.slot, i - r.undo));
      }
    }
  }

  lemma WriteRefines<K, T>(r: Rings<K, T>, changes: map<K, T>)
    requires Valid(r)
    ensures View(Apply(r, Write(changes))) == Edit(View(r), Write(changes))
  {
    var q := Apply(r, Write(changes));
    SlotZero(r.slot);
    forall i | 0 <= i < |View(r).states|
      ensures View(q).states[i] == Edit(View(r), Write(changes)).states[i]
    {
      var slot := SlotAt(r.slot, i - r.undo);
      if i < r.undo {
        SlotInjective(r.slot, i - r.undo, 0);
        assert StateAt(q, slot) == StateAt(r, slot);
      } else if i > r.undo {
        SlotInjective(r.slot, 0, i - r.undo);
        assert StateAt(q, slot) == StateAt(r, slot);
      } else {
        assert StateAt(q, slot) == Overwrite(StateAt(r, slot), changes);
      }
    }
  }

  lemma BaselineSlot<K, T>(r: Rings<K, T>, changes: map<K, T>, slot: nat)
    requires Valid(r) && slot < CAPACITY
    ensures StateAt(Apply(r, Baseline(changes)), slot) == Overwrite(StateAt(r, slot), changes)
  {
  }

  lemma BaselineRefines<K, T>(r: Rings<K, T>, changes: map<K, T>)
    requires Valid(r)
    ensures View(Apply(r, Baseline(changes))) == Edit(View(r), Baseline(changes))
  {
    var q := Apply(r, Baseline(changes));
    forall i | 0 <= i < |View(r).states| ensures PointAt(q, i) == Overwrite(PointAt(r, i), changes) {
      BaselineSlot(r, changes, SlotAt(r.slot, i - r.undo));
    }
  }

  lemma RegistrationSlot<K, T>(r: Rings<K, T>, op: Operation<K, T>, slot: nat)
    requires Valid(r) && (op.Register? || op.Unregister?) && slot < CAPACITY
    ensures StateAt(Apply(r, op), slot) ==
      if op.Unregister? then StateAt(r, slot) - {op.key}
      else if op.key in r.slots then StateAt(r, slot)
      else StateAt(r, slot)[op.key := op.initial]
  {
  }

  lemma RegistrationRefines<K, T>(r: Rings<K, T>, op: Operation<K, T>)
    requires Valid(r) && (op.Register? || op.Unregister?)
    ensures View(Apply(r, op)) == Edit(View(r), op)
  {
    var q := Apply(r, op);
    forall i | 0 <= i < |View(r).states| ensures PointAt(q, i) == Edit(View(r), op).states[i] {
      RegistrationSlot(r, op, SlotAt(r.slot, i - r.undo));
    }
  }

  lemma StepRefines<K, T>(r: Rings<K, T>, op: Operation<K, T>)
    requires Valid(r)
    ensures View(Apply(r, op)) == Edit(View(r), op)
  {
    match op
    case Register(_, _) => RegistrationRefines(r, op);
    case Unregister(_) => RegistrationRefines(r, op);
    case Advance => AdvanceRefines(r);
    case Jump(cursor) => JumpRefines(r, cursor);
    case Write(changes) => WriteRefines(r, changes);
    case Baseline(changes) => BaselineRefines(r, changes);
  }

  /** The storage after opening a history point, if one is due. */
  ghost function Opened<K, T>(r: Rings<K, T>, point: bool): (q: Rings<K, T>)
    requires Valid(r)
    ensures Valid(q)
  {
    if point then Apply(r, Advance) else r
  }

  // Runs.

  ghost function Run<K, T>(r: Rings<K, T>, ops: seq<Operation<K, T>>): (q: Rings<K, T>)
    requires Valid(r)
    ensures Valid(q)
    decreases |ops|
  {
    if ops == [] then r else Run(Apply(r, ops[0]), ops[1..])
  }

  ghost function EditAll<K, T>(t: Timeline<K, T>, ops: seq<Operation<K, T>>): (u: Timeline<K, T>)
    requires Proper(t)
    ensures Proper(u)
    decreases |ops|
  {
    if ops == [] then t else EditAll(Edit(t, ops[0]), ops[1..])
  }

  function Empty<K, T>(): Rings<K, T> { Rings(map[], 0, 0, 0) }

  /** Refinement over every run: the rings always show the list of states that the same operations
      produce when they are applied to the list directly. Together with `Proper` this bounds the
      list by 32 states, that is undo + redo by 31. */
  lemma {:induction false} RunRefines<K, T>(r: Rings<K, T>, ops: seq<Operation<K, T>>)
    requires Valid(r)
    ensures View(Run(r, ops)) == EditAll(View(r), ops)
    decreases |ops|
  {
    if ops != [] {
      StepRefines(r, ops[0]);
      RunRefines(Apply(r, ops[0]), ops[1..]);
    }
  }

  // What the list gives the user.

  function CurrentState<K, T>(t: Timeline<K, T>): map<K, T>
    requires Proper(t)
  {
    t.states[t.cursor]
  }

  /** An edit that opens a history point is undone and redone exactly, also when the history is
      full and when states could still be redone before it. */
  lemma UndoIsExact<K, T>(r: Rings<K, T>, changes: map<K, T>)
    requires Valid(r)
    ensures var edited := Apply(Apply(r, Advance), Write(changes));
      var undone := Apply(edited, Jump(edited.undo - 1));
      var redone := Apply(undone, Jump(undone.undo + 1));
      && edited.undo > 0
      && Current(edited) == Overwrite(Current(r), changes)
      && Current(undone) == Current(r)
      && View(redone) == View(edited)
  {
    var edited := Apply(Apply(r, Advance), Write(changes));
    EditRefines(r, changes);
    EditedStates(View(r), changes);
    BackAndForth(edited);
    CurrentIsAtTheCursor(r);
    CurrentIsAtTheCursor(edited);
  }

  lemma EditedStates<K, T>(t: Timeline<K, T>, changes: map<K, T>)
    requires Proper(t)
    ensures var edited := Edit(Edit(t, Advance), Write(changes));
      && edited.cursor > 0
      && CurrentState(edited) == Overwrite(CurrentState(t), changes)
      && edited.states[edited.cursor - 1] == CurrentState(t)
  {
    DuplicatedAt(t, Min(t.cursor + 1, CAPACITY - 1));
    DuplicatedAt(t, Min(t.cursor + 1, CAPACITY - 1) - 1);
  }

  /** A step back shows the state before, and the step forward from there shows the same list. */
  lemma BackAndForth<K, T>(r: Rings<K, T>)
    requires Valid(r) && r.undo > 0
    ensures var back := Apply(r, Jump(r.undo - 1));
      && Current(back) == View(r).states[r.undo - 1]
      && View(Apply(back, Jump(back.undo + 1))) == View(r)
  {
    var back := Apply(r, Jump(r.undo - 1));
    JumpLandsOnThePoint(r, r.undo - 1);
    JumpRefines(r, r.undo - 1);
    JumpRefines(back, back.undo + 1);
  }

  /** Several commits behind one history point. */
  function WriteAll<K, T>(r: Rings<K, T>, writes: seq<map<K, T>>): (q: Rings<K, T>)
    requires Valid(r)
    ensures Valid(q)
    decreases |writes|
  {
    if writes == [] then r else WriteAll(Apply(r, Write(writes[0])), writes[1..])
  }

  /** What they write together: the last of them decides. */
  function Together<K, T>(writes: seq<map<K, T>>): map<K, T>
    decreases |writes|
  {
    if writes == [] then map[] else writes[0] + Together(writes[1..])
  }

  lemma TwoWritesAreOne<K, T>(r: Rings<K, T>, first: map<K, T>, second: map<K, T>)
    requires Valid(r)
    ensures Apply(Apply(r, Write(first)), Write(second)) == Apply(r, Write(first + second))
  {
    var a, b := Apply(Apply(r, Write(first)), Write(second)), Apply(r, Write(first + second));
    forall k | k in r.slots ensures a.slots[k] == b.slots[k] {
    }
  }

  lemma {:induction false} WritesAreOne<K, T>(r: Rings<K, T>, writes: seq<map<K, T>>)
    requires Valid(r)
    ensures WriteAll(r, writes) == Apply(r, Write(Together(writes)))
    decreases |writes|
  {
    if writes == [] {
      assert forall k :: k in r.slots ==> Apply(r, Write(map[])).slots[k] == r.slots[k];
      assert Apply(r, Write(map[])).slots == r.slots;
    } else {
      WritesAreOne(Apply(r, Write(writes[0])), writes[1..]);
      TwoWritesAreOne(r, writes[0], Together(writes[1..]));
    }
  }

  /** A history point and any number of commits behind it are undone, and redone, in one step, also from a full
      history and in front of redo states. */
  lemma GestureIsOneStep<K, T>(r: Rings<K, T>, writes: seq<map<K, T>>)
    requires Valid(r)
    ensures var edited := WriteAll(Apply(r, Advance), writes);
      var undone := Apply(edited, Jump(edited.undo - 1));
      var redone := Apply(undone, Jump(undone.undo + 1));
      && edited.undo == Min(r.undo + 1, CAPACITY - 1) && edited.redo == 0
      && Current(edited) == Overwrite(Current(r), Together(writes))
      && Current(undone) == Current(r)
      && View(redone) == View(edited)
  {
    WritesAreOne(Apply(r, Advance), writes);
    UndoIsExact(r, Together(writes));
  }

  lemma EditRefines<K, T>(r: Rings<K, T>, changes: map<K, T>)
    requires Valid(r)
    ensures var edited := Apply(Apply(r, Advance), Write(changes));
      && edited.undo > 0
      && View(edited) == Edit(Edit(View(r), Advance), Write(changes))
  {
    AdvanceRefines(r);
    WriteRefines(Apply(r, Advance), changes);
  }

  lemma CurrentIsAtTheCursor<K, T>(r: Rings<K, T>)
    requires Valid(r)
    ensures Current(r) == CurrentState(View(r))
  {
  }

  lemma JumpLandsOnThePoint<K, T>(r: Rings<K, T>, cursor: nat)
    requires Valid(r) && cursor <= r.undo + r.redo
    ensures Current(Apply(r, Jump(cursor))) == View(r).states[cursor]
  {
  }

  /** Opening a point keeps every earlier state reachable, except the oldest of a full history. */
  lemma AdvanceKeepsThePast<K, T>(r: Rings<K, T>, back: nat)
    requires Valid(r) && back <= r.undo && back < CAPACITY - 1
    ensures var q := Apply(r, Advance);
      && back + 1 <= q.undo
      && Current(Apply(q, Jump(q.undo - 1 - back))) == Current(Apply(r, Jump(r.undo - back)))
  {
    var q := Apply(r, Advance);
    JumpLandsOnThePoint(q, q.undo - 1 - back);
    JumpLandsOnThePoint(r, r.undo - back);
    AdvanceState(r, q.undo - 1 - back);
  }

  ghost predicate Always<K, T>(t: Timeline<K, T>, p: map<K, T> -> bool)
    requires Proper(t)
  {
    forall i :: 0 <= i < |t.states| ==> p(t.states[i])
  }

  /** `op` keeps `p` in the states it changes. */
  ghost predicate Respects<K, T>(t: Timeline<K, T>, op: Operation<K, T>, p: map<K, T> -> bool)
    requires Proper(t)
  {
    match op
    case Advance => true
    case Jump(_) => true
    case Write(changes) => p(Overwrite(CurrentState(t), changes))
    case Register(_, _) => Always(Edit(t, op), p)
    case Unregister(_) => Always(Edit(t, op), p)
    case Baseline(_) => Always(Edit(t, op), p)
  }

  ghost predicate AllRespect<K, T>(t: Timeline<K, T>, ops: seq<Operation<K, T>>, p: map<K, T> -> bool)
    requires Proper(t)
    decreases |ops|
  {
    ops != [] ==> Respects(t, ops[0], p) && AllRespect(Edit(t, ops[0]), ops[1..], p)
  }

  lemma StepKeepsAlways<K, T>(t: Timeline<K, T>, op: Operation<K, T>, p: map<K, T> -> bool)
    requires Proper(t) && Always(t, p) && Respects(t, op, p)
    ensures Always(Edit(t, op), p)
  {
    var u := Edit(t, op);
    if op.Advance? {
      DuplicatedAt(t, 0);
      forall i | 0 <= i < |u.states| ensures p(u.states[i]) {
        DuplicatedAt(t, i);
      }
    }
  }

  /** A property of single states that commits keep at the cursor holds in every ring slot a user
      can still reach, whatever advances and jumps come in between. */
  lemma {:induction false} InvariantInEverySlot<K, T>(r: Rings<K, T>, ops: seq<Operation<K, T>>, p: map<K, T> -> bool)
    requires Valid(r) && Always(View(r), p) && AllRespect(View(r), ops, p)
    ensures Always(View(Run(r, ops)), p)
    decreases |ops|
  {
    if ops != [] {
      StepRefines(r, ops[0]);
      StepKeepsAlways(View(r), ops[0], p);
      InvariantInEverySlot(Apply(r, ops[0]), ops[1..], p);
    }
  }

  /** A value whose slots all agree shows the same value at every point, before and after any jump
      or advance: a restored baseline cannot be undone. */
  lemma {:induction false} UniformValuesStay<K, T>(r: Rings<K, T>, ops: seq<Operation<K, T>>, key: K, value: T)
    requires Valid(r) && key in r.slots && r.slots[key] == seq(CAPACITY, _ => value)
    requires forall i :: 0 <= i < |ops| ==> ops[i].Advance? || ops[i].Jump?
    ensures var q := Run(r, ops);
      && key in q.slots && q.slots[key] == r.slots[key]
      && forall i :: 0 <= i < |View(q).states| ==> View(q).states[i][key] == value
    decreases |ops|
  {
    if ops == [] {
      forall i | 0 <= i < |View(r).states| ensures View(r).states[i][key] == value {
        assert PointAt(r, i)[key] == r.slots[key][SlotAt(r.slot, i - r.undo)];
      }
    } else {
      var q := Apply(r, ops[0]);
      assert q.slots[key] == r.slots[key];
      UniformValuesStay(q, ops[1..], key, value);
    }
  }
}
