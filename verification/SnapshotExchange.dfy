/**
  The three-slot exchange that carries DSP snapshots from the Managed publisher to the
  Native audio callback. Both sides are cut into their single shared-memory accesses; a
  snapshot is a vector of words that is written and copied one word at a time, so a torn
  copy is representable. A run is any sequence of enabled actions.
 */
module SnapshotExchange {

  const SLOTS := 3

  predicate Taken(index: nat, publishedIndex: nat, consumerIndex: nat) {
    index == publishedIndex || index == consumerIndex
  }

  /** The slot a publication writes: the lowest one that is neither published nor held. */
  function WritableIndex(publishedIndex: nat, consumerIndex: nat): (index: nat)
    ensures index < SLOTS && !Taken(index, publishedIndex, consumerIndex)
    ensures forall i: nat :: i < index ==> Taken(i, publishedIndex, consumerIndex)
  {
    if !Taken(0, publishedIndex, consumerIndex) then 0
    else if !Taken(1, publishedIndex, consumerIndex) then 1
    else 2
  }

  /** The search loop over the slots; it always returns before falling off the end. */
  method FindWritableIndex(publishedIndex: nat, consumerIndex: nat) returns (index: nat)
    ensures index == WritableIndex(publishedIndex, consumerIndex)
  {
    index := 0;
    while index < SLOTS
      invariant index <= WritableIndex(publishedIndex, consumerIndex)
    {
      if index != publishedIndex && index != consumerIndex {
        return;
      }
      assert Taken(index, publishedIndex, consumerIndex);
      index := index + 1;
    }
    assert false;
  }

  type Word = int
  type Words = seq<Word>

  datatype Producer =
    | Idle
    | ReadPublished(snapshot: Words, published: nat)
    | Writing(snapshot: Words, slot: nat, written: nat)

  datatype Consumer =
    | Waiting
    | Loaded(slot: nat)
    | Copying(slot: nat, copied: nat)

  /** `log` lists every snapshot whose publication has completed, in order, starting with the
      zero-initialised one; `slotVersion` and `destinationVersion` are indices into it, and
      `consumed` lists the versions the consumer has reported. They only record the run. */
  datatype State = State(
    slots: seq<Words>,
    publishedIndex: nat,
    consumerIndex: nat,
    producer: Producer,
    consumer: Consumer,
    heldIndex: nat,
    destination: Words,
    log: seq<Words>,
    slotVersion: seq<nat>,
    destinationVersion: nat,
    consumed: seq<nat>)

  datatype Action =
    | BeginPublish(snapshot: Words)
    | ChooseSlot
    | WriteWord
    | FinishPublish
    | LoadPublished
    | Announce
    | CopyWord
    | FinishCopy

  function Initial(size: nat): State {
    var zero := seq(size, _ => 0);
    State([zero, zero, zero], 0, 0, Idle, Waiting, 0, zero, [zero], [0, 0, 0], 0, [])
  }

  /** Index bounds every reachable state respects. */
  predicate Shaped(size: nat, s: State) {
    && |s.slots| == SLOTS
    && |s.slotVersion| == SLOTS
    && (forall i :: 0 <= i < SLOTS ==> |s.slots[i]| == size)
    && s.publishedIndex < SLOTS && s.consumerIndex < SLOTS && s.heldIndex < SLOTS
    && |s.destination| == size
    && |s.log| > 0
    && (s.producer.ReadPublished? ==> |s.producer.snapshot| == size)
    && (s.producer.Writing? ==>
          s.producer.slot < SLOTS && |s.producer.snapshot| == size && s.producer.written <= size)
    && (s.consumer.Loaded? ==> s.consumer.slot < SLOTS)
    && (s.consumer.Copying? ==> s.consumer.slot < SLOTS && s.consumer.copied <= size)
  }

  predicate Enabled(size: nat, s: State, a: Action) {
    match a
    case BeginPublish(snapshot) => s.producer.Idle? && |snapshot| == size
    case ChooseSlot => s.producer.ReadPublished?
    case WriteWord => s.producer.Writing? && s.producer.written < size
    case FinishPublish => s.producer.Writing? && s.producer.written == size
    case LoadPublished => s.consumer.Waiting?
    case Announce => s.consumer.Loaded?
    case CopyWord => s.consumer.Copying? && s.consumer.copied < size
    case FinishCopy => s.consumer.Copying? && s.consumer.copied == size
  }

  function Step(size: nat, s: State, a: Action): (t: State)
    requires Shaped(size, s) && Enabled(size, s, a)
    ensures Shaped(size, t)
  {
    match a
    case BeginPublish(snapshot) => s.(producer := ReadPublished(snapshot, s.publishedIndex))
    case ChooseSlot =>
      var slot := WritableIndex(s.producer.published, s.consumerIndex);
      s.(producer := Writing(s.producer.snapshot, slot, 0))
    case WriteWord =>
      var p := s.producer;
      s.(slots := s.slots[p.slot := s.slots[p.slot][p.written := p.snapshot[p.written]]],
         producer := p.(written := p.written + 1))
    case FinishPublish =>
      s.(publishedIndex := s.producer.slot,
         producer := Idle,
         log := s.log + [s.producer.snapshot],
         slotVersion := s.slotVersion[s.producer.slot := |s.log|])
    case LoadPublished =>
      // The producer only ever stores indices below three, so the range guard of the consumer
      // never fires; an unchanged index means there is nothing to consume.
      if s.publishedIndex > 2 || s.publishedIndex == s.heldIndex then s
      else s.(consumer := Loaded(s.publishedIndex))
    case Announce =>
      s.(consumerIndex := s.consumer.slot, consumer := Copying(s.consumer.slot, 0))
    case CopyWord =>
      var c := s.consumer;
      s.(destination := s.destination[c.copied := s.slots[c.slot][c.copied]],
         consumer := c.(copied := c.copied + 1))
    case FinishCopy =>
      s.(heldIndex := s.consumer.slot,
         destinationVersion := s.slotVersion[s.consumer.slot],
         consumed := s.consumed + [s.slotVersion[s.consumer.slot]],
         consumer := Waiting)
  }

  /** A publication reads `consumerIndex` after `publishedIndex` has left the slot that the
      consumer has loaded and not yet announced. */
  predicate Hazard(s: State, a: Action) {
    a.ChooseSlot? && s.producer.ReadPublished? && s.consumer.Loaded? &&
    s.producer.published != s.consumer.slot
  }

  /** The slot the consumer is entitled to read: announced, or loaded and about to be. */
  predicate ConsumerReads(s: State, slot: nat) {
    (s.consumer.Loaded? || s.consumer.Copying?) && s.consumer.slot == slot
  }

  predicate Increasing(versions: seq<nat>) {
    forall i, j :: 0 <= i < j < |versions| ==> versions[i] < versions[j]
  }

  ghost predicate Coherent(size: nat, s: State) {
    && Shaped(size, s)
    && (forall i :: 0 <= i < SLOTS ==> s.slotVersion[i] < |s.log|)
    && s.slotVersion[s.publishedIndex] == |s.log| - 1
    // Every slot the producer is not filling holds one complete publication.
    && (forall i :: 0 <= i < SLOTS && !(s.producer.Writing? && s.producer.slot == i) ==>
          s.slots[i] == s.log[s.slotVersion[i]])
    && (s.producer.ReadPublished? ==> s.producer.published == s.publishedIndex)
    && (s.producer.Writing? ==>
          && s.producer.slot != s.publishedIndex
          && s.producer.slot != s.consumerIndex
          && !ConsumerReads(s, s.producer.slot)
          && s.slots[s.producer.slot][..s.producer.written] == s.producer.snapshot[..s.producer.written])
    && (!s.consumer.Copying? ==>
          && s.heldIndex == s.consumerIndex
          && s.destinationVersion == s.slotVersion[s.heldIndex]
          && s.destination == s.log[s.destinationVersion])
    && (s.consumer.Loaded? ==>
          && s.consumer.slot != s.heldIndex
          && s.destinationVersion < s.slotVersion[s.consumer.slot])
    && (s.consumer.Copying? ==>
          && s.consumer.slot == s.consumerIndex
          && s.destinationVersion < s.slotVersion[s.consumer.slot]
          && s.destination[..s.consumer.copied] == s.log[s.slotVersion[s.consumer.slot]][..s.consumer.copied])
    && s.destinationVersion < |s.log|
    // Distinct slots hold distinct versions once they are written; the zero version is shared.
    && (forall i, j :: 0 <= i < SLOTS && 0 <= j < SLOTS && i != j && s.slotVersion[i] == s.slotVersion[j] ==>
          s.slotVersion[i] == 0)
    && (|s.log| == 1 ==> s.publishedIndex == s.heldIndex && s.consumer.Waiting?)
    && Increasing(s.consumed)
    && (forall i :: 0 <= i < |s.consumed| ==> s.consumed[i] <= s.destinationVersion)
    && (s.consumed != [] ==> s.consumed[|s.consumed| - 1] == s.destinationVersion)
  }

  lemma InitialIsCoherent(size: nat)
    ensures Coherent(size, Initial(size))
  {
  }

  lemma ProducerStepKeepsCoherent(size: nat, s: State, a: Action)
    requires Coherent(size, s) && Enabled(size, s, a)
    requires a.BeginPublish? || a.ChooseSlot? || a.WriteWord? || a.FinishPublish?
    requires !Hazard(s, a)
    ensures Coherent(size, Step(size, s, a))
  {
    var t := Step(size, s, a);
    if a.WriteWord? {
      var p := s.producer;
      assert t.slots[p.slot][..p.written + 1] == s.slots[p.slot][..p.written] + [p.snapshot[p.written]];
      assert p.snapshot[..p.written + 1] == p.snapshot[..p.written] + [p.snapshot[p.written]];
    } else if a.FinishPublish? {
      var p := s.producer;
      assert s.slots[p.slot] == s.slots[p.slot][..size] == p.snapshot[..size] == p.snapshot;
    }
  }

  lemma ConsumerStepKeepsCoherent(size: nat, s: State, a: Action)
    requires Coherent(size, s) && Enabled(size, s, a)
    requires a.LoadPublished? || a.Announce? || a.CopyWord? || a.FinishCopy?
    ensures Coherent(size, Step(size, s, a))
  {
    var t := Step(size, s, a);
    if a.CopyWord? {
      var c := s.consumer;
      var source := s.log[s.slotVersion[c.slot]];
      assert s.slots[c.slot] == source;
      assert t.destination[..c.copied + 1] == s.destination[..c.copied] + [source[c.copied]];
      assert source[..c.copied + 1] == source[..c.copied] + [source[c.copied]];
    } else if a.FinishCopy? {
      var c := s.consumer;
      assert s.destination == s.destination[..size];
      assert s.log[s.slotVersion[c.slot]] == s.log[s.slotVersion[c.slot]][..size];
    }
  }

  ghost predicate IsRun(size: nat, s: State, actions: seq<Action>)
    requires Shaped(size, s)
    decreases |actions|
  {
    actions == [] ||
    (Enabled(size, s, actions[0]) && IsRun(size, Step(size, s, actions[0]), actions[1..]))
  }

  ghost function Final(size: nat, s: State, actions: seq<Action>): (t: State)
    requires Shaped(size, s) && IsRun(size, s, actions)
    ensures Shaped(size, t)
    decreases |actions|
  {
    if actions == [] then s else Final(size, Step(size, s, actions[0]), actions[1..])
  }

  ghost predicate HazardFree(size: nat, s: State, actions: seq<Action>)
    requires Shaped(size, s) && IsRun(size, s, actions)
    decreases |actions|
  {
    actions != [] ==>
      !Hazard(s, actions[0]) && HazardFree(size, Step(size, s, actions[0]), actions[1..])
  }

  lemma {:induction false} RunKeepsCoherent(size: nat, s: State, actions: seq<Action>)
    requires Coherent(size, s) && IsRun(size, s, actions) && HazardFree(size, s, actions)
    ensures Coherent(size, Final(size, s, actions))
    decreases |actions|
  {
    if actions != [] {
      var a := actions[0];
      if a.BeginPublish? || a.ChooseSlot? || a.WriteWord? || a.FinishPublish? {
        ProducerStepKeepsCoherent(size, s, a);
      } else {
        ConsumerStepKeepsCoherent(size, s, a);
      }
      RunKeepsCoherent(size, Step(size, s, a), actions[1..]);
    }
  }

  /** Safety over every hazard-free run: the slot being read is never the one being written, a
      reported snapshot is the complete publication of the version it is reported as, reported versions
      strictly increase, and an idle consumer that sees its own index holds the newest publication. */
  lemma {:induction false} HazardFreeRunsAreSafe(size: nat, actions: seq<Action>)
    requires IsRun(size, Initial(size), actions)
    requires HazardFree(size, Initial(size), actions)
    ensures var t := Final(size, Initial(size), actions);
      && (t.producer.Writing? ==> !ConsumerReads(t, t.producer.slot))
      && Increasing(t.consumed)
      && (!t.consumer.Copying? ==>
            t.destinationVersion < |t.log| && t.destination == t.log[t.destinationVersion])
      && (t.consumer.Waiting? && t.consumed != [] ==>
            t.consumed[|t.consumed| - 1] < |t.log| && t.destination == t.log[t.consumed[|t.consumed| - 1]])
      && (t.consumer.Waiting? && t.publishedIndex == t.heldIndex ==>
            t.destination == t.log[|t.log| - 1])
  {
    InitialIsCoherent(size);
    RunKeepsCoherent(size, Initial(size), actions);
  }

  /** The hypothesis is exact, first half: from a coherent state a hazardous choice always lands
      on the very slot the consumer has loaded. */
  lemma HazardPicksTheLoadedSlot(size: nat, s: State)
    requires Coherent(size, s) && Enabled(size, s, ChooseSlot)
    ensures s.consumer.Loaded? ==>
      (Hazard(s, ChooseSlot) <==> Step(size, s, ChooseSlot).producer.slot == s.consumer.slot)
  {
  }

  ghost function Copies(count: nat): seq<Action> { seq(count, _ => CopyWord) }

  lemma {:induction false} CopyingEverything(size: nat, s: State, count: nat)
    requires Shaped(size, s) && s.consumer.Copying? && s.consumer.copied + count == size
    ensures IsRun(size, s, Copies(count))
    ensures var t := Final(size, s, Copies(count));
      t == s.(destination := s.destination[..s.consumer.copied] + s.slots[s.consumer.slot][s.consumer.copied..],
              consumer := Consumer.Copying(s.consumer.slot, size))
    decreases count
  {
    var c := s.consumer;
    if count == 0 {
      assert s.destination[..c.copied] + s.slots[c.slot][c.copied..] == s.destination;
    } else {
      var t := Step(size, s, CopyWord);
      assert Copies(count)[1..] == Copies(count - 1);
      CopyingEverything(size, t, count - 1);
      assert t.destination[..c.copied + 1] + s.slots[c.slot][c.copied + 1..]
        == s.destination[..c.copied] + s.slots[c.slot][c.copied..];
    }
  }

  lemma {:induction false} RunConcat(size: nat, s: State, first: seq<Action>, second: seq<Action>)
    requires Shaped(size, s) && IsRun(size, s, first) && IsRun(size, Final(size, s, first), second)
    ensures IsRun(size, s, first + second)
    ensures Final(size, s, first + second) == Final(size, Final(size, s, first), second)
    decreases |first|
  {
    if first == [] {
      assert first + second == second;
    } else {
      assert (first + second)[1..] == first[1..] + second;
      RunConcat(size, Step(size, s, first[0]), first[1..], second);
    }
  }

  /** The three steps of a hazard: the publication takes the loaded slot, the consumer announces
      it too late, and one word is overwritten. */
  ghost function Overwritten(size: nat, s: State): (u: State)
    requires Coherent(size, s) && size > 0 && Hazard(s, ChooseSlot)
    ensures Shaped(size, u)
  {
    Step(size, Step(size, Step(size, s, ChooseSlot), Announce), WriteWord)
  }

  lemma HazardOverwrites(size: nat, s: State)
    requires Coherent(size, s) && size > 0 && Hazard(s, ChooseSlot)
    ensures IsRun(size, s, [ChooseSlot, Announce, WriteWord])
    ensures Final(size, s, [ChooseSlot, Announce, WriteWord]) == Overwritten(size, s)
    ensures var u := Overwritten(size, s);
      && u.producer.Writing? && u.consumer == Copying(u.producer.slot, 0) && u.consumed == s.consumed && u.log == s.log
      && u.slots[u.producer.slot] == s.producer.snapshot[..1] + s.slots[s.consumer.slot][1..]
  {
    HazardPicksTheLoadedSlot(size, s);
    var head := [ChooseSlot, Announce, WriteWord];
    assert head[1..] == [Announce, WriteWord] && head[1..][1..] == [WriteWord] && [WriteWord][1..] == [];
    var one := Step(size, s, ChooseSlot);
    var two := Step(size, one, Announce);
    assert IsRun(size, two, [WriteWord]) && Final(size, two, [WriteWord]) == Step(size, two, WriteWord);
    assert IsRun(size, one, [Announce, WriteWord]);
    assert Final(size, one, [Announce, WriteWord]) == Final(size, two, [WriteWord]);
  }

  lemma {:induction false} CopyThenFinish(size: nat, u: State)
    requires Shaped(size, u) && u.consumer.Copying? && u.consumer.copied == 0
    ensures IsRun(size, u, Copies(size) + [FinishCopy])
    ensures var t := Final(size, u, Copies(size) + [FinishCopy]);
      && t.consumer.Waiting? && |t.consumed| == |u.consumed| + 1 && t.log == u.log
      && t.destination == u.slots[u.consumer.slot]
  {
    CopyingEverything(size, u, size);
    var v := Final(size, u, Copies(size));
    assert [FinishCopy][1..] == [];
    assert IsRun(size, Step(size, v, FinishCopy), []);
    assert IsRun(size, v, [FinishCopy]) && Final(size, v, [FinishCopy]) == Step(size, v, FinishCopy);
    RunConcat(size, u, Copies(size), [FinishCopy]);
  }

  /** Second half: every hazard can be followed by a run after which the consumer reports a
      snapshot whose first word comes from the unfinished publication and whose other words come
      from the one it loaded. */
  lemma {:induction false} EveryHazardCanTear(size: nat, s: State) returns (actions: seq<Action>)
    requires Coherent(size, s) && size > 0 && Hazard(s, ChooseSlot)
    ensures actions != [] && actions[0] == ChooseSlot && IsRun(size, s, actions)
    ensures var t := Final(size, s, actions);
      && t.consumer.Waiting? && |t.consumed| == |s.consumed| + 1 && t.log == s.log
      && t.destination == s.producer.snapshot[..1] + s.slots[s.consumer.slot][1..]
  {
    HazardOverwrites(size, s);
    CopyThenFinish(size, Overwritten(size, s));
    RunConcat(size, s, [ChooseSlot, Announce, WriteWord], Copies(size) + [FinishCopy]);
    actions := [ChooseSlot, Announce, WriteWord] + (Copies(size) + [FinishCopy]);
  }

  lemma {:induction false} HazardFreeConcat(size: nat, s: State, first: seq<Action>, second: seq<Action>)
    requires Shaped(size, s) && IsRun(size, s, first) && IsRun(size, Final(size, s, first), second)
    requires HazardFree(size, s, first) && HazardFree(size, Final(size, s, first), second)
    ensures IsRun(size, s, first + second) && HazardFree(size, s, first + second)
    ensures Final(size, s, first + second) == Final(size, Final(size, s, first), second)
    decreases |first|
  {
    RunConcat(size, s, first, second);
    if first == [] {
      assert first + second == second;
    } else {
      assert (first + second)[0] == first[0] && (first + second)[1..] == first[1..] + second;
      HazardFreeConcat(size, Step(size, s, first[0]), first[1..], second);
    }
  }

  ghost function Writes(count: nat): seq<Action> { seq(count, _ => WriteWord) }

  lemma {:induction false} WritingEverything(size: nat, s: State, count: nat)
    requires Shaped(size, s) && s.producer.Writing? && s.producer.written + count == size
    ensures IsRun(size, s, Writes(count)) && HazardFree(size, s, Writes(count))
    ensures var t := Final(size, s, Writes(count));
      && t == s.(slots := t.slots, producer := s.producer.(written := size))
      && (forall i :: 0 <= i < SLOTS && i != s.producer.slot ==> t.slots[i] == s.slots[i])
    decreases count
  {
    if count > 0 {
      assert Writes(count)[1..] == Writes(count - 1);
      WritingEverything(size, Step(size, s, WriteWord), count - 1);
    }
  }

  ghost function Publication(size: nat, snapshot: Words): seq<Action> {
    [BeginPublish(snapshot), ChooseSlot] + (Writes(size) + [FinishPublish])
  }

  /** A publication that runs without interleaving appends its snapshot to the log and moves
      `publishedIndex` to the slot it has written. It is no hazard unless the consumer has loaded
      another slot than the published one. */
  lemma {:induction false} PublicationRuns(size: nat, s: State, snapshot: Words)
    requires Shaped(size, s) && s.producer.Idle? && |snapshot| == size
    requires s.consumer.Loaded? ==> s.consumer.slot == s.publishedIndex
    ensures IsRun(size, s, Publication(size, snapshot)) && HazardFree(size, s, Publication(size, snapshot))
    ensures var t := Final(size, s, Publication(size, snapshot));
      && t.producer.Idle? && t.consumer == s.consumer
      && t.consumerIndex == s.consumerIndex && t.heldIndex == s.heldIndex
      && t.publishedIndex == WritableIndex(s.publishedIndex, s.consumerIndex)
      && t.log == s.log + [snapshot]
      && (forall i :: 0 <= i < SLOTS && i != t.publishedIndex ==> t.slots[i] == s.slots[i])
  {
    var one := Step(size, s, BeginPublish(snapshot));
    var two := Step(size, one, ChooseSlot);
    WritingEverything(size, two, size);
    var three := Final(size, two, Writes(size));
    SingleStep(size, three, FinishPublish);
    HazardFreeConcat(size, two, Writes(size), [FinishPublish]);
    SingleStep(size, one, ChooseSlot);
    HazardFreeConcat(size, one, [ChooseSlot], Writes(size) + [FinishPublish]);
    SingleStep(size, s, BeginPublish(snapshot));
    HazardFreeConcat(size, s, [BeginPublish(snapshot)], [ChooseSlot] + (Writes(size) + [FinishPublish]));
    assert Publication(size, snapshot) == [BeginPublish(snapshot)] + ([ChooseSlot] + (Writes(size) + [FinishPublish]));
  }

  lemma SingleStep(size: nat, s: State, a: Action)
    requires Shaped(size, s) && Enabled(size, s, a)
    ensures IsRun(size, s, [a]) && Final(size, s, [a]) == Step(size, s, a)
    ensures !Hazard(s, a) ==> HazardFree(size, s, [a])
  {
  }

  /** A first publication, which the consumer loads. */
  lemma {:induction false} FirstLoad(size: nat, x: Words) returns (actions: seq<Action>)
    requires |x| == size
    ensures IsRun(size, Initial(size), actions) && HazardFree(size, Initial(size), actions)
    ensures var u := Final(size, Initial(size), actions);
      && u.producer.Idle? && u.consumer == Loaded(u.publishedIndex) && u.consumerIndex == 0 && u.publishedIndex == 1
      && u.log == [seq(size, _ => 0), x] && u.slots[1] == x
  {
    var s := Initial(size);
    InitialIsCoherent(size);
    PublicationRuns(size, s, x);
    var t := Final(size, s, Publication(size, x));
    RunKeepsCoherent(size, s, Publication(size, x));
    SingleStep(size, t, LoadPublished);
    HazardFreeConcat(size, s, Publication(size, x), [LoadPublished]);
    actions := Publication(size, x) + [LoadPublished];
  }

  /** Hazards do occur, in coherent states: one publication the consumer loads, one more that leaves
      the loaded slot, and a third that begins before the announcement. */
  lemma {:induction false} HazardIsReachable(size: nat, x: Words, y: Words, z: Words)
    returns (actions: seq<Action>)
    requires |x| == |y| == |z| == size
    ensures IsRun(size, Initial(size), actions)
    ensures var t := Final(size, Initial(size), actions);
      && Coherent(size, t) && Enabled(size, t, ChooseSlot) && Hazard(t, ChooseSlot)
      && t.log == [seq(size, _ => 0), x, y] && t.producer.snapshot == z && t.slots[t.consumer.slot] == x
  {
    var load := FirstLoad(size, x);
    var u := Final(size, Initial(size), load);
    PublicationRuns(size, u, y);
    var v := Final(size, u, Publication(size, y));
    SingleStep(size, v, BeginPublish(z));
    HazardFreeConcat(size, u, Publication(size, y), [BeginPublish(z)]);
    HazardFreeConcat(size, Initial(size), load, Publication(size, y) + [BeginPublish(z)]);
    actions := load + (Publication(size, y) + [BeginPublish(z)]);
    InitialIsCoherent(size);
    RunKeepsCoherent(size, Initial(size), actions);
  }

  /** From the start the consumer can be made to report a snapshot that nobody has published: its first
      word is that of an unfinished publication, the others are those of the one it loaded. */
  lemma {:induction false} SnapshotsCanTear(size: nat, x: Words, y: Words, z: Words) returns (actions: seq<Action>)
    requires size >= 2 && |x| == |y| == |z| == size
    requires z[0] != 0 && z[0] != x[0] && z[0] != y[0] && z[1] != x[1]
    ensures IsRun(size, Initial(size), actions)
    ensures var t := Final(size, Initial(size), actions);
      && t.consumer.Waiting? && t.consumed != []
      && t.destination == [z[0]] + x[1..] && t.destination !in t.log && t.destination != z
  {
    var before := HazardIsReachable(size, x, y, z);
    var s := Final(size, Initial(size), before);
    var after := EveryHazardCanTear(size, s);
    RunConcat(size, Initial(size), before, after);
    actions := before + after;
    var t := Final(size, s, after);
    assert t.destination[0] == z[0] && t.destination[1] == x[1];
    assert t.log[0][0] == 0 && t.log[1][0] == x[0] && t.log[2][0] == y[0];
  }
}
