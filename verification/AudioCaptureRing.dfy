/**
  The single-producer, single-consumer audio ring between the audio callback (Enqueue) and the
  analysis worker (TryReadWindow), cut into shared-index accesses and single samples. An action
  whose side is not ready for it leaves the state unchanged, so every sequence of actions is a run.
 */
module AudioCaptureRing {
  import opened Common

  /** One ring cell: main left/right, reference left/right, and the reference-connected flag. */
  datatype Sample = Sample(left: real, right: real, referenceLeft: real, referenceRight: real, connected: bool)

  datatype Reference = NotConnected | Connected(left: seq<real>, right: seq<real>)

  /** What Enqueue stores for frame `index` of a block. */
  function Frame(left: seq<real>, right: seq<real>, reference: Reference, index: nat): Sample
    requires index < |left| == |right|
    requires reference.Connected? ==> |reference.left| == |reference.right| == |left|
  {
    if reference.Connected?
    then Sample(left[index], right[index], reference.left[index], reference.right[index], true)
    else Sample(left[index], right[index], 0.0, 0.0, false)
  }

  datatype Producer =
    | Idle
    | Storing(block: seq<Sample>, writable: nat, stored: nat, seenReadIndex: nat)

  datatype Consumer =
    | Waiting
    | Reading(window: seq<real>, first: nat, limit: nat, fft: seq<real>, referenceFft: seq<real>)
    | Missed
    | Delivered(window: seq<real>, limit: nat, fft: seq<real>, referenceFft: seq<real>, connected: bool)

  /** `accepted` lists every sample whose block has been published; `offered` and `dropped` count. */
  datatype State = State(
    ring: seq<Sample>,
    writeIndex: nat,
    readIndex: nat,
    producer: Producer,
    consumer: Consumer,
    accepted: seq<Sample>,
    offered: nat,
    dropped: nat)

  datatype Action =
    | BeginEnqueue(left: seq<real>, right: seq<real>, reference: Reference)
    | StoreSample
    | PublishWriteIndex
    | BeginRead(window: seq<real>)
    | ReadSample
    | FinishRead

  predicate WellFormed(a: Action) {
    && (a.BeginEnqueue? ==>
          && |a.left| == |a.right|
          && (a.reference.Connected? ==> |a.reference.left| == |a.reference.right| == |a.left|))
    && (a.BeginRead? ==> a.window != [])
  }

  function Initial(capacity: nat): State {
    State(seq(capacity, _ => Sample(0.0, 0.0, 0.0, 0.0, false)), 0, 0, Idle, Waiting, [], 0, 0)
  }

  function Step(s: State, a: Action): State
    requires |s.ring| > 0 && s.writeIndex <= s.readIndex + |s.ring|
    requires s.consumer.Reading? ==>
      |s.consumer.fft| == |s.consumer.referenceFft| <= |s.consumer.window| && s.consumer.limit > 0
    requires s.producer.Storing? ==> s.producer.stored <= s.producer.writable <= |s.producer.block|
    requires WellFormed(a)
  {
    var capacity := |s.ring|;
    match a
    case BeginEnqueue(left, right, reference) =>
      if !s.producer.Idle? then s
      else
        var block := seq(|left|, i requires 0 <= i < |left| => Frame(left, right, reference, i));
        var available := capacity - (s.writeIndex - s.readIndex);
        s.(producer := Storing(block, Min(|block|, available), 0, s.readIndex),
           offered := s.offered + |block|)
    case StoreSample =>
      if s.producer.Storing? && s.producer.stored < s.producer.writable then
        var p := s.producer;
        s.(ring := s.ring[(s.writeIndex + p.stored) % capacity := p.block[p.stored]],
           producer := p.(stored := p.stored + 1))
      else s
    case PublishWriteIndex =>
      if s.producer.Storing? && s.producer.stored == s.producer.writable then
        var p := s.producer;
        s.(writeIndex := s.writeIndex + p.writable,
           producer := Idle,
           accepted := s.accepted + p.block[..p.writable],
           dropped := s.dropped + (|p.block| - p.writable))
      else s
    case BeginRead(window) =>
      if s.consumer.Reading? then s
      else if s.writeIndex - s.readIndex < |window| then s.(consumer := Missed)
      else
        // Only the newest window is analysed; anything older is skipped.
        var first := if s.writeIndex - s.readIndex > |window| then s.writeIndex - |window| else s.readIndex;
        s.(consumer := Reading(window, first, s.writeIndex, [], []))
    case ReadSample =>
      if s.consumer.Reading? && |s.consumer.fft| < |s.consumer.window| then
        var c := s.consumer;
        var index := |c.fft|;
        var cell := s.ring[(c.first + index) % capacity];
        s.(consumer := Reading(c.window, c.first, c.limit,
             c.fft + [Mix(cell.left, cell.right, c.window[index])],
             c.referenceFft + [Mix(cell.referenceLeft, cell.referenceRight, c.window[index])]))
      else s
    case FinishRead =>
      if s.consumer.Reading? && |s.consumer.fft| == |s.consumer.window| then
        var c := s.consumer;
        s.(consumer := Delivered(c.window, c.limit, c.fft, c.referenceFft, s.ring[(c.limit - 1) % capacity].connected),
           readIndex := c.limit)
      else s
  }

  function Mix(left: real, right: real, multiplier: real): real { (left + right) * 0.5 * multiplier }

  /** The delivered spectrum input: the windowed samples [limit - |window| .. limit). */
  ghost predicate IsWindowOf(accepted: seq<Sample>, limit: nat, window: seq<real>, fft: seq<real>,
                             referenceFft: seq<real>) {
    && |fft| == |referenceFft| <= |window| <= limit <= |accepted|
    && forall i :: 0 <= i < |fft| ==>
         var sample := accepted[limit - |window| + i];
         && fft[i] == Mix(sample.left, sample.right, window[i])
         && referenceFft[i] == Mix(sample.referenceLeft, sample.referenceRight, window[i])
  }

  ghost predicate Coherent(s: State) {
    var capacity := |s.ring|;
    && capacity > 0
    && |s.accepted| == s.writeIndex
    && s.readIndex <= s.writeIndex <= s.readIndex + capacity
    && (forall j :: s.readIndex <= j < s.writeIndex ==> s.ring[j % capacity] == s.accepted[j])
    && s.offered == |s.accepted| + s.dropped + (if s.producer.Storing? then |s.producer.block| else 0)
    && (s.producer.Storing? ==>
          var p := s.producer;
          && p.seenReadIndex <= s.readIndex
          && p.stored <= p.writable <= |p.block|
          && s.writeIndex + p.writable <= p.seenReadIndex + capacity
          && forall k :: 0 <= k < p.stored ==> s.ring[(s.writeIndex + k) % capacity] == p.block[k])
    && (s.consumer.Reading? ==>
          var c := s.consumer;
          && c.window != []
          && s.readIndex <= c.first && c.first + |c.window| == c.limit <= s.writeIndex
          && IsWindowOf(s.accepted, c.limit, c.window, c.fft, c.referenceFft))
    && (s.consumer.Delivered? ==>
          var c := s.consumer;
          && |c.fft| == |c.window| > 0
          && IsWindowOf(s.accepted, c.limit, c.window, c.fft, c.referenceFft)
          && c.connected == s.accepted[c.limit - 1].connected)
  }

  lemma MultipleIsFar(m: int, n: int)
    requires m > 0
    ensures n >= 1 ==> m * n >= m
    ensures n <= -1 ==> m * n <= -m
  {
  }

  lemma ResidueIsUnique(x: nat, quotient: int, residue: nat, capacity: nat)
    requires residue < capacity && x == capacity * quotient + residue
    ensures x % capacity == residue
  {
    var difference := x / capacity - quotient;
    assert capacity * difference == residue - x % capacity;
    MultipleIsFar(capacity, difference);
  }

  /** Indices less than one capacity apart never share a cell. */
  lemma DistinctCells(a: nat, b: nat, capacity: nat)
    requires a < b < a + capacity
    ensures a % capacity != b % capacity
  {
    var q, r := a / capacity, a % capacity + (b - a);
    if r < capacity {
      ResidueIsUnique(b, q, r, capacity);
    } else {
      ResidueIsUnique(b, q + 1, r - capacity, capacity);
    }
  }

  lemma StoreKeepsCoherent(s: State)
    requires Coherent(s)
    ensures Coherent(Step(s, StoreSample))
  {
    var t := Step(s, StoreSample);
    if t != s {
      var p := s.producer;
      var capacity := |s.ring|;
      var target := s.writeIndex + p.stored;
      forall j | s.readIndex <= j < target
        ensures t.ring[j % capacity] == s.ring[j % capacity]
      {
        DistinctCells(j, target, capacity);
      }
      forall k | 0 <= k < p.stored + 1
        ensures t.ring[(s.writeIndex + k) % capacity] == p.block[k]
      {
        if k < p.stored {
          assert s.readIndex <= s.writeIndex + k < target;
        }
      }
    }
  }

  lemma PublishKeepsCoherent(s: State)
    requires Coherent(s)
    ensures Coherent(Step(s, PublishWriteIndex))
  {
    var t := Step(s, PublishWriteIndex);
    if t != s {
      var p := s.producer;
      var capacity := |s.ring|;
      forall j | t.readIndex <= j < t.writeIndex
        ensures t.ring[j % capacity] == t.accepted[j]
      {
        if j >= s.writeIndex {
          var k := j - s.writeIndex;
          assert s.ring[(s.writeIndex + k) % capacity] == p.block[k];
        }
      }
    }
  }

  lemma BeginReadKeepsCoherent(s: State, window: seq<real>)
    requires Coherent(s) && window != []
    ensures Coherent(Step(s, BeginRead(window)))
  {
  }

  lemma ReadSampleKeepsCoherent(s: State)
    requires Coherent(s)
    ensures Coherent(Step(s, ReadSample))
  {
    if s.consumer.Reading? && |s.consumer.fft| < |s.consumer.window| {
      var c := s.consumer;
      assert s.ring[(c.first + |c.fft|) % |s.ring|] == s.accepted[c.first + |c.fft|];
    }
  }

  lemma FinishReadKeepsCoherent(s: State)
    requires Coherent(s)
    ensures Coherent(Step(s, FinishRead))
  {
    if s.consumer.Reading? {
      var c := s.consumer;
      assert s.ring[(c.limit - 1) % |s.ring|] == s.accepted[c.limit - 1];
    }
  }

  lemma StepKeepsCoherent(s: State, a: Action)
    requires Coherent(s) && WellFormed(a)
    ensures Coherent(Step(s, a))
  {
    match a
    case StoreSample => StoreKeepsCoherent(s);
    case PublishWriteIndex => PublishKeepsCoherent(s);
    case BeginEnqueue(_, _, _) =>
    case BeginRead(window) => BeginReadKeepsCoherent(s, window);
    case ReadSample => ReadSampleKeepsCoherent(s);
    case FinishRead => FinishReadKeepsCoherent(s);
  }

  ghost function Final(s: State, actions: seq<Action>): (t: State)
    requires Coherent(s) && forall i :: 0 <= i < |actions| ==> WellFormed(actions[i])
    ensures Coherent(t)
    decreases |actions|
  {
    if actions == [] then s
    else
      StepKeepsCoherent(s, actions[0]);
      Final(Step(s, actions[0]), actions[1..])
  }

  /** The cell the producer is about to store into. */
  function StoreCell(s: State): nat
    requires |s.ring| > 0 && s.producer.Storing?
  {
    (s.writeIndex + s.producer.stored) % |s.ring|
  }

  /** Safety over every interleaving: a delivered window is exactly the last `|window|` samples
      accepted before the consumer loaded the write index, in order; the producer never stores
      into a cell of the window being read; and between blocks every offered sample was either
      accepted or counted as dropped. */
  lemma RunsDeliverTheNewestWindow(capacity: nat, actions: seq<Action>)
    requires capacity > 0 && forall i :: 0 <= i < |actions| ==> WellFormed(actions[i])
    ensures Coherent(Initial(capacity))
    ensures var t := Final(Initial(capacity), actions);
      && (t.consumer.Delivered? ==>
            && |t.consumer.fft| == |t.consumer.window|
            && IsWindowOf(t.accepted, t.consumer.limit, t.consumer.window, t.consumer.fft, t.consumer.referenceFft)
            && t.consumer.connected == t.accepted[t.consumer.limit - 1].connected)
      && (t.consumer.Reading? && t.producer.Storing? && t.producer.stored < t.producer.writable ==>
            forall j: nat :: t.consumer.first <= j < t.consumer.limit ==> j % |t.ring| != StoreCell(t))
      && (t.producer.Idle? ==> t.offered == |t.accepted| + t.dropped)
  {
    var t := Final(Initial(capacity), actions);
    if t.consumer.Reading? && t.producer.Storing? && t.producer.stored < t.producer.writable {
      forall j: nat | t.consumer.first <= j < t.consumer.limit
        ensures j % |t.ring| != StoreCell(t)
      {
        DistinctCells(j, t.writeIndex + t.producer.stored, |t.ring|);
      }
    }
  }

  /** Neither side's later steps change what a begun read is going to deliver. */
  lemma StepKeepsItsLimit(s: State, a: Action)
    requires Coherent(s) && WellFormed(a) && !a.BeginRead?
    requires s.consumer.Reading? || s.consumer.Delivered?
    ensures var t := Step(s, a);
      && s.accepted <= t.accepted
      && (t.consumer.Reading? || t.consumer.Delivered?)
      && t.consumer.limit == s.consumer.limit && t.consumer.window == s.consumer.window
  {
  }

  lemma {:induction false} ReadKeepsItsLimit(s: State, actions: seq<Action>)
    requires Coherent(s)
    requires forall i :: 0 <= i < |actions| ==> WellFormed(actions[i]) && !actions[i].BeginRead?
    requires s.consumer.Reading? || s.consumer.Delivered?
    ensures var t := Final(s, actions);
      && s.accepted <= t.accepted
      && (t.consumer.Reading? || t.consumer.Delivered?)
      && t.consumer.limit == s.consumer.limit && t.consumer.window == s.consumer.window
    decreases |actions|
  {
    if actions != [] {
      StepKeepsCoherent(s, actions[0]);
      StepKeepsItsLimit(s, actions[0]);
      ReadKeepsItsLimit(Step(s, actions[0]), actions[1..]);
    }
  }

  lemma EarlierWindow(earlier: seq<Sample>, later: seq<Sample>, limit: nat, window: seq<real>, c: Consumer)
    requires earlier <= later && limit <= |earlier| && c.Delivered?
    requires IsWindowOf(later, limit, window, c.fft, c.referenceFft)
    ensures IsWindowOf(earlier, limit, window, c.fft, c.referenceFft)
  {
  }

  /** Latest-window semantics, relative to the moment of the load: whatever happens between the
      load of the write index and the delivery, the delivered values are the last `|window|` samples
      that had been accepted at the load. */
  lemma DeliveryIsFixedByTheLoad(s: State, window: seq<real>, after: seq<Action>)
    requires Coherent(s) && !s.consumer.Reading? && window != []
    requires forall i :: 0 <= i < |after| ==> WellFormed(after[i]) && !after[i].BeginRead?
    ensures Coherent(Step(s, BeginRead(window)))
    ensures var t := Final(Step(s, BeginRead(window)), after);
      t.consumer.Delivered? ==>
        && |window| <= |s.accepted| - s.readIndex
        && |t.consumer.fft| == |window|
        && IsWindowOf(s.accepted, |s.accepted|, window, t.consumer.fft, t.consumer.referenceFft)
  {
    BeginReadKeepsCoherent(s, window);
    var begun := Step(s, BeginRead(window));
    if begun.consumer.Reading? {
      ReadKeepsItsLimit(begun, after);
      var t := Final(begun, after);
      if t.consumer.Delivered? {
        EarlierWindow(s.accepted, t.accepted, |s.accepted|, window, t.consumer);
      }
    } else {
      MissedStaysMissed(begun, after);
    }
  }

  lemma {:induction false} MissedStaysMissed(s: State, actions: seq<Action>)
    requires Coherent(s) && s.consumer.Missed?
    requires forall i :: 0 <= i < |actions| ==> WellFormed(actions[i]) && !actions[i].BeginRead?
    ensures Final(s, actions).consumer.Missed?
    decreases |actions|
  {
    if actions != [] {
      StepKeepsCoherent(s, actions[0]);
      MissedStaysMissed(Step(s, actions[0]), actions[1..]);
    }
  }
}
