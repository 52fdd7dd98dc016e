/**
  The telemetry sequence lock between the audio callback (single writer) and the Managed
  reader. Both sides are cut into single-word accesses in program order; an action whose side is
  not ready for it leaves the state unchanged, so every sequence of actions is a run.
 */
module TelemetrySequence {

  const WORDS := 10
  const MODULUS := 0x1_0000_0000

  type Word = bv32
  type Payload = seq<Word>

  datatype Writer = Idle | Writing(payload: Payload, written: nat)

  /** `start` and `finish` are the unbounded increment counts at the two sequence loads; the
      reader itself only compares them modulo 2^32. */
  datatype Reader =
    | Waiting
    | Reading(start: nat, read: Payload)
    | Rejected
    | Accepted(start: nat, finish: nat, read: Payload)

  /** `increments` counts every fetch_add; the shared word is its residue. `published` lists
      the completed publications. */
  datatype State = State(
    increments: nat,
    words: Payload,
    writer: Writer,
    reader: Reader,
    published: seq<Payload>)

  datatype Action =
    | BeginPublish(payload: Payload)
    | WriteWord
    | EndPublish
    | LoadSequence
    | ReadWord
    | CheckSequence

  function Sequence(increments: nat): (sequence: nat) { increments % MODULUS }

  function Initial(): State {
    State(0, seq(WORDS, _ => 0), Idle, Waiting, [])
  }

  function Step(s: State, a: Action): State {
    match a
    case BeginPublish(payload) =>
      if s.writer.Idle? && |payload| == WORDS
      then s.(increments := s.increments + 1, writer := Writing(payload, 0))
      else s
    case WriteWord =>
      if s.writer.Writing? && s.writer.written < WORDS && |s.words| == |s.writer.payload| == WORDS then
        var w := s.writer;
        s.(words := s.words[w.written := w.payload[w.written]],
           writer := w.(written := w.written + 1))
      else s
    case EndPublish =>
      if s.writer.Writing? && s.writer.written == WORDS
      then s.(increments := s.increments + 1, writer := Idle, published := s.published + [s.writer.payload])
      else s
    case LoadSequence =>
      if s.reader.Reading? then s
      else
        var sequence := Sequence(s.increments);
        if sequence == 0 || sequence % 2 == 1 then s.(reader := Rejected)
        else s.(reader := Reading(s.increments, []))
    case ReadWord =>
      if s.reader.Reading? && |s.reader.read| < WORDS == |s.words|
      then s.(reader := Reading(s.reader.start, s.reader.read + [s.words[|s.reader.read|]]))
      else s
    case CheckSequence =>
      if s.reader.Reading? && |s.reader.read| == WORDS then
        if Sequence(s.increments) != Sequence(s.reader.start) then s.(reader := Rejected)
        else s.(reader := Accepted(s.reader.start, s.increments, s.reader.read))
      else s
  }

  ghost function Final(s: State, actions: seq<Action>): State
    decreases |actions|
  {
    if actions == [] then s else Final(Step(s, actions[0]), actions[1..])
  }

  ghost predicate Coherent(s: State) {
    && |s.words| == WORDS
    && (forall k :: 0 <= k < |s.published| ==> |s.published[k]| == WORDS)
    && s.increments == 2 * |s.published| + (if s.writer.Writing? then 1 else 0)
    && (s.writer.Idle? && s.published != [] ==> s.words == s.published[|s.published| - 1])
    && (s.writer.Writing? ==>
          && |s.writer.payload| == WORDS && s.writer.written <= WORDS
          && s.words[..s.writer.written] == s.writer.payload[..s.writer.written])
    && (s.reader.Reading? ==>
          && Stable(s.reader.start) && s.reader.start <= s.increments && |s.reader.read| <= WORDS
          && (s.reader.start == s.increments ==> s.reader.read == s.words[..|s.reader.read|]))
    && (s.reader.Accepted? ==>
          && Stable(s.reader.start) && s.reader.start <= s.reader.finish <= s.increments
          && |s.reader.read| == WORDS
          && Sequence(s.reader.start) == Sequence(s.reader.finish)
          && (s.reader.start == s.reader.finish ==>
                && s.reader.start / 2 - 1 < |s.published|
                && s.reader.read == s.published[s.reader.start / 2 - 1]))
  }

  /** A count whose residue the reader accepts as the start of a read. */
  predicate Stable(increments: nat) {
    increments > 0 && increments % 2 == 0 && Sequence(increments) != 0
  }

  lemma EvenResidue(increments: nat)
    ensures Sequence(increments) % 2 == increments % 2
    ensures Sequence(increments) != 0 && Sequence(increments) % 2 == 0 <==> Stable(increments)
  {
  }

  lemma StepKeepsCoherent(s: State, a: Action)
    requires Coherent(s)
    ensures Coherent(Step(s, a))
  {
  }

  lemma {:induction false} RunKeepsCoherent(s: State, actions: seq<Action>)
    requires Coherent(s)
    ensures Coherent(Final(s, actions))
    decreases |actions|
  {
    if actions != [] {
      StepKeepsCoherent(s, actions[0]);
      RunKeepsCoherent(Step(s, actions[0]), actions[1..]);
    }
  }

  /** In every interleaving, a read during which fewer than 2^31 publications touched the counter
      and that reports success returns all ten words of one completed publication. */
  lemma {:induction false} SuccessfulReadIsOnePublication(actions: seq<Action>)
    ensures var t := Final(Initial(), actions);
      t.reader.Accepted? && t.reader.finish - t.reader.start < MODULUS ==>
        && 0 < t.reader.start / 2 <= |t.published|
        && t.reader.read == t.published[t.reader.start / 2 - 1]
  {
    RunKeepsCoherent(Initial(), actions);
    var t := Final(Initial(), actions);
    if t.reader.Accepted? && t.reader.finish - t.reader.start < MODULUS {
      EqualResidues(t.reader.start, t.reader.finish);
    }
  }

  lemma EqualResidues(a: nat, b: nat)
    requires a <= b < a + MODULUS && Sequence(a) == Sequence(b)
    ensures a == b
  {
  }

  // The bound is exact: 2^31 whole publications inside one read go unnoticed.

  ghost function Repeat(a: Action, count: nat): seq<Action> { seq(count, _ => a) }

  ghost function Publication(payload: Payload): seq<Action> {
    [BeginPublish(payload)] + (Repeat(WriteWord, WORDS) + [EndPublish])
  }

  ghost function Publications(payload: Payload, count: nat): seq<Action> {
    if count == 0 then [] else Publication(payload) + Publications(payload, count - 1)
  }

  lemma {:induction false} FinalConcat(s: State, first: seq<Action>, second: seq<Action>)
    ensures Final(s, first + second) == Final(Final(s, first), second)
    decreases |first|
  {
    if first == [] {
      assert first + second == second;
    } else {
      assert (first + second)[1..] == first[1..] + second;
      FinalConcat(Step(s, first[0]), first[1..], second);
    }
  }

  lemma FinalOne(s: State, a: Action)
    ensures Final(s, [a]) == Step(s, a)
  {
  }

  lemma {:induction false} WritingEverything(s: State, count: nat)
    requires |s.words| == WORDS && s.writer.Writing? && |s.writer.payload| == WORDS
    requires s.writer.written + count == WORDS
    ensures var w := s.writer;
      Final(s, Repeat(WriteWord, count)) ==
      s.(words := s.words[..w.written] + w.payload[w.written..], writer := Writing(w.payload, WORDS))
    decreases count
  {
    var w := s.writer;
    if count == 0 {
      assert s.words[..w.written] + w.payload[w.written..] == s.words;
    } else {
      assert Repeat(WriteWord, count)[1..] == Repeat(WriteWord, count - 1);
      var t := Step(s, WriteWord);
      WritingEverything(t, count - 1);
      assert t.words[..w.written + 1] + w.payload[w.written + 1..]
        == s.words[..w.written] + w.payload[w.written..];
    }
  }

  lemma {:induction false} PublicationRuns(s: State, payload: Payload)
    requires |s.words| == WORDS == |payload| && s.writer.Idle?
    ensures Final(s, Publication(payload)) ==
      s.(increments := s.increments + 2, words := payload, published := s.published + [payload])
  {
    var begun := Step(s, BeginPublish(payload));
    WritingEverything(begun, WORDS);
    var filled := Final(begun, Repeat(WriteWord, WORDS));
    assert filled.words == payload;
    FinalConcat(begun, Repeat(WriteWord, WORDS), [EndPublish]);
    FinalOne(filled, EndPublish);
    FinalOne(s, BeginPublish(payload));
    FinalConcat(s, [BeginPublish(payload)], Repeat(WriteWord, WORDS) + [EndPublish]);
  }

  lemma {:induction false} PublicationsRun(s: State, payload: Payload, count: nat)
    requires |s.words| == WORDS == |payload| && s.writer.Idle?
    ensures var t := Final(s, Publications(payload, count));
      && t.writer.Idle? && t.reader == s.reader && |t.words| == WORDS
      && t.increments == s.increments + 2 * count
      && t.words == if count == 0 then s.words else payload
    decreases count
  {
    if count > 0 {
      PublicationRuns(s, payload);
      PublicationsRun(Final(s, Publication(payload)), payload, count - 1);
      FinalConcat(s, Publication(payload), Publications(payload, count - 1));
    }
  }

  lemma {:induction false} ReadingOn(s: State, count: nat)
    requires |s.words| == WORDS && s.reader.Reading? && |s.reader.read| + count <= WORDS
    ensures var n := |s.reader.read|;
      Final(s, Repeat(ReadWord, count)) == s.(reader := Reading(s.reader.start, s.reader.read + s.words[n..n + count]))
    decreases count
  {
    var n := |s.reader.read|;
    if count == 0 {
      assert s.reader.read + s.words[n..n] == s.reader.read;
    } else {
      assert Repeat(ReadWord, count)[1..] == Repeat(ReadWord, count - 1);
      ReadingOn(Step(s, ReadWord), count - 1);
      assert s.reader.read + [s.words[n]] + s.words[n + 1..n + count] == s.reader.read + s.words[n..n + count];
    }
  }

  /** The run that defeats the reader: it reads `before` words, 2^31 publications of `payload`
      pass, and it reads the rest. */
  ghost function WrappingRead(payload: Payload, before: nat): seq<Action>
    requires before <= WORDS
  {
    [LoadSequence] + (Repeat(ReadWord, before) +
      (Publications(payload, MODULUS / 2) + (Repeat(ReadWord, WORDS - before) + [CheckSequence])))
  }

  /** The read up to the publications. */
  lemma ReadingBegins(s: State, before: nat)
    requires |s.words| == WORDS && s.writer.Idle? && !s.reader.Reading? && Stable(s.increments) && before <= WORDS
    ensures Final(s, [LoadSequence] + Repeat(ReadWord, before)) ==
      s.(reader := Reading(s.increments, s.words[..before]))
  {
    EvenResidue(s.increments);
    FinalOne(s, LoadSequence);
    FinalConcat(s, [LoadSequence], Repeat(ReadWord, before));
    ReadingOn(Step(s, LoadSequence), before);
    assert [] + s.words[0..before] == s.words[..before];
  }

  /** The read from the publications on. */
  lemma ReadingEnds(s: State, before: nat)
    requires |s.words| == WORDS && s.reader.Reading? && |s.reader.read| == before <= WORDS
    requires Sequence(s.increments) == Sequence(s.reader.start)
    ensures Final(s, Repeat(ReadWord, WORDS - before) + [CheckSequence]) ==
      s.(reader := Accepted(s.reader.start, s.increments, s.reader.read + s.words[before..]))
  {
    FinalConcat(s, Repeat(ReadWord, WORDS - before), [CheckSequence]);
    ReadingOn(s, WORDS - before);
    assert s.words[before..WORDS] == s.words[before..];
    FinalOne(Final(s, Repeat(ReadWord, WORDS - before)), CheckSequence);
  }

  /** From any coherent state whose sequence the reader accepts, with the writer idle, exactly
      2^31 publications make a mixture of two payloads pass the check. */
  lemma {:induction false} WrappingReadMixesPayloads(s: State, payload: Payload, before: nat)
    requires Coherent(s) && s.writer.Idle? && !s.reader.Reading? && Stable(s.increments)
    requires |payload| == WORDS && before <= WORDS
    ensures var t := Final(s, WrappingRead(payload, before));
      && t.reader.Accepted? && t.reader.finish - t.reader.start == MODULUS
      && t.reader.read == s.words[..before] + payload[before..]
  {
    var begin, publish := [LoadSequence] + Repeat(ReadWord, before), Publications(payload, MODULUS / 2);
    var end := Repeat(ReadWord, WORDS - before) + [CheckSequence];
    ReadingBegins(s, before);
    var half := Final(s, begin);
    PublicationsRun(half, payload, MODULUS / 2);
    var wrapped := Final(half, publish);
    SameResidueAfterWrap(s.increments);
    ReadingEnds(wrapped, before);
    FinalConcat(half, publish, end);
    FinalConcat(s, begin, publish + end);
    assert WrappingRead(payload, before) == begin + (publish + end);
  }

  lemma SameResidueAfterWrap(increments: nat)
    ensures Sequence(increments + MODULUS) == Sequence(increments)
  {
  }
}
