/**
  What a grouped write means. A write command holds entries; each entry names a source value, the
  peers the edit reaches, and whether the value is copied or applied as a delta. Preparing stages
  the changed peers; a command is committed as a whole or not at all. The module is independent of
  how values are stored: `A` is any identity of a state value.
 */
module GroupEdits {
  import opened Common

  datatype Mode = CopyValue | ApplyDelta

  datatype Entry<A(==)> = Entry(source: A, peers: seq<A>, value: Value, mode: Mode)

  /** Physical ranges never change; a value that is not listed has none. */
  type Ranges<A> = map<A, FloatRange>

  type Values<A> = map<A, Value>

  predicate Known<A>(values: Values<A>, e: Entry<A>) {
    e.source in e.peers && forall p :: p in e.peers ==> p in values
  }

  /** Shifting `p` by `delta` keeps it inside its own physical range. */
  predicate Fits<A>(values: Values<A>, ranges: Ranges<A>, p: A, delta: real) {
    && p in ranges && p in values && values[p].Float?
    && ranges[p].minimum <= values[p].number + delta <= ranges[p].maximum
  }

  predicate FitAll<A>(values: Values<A>, ranges: Ranges<A>, peers: seq<A>, delta: real) {
    forall p :: p in peers ==> Fits(values, ranges, p, delta)
  }

  // Staging.

  /** Staging one value: refused when it is already staged, skipped when nothing changes. */
  function Stage<A>(values: Values<A>, staged: Values<A>, key: A, value: Value): Option<Values<A>>
    requires key in values
  {
    if key in staged then None
    else if values[key] == value then Some(staged)
    else Some(staged[key := value])
  }

  function Delta<A>(values: Values<A>, e: Entry<A>): real
    requires e.source in values
  {
    if e.value.Float? && values[e.source].Float? then e.value.number - values[e.source].number else 0.0
  }

  /** The value an accepted entry gives to peer `p`. */
  function Target<A>(values: Values<A>, e: Entry<A>, p: A): Value
    requires e.source in values && p in values
  {
    if p == e.source || e.mode.CopyValue? || !values[p].Float? then e.value
    else Float(values[p].number + Delta(values, e))
  }

  /** The guard of an entry: a copy is never checked against a range; a delta needs floats and
      every peer to stay inside its own range. */
  ghost predicate Admissible<A>(values: Values<A>, ranges: Ranges<A>, e: Entry<A>)
    requires e.source in values
  {
    && e.peers != []
    && (e.mode.ApplyDelta? ==>
          && e.value.Float?
          && FitAll(values, ranges, e.peers, Delta(values, e)))
  }

  function StagePeers<A>(values: Values<A>, staged: Values<A>, e: Entry<A>, peers: seq<A>): Option<Values<A>>
    requires e.source in values && forall p :: p in peers ==> p in values
    decreases |peers|
  {
    if peers == [] then Some(staged)
    else
      match Stage(values, staged, peers[0], Target(values, e, peers[0]))
      case None => None
      case Some(next) => StagePeers(values, next, e, peers[1..])
  }

  ghost function PrepareEntry<A>(values: Values<A>, ranges: Ranges<A>, staged: Values<A>,
                                 e: Entry<A>): Option<Values<A>>
    requires Known(values, e)
  {
    if Admissible(values, ranges, e) then StagePeers(values, staged, e, e.peers) else None
  }

  ghost function Prepare<A>(values: Values<A>, ranges: Ranges<A>, staged: Values<A>,
                            entries: seq<Entry<A>>): Option<Values<A>>
    requires forall i :: 0 <= i < |entries| ==> Known(values, entries[i])
    decreases |entries|
  {
    if entries == [] then Some(staged)
    else
      match PrepareEntry(values, ranges, staged, entries[0])
      case None => None
      case Some(next) => Prepare(values, ranges, next, entries[1..])
  }

  lemma {:induction false} PrepareAppend<A>(values: Values<A>, ranges: Ranges<A>, staged: Values<A>,
                                            first: seq<Entry<A>>, second: seq<Entry<A>>)
    requires forall i :: 0 <= i < |first| ==> Known(values, first[i])
    requires forall i :: 0 <= i < |second| ==> Known(values, second[i])
    ensures forall i :: 0 <= i < |first + second| ==> Known(values, (first + second)[i])
    ensures Prepare(values, ranges, staged, first + second) ==
      match Prepare(values, ranges, staged, first)
      case None => None
      case Some(next) => Prepare(values, ranges, next, second)
    decreases |first|
  {
    if first == [] {
      assert first + second == second;
    } else {
      assert (first + second)[0] == first[0] && (first + second)[1..] == first[1..] + second;
      var next := PrepareEntry(values, ranges, staged, first[0]);
      if next.Some? {
        PrepareAppend(values, ranges, next.value, first[1..], second);
      }
    }
  }

  ghost predicate Accepted<A>(values: Values<A>, ranges: Ranges<A>, entries: seq<Entry<A>>)
    requires forall i :: 0 <= i < |entries| ==> Known(values, entries[i])
  {
    Prepare(values, ranges, map[], entries).Some?
  }

  /** Executing a command: everything staged is committed, or nothing is changed. */
  ghost function Execute<A>(values: Values<A>, ranges: Ranges<A>, entries: seq<Entry<A>>): (after: Values<A>)
    requires forall i :: 0 <= i < |entries| ==> Known(values, entries[i])
  {
    match Prepare(values, ranges, map[], entries)
    case None => values
    case Some(staged) => values + staged
  }

  // The range guard as the observer computes it.

  datatype Bound = NegativeInfinity | Finite(number: real) | PositiveInfinity

  function AtLeast(bound: Bound, number: real): Bound {
    match bound
    case NegativeInfinity => Finite(number)
    case Finite(b) => if b < number then Finite(number) else bound
    case PositiveInfinity => bound
  }

  function AtMost(bound: Bound, number: real): Bound {
    match bound
    case NegativeInfinity => bound
    case Finite(b) => if number < b then Finite(number) else bound
    case PositiveInfinity => Finite(number)
  }

  predicate Within(minimum: Bound, maximum: Bound, delta: real) {
    && (minimum.NegativeInfinity? || (minimum.Finite? && minimum.number <= delta))
    && (maximum.PositiveInfinity? || (maximum.Finite? && delta <= maximum.number))
  }

  /** The loop that intersects the remaining ranges of all peers. `None` is the exception raised for
      a peer without a range; the answer for no peers is an empty range. */
  method CalculateEffectiveDeltaRange<A>(values: Values<A>, ranges: Ranges<A>, peers: seq<A>)
    returns (r: Option<FloatRange>)
    requires forall p :: p in peers ==> p in values && values[p].Float?
    ensures r.None? <==> exists p :: p in peers && p !in ranges
    ensures r.Some? && peers == [] ==> forall delta: real :: !r.value.Contains(delta)
    ensures r.Some? && peers != [] ==>
      forall delta: real :: r.value.Contains(delta) <==> FitAll(values, ranges, peers, delta)
  {
    var minimum, maximum := NegativeInfinity, PositiveInfinity;
    for index := 0 to |peers|
      invariant forall i :: 0 <= i < index ==> peers[i] in ranges
      invariant index == 0 ==> minimum.NegativeInfinity? && maximum.PositiveInfinity?
      invariant index > 0 ==> minimum.Finite? && maximum.Finite?
      invariant forall delta: real :: Within(minimum, maximum, delta) <==> FitAll(values, ranges, peers[..index], delta)
    {
      if peers[index] !in ranges {
        return None;
      }
      var range, current := ranges[peers[index]], values[peers[index]].number;
      var least := AtLeast(minimum, range.minimum - current);
      var most := AtMost(maximum, range.maximum - current);
      assert peers[..index + 1] == peers[..index] + [peers[index]];
      forall delta: real
        ensures Within(least, most, delta) <==> FitAll(values, ranges, peers[..index + 1], delta)
      {
        assert FitAll(values, ranges, peers[..index + 1], delta) <==>
          FitAll(values, ranges, peers[..index], delta) && Fits(values, ranges, peers[index], delta);
        assert Within(minimum, maximum, delta) <==> FitAll(values, ranges, peers[..index], delta);
      }
      minimum, maximum := least, most;
    }
    if |peers| == 0 {
      return Some(FloatRange(1.0, 0.0));
    }
    r := Some(FloatRange(minimum.number, maximum.number));
    assert peers[..|peers|] == peers;
    assert forall delta: real :: r.value.Contains(delta) <==> Within(minimum, maximum, delta);
  }

  // Closed form of a command whose entries reach disjoint peers.

  predicate SameShape<A>(c: seq<Entry<A>>, d: seq<Entry<A>>) {
    && |c| == |d|
    && forall i :: 0 <= i < |c| ==> c[i].source == d[i].source && c[i].peers == d[i].peers && c[i].mode == d[i].mode
  }

  /** No value is reached twice by one command. */
  predicate Separate<A>(entries: seq<Entry<A>>) {
    && (forall i :: 0 <= i < |entries| ==> Distinct(entries[i].peers))
    && (forall i, j, p :: 0 <= i < j < |entries| && p in entries[i].peers ==> p !in entries[j].peers)
  }

  predicate AllKnown<A>(values: Values<A>, entries: seq<Entry<A>>) {
    forall i :: 0 <= i < |entries| ==> Known(values, entries[i])
  }

  ghost predicate AllAdmissible<A>(values: Values<A>, ranges: Ranges<A>, entries: seq<Entry<A>>)
    requires AllKnown(values, entries)
  {
    forall i :: 0 <= i < |entries| ==> Admissible(values, ranges, entries[i])
  }

  /** The value of `p` after a command with separate entries is accepted. */
  ghost function After<A>(values: Values<A>, entries: seq<Entry<A>>, p: A): Value
    requires AllKnown(values, entries) && p in values
    decreases |entries|
  {
    if entries == [] then values[p]
    else if p in entries[0].peers then Target(values, entries[0], p)
    else After(values, entries[1..], p)
  }

  lemma {:induction false} StagedPeers<A>(values: Values<A>, staged: Values<A>, e: Entry<A>, peers: seq<A>)
    requires e.source in values && (forall p :: p in peers ==> p in values)
    requires Distinct(peers) && staged.Keys <= values.Keys
    requires forall p :: p in peers ==> p !in staged
    ensures var r := StagePeers(values, staged, e, peers);
      && r.Some? && r.value.Keys <= values.Keys && staged.Keys <= r.value.Keys
      && (forall p :: p in r.value ==> p in staged || p in peers)
      && (forall p :: p in values ==>
            (values + r.value)[p] == if p in peers then Target(values, e, p) else (values + staged)[p])
    decreases |peers|
  {
    if peers != [] {
      var next := Stage(values, staged, peers[0], Target(values, e, peers[0])).value;
      assert forall p :: p in peers[1..] ==> p in peers && p != peers[0];
      StagedPeers(values, next, e, peers[1..]);
    }
  }

  lemma {:induction false} PreparedEntries<A>(values: Values<A>, ranges: Ranges<A>, staged: Values<A>,
                                              entries: seq<Entry<A>>)
    requires AllKnown(values, entries) && Separate(entries) && staged.Keys <= values.Keys
    requires forall i, p :: 0 <= i < |entries| && p in entries[i].peers ==> p !in staged
    ensures var r := Prepare(values, ranges, staged, entries);
      && (r.Some? <==> AllAdmissible(values, ranges, entries))
      && (r.Some? ==>
            && r.value.Keys <= values.Keys
            && forall p :: p in values ==>
                 (values + r.value)[p] == if p in staged then staged[p] else After(values, entries, p))
    decreases |entries|
  {
    if entries != [] && Admissible(values, ranges, entries[0]) {
      var e, rest := entries[0], entries[1..];
      StagedPeers(values, staged, e, e.peers);
      var next := StagePeers(values, staged, e, e.peers).value;
      forall i, p | 0 <= i < |rest| && p in rest[i].peers ensures p !in next {
        assert rest[i] == entries[i + 1];
      }
      PreparedEntries(values, ranges, next, rest);
      assert AllAdmissible(values, ranges, entries) <==> AllAdmissible(values, ranges, rest) by {
        assert forall i :: 0 < i < |entries| ==> entries[i] == rest[i - 1];
      }
      forall p | p in values && p !in staged && p in next
        ensures next[p] == After(values, entries, p)
      {
        assert p in e.peers;
        assert (values + next)[p] == next[p];
      }
      forall p | p in values && p !in next ensures After(values, rest, p) == After(values, entries, p)
      {
        if p in e.peers {
          assert (values + next)[p] == values[p];
          NotReached(values, rest, p);
        }
      }
    }
  }

  lemma {:induction false} NotReached<A>(values: Values<A>, entries: seq<Entry<A>>, p: A)
    requires AllKnown(values, entries) && p in values
    requires forall i :: 0 <= i < |entries| ==> p !in entries[i].peers
    ensures After(values, entries, p) == values[p]
    decreases |entries|
  {
    if entries != [] {
      NotReached(values, entries[1..], p);
    }
  }

  lemma ExecutedEntries<A>(values: Values<A>, ranges: Ranges<A>, entries: seq<Entry<A>>)
    requires AllKnown(values, entries) && Separate(entries)
    ensures Accepted(values, ranges, entries) <==> AllAdmissible(values, ranges, entries)
    ensures var after := Execute(values, ranges, entries);
      && after.Keys == values.Keys
      && forall p :: p in values ==>
           after[p] == if AllAdmissible(values, ranges, entries) then After(values, entries, p) else values[p]
  {
    PreparedEntries(values, ranges, map[], entries);
  }

  /** A copy to a single value is always accepted, whatever the range of the value. */
  lemma CopyIsTaken<A>(values: Values<A>, ranges: Ranges<A>, k: A, x: Value)
    requires k in values
    ensures AllKnown(values, [Entry(k, [k], x, CopyValue)])
    ensures Accepted(values, ranges, [Entry(k, [k], x, CopyValue)])
    ensures Execute(values, ranges, [Entry(k, [k], x, CopyValue)]) == values[k := x]
  {
    var e := Entry(k, [k], x, CopyValue);
    ExecutedEntries(values, ranges, [e]);
    assert [e][0] == e && [e][1..] == [];
    assert forall p :: p in values ==> After(values, [e], p) == if p == k then x else values[p];
  }

  /** A grouped delta is accepted exactly when the shift keeps every peer in its own physical
      range, in which case all peers end inside their ranges with all pairwise differences unchanged
      and nothing else changes; otherwise nothing changes at all. */
  lemma DeltaMovesTheGroupTogether<A>(values: Values<A>, ranges: Ranges<A>, e: Entry<A>)
    requires Known(values, e) && Distinct(e.peers) && e.mode.ApplyDelta? && e.value.Float?
    requires forall p :: p in e.peers ==> values[p].Float?
    ensures var after := Execute(values, ranges, [e]); var delta := Delta(values, e);
      if forall p :: p in e.peers ==> p in ranges && ranges[p].Contains(values[p].number + delta)
      then
        && Accepted(values, ranges, [e])
        && after[e.source] == e.value
        && (forall p :: p in e.peers ==> after[p].Float? && ranges[p].Contains(after[p].number))
        && (forall p, q :: p in e.peers && q in e.peers ==>
              after[p].number - after[q].number == values[p].number - values[q].number)
        && (forall p :: p in values && p !in e.peers ==> after[p] == values[p])
      else !Accepted(values, ranges, [e]) && after == values
  {
    ExecutedEntries(values, ranges, [e]);
    var after := Execute(values, ranges, [e]);
    assert [e][0] == e && [e][1..] == [];
    assert AllAdmissible(values, ranges, [e]) <==> Admissible(values, ranges, e);
    assert forall p :: p in values ==>
      After(values, [e], p) == if p in e.peers then Target(values, e, p) else values[p];
    assert Admissible(values, ranges, e) <==>
      forall p :: p in e.peers ==> p in ranges && ranges[p].Contains(values[p].number + Delta(values, e));
    if !Admissible(values, ranges, e) {
      assert after == values;
    }
  }

  // Coalescing: a burst of commands of one shape against only the last of them.

  /** After an accepted command of the same shape, an entry is admissible exactly when it was before,
      and it gives every peer the same value: a copy wins outright, deltas telescope. */
  lemma EntryTelescopes<A>(values: Values<A>, ranges: Ranges<A>, after: Values<A>, first: Entry<A>, last: Entry<A>)
    requires Known(values, first) && Known(after, first)
    requires first.source == last.source && first.peers == last.peers && first.mode == last.mode
    requires Admissible(values, ranges, first)
    requires forall p :: p in first.peers ==> after[p] == Target(values, first, p)
    ensures Admissible(after, ranges, last) <==> Admissible(values, ranges, last)
    ensures Admissible(values, ranges, last) ==>
      forall p :: p in last.peers ==> Target(after, last, p) == Target(values, last, p)
  {
  }

  lemma CommandTelescopes<A>(values: Values<A>, ranges: Ranges<A>, first: seq<Entry<A>>, last: seq<Entry<A>>)
    requires AllKnown(values, first) && AllKnown(values, last) && SameShape(first, last) && Separate(first)
    ensures var middle := Execute(values, ranges, first);
      && middle.Keys == values.Keys
      && (Accepted(middle, ranges, last) <==> Accepted(values, ranges, last))
      && (Accepted(values, ranges, last) ==> Execute(middle, ranges, last) == Execute(values, ranges, last))
  {
    ExecutedEntries(values, ranges, first);
    ExecutedEntries(values, ranges, last);
    var middle := Execute(values, ranges, first);
    if AllAdmissible(values, ranges, first) {
      ExecutedEntries(middle, ranges, last);
      forall i | 0 <= i < |first|
        ensures Admissible(middle, ranges, last[i]) <==> Admissible(values, ranges, last[i])
        ensures Admissible(values, ranges, last[i]) ==>
          forall p :: p in last[i].peers ==> Target(middle, last[i], p) == Target(values, last[i], p)
      {
        forall p | p in first[i].peers ensures middle[p] == Target(values, first[i], p) {
          AfterIsTarget(values, first, i, p);
        }
        EntryTelescopes(values, ranges, middle, first[i], last[i]);
      }
      if AllAdmissible(values, ranges, last) {
        forall p | p in values ensures After(middle, last, p) == After(values, last, p) {
          SameAfter(values, middle, first, last, p);
        }
      }
    } else {
      assert middle == values;
    }
  }

  lemma {:induction false} AfterIsTarget<A>(values: Values<A>, entries: seq<Entry<A>>, i: nat, p: A)
    requires AllKnown(values, entries) && Separate(entries) && i < |entries| && p in entries[i].peers
    ensures After(values, entries, p) == Target(values, entries[i], p)
    decreases |entries|
  {
    if i > 0 {
      assert p !in entries[0].peers;
      AfterIsTarget(values, entries[1..], i - 1, p);
    }
  }

  lemma SameAfter<A>(values: Values<A>, middle: Values<A>, first: seq<Entry<A>>, last: seq<Entry<A>>, p: A)
    requires AllKnown(values, first) && AllKnown(values, last) && SameShape(first, last) && Separate(first)
    requires middle.Keys == values.Keys && p in values
    requires middle[p] == After(values, first, p)
    requires forall i :: 0 <= i < |last| && p in last[i].peers ==>
      Target(middle, last[i], p) == Target(values, last[i], p)
    ensures After(middle, last, p) == After(values, last, p)
  {
    if i :| 0 <= i < |last| && p in last[i].peers {
      AfterIsTarget(values, last, i, p);
      AfterIsTarget(middle, last, i, p);
    } else {
      NotReached(values, first, p);
      NotReached(values, last, p);
      NotReached(middle, last, p);
    }
  }

  /** Commands of one gesture: the same separate shape over and over. */
  predicate Burst<A>(values: Values<A>, commands: seq<seq<Entry<A>>>) {
    && (forall i :: 0 <= i < |commands| ==> AllKnown(values, commands[i]) && Separate(commands[i]))
    && (forall i, j {:trigger SameShape(commands[i], commands[j])} :: 0 <= i < j < |commands| ==>
         SameShape(commands[i], commands[j]))
  }

  ghost function ExecuteAll<A>(values: Values<A>, ranges: Ranges<A>, commands: seq<seq<Entry<A>>>): (after: Values<A>)
    requires Burst(values, commands)
    ensures after.Keys == values.Keys
    decreases |commands|
  {
    if commands == [] then values
    else
      var n := |commands| - 1;
      var before := ExecuteAll(values, ranges, commands[..n]);
      ExecutedEntries(before, ranges, commands[n]);
      Execute(before, ranges, commands[n])
  }

  /** The last command that would be accepted at the start; -1 if there is none. */
  ghost function LastAccepted<A>(values: Values<A>, ranges: Ranges<A>, commands: seq<seq<Entry<A>>>): (i: int)
    requires Burst(values, commands)
    ensures -1 <= i < |commands|
    decreases |commands|
  {
    if commands == [] then -1
    else if Accepted(values, ranges, commands[|commands| - 1]) then |commands| - 1
    else LastAccepted(values, ranges, commands[..|commands| - 1])
  }

  lemma {:induction false} LastAcceptedIsLast<A>(values: Values<A>, ranges: Ranges<A>, commands: seq<seq<Entry<A>>>,
                                                 j: nat)
    requires Burst(values, commands) && j < |commands| && Accepted(values, ranges, commands[j])
    ensures var i := LastAccepted(values, ranges, commands);
      j <= i && Accepted(values, ranges, commands[i])
    decreases |commands|
  {
    if !Accepted(values, ranges, commands[|commands| - 1]) {
      LastAcceptedIsLast(values, ranges, commands[..|commands| - 1], j);
    }
  }

  lemma {:induction false} LastAcceptedIsAccepted<A>(values: Values<A>, ranges: Ranges<A>, commands: seq<seq<Entry<A>>>)
    requires Burst(values, commands)
    ensures var i := LastAccepted(values, ranges, commands); i >= 0 ==> Accepted(values, ranges, commands[i])
    decreases |commands|
  {
    if commands != [] && !Accepted(values, ranges, commands[|commands| - 1]) {
      LastAcceptedIsAccepted(values, ranges, commands[..|commands| - 1]);
    }
  }

  /** Executing a whole burst is executing only the last command that is acceptable at its start. */
  lemma {:induction false} BurstIsItsLastAcceptedCommand<A>(values: Values<A>, ranges: Ranges<A>,
                                                            commands: seq<seq<Entry<A>>>)
    requires Burst(values, commands)
    ensures var i := LastAccepted(values, ranges, commands);
      ExecuteAll(values, ranges, commands) == if i < 0 then values else Execute(values, ranges, commands[i])
    decreases |commands|
  {
    if commands != [] {
      var n := |commands| - 1;
      BurstIsItsLastAcceptedCommand(values, ranges, commands[..n]);
      var i := LastAccepted(values, ranges, commands[..n]);
      if i >= 0 {
        assert SameShape(commands[i], commands[n]);
        LastDecides(values, ranges, commands[i], commands[n], ExecuteAll(values, ranges, commands[..n]));
      }
    }
  }

  lemma LastDecides<A>(values: Values<A>, ranges: Ranges<A>, first: seq<Entry<A>>, last: seq<Entry<A>>,
                       middle: Values<A>)
    requires AllKnown(values, first) && AllKnown(values, last) && SameShape(first, last) && Separate(first)
    requires middle == Execute(values, ranges, first)
    ensures AllKnown(middle, last)
    ensures Execute(middle, ranges, last) ==
      Execute(values, ranges, if Accepted(values, ranges, last) then last else first)
  {
    CommandTelescopes(values, ranges, first, last);
  }

  /** The command gives every value it reaches the value it has already. */
  predicate ChangesNothing<A>(values: Values<A>, entries: seq<Entry<A>>)
    requires AllKnown(values, entries)
  {
    forall i, p :: 0 <= i < |entries| && p in entries[i].peers ==> Target(values, entries[i], p) == values[p]
  }

  lemma ExecutesToTheSame<A>(values: Values<A>, ranges: Ranges<A>, entries: seq<Entry<A>>)
    requires AllKnown(values, entries) && Separate(entries) && Accepted(values, ranges, entries)
    ensures Execute(values, ranges, entries) == values <==> ChangesNothing(values, entries)
  {
    ExecutedEntries(values, ranges, entries);
    var after := Execute(values, ranges, entries);
    forall i, p | 0 <= i < |entries| && p in entries[i].peers ensures after[p] == Target(values, entries[i], p) {
      AfterIsTarget(values, entries, i, p);
    }
    if ChangesNothing(values, entries) {
      forall p | p in values ensures after[p] == values[p] {
        if i :| 0 <= i < |entries| && p in entries[i].peers {
        } else {
          NotReached(values, entries, p);
        }
      }
    }
  }

  /** The last command that would be accepted at the start, if there is one, would change nothing. */
  ghost predicate LastAcceptedIsIdle<A>(values: Values<A>, ranges: Ranges<A>, commands: seq<seq<Entry<A>>>)
    requires Burst(values, commands)
  {
    var i := LastAccepted(values, ranges, commands);
    i >= 0 ==> ChangesNothing(values, commands[i])
  }

  lemma IdleBursts<A>(values: Values<A>, ranges: Ranges<A>, commands: seq<seq<Entry<A>>>)
    requires Burst(values, commands)
    ensures ExecuteAll(values, ranges, commands) == values <==> LastAcceptedIsIdle(values, ranges, commands)
  {
    BurstIsItsLastAcceptedCommand(values, ranges, commands);
    LastAcceptedIsAccepted(values, ranges, commands);
    var i := LastAccepted(values, ranges, commands);
    if i >= 0 {
      ExecutesToTheSame(values, ranges, commands[i]);
    }
  }

  /** Dropping all but the last command of a burst keeps its meaning exactly when the values at its
      start accept the last command, or the last earlier command that they accept, if there is one,
      would not change them. `ExecutedEntries` says which commands the start values accept. */
  lemma CoalescingIsExact<A>(values: Values<A>, ranges: Ranges<A>, commands: seq<seq<Entry<A>>>)
    requires Burst(values, commands) && commands != []
    ensures var n := |commands| - 1;
      ExecuteAll(values, ranges, commands) == Execute(values, ranges, commands[n]) <==>
        Accepted(values, ranges, commands[n]) || LastAcceptedIsIdle(values, ranges, commands[..n])
  {
    BurstIsItsLastAcceptedCommand(values, ranges, commands);
    BurstIsItsLastAcceptedCommand(values, ranges, commands[..|commands| - 1]);
    IdleBursts(values, ranges, commands[..|commands| - 1]);
  }

  /** One value at the lower end of its range, shifted to the upper end and then beyond it: executing
      both commands leaves it at the upper end, executing only the second changes nothing. */
  lemma RefusedLastDeltaBreaksCoalescing<A>(ranges: Ranges<A>, k: A)
    requires k in ranges && ranges[k].minimum < ranges[k].maximum
    ensures var values: Values<A> := map[k := Float(ranges[k].minimum)];
      var first := [Entry(k, [k], Float(ranges[k].maximum), ApplyDelta)];
      var last := [Entry(k, [k], Float(ranges[k].maximum + 1.0), ApplyDelta)];
      && Burst(values, [first, last])
      && ExecuteAll(values, ranges, [first, last])[k] == Float(ranges[k].maximum)
      && Execute(values, ranges, last) == values
  {
    var values: Values<A> := map[k := Float(ranges[k].minimum)];
    var first := [Entry(k, [k], Float(ranges[k].maximum), ApplyDelta)];
    var last := [Entry(k, [k], Float(ranges[k].maximum + 1.0), ApplyDelta)];
    ExecutedEntries(values, ranges, first);
    ExecutedEntries(values, ranges, last);
    assert AllAdmissible(values, ranges, first) && Admissible(values, ranges, first[0]);
    assert !Admissible(values, ranges, last[0]);
    BurstIsItsLastAcceptedCommand(values, ranges, [first, last]);
    assert [first, last][..1] == [first];
  }

  /** Copies are never refused, so a burst of copies always coalesces. */
  lemma CopiesAlwaysCoalesce<A>(values: Values<A>, ranges: Ranges<A>, commands: seq<seq<Entry<A>>>)
    requires Burst(values, commands) && commands != []
    requires forall e :: e in commands[|commands| - 1] ==> e.mode.CopyValue?
    ensures ExecuteAll(values, ranges, commands) == Execute(values, ranges, commands[|commands| - 1])
  {
    ExecutedEntries(values, ranges, commands[|commands| - 1]);
    CoalescingIsExact(values, ranges, commands);
  }

  // Separation is needed: two copies that reach a common value do not coalesce.

  lemma {:induction false} StagedTwice<A>(values: Values<A>, staged: Values<A>, e: Entry<A>, peers: seq<A>, p: A)
    requires e.source in values && (forall q :: q in peers ==> q in values)
    requires p in peers && p in staged
    ensures StagePeers(values, staged, e, peers).None?
    decreases |peers|
  {
    var next := Stage(values, staged, peers[0], Target(values, e, peers[0]));
    if next.Some? {
      assert p in peers[1..];
      StagedTwice(values, next.value, e, peers[1..], p);
    }
  }

  ghost function Copies<A>(left: seq<A>, right: seq<A>, a: real, b: real): seq<Entry<A>>
    requires left != [] && right != []
  {
    [Entry(left[0], left, Float(a), CopyValue), Entry(right[0], right, Float(b), CopyValue)]
  }

  lemma PreparedPair<A>(values: Values<A>, ranges: Ranges<A>, e: Entry<A>, f: Entry<A>)
    requires Known(values, e) && Known(values, f)
    ensures Prepare(values, ranges, map[], [e, f]) ==
      match PrepareEntry(values, ranges, map[], e)
      case None => None
      case Some(next) => PrepareEntry(values, ranges, next, f)
  {
    var next := PrepareEntry(values, ranges, map[], e);
    assert [e, f][1..] == [f] && [f][1..] == [];
    if next.Some? {
      assert Prepare(values, ranges, next.value, [f]) == PrepareEntry(values, ranges, next.value, f);
    }
  }

  lemma TwoCopies<A>(values: Values<A>, ranges: Ranges<A>, left: seq<A>, right: seq<A>, a: real, b: real)
    requires left != [] && right != [] && Distinct(left) && Distinct(right)
    requires forall p :: p in left || p in right ==> p in values
    ensures var c := Copies(left, right, a, b);
      if exists p :: p in left && p in right && values[p] != Float(a)
      then !Accepted(values, ranges, c)
      else Accepted(values, ranges, c) && forall p :: p in right ==> Execute(values, ranges, c)[p] == Float(b)
  {
    var c := Copies(left, right, a, b);
    PreparedPair(values, ranges, c[0], c[1]);
    StagedPeers(values, map[], c[0], left);
    var staged := StagePeers(values, map[], c[0], left).value;
    assert PrepareEntry(values, ranges, map[], c[0]) == Some(staged);
    assert forall p :: p in values ==> (values + staged)[p] == if p in left then Float(a) else values[p];
    if p :| p in left && p in right && values[p] != Float(a) {
      assert p in staged;
      StagedTwice(values, staged, c[1], right, p);
    } else {
      forall p | p in right ensures p !in staged {
        if p in staged {
          StagedMeansChanged(values, c[0], left, p);
        }
      }
      StagedPeers(values, staged, c[1], right);
    }
  }

  lemma {:induction false} StagedChange<A>(values: Values<A>, staged: Values<A>, e: Entry<A>, peers: seq<A>, p: A)
    requires e.source in values && (forall q :: q in peers ==> q in values) && p in values && p !in staged
    requires StagePeers(values, staged, e, peers).Some? && p in StagePeers(values, staged, e, peers).value
    ensures p in peers && values[p] != Target(values, e, p)
    decreases |peers|
  {
    if peers != [] {
      var next := Stage(values, staged, peers[0], Target(values, e, peers[0])).value;
      if p !in next {
        StagedChange(values, next, e, peers[1..], p);
      }
    }
  }

  lemma StagedMeansChanged<A>(values: Values<A>, e: Entry<A>, peers: seq<A>, p: A)
    requires e.source in values && (forall q :: q in peers ==> q in values) && p in values
    requires StagePeers(values, map[], e, peers).Some? && p in StagePeers(values, map[], e, peers).value
    ensures p in peers && values[p] != Target(values, e, p)
  {
    StagedChange(values, map[], e, peers, p);
  }

  lemma SecondIsRefused<A>(values: Values<A>, ranges: Ranges<A>, left: seq<A>, right: seq<A>, shared: A)
    requires Distinct(left) && Distinct(right) && shared in left && shared in right
    requires forall p :: p in left || p in right ==> p in values && values[p] == Float(0.0)
    ensures !Accepted(values, ranges, Copies(left, right, 1.0, 2.0))
    ensures Execute(values, ranges, Copies(left, right, 1.0, 2.0)) == values
  {
    TwoCopies(values, ranges, left, right, 1.0, 2.0);
  }

  lemma SecondIsAccepted<A>(values: Values<A>, ranges: Ranges<A>, left: seq<A>, right: seq<A>, shared: A)
    requires Distinct(left) && Distinct(right) && shared in left && shared in right
    requires forall p :: p in left || p in right ==> p in values && values[p] == Float(0.0)
    ensures Accepted(values, ranges, Copies(left, right, 0.0, 1.0))
    ensures var middle := Execute(values, ranges, Copies(left, right, 0.0, 1.0));
      && AllKnown(middle, Copies(left, right, 1.0, 2.0)) && middle.Keys == values.Keys
      && Accepted(middle, ranges, Copies(left, right, 1.0, 2.0))
      && Execute(middle, ranges, Copies(left, right, 1.0, 2.0))[shared] == Float(2.0)
  {
    TwoCopies(values, ranges, left, right, 0.0, 1.0);
    StagedKeysAreKnown(values, ranges, Copies(left, right, 0.0, 1.0));
    TwoCopies(Execute(values, ranges, Copies(left, right, 0.0, 1.0)), ranges, left, right, 1.0, 2.0);
  }

  /** For every pair of copies that share a value there are values and two commands for which
      executing both ends differently from executing only the second, although the second is
      accepted when both are executed. */
  lemma SharedPeersBreakCoalescing<A>(ranges: Ranges<A>, left: seq<A>, right: seq<A>, shared: A)
    returns (values: Values<A>, first: seq<Entry<A>>, last: seq<Entry<A>>)
    requires Distinct(left) && Distinct(right) && shared in left && shared in right
    ensures AllKnown(values, first) && AllKnown(values, last) && SameShape(first, last)
    ensures |first| == 2 && first[0].peers == left && first[1].peers == right
    ensures var middle := Execute(values, ranges, first);
      && AllKnown(middle, last)
      && Accepted(values, ranges, first) && Accepted(middle, ranges, last)
      && !Accepted(values, ranges, last)
      && Execute(middle, ranges, last) != Execute(values, ranges, last)
  {
    var reached := (set p | p in left) + (set p | p in right);
    values := map p | p in reached :: Float(0.0);
    first := Copies(left, right, 0.0, 1.0);
    last := Copies(left, right, 1.0, 2.0);
    SecondIsAccepted(values, ranges, left, right, shared);
    SecondIsRefused(values, ranges, left, right, shared);
  }

  lemma {:induction false} PreparedKeys<A>(values: Values<A>, ranges: Ranges<A>, staged: Values<A>,
                                           entries: seq<Entry<A>>)
    requires AllKnown(values, entries) && staged.Keys <= values.Keys
    requires Prepare(values, ranges, staged, entries).Some?
    ensures Prepare(values, ranges, staged, entries).value.Keys <= values.Keys
    decreases |entries|
  {
    if entries != [] {
      PeerKeys(values, staged, entries[0], entries[0].peers);
      PreparedKeys(values, ranges, PrepareEntry(values, ranges, staged, entries[0]).value, entries[1..]);
    }
  }

  lemma {:induction false} PeerKeys<A>(values: Values<A>, staged: Values<A>, e: Entry<A>, peers: seq<A>)
    requires e.source in values && (forall q :: q in peers ==> q in values) && staged.Keys <= values.Keys
    requires StagePeers(values, staged, e, peers).Some?
    ensures StagePeers(values, staged, e, peers).value.Keys <= values.Keys
    decreases |peers|
  {
    if peers != [] {
      PeerKeys(values, Stage(values, staged, peers[0], Target(values, e, peers[0])).value, e, peers[1..]);
    }
  }

  lemma StagedKeysAreKnown<A>(values: Values<A>, ranges: Ranges<A>, entries: seq<Entry<A>>)
    requires AllKnown(values, entries)
    ensures Execute(values, ranges, entries).Keys == values.Keys
  {
    if Prepare(values, ranges, map[], entries).Some? {
      PreparedKeys(values, ranges, map[], entries);
    }
  }

  // Commands of two parts that may meet: what the first has staged the second must not reach.

  /** Only changes are staged, and nothing that is staged is lost. */
  ghost predicate Extends<A>(values: Values<A>, staged: Values<A>, next: Values<A>) {
    && staged.Keys <= next.Keys <= values.Keys
    && forall p :: p in next ==> if p in staged then next[p] == staged[p] else next[p] != values[p]
  }

  lemma {:induction false} StagingExtends<A>(values: Values<A>, staged: Values<A>, e: Entry<A>, peers: seq<A>)
    requires e.source in values && (forall p :: p in peers ==> p in values) && staged.Keys <= values.Keys
    ensures var r := StagePeers(values, staged, e, peers); r.Some? ==> Extends(values, staged, r.value)
    decreases |peers|
  {
    if peers != [] {
      var next := Stage(values, staged, peers[0], Target(values, e, peers[0]));
      if next.Some? {
        StagingExtends(values, next.value, e, peers[1..]);
      }
    }
  }

  lemma {:induction false} PreparingExtends<A>(values: Values<A>, ranges: Ranges<A>, staged: Values<A>,
                                               entries: seq<Entry<A>>)
    requires AllKnown(values, entries) && staged.Keys <= values.Keys
    ensures var r := Prepare(values, ranges, staged, entries); r.Some? ==> Extends(values, staged, r.value)
    decreases |entries|
  {
    if entries != [] && PrepareEntry(values, ranges, staged, entries[0]).Some? {
      StagingExtends(values, staged, entries[0], entries[0].peers);
      PreparingExtends(values, ranges, PrepareEntry(values, ranges, staged, entries[0]).value, entries[1..]);
    }
  }

  lemma {:induction false} StagedByPeers<A>(values: Values<A>, staged: Values<A>, e: Entry<A>, peers: seq<A>, p: A)
    requires e.source in values && (forall q :: q in peers ==> q in values) && staged.Keys <= values.Keys
    requires var r := StagePeers(values, staged, e, peers); r.Some? && p in r.value && p !in staged
    ensures p in peers && StagePeers(values, staged, e, peers).value[p] == Target(values, e, p)
    decreases |peers|
  {
    var next := Stage(values, staged, peers[0], Target(values, e, peers[0])).value;
    StagingExtends(values, next, e, peers[1..]);
    if p !in next {
      StagedByPeers(values, next, e, peers[1..], p);
    }
  }

  /** Whatever a command changes, one of its entries gives. */
  lemma {:induction false} StagedBy<A>(values: Values<A>, ranges: Ranges<A>, staged: Values<A>, entries: seq<Entry<A>>,
                                       p: A)
    returns (i: nat)
    requires AllKnown(values, entries) && staged.Keys <= values.Keys
    requires var r := Prepare(values, ranges, staged, entries); r.Some? && p in r.value && p !in staged
    ensures i < |entries| && p in entries[i].peers
    ensures Prepare(values, ranges, staged, entries).value[p] == Target(values, entries[i], p)
    decreases |entries|
  {
    var next := PrepareEntry(values, ranges, staged, entries[0]).value;
    StagingExtends(values, staged, entries[0], entries[0].peers);
    if p in next {
      PreparingExtends(values, ranges, next, entries[1..]);
      StagedByPeers(values, staged, entries[0], entries[0].peers, p);
      i := 0;
    } else {
      i := StagedBy(values, ranges, next, entries[1..], p);
      i := i + 1;
    }
  }

  /** An entry that reaches a value which is staged already is refused, and the command with it. */
  lemma {:induction false} StagedBeforeIsRefused<A>(values: Values<A>, ranges: Ranges<A>, staged: Values<A>,
                                                    entries: seq<Entry<A>>, i: nat, p: A)
    requires AllKnown(values, entries) && staged.Keys <= values.Keys
    requires p in staged && i < |entries| && p in entries[i].peers
    ensures Prepare(values, ranges, staged, entries).None?
    decreases |entries|
  {
    if PrepareEntry(values, ranges, staged, entries[0]).Some? {
      if i == 0 {
        StagedTwice(values, staged, entries[0], entries[0].peers, p);
      } else {
        StagingExtends(values, staged, entries[0], entries[0].peers);
        StagedBeforeIsRefused(values, ranges, PrepareEntry(values, ranges, staged, entries[0]).value,
                              entries[1..], i - 1, p);
      }
    }
  }

  /** What the first part changes, the second does not reach. */
  ghost predicate Meets<A>(values: Values<A>, first: seq<Entry<A>>, second: seq<Entry<A>>)
    requires AllKnown(values, first) && AllKnown(values, second)
  {
    exists i, p :: 0 <= i < |second| && p in second[i].peers && After(values, first, p) != values[p]
  }

  lemma AllKnownAppend<A>(values: Values<A>, first: seq<Entry<A>>, second: seq<Entry<A>>)
    requires AllKnown(values, first) && AllKnown(values, second)
    ensures AllKnown(values, first + second)
  {
  }

  lemma FirstPart<A>(values: Values<A>, ranges: Ranges<A>, first: seq<Entry<A>>)
    requires AllKnown(values, first) && Separate(first)
    ensures var r := Prepare(values, ranges, map[], first);
      && (r.Some? <==> AllAdmissible(values, ranges, first))
      && (r.Some? ==>
            && r.value.Keys <= values.Keys
            && forall p :: p in values ==>
                 && (p in r.value <==> After(values, first, p) != values[p])
                 && (p in r.value ==> r.value[p] == After(values, first, p)))
  {
    PreparedEntries(values, ranges, map[], first);
    PreparingExtends(values, ranges, map[], first);
    var r := Prepare(values, ranges, map[], first);
    if r.Some? {
      forall p | p in values
        ensures p in r.value <==> After(values, first, p) != values[p]
        ensures p in r.value ==> r.value[p] == After(values, first, p)
      {
        assert (values + r.value)[p] == After(values, first, p);
      }
    }
  }

  /** A command of two separate parts is accepted exactly when both pass their guards and the second does
      not reach what the first changes; every value is then left by the part that changes it. */
  lemma TwoParts<A>(values: Values<A>, ranges: Ranges<A>, first: seq<Entry<A>>, second: seq<Entry<A>>)
    requires AllKnown(values, first) && AllKnown(values, second) && Separate(first) && Separate(second)
    ensures AllKnown(values, first + second)
    ensures Accepted(values, ranges, first + second) <==>
      && AllAdmissible(values, ranges, first) && AllAdmissible(values, ranges, second)
      && !Meets(values, first, second)
    ensures Accepted(values, ranges, first + second) ==>
      var after := Execute(values, ranges, first + second);
      && after.Keys == values.Keys
      && forall p :: p in values ==>
           after[p] == if After(values, first, p) != values[p] then After(values, first, p)
                       else After(values, second, p)
  {
    AllKnownAppend(values, first, second);
    PrepareAppend(values, ranges, map[], first, second);
    FirstPart(values, ranges, first);
    if AllAdmissible(values, ranges, first) {
      var staged := Prepare(values, ranges, map[], first).value;
      if i, p :| 0 <= i < |second| && p in second[i].peers && After(values, first, p) != values[p] {
        StagedBeforeIsRefused(values, ranges, staged, second, i, p);
      } else {
        PreparedEntries(values, ranges, staged, second);
      }
    }
  }

  lemma MeetingPartsAreRefused<A>(values: Values<A>, ranges: Ranges<A>, first: seq<Entry<A>>, second: seq<Entry<A>>,
                                  e: Entry<A>, p: A)
    requires AllKnown(values, first) && AllKnown(values, second) && Separate(first) && Separate(second)
    requires e in second && p in e.peers && p in values && After(values, first, p) != values[p]
    ensures AllKnown(values, first + second)
    ensures !Accepted(values, ranges, first + second) && Execute(values, ranges, first + second) == values
  {
    var i :| 0 <= i < |second| && second[i] == e;
    assert Meets(values, first, second);
    TwoParts(values, ranges, first, second);
  }
}
