/**
  What the command queue does to the values: executing only the commands that survive coalescing, in
  the order in which the worker executes them, leaves the same values as executing every accepted
  command in the order of acceptance.
 */
module CoalescedEdits {
  import opened Common
  import opened GroupEdits
  import Q = CommandQueue

  /** The entries of the accepted commands, by their ids. */
  type Edits<A> = seq<seq<Entry<A>>>

  predicate SameClass(accepted: seq<Q.Command>, i: nat, j: nat)
    requires i < |accepted| && j < |accepted|
  {
    i == j || Q.SameKey(accepted[i], accepted[j])
  }

  function Touched<A>(entries: seq<Entry<A>>): set<A> {
    set i, p | 0 <= i < |entries| && p in entries[i].peers :: p
  }

  /** Commands of one key have one separate shape, and commands of different keys, or of none, reach
      different values. */
  ghost predicate Keyed<A>(accepted: seq<Q.Command>, values: Values<A>, edits: Edits<A>) {
    && |edits| == |accepted|
    && (forall i :: 0 <= i < |edits| ==> AllKnown(values, edits[i]) && Separate(edits[i]))
    && (forall i, j {:trigger SameClass(accepted, i, j)} :: 0 <= i < |edits| && 0 <= j < |edits| ==>
          if SameClass(accepted, i, j) then SameShape(edits[i], edits[j]) else Touched(edits[i]) !! Touched(edits[j]))
  }

  predicate AreIds(ids: seq<nat>, count: nat) {
    forall i :: 0 <= i < |ids| ==> ids[i] < count
  }

  ghost predicate AllKnownAll<A>(values: Values<A>, edits: Edits<A>) {
    forall i :: 0 <= i < |edits| ==> AllKnown(values, edits[i])
  }

  /** Executing the commands `ids`, one after the other. */
  ghost function ExecuteIds<A>(values: Values<A>, ranges: Ranges<A>, edits: Edits<A>, ids: seq<nat>): (after: Values<A>)
    requires AllKnownAll(values, edits) && AreIds(ids, |edits|)
    ensures after.Keys == values.Keys
    decreases |ids|
  {
    if ids == [] then values
    else
      var n := |ids| - 1;
      var before := ExecuteIds(values, ranges, edits, ids[..n]);
      StagedKeysAreKnown(before, ranges, edits[ids[n]]);
      Execute(before, ranges, edits[ids[n]])
  }

  /** The value that the last of the commands `ids` which reaches `p`, and which the start values
      accept, gives to it. */
  ghost function Lasting<A>(values: Values<A>, ranges: Ranges<A>, edits: Edits<A>, ids: seq<nat>, p: A): Value
    requires AllKnownAll(values, edits) && AreIds(ids, |edits|) && p in values
    decreases |ids|
  {
    if ids == [] then values[p]
    else
      var n := |ids| - 1;
      if p in Touched(edits[ids[n]]) && Accepted(values, ranges, edits[ids[n]]) then After(values, edits[ids[n]], p)
      else Lasting(values, ranges, edits, ids[..n], p)
  }

  // One command depends only on the values it reaches

  lemma LocalTarget<A>(values: Values<A>, others: Values<A>, e: Entry<A>, p: A)
    requires Known(values, e) && Known(others, e) && p in e.peers
    requires forall q :: q in e.peers ==> values[q] == others[q]
    ensures Target(values, e, p) == Target(others, e, p)
  {
  }

  lemma LocalAdmissible<A>(values: Values<A>, others: Values<A>, ranges: Ranges<A>, e: Entry<A>)
    requires Known(values, e) && Known(others, e)
    requires forall q :: q in e.peers ==> values[q] == others[q]
    ensures Admissible(values, ranges, e) <==> Admissible(others, ranges, e)
  {
    assert forall delta :: FitAll(values, ranges, e.peers, delta) <==> FitAll(others, ranges, e.peers, delta);
  }

  /** Two sets of values that agree on what a separate command reaches accept it alike and are given the
      same values there. */
  lemma LocalCommand<A>(values: Values<A>, others: Values<A>, ranges: Ranges<A>, entries: seq<Entry<A>>, p: A)
    requires AllKnown(values, entries) && AllKnown(others, entries) && Separate(entries) && p in Touched(entries)
    requires forall q :: q in Touched(entries) ==> q in values && q in others && values[q] == others[q]
    ensures Accepted(values, ranges, entries) <==> Accepted(others, ranges, entries)
    ensures After(values, entries, p) == After(others, entries, p)
  {
    ExecutedEntries(values, ranges, entries);
    ExecutedEntries(others, ranges, entries);
    forall i | 0 <= i < |entries|
      ensures Admissible(values, ranges, entries[i]) <==> Admissible(others, ranges, entries[i])
    {
      assert forall q :: q in entries[i].peers ==> q in Touched(entries);
      LocalAdmissible(values, others, ranges, entries[i]);
    }
    var i :| 0 <= i < |entries| && p in entries[i].peers;
    assert forall q :: q in entries[i].peers ==> q in Touched(entries);
    LocalTarget(values, others, entries[i], p);
    AfterIsTarget(values, entries, i, p);
    AfterIsTarget(others, entries, i, p);
  }

  lemma ClassesTouchAlike<A>(c: seq<Entry<A>>, d: seq<Entry<A>>)
    requires SameShape(c, d)
    ensures Touched(c) == Touched(d)
  {
  }

  /** What the commands `ids` leave where command `c` reaches: the values given by one command `m` of its
      class, or the start values. */
  lemma {:induction false} LastOfClass<A>(accepted: seq<Q.Command>, values: Values<A>, ranges: Ranges<A>,
                                          edits: Edits<A>, ids: seq<nat>, c: nat) returns (m: int)
    requires Keyed(accepted, values, edits) && AreIds(ids, |edits|) && c < |edits|
    ensures -1 <= m < |edits|
    ensures m >= 0 ==> SameClass(accepted, m, c) && Accepted(values, ranges, edits[m])
    ensures forall p :: p in Touched(edits[c]) && p in values ==>
      Lasting(values, ranges, edits, ids, p) == if m < 0 then values[p] else After(values, edits[m], p)
    decreases |ids|
  {
    if ids == [] {
      m := -1;
    } else {
      var l := ids[|ids| - 1];
      var similar := SameClass(accepted, l, c);
      if similar {
        ClassesTouchAlike(edits[l], edits[c]);
      }
      if similar && Accepted(values, ranges, edits[l]) {
        m := l;
      } else {
        m := LastOfClass(accepted, values, ranges, edits, ids[..|ids| - 1], c);
      }
    }
  }

  /** Executed after other commands of its class, a command is accepted and gives what it would have been
      and given at the start. */
  lemma LateCommand<A>(values: Values<A>, before: Values<A>, ranges: Ranges<A>, earlier: seq<Entry<A>>,
                       entries: seq<Entry<A>>, p: A)
    requires AllKnown(values, entries) && AllKnown(values, earlier) && SameShape(earlier, entries) && Separate(earlier)
    requires Accepted(values, ranges, earlier) && before.Keys == values.Keys && p in Touched(entries)
    requires forall q :: q in Touched(entries) ==> q in values && before[q] == After(values, earlier, q)
    ensures Accepted(before, ranges, entries) <==> Accepted(values, ranges, entries)
    ensures Accepted(values, ranges, entries) ==> After(before, entries, p) == After(values, entries, p)
  {
    ExecutedEntries(values, ranges, earlier);
    var middle := Execute(values, ranges, earlier);
    CommandTelescopes(values, ranges, earlier, entries);
    LocalCommand(before, middle, ranges, entries, p);
    ExecutedEntries(middle, ranges, entries);
    ExecutedEntries(values, ranges, entries);
  }

  lemma Untouched<A>(values: Values<A>, entries: seq<Entry<A>>, p: A)
    requires AllKnown(values, entries) && p in values && p !in Touched(entries)
    ensures After(values, entries, p) == values[p]
  {
    NotReached(values, entries, p);
  }

  /** One more command, at one value. */
  lemma NextCommand<A>(accepted: seq<Q.Command>, values: Values<A>, before: Values<A>, ranges: Ranges<A>,
                       edits: Edits<A>, ids: seq<nat>, l: nat, p: A)
    requires Keyed(accepted, values, edits) && AreIds(ids, |edits|) && l < |edits| && p in values
    requires before.Keys == values.Keys
    requires forall q :: q in values ==> before[q] == Lasting(values, ranges, edits, ids, q)
    ensures Execute(before, ranges, edits[l]).Keys == values.Keys
    ensures Execute(before, ranges, edits[l])[p] ==
      if p in Touched(edits[l]) && Accepted(values, ranges, edits[l]) then After(values, edits[l], p) else before[p]
  {
    var entries := edits[l];
    ExecutedEntries(before, ranges, entries);
    if p in Touched(entries) {
      assert forall q :: q in Touched(entries) ==> q in values;
      var m := LastOfClass(accepted, values, ranges, edits, ids, l);
      if m < 0 {
        LocalCommand(before, values, ranges, entries, p);
      } else {
        LateCommand(values, before, ranges, edits[m], entries, p);
      }
    } else {
      Untouched(before, entries, p);
    }
  }

  /** Every value ends as the last command that reaches it, and that the start values accept, would
      leave it. */
  lemma {:induction false} LastingValues<A>(accepted: seq<Q.Command>, values: Values<A>, ranges: Ranges<A>,
                                            edits: Edits<A>, ids: seq<nat>, p: A)
    requires Keyed(accepted, values, edits) && AreIds(ids, |edits|) && p in values
    ensures ExecuteIds(values, ranges, edits, ids)[p] == Lasting(values, ranges, edits, ids, p)
    decreases |ids|
  {
    if ids != [] {
      var n := |ids| - 1;
      var before := ExecuteIds(values, ranges, edits, ids[..n]);
      forall q | q in values ensures before[q] == Lasting(values, ranges, edits, ids[..n], q) {
        LastingValues(accepted, values, ranges, edits, ids[..n], q);
      }
      NextCommand(accepted, values, before, ranges, edits, ids[..n], ids[n], p);
    }
  }

  lemma {:induction false} LastingIs<A>(values: Values<A>, ranges: Ranges<A>, edits: Edits<A>, ids: seq<nat>, p: A,
                                        i: nat)
    requires AllKnownAll(values, edits) && AreIds(ids, |edits|) && p in values && i < |ids|
    requires p in Touched(edits[ids[i]]) && Accepted(values, ranges, edits[ids[i]])
    requires forall j :: i < j < |ids| ==> p !in Touched(edits[ids[j]])
    ensures Lasting(values, ranges, edits, ids, p) == After(values, edits[ids[i]], p)
    decreases |ids|
  {
    if i < |ids| - 1 {
      LastingIs(values, ranges, edits, ids[..|ids| - 1], p, i);
    }
  }

  lemma {:induction false} LastingIsStart<A>(values: Values<A>, ranges: Ranges<A>, edits: Edits<A>, ids: seq<nat>, p: A)
    requires AllKnownAll(values, edits) && AreIds(ids, |edits|) && p in values
    requires forall j :: 0 <= j < |ids| ==> p !in Touched(edits[ids[j]])
    ensures Lasting(values, ranges, edits, ids, p) == values[p]
    decreases |ids|
  {
    if ids != [] {
      LastingIsStart(values, ranges, edits, ids[..|ids| - 1], p);
    }
  }

  /** The executed commands, in the order of execution. */
  function Lasts(executions: seq<Q.Execution>): seq<nat> {
    seq(|executions|, i requires 0 <= i < |executions| => executions[i].last)
  }

  function AllIds(count: nat): (ids: seq<nat>)
    ensures |ids| == count && forall i :: 0 <= i < count ==> ids[i] == i
  {
    seq(count, i requires 0 <= i < count => i)
  }

  /** The latest command of the class of `c`. */
  lemma {:induction false} Latest(accepted: seq<Q.Command>, c: nat) returns (m: nat)
    requires c < |accepted|
    ensures c <= m < |accepted| && SameClass(accepted, c, m) && Q.IsLatest(accepted, m)
    decreases |accepted| - c
  {
    m := c;
    if j :| c < j < |accepted| && Q.SameKey(accepted[c], accepted[j]) {
      m := Latest(accepted, j);
    }
  }

  /** Where the latest command of a key decides. */
  lemma LatestDecides<A>(accepted: seq<Q.Command>, values: Values<A>, ranges: Ranges<A>, edits: Edits<A>, ids: seq<nat>,
                         i: nat, p: A)
    requires Keyed(accepted, values, edits) && AreIds(ids, |edits|) && p in values && i < |ids|
    requires p in Touched(edits[ids[i]]) && Accepted(values, ranges, edits[ids[i]])
    requires forall j :: i < j < |ids| ==> !SameClass(accepted, ids[i], ids[j])
    ensures ExecuteIds(values, ranges, edits, ids)[p] == After(values, edits[ids[i]], p)
  {
    LastingValues(accepted, values, ranges, edits, ids, p);
    LastingIs(values, ranges, edits, ids, p, i);
  }

  /** Once the worker has caught up with a run in which nothing was cancelled: if commands of one key have
      one separate shape, commands of different keys reach different values, and the start values accept
      the latest command of every key, then executing what the worker executed leaves the same values as
      executing all accepted commands. */
  lemma CoalescedRunsMeanTheSame<A>(actions: seq<Q.Action>, values: Values<A>, ranges: Ranges<A>, edits: Edits<A>)
    requires var t := Q.Final(Q.Initial(), actions); Q.Idle(t) && t.cancelled == {} && Keyed(t.accepted, values, edits)
    requires var t := Q.Final(Q.Initial(), actions);
      forall id: nat :: id < |edits| && Q.IsLatest(t.accepted, id) ==> Accepted(values, ranges, edits[id])
    ensures var t := Q.Final(Q.Initial(), actions);
      && AreIds(Lasts(t.executions), |edits|)
      && ExecuteIds(values, ranges, edits, Lasts(t.executions)) ==
           ExecuteIds(values, ranges, edits, AllIds(|t.accepted|))
  {
    var t := Q.Final(Q.Initial(), actions);
    Q.ExecutionsAreAccepted(actions);
    forall p | p in values
      ensures ExecuteIds(values, ranges, edits, Lasts(t.executions))[p] ==
        ExecuteIds(values, ranges, edits, AllIds(|t.accepted|))[p]
    {
      SameValue(actions, values, ranges, edits, p);
    }
  }

  lemma TouchedValue<A>(actions: seq<Q.Action>, values: Values<A>, ranges: Ranges<A>, edits: Edits<A>, c: nat, p: A)
    requires var t := Q.Final(Q.Initial(), actions); Q.Idle(t) && t.cancelled == {} && Keyed(t.accepted, values, edits)
    requires var t := Q.Final(Q.Initial(), actions);
      forall id: nat :: id < |edits| && Q.IsLatest(t.accepted, id) ==> Accepted(values, ranges, edits[id])
    requires p in values && AreIds(Lasts(Q.Final(Q.Initial(), actions).executions), |edits|)
    requires c < |edits| && p in Touched(edits[c])
    ensures var t := Q.Final(Q.Initial(), actions);
      ExecuteIds(values, ranges, edits, Lasts(t.executions))[p] ==
        ExecuteIds(values, ranges, edits, AllIds(|t.accepted|))[p]
  {
    var t := Q.Final(Q.Initial(), actions);
    var m := Latest(t.accepted, c);
    ClassesTouchAlike(edits[c], edits[m]);
    var i := Q.LatestIsExecutedLast(actions, m);
    LatestDecides(t.accepted, values, ranges, edits, AllIds(|t.accepted|), m, p);
    LatestDecides(t.accepted, values, ranges, edits, Lasts(t.executions), i, p);
  }

  lemma SameValue<A>(actions: seq<Q.Action>, values: Values<A>, ranges: Ranges<A>, edits: Edits<A>, p: A)
    requires var t := Q.Final(Q.Initial(), actions); Q.Idle(t) && t.cancelled == {} && Keyed(t.accepted, values, edits)
    requires var t := Q.Final(Q.Initial(), actions);
      forall id: nat :: id < |edits| && Q.IsLatest(t.accepted, id) ==> Accepted(values, ranges, edits[id])
    requires p in values && AreIds(Lasts(Q.Final(Q.Initial(), actions).executions), |edits|)
    ensures var t := Q.Final(Q.Initial(), actions);
      ExecuteIds(values, ranges, edits, Lasts(t.executions))[p] ==
        ExecuteIds(values, ranges, edits, AllIds(|t.accepted|))[p]
  {
    var t := Q.Final(Q.Initial(), actions);
    var executed, all := Lasts(t.executions), AllIds(|t.accepted|);
    if c :| 0 <= c < |edits| && p in Touched(edits[c]) {
      TouchedValue(actions, values, ranges, edits, c, p);
    } else {
      LastingValues(t.accepted, values, ranges, edits, executed, p);
      LastingValues(t.accepted, values, ranges, edits, all, p);
      LastingIsStart(values, ranges, edits, executed, p);
      LastingIsStart(values, ranges, edits, all, p);
    }
  }

  // Why keys have to separate shapes and values

  function CopyOf<A>(x: A, number: real): seq<Entry<A>> { [Entry(x, [x], Float(number), CopyValue)] }

  lemma NextId<A>(values: Values<A>, ranges: Ranges<A>, edits: Edits<A>, ids: seq<nat>, l: nat)
    requires AllKnownAll(values, edits) && AreIds(ids, |edits|) && l < |edits|
    ensures var before := ExecuteIds(values, ranges, edits, ids);
      ExecuteIds(values, ranges, edits, ids + [l]) == Execute(before, ranges, edits[l])
  {
    assert (ids + [l])[..|ids|] == ids;
  }

  /** The key of a command does not tell the values it writes apart. If two commands of one key write
      different values, the worker may execute the second alone, and the first edit is lost. */
  lemma DifferentShapesLoseAnEdit<A>(ranges: Ranges<A>, source: nat, k: Q.Key, x: A, y: A)
    returns (actions: seq<Q.Action>, values: Values<A>, edits: Edits<A>)
    requires x != y
    ensures var t := Q.Final(Q.Initial(), actions);
      && Q.Idle(t) && t.cancelled == {} && |t.accepted| == |edits| == 2 && Q.SameKey(t.accepted[0], t.accepted[1])
      && AllKnownAll(values, edits) && AreIds(Lasts(t.executions), |edits|) && x in values
      && ExecuteIds(values, ranges, edits, Lasts(t.executions))[x] == values[x]
      && ExecuteIds(values, ranges, edits, AllIds(2))[x] != values[x]
  {
    actions := Q.PairRun(source, k);
    values, edits := map[x := Float(0.0), y := Float(0.0)], [CopyOf(x, 1.0), CopyOf(y, 1.0)];
    CopyIsTaken(values, ranges, y, Float(1.0));
    CopyIsTaken(values, ranges, x, Float(1.0));
    CopyIsTaken(values[x := Float(1.0)], ranges, y, Float(1.0));
    assert Lasts(Q.Final(Q.Initial(), actions).executions) == [] + [1] && AllIds(2) == [] + [0] + [1];
    NextId(values, ranges, edits, [], 1);
    NextId(values, ranges, edits, [], 0);
    NextId(values, ranges, edits, [] + [0], 1);
  }

  ghost function Holds<A>(x: A, number: real): Values<A> { map[x := Float(number)] }

  /** Three copies to one value. */
  ghost function ThreeCopies<A>(x: A): (edits: Edits<A>)
    ensures AllKnownAll(Holds(x, 0.0), edits)
  {
    [CopyOf(x, 1.0), CopyOf(x, 2.0), CopyOf(x, 3.0)]
  }

  lemma CopyOne<A>(ranges: Ranges<A>, x: A, from: real, to: real)
    ensures AllKnown(Holds(x, from), CopyOf(x, to)) && Accepted(Holds(x, from), ranges, CopyOf(x, to))
    ensures Execute(Holds(x, from), ranges, CopyOf(x, to)) == Holds(x, to)
  {
    CopyIsTaken(Holds(x, from), ranges, x, Float(to));
    assert Holds(x, from)[x := Float(to)] == Holds(x, to);
  }

  lemma LastCopyStays<A>(ranges: Ranges<A>, x: A, ids: seq<nat>, l: nat, more: seq<nat>, before: real)
    requires AreIds(ids, 3) && l < 3 && more == ids + [l]
    requires ExecuteIds(Holds(x, 0.0), ranges, ThreeCopies(x), ids) == Holds(x, before)
    ensures ExecuteIds(Holds(x, 0.0), ranges, ThreeCopies(x), more) == Holds(x, l as real + 1.0)
  {
    NextId(Holds(x, 0.0), ranges, ThreeCopies(x), ids, l);
    CopyOne(ranges, x, before, l as real + 1.0);
  }

  lemma InOrder<A>(ranges: Ranges<A>, x: A)
    ensures ExecuteIds(Holds(x, 0.0), ranges, ThreeCopies(x), [0, 1, 2]) == Holds(x, 3.0)
  {
    LastCopyStays(ranges, x, [], 0, [0], 0.0);
    LastCopyStays(ranges, x, [0], 1, [0, 1], 1.0);
    LastCopyStays(ranges, x, [0, 1], 2, [0, 1, 2], 2.0);
  }

  lemma Overtaken<A>(ranges: Ranges<A>, x: A)
    ensures ExecuteIds(Holds(x, 0.0), ranges, ThreeCopies(x), [2, 1]) == Holds(x, 2.0)
  {
    LastCopyStays(ranges, x, [], 2, [2], 0.0);
    LastCopyStays(ranges, x, [2], 1, [2, 1], 3.0);
  }

  /** A superseding command takes the place of the first of its key. If a command of another key in
      between writes the same value, the worker executes it last, although it was not received last. */
  lemma SharedValuesAreReordered<A>(ranges: Ranges<A>, source: nat, k: Q.Key, other: Q.Key, x: A)
    returns (actions: seq<Q.Action>)
    requires k != other
    ensures var t, values, edits := Q.Final(Q.Initial(), actions), Holds(x, 0.0), ThreeCopies(x);
      && Q.Idle(t) && t.cancelled == {} && |t.accepted| == 3 && AreIds(Lasts(t.executions), |edits|)
      && ExecuteIds(values, ranges, edits, Lasts(t.executions)) == Holds(x, 2.0)
      && ExecuteIds(values, ranges, edits, AllIds(3)) == Holds(x, 3.0)
  {
    actions := Q.OvertakingRun(source, k, other);
    assert Lasts(Q.Final(Q.Initial(), actions).executions) == [2, 1] && AllIds(3) == [0, 1, 2];
    InOrder(ranges, x);
    Overtaken(ranges, x);
  }
}
