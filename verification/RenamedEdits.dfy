/**
  What a command does does not depend on how values are named: renaming its entries, the values and the
  ranges one to one renames its effect.
 */
module RenamedEdits {
  import opened Common
  import opened GroupEdits

  /** The new names, one for each old one. */
  type Names<A, B> = map<A, B>

  predicate OneToOne<A(==), B(==)>(names: Names<A, B>) {
    forall a, b :: a in names && b in names && names[a] == names[b] ==> a == b
  }

  predicate Named<A, B>(names: Names<A, B>, keys: seq<A>) {
    forall k :: k in keys ==> k in names
  }

  function RenameKeys<A, B>(names: Names<A, B>, keys: seq<A>): (r: seq<B>)
    requires Named(names, keys)
    ensures |r| == |keys| && forall i :: 0 <= i < |keys| ==> r[i] == names[keys[i]]
  {
    seq(|keys|, i requires 0 <= i < |keys| => names[keys[i]])
  }

  predicate NamedEntry<A, B>(names: Names<A, B>, e: Entry<A>) {
    e.source in names && Named(names, e.peers)
  }

  function RenameEntry<A, B>(names: Names<A, B>, e: Entry<A>): Entry<B>
    requires NamedEntry(names, e)
  {
    Entry(names[e.source], RenameKeys(names, e.peers), e.value, e.mode)
  }

  predicate AllNamed<A, B>(names: Names<A, B>, entries: seq<Entry<A>>) {
    forall i :: 0 <= i < |entries| ==> NamedEntry(names, entries[i])
  }

  function RenameEntries<A, B>(names: Names<A, B>, entries: seq<Entry<A>>): (r: seq<Entry<B>>)
    requires AllNamed(names, entries)
    ensures |r| == |entries| && forall i :: 0 <= i < |entries| ==> r[i] == RenameEntry(names, entries[i])
  {
    seq(|entries|, i requires 0 <= i < |entries| => RenameEntry(names, entries[i]))
  }

  lemma RenamePrepend<A, B>(names: Names<A, B>, e: Entry<A>, rest: seq<Entry<A>>)
    requires NamedEntry(names, e) && AllNamed(names, rest)
    ensures AllNamed(names, [e] + rest)
    ensures RenameEntries(names, [e] + rest) == [RenameEntry(names, e)] + RenameEntries(names, rest)
  {
  }

  lemma RenameAppend<A, B>(names: Names<A, B>, first: seq<Entry<A>>, second: seq<Entry<A>>)
    requires AllNamed(names, first) && AllNamed(names, second)
    ensures AllNamed(names, first + second)
    ensures RenameEntries(names, first + second) == RenameEntries(names, first) + RenameEntries(names, second)
  {
  }

  /** Under the new names `others` holds what `values` holds under the old ones. */
  ghost predicate Agrees<A, B, T>(names: Names<A, B>, values: map<A, T>, others: map<B, T>) {
    forall a {:trigger names[a]} :: a in names ==>
      && (a in values <==> names[a] in others)
      && (a in values ==> values[a] == others[names[a]])
  }

  lemma RenamedStage<A, B>(names: Names<A, B>, values: Values<A>, others: Values<B>, staged: Values<A>,
                           renamed: Values<B>, k: A, x: Value)
    requires OneToOne(names) && Agrees(names, values, others) && Agrees(names, staged, renamed)
    requires k in names && k in values
    ensures names[k] in others
    ensures var r, q := Stage(values, staged, k, x), Stage(others, renamed, names[k], x);
      && (r.Some? <==> q.Some?) && (r.Some? ==> Agrees(names, r.value, q.value))
  {
  }

  lemma RenamedTarget<A, B>(names: Names<A, B>, values: Values<A>, others: Values<B>, e: Entry<A>, p: A)
    requires OneToOne(names) && Agrees(names, values, others) && NamedEntry(names, e)
    requires e.source in values && p in values && p in names
    ensures names[e.source] in others && names[p] in others
    ensures Target(values, e, p) == Target(others, RenameEntry(names, e), names[p])
  {
  }

  lemma {:induction false} RenamedPeers<A, B>(names: Names<A, B>, values: Values<A>, others: Values<B>,
                                              staged: Values<A>, renamed: Values<B>, e: Entry<A>, peers: seq<A>)
    requires OneToOne(names) && Agrees(names, values, others) && Agrees(names, staged, renamed)
    requires NamedEntry(names, e) && Named(names, peers) && e.source in values && forall p :: p in peers ==> p in values
    ensures names[e.source] in others && forall p :: p in RenameKeys(names, peers) ==> p in others
    ensures var r := StagePeers(values, staged, e, peers);
      var q := StagePeers(others, renamed, RenameEntry(names, e), RenameKeys(names, peers));
      && (r.Some? <==> q.Some?) && (r.Some? ==> Agrees(names, r.value, q.value))
    decreases |peers|
  {
    var keys := RenameKeys(names, peers);
    forall p | p in keys ensures p in others {
      var i :| 0 <= i < |keys| && keys[i] == p;
      assert peers[i] in peers;
    }
    if peers != [] {
      assert keys[1..] == RenameKeys(names, peers[1..]);
      RenamedTarget(names, values, others, e, peers[0]);
      RenamedStage(names, values, others, staged, renamed, peers[0], Target(values, e, peers[0]));
      var next := Stage(values, staged, peers[0], Target(values, e, peers[0]));
      if next.Some? {
        var more := Stage(others, renamed, keys[0], Target(values, e, peers[0])).value;
        RenamedPeers(names, values, others, next.value, more, e, peers[1..]);
      }
    }
  }

  lemma RenamedGuard<A, B>(names: Names<A, B>, values: Values<A>, others: Values<B>, ranges: Ranges<A>,
                           bounds: Ranges<B>, e: Entry<A>)
    requires Agrees(names, values, others) && Agrees(names, ranges, bounds) && NamedEntry(names, e) && Known(values, e)
    ensures Known(others, RenameEntry(names, e))
    ensures Admissible(values, ranges, e) <==> Admissible(others, bounds, RenameEntry(names, e))
  {
    var f := RenameEntry(names, e);
    forall p | p in e.peers ensures names[p] in f.peers {
      var i :| 0 <= i < |e.peers| && e.peers[i] == p;
      assert f.peers[i] == names[p];
    }
    forall q | q in f.peers ensures exists p :: p in e.peers && names[p] == q {
      var i :| 0 <= i < |f.peers| && f.peers[i] == q;
      assert e.peers[i] in e.peers;
    }
    assert Delta(values, e) == Delta(others, f);
    forall p, delta | p in e.peers ensures Fits(values, ranges, p, delta) <==> Fits(others, bounds, names[p], delta) {
    }
  }

  lemma RenamedEntry<A, B>(names: Names<A, B>, values: Values<A>, others: Values<B>, ranges: Ranges<A>,
                           bounds: Ranges<B>, staged: Values<A>, renamed: Values<B>, e: Entry<A>)
    requires OneToOne(names) && Agrees(names, values, others) && Agrees(names, ranges, bounds)
    requires Agrees(names, staged, renamed) && NamedEntry(names, e) && Known(values, e)
    ensures Known(others, RenameEntry(names, e))
    ensures var r := PrepareEntry(values, ranges, staged, e);
      var q := PrepareEntry(others, bounds, renamed, RenameEntry(names, e));
      && (r.Some? <==> q.Some?) && (r.Some? ==> Agrees(names, r.value, q.value))
  {
    RenamedGuard(names, values, others, ranges, bounds, e);
    RenamedPeers(names, values, others, staged, renamed, e, e.peers);
  }

  lemma {:induction false} RenamedPrepare<A, B>(names: Names<A, B>, values: Values<A>, others: Values<B>,
                                                ranges: Ranges<A>, bounds: Ranges<B>, staged: Values<A>,
                                                renamed: Values<B>, entries: seq<Entry<A>>)
    requires OneToOne(names) && Agrees(names, values, others) && Agrees(names, ranges, bounds)
    requires Agrees(names, staged, renamed) && AllNamed(names, entries) && AllKnown(values, entries)
    ensures AllKnown(others, RenameEntries(names, entries))
    ensures var r := Prepare(values, ranges, staged, entries);
      var q := Prepare(others, bounds, renamed, RenameEntries(names, entries));
      && (r.Some? <==> q.Some?) && (r.Some? ==> Agrees(names, r.value, q.value))
    decreases |entries|
  {
    var more := RenameEntries(names, entries);
    forall i | 0 <= i < |more| ensures Known(others, more[i]) {
      RenamedGuard(names, values, others, ranges, bounds, entries[i]);
    }
    if entries != [] {
      assert more[1..] == RenameEntries(names, entries[1..]);
      RenamedEntry(names, values, others, ranges, bounds, staged, renamed, entries[0]);
      var next := PrepareEntry(values, ranges, staged, entries[0]);
      if next.Some? {
        RenamedPrepare(names, values, others, ranges, bounds, next.value,
                       PrepareEntry(others, bounds, renamed, more[0]).value, entries[1..]);
      }
    }
  }

  /** Under the new names a command is accepted exactly when it is under the old ones, and has the same
      effect. */
  lemma RenamedCommand<A, B>(names: Names<A, B>, values: Values<A>, others: Values<B>, ranges: Ranges<A>,
                             bounds: Ranges<B>, entries: seq<Entry<A>>)
    requires OneToOne(names) && Agrees(names, values, others) && Agrees(names, ranges, bounds)
    requires AllNamed(names, entries) && AllKnown(values, entries)
    ensures AllKnown(others, RenameEntries(names, entries))
    ensures Accepted(values, ranges, entries) <==> Accepted(others, bounds, RenameEntries(names, entries))
    ensures Agrees(names, Execute(values, ranges, entries), Execute(others, bounds, RenameEntries(names, entries)))
  {
    RenamedPrepare(names, values, others, ranges, bounds, map[], map[], entries);
  }
}
