/**
  The compression mirror: an instance holds five active compression values and four profiles of the
  same five values; the active ones always equal those of the profile that the type selects. Edits
  keep this by staging derived writes next to the written leaves.
 */
module CompressionMirror {
  import opened Common
  import G = GroupEdits
  import H = HistoryModel
  import S = StatePaths

  /** A state value, named by its place. */
  datatype Key =
    | Type(instance: InstanceId)
    | Active(instance: InstanceId, node: nat)
    | Profile(instance: InstanceId, profile: nat, node: nat)
    | Other(id: nat)

  type Values = map<Key, Value>

  /** One entry of a write command, on the source instance. */
  datatype Write =
    | SetType(value: Value, mode: G.Mode)
    | SetParameter(node: nat, value: Value, mode: G.Mode)
    | SetOther(entry: G.Entry<Key>)

  predicate IsTypeIndex(value: Value) { value.Int? && 0 <= value.integer < PROFILES }

  /** A type must be one of the four profiles. */
  predicate IsWriteAllowed(writes: seq<Write>) {
    forall w :: w in writes && w.SetType? ==> IsTypeIndex(w.value)
  }

  function FirstType(writes: seq<Write>): (r: Option<Value>)
    ensures r.Some? ==> exists w :: w in writes && w.SetType? && w.value == r.value
    ensures r.None? ==> forall w :: w in writes ==> !w.SetType?
  {
    if writes == [] then None
    else if writes[0].SetType? then Some(writes[0].value)
    else FirstType(writes[1..])
  }

  function FirstParameter(writes: seq<Write>, node: nat): (r: Option<Write>)
    ensures r.Some? ==> r.value in writes && r.value.SetParameter? && r.value.node == node
    ensures r.None? ==> forall w :: w in writes ==> !(w.SetParameter? && w.node == node)
  {
    if writes == [] then None
    else if writes[0].SetParameter? && writes[0].node == node then Some(writes[0])
    else FirstParameter(writes[1..], node)
  }

  // Well-formed instances

  predicate Whole(values: Values, i: InstanceId) {
    && Type(i) in values && IsTypeIndex(values[Type(i)])
    && (forall n :: 0 <= n < PARAMETERS ==> Active(i, n) in values && values[Active(i, n)].Float?)
    && (forall p, n :: 0 <= p < PROFILES && 0 <= n < PARAMETERS ==>
          Profile(i, p, n) in values && values[Profile(i, p, n)].Float?)
  }

  predicate Mirrored(values: Values, i: InstanceId) {
    && Whole(values, i)
    && forall n :: 0 <= n < PARAMETERS ==> values[Active(i, n)] == values[Profile(i, values[Type(i)].integer, n)]
  }

  /** The invariant: every instance that is present is whole and mirrored. */
  ghost predicate Mirror(values: Values) {
    forall i {:trigger Type(i)} :: Type(i) in values ==> Mirrored(values, i)
  }

  // Derived writes

  function TargetType(values: Values, target: InstanceId, writes: seq<Write>): (r: nat)
    requires Whole(values, target) && IsWriteAllowed(writes)
    ensures r < PROFILES
  {
    if FirstType(writes).Some? then FirstType(writes).value.integer else values[Type(target)].integer
  }

  /** The value that a parameter write gives to the active value of a target. */
  function ParameterValue(values: Values, source: InstanceId, target: InstanceId, w: Write): Value
    requires Whole(values, source) && Whole(values, target) && w.SetParameter? && w.node < PARAMETERS && w.value.Float?
  {
    if w.mode.ApplyDelta? && target != source
    then Float(values[Active(target, w.node)].number + (w.value.number - values[Active(source, w.node)].number))
    else w.value
  }

  /** The entries are typed and the types allowed. An entry for any other leaf may be one for a profile:
      profile entries are leaves of the state tree, and nothing is derived from writing them. */
  predicate WellFormed(writes: seq<Write>) {
    && IsWriteAllowed(writes)
    && (forall w :: w in writes && w.SetParameter? ==> w.node < PARAMETERS && w.value.Float?)
    && (forall w, p {:trigger p in w.entry.peers} :: w in writes && w.SetOther? && p in w.entry.peers ==>
          p.Other? || (p.Profile? && w.entry.value.Float?))
  }

  /** What the edit derives for one value: the selected profile follows a parameter write, the active
      value follows a change of type. */
  function DerivedValue(values: Values, source: InstanceId, target: InstanceId, writes: seq<Write>,
                        k: Key): Option<Value>
    requires Whole(values, source) && Whole(values, target) && WellFormed(writes)
  {
    if k.Profile? && k.instance == target && k.node < PARAMETERS && k.profile == TargetType(values, target, writes)
    then
      match FirstParameter(writes, k.node)
      case Some(w) => Some(ParameterValue(values, source, target, w))
      case None => None
    else if k.Active? && k.instance == target && k.node < PARAMETERS
    then
      if FirstParameter(writes, k.node).None? && FirstType(writes).Some?
      then Some(values[Profile(target, TargetType(values, target, writes), k.node)])
      else None
    else None
  }

  function Single(k: Key, value: Value): G.Entry<Key> { G.Entry(k, [k], value, G.CopyValue) }

  /** The derived writes for one parameter node of one target. */
  function DerivedNode(values: Values, source: InstanceId, target: InstanceId, writes: seq<Write>,
                       node: nat): seq<G.Entry<Key>>
    requires Whole(values, source) && Whole(values, target) && WellFormed(writes) && node < PARAMETERS
  {
    var profile := TargetType(values, target, writes);
    match FirstParameter(writes, node)
    case Some(w) => [Single(Profile(target, profile, node), ParameterValue(values, source, target, w))]
    case None =>
      if FirstType(writes).Some? then [Single(Active(target, node), values[Profile(target, profile, node)])] else []
  }

  function DerivedNodes(values: Values, source: InstanceId, target: InstanceId, writes: seq<Write>,
                        count: nat): seq<G.Entry<Key>>
    requires Whole(values, source) && Whole(values, target) && WellFormed(writes) && count <= PARAMETERS
  {
    if count == 0 then []
    else
      DerivedNodes(values, source, target, writes, count - 1)
      + DerivedNode(values, source, target, writes, count - 1)
  }

  predicate AllWhole(values: Values, targets: seq<InstanceId>) {
    forall t :: t in targets ==> Whole(values, t)
  }

  function Derived(values: Values, source: InstanceId, targets: seq<InstanceId>, writes: seq<Write>): seq<G.Entry<Key>>
    requires Whole(values, source) && AllWhole(values, targets) && WellFormed(writes)
  {
    if targets == [] then []
    else DerivedNodes(values, source, targets[0], writes, PARAMETERS) + Derived(values, source, targets[1..], writes)
  }

  /** The loops that stage the derived writes, target by target and node by node. */
  method PrepareWrite(values: Values, source: InstanceId, targets: seq<InstanceId>, writes: seq<Write>)
    returns (derived: seq<G.Entry<Key>>)
    requires Whole(values, source) && AllWhole(values, targets) && WellFormed(writes)
    ensures derived == Derived(values, source, targets, writes)
  {
    derived := [];
    for index := 0 to |targets|
      invariant Derived(values, source, targets, writes) == derived + Derived(values, source, targets[index..], writes)
    {
      assert targets[index..][0] == targets[index] && targets[index..][1..] == targets[index + 1..];
      var target := PrepareTarget(values, source, targets[index], writes);
      derived := derived + target;
    }
  }

  method PrepareTarget(values: Values, source: InstanceId, target: InstanceId, writes: seq<Write>)
    returns (derived: seq<G.Entry<Key>>)
    requires Whole(values, source) && Whole(values, target) && WellFormed(writes)
    ensures derived == DerivedNodes(values, source, target, writes, PARAMETERS)
  {
    derived := [];
    var typeEntry := FirstType(writes);
    var targetType := if typeEntry.None? then values[Type(target)].integer else typeEntry.value.integer;
    for node := 0 to PARAMETERS
      invariant derived == DerivedNodes(values, source, target, writes, node)
    {
      var entry := FirstParameter(writes, node);
      if entry.Some? {
        var value := entry.value.value.number;
        if entry.value.mode.ApplyDelta? && target != source {
          value := values[Active(target, node)].number + (value - values[Active(source, node)].number);
        }
        derived := derived + [Single(Profile(target, targetType, node), Float(value))];
      } else if typeEntry.Some? {
        derived := derived + [Single(Active(target, node), values[Profile(target, targetType, node)])];
      }
    }
  }

  // Which values a command reaches

  ghost predicate Reaches(entries: seq<G.Entry<Key>>, k: Key) {
    exists e :: e in entries && k in e.peers
  }

  lemma SeparateAppend(a: seq<G.Entry<Key>>, b: seq<G.Entry<Key>>)
    requires G.Separate(a) && G.Separate(b)
    requires forall k :: Reaches(a, k) ==> !Reaches(b, k)
    ensures G.Separate(a + b)
    ensures forall k :: Reaches(a + b, k) <==> Reaches(a, k) || Reaches(b, k)
  {
    var c := a + b;
    forall i, j, k | 0 <= i < j < |c| && k in c[i].peers ensures k !in c[j].peers {
      assert (i < |a| ==> c[i] == a[i] && a[i] in a) && (j < |a| ==> c[j] == a[j] && a[j] in a);
      assert (i >= |a| ==> c[i] == b[i - |a|] && b[i - |a|] in b)
        && (j >= |a| ==> c[j] == b[j - |a|] && b[j - |a|] in b);
      if i < |a| <= j {
        assert Reaches(a, k);
      }
    }
    forall k ensures Reaches(a + b, k) <==> Reaches(a, k) || Reaches(b, k) {
      assert forall e :: e in a + b <==> e in a || e in b;
    }
  }

  lemma {:induction false} AfterAppend(values: Values, a: seq<G.Entry<Key>>, b: seq<G.Entry<Key>>, k: Key)
    requires G.AllKnown(values, a) && G.AllKnown(values, b) && k in values
    ensures G.AllKnown(values, a + b)
    ensures G.After(values, a + b, k) == if Reaches(a, k) then G.After(values, a, k) else G.After(values, b, k)
    decreases |a|
  {
    if a == [] {
      assert a + b == b;
    } else {
      assert (a + b)[0] == a[0] && (a + b)[1..] == a[1..] + b;
      assert Reaches(a, k) <==> k in a[0].peers || Reaches(a[1..], k) by {
        assert forall e :: e in a <==> e == a[0] || e in a[1..];
      }
      AfterAppend(values, a[1..], b, k);
    }
  }

  lemma ReachesAppend(a: seq<G.Entry<Key>>, b: seq<G.Entry<Key>>, k: Key)
    ensures Reaches(a + b, k) <==> Reaches(a, k) || Reaches(b, k)
  {
    assert forall e :: e in a + b <==> e in a || e in b;
  }

  /** The derived writes of one target reach exactly the values that have a derived value, and give
      them that value. */
  lemma {:induction false} NodesGive(values: Values, source: InstanceId, target: InstanceId, writes: seq<Write>,
                                     count: nat, k: Key)
    requires Whole(values, source) && Whole(values, target) && WellFormed(writes) && count <= PARAMETERS
    ensures var entries := DerivedNodes(values, source, target, writes, count);
      && G.AllKnown(values, entries)
      && (Reaches(entries, k) <==>
            (k.Active? || k.Profile?) && k.node < count && DerivedValue(values, source, target, writes, k).Some?)
      && (Reaches(entries, k) && k in values ==>
            G.After(values, entries, k) == DerivedValue(values, source, target, writes, k).value)
  {
    if count > 0 {
      var before := DerivedNodes(values, source, target, writes, count - 1);
      var node := DerivedNode(values, source, target, writes, count - 1);
      NodesGive(values, source, target, writes, count - 1, k);
      NodeGives(values, source, target, writes, count - 1);
      ReachesAppend(before, node, k);
      AfterAppend(values, before, node, if k in values then k else Type(source));
    }
  }

  lemma {:induction false} NodesAreSeparate(values: Values, source: InstanceId, target: InstanceId, writes: seq<Write>,
                                            count: nat)
    requires Whole(values, source) && Whole(values, target) && WellFormed(writes) && count <= PARAMETERS
    ensures G.Separate(DerivedNodes(values, source, target, writes, count))
  {
    if count > 0 {
      var before := DerivedNodes(values, source, target, writes, count - 1);
      var node := DerivedNode(values, source, target, writes, count - 1);
      NodesAreSeparate(values, source, target, writes, count - 1);
      NodeGives(values, source, target, writes, count - 1);
      forall k | Reaches(before, k) ensures !Reaches(node, k) {
        NodesGive(values, source, target, writes, count - 1, k);
      }
      SeparateAppend(before, node);
    }
  }

  lemma NodeGives(values: Values, source: InstanceId, target: InstanceId, writes: seq<Write>, node: nat)
    requires Whole(values, source) && Whole(values, target) && WellFormed(writes) && node < PARAMETERS
    ensures var entries := DerivedNode(values, source, target, writes, node);
      && G.AllKnown(values, entries) && G.Separate(entries)
      && (forall k {:trigger Reaches(entries, k)} :: Reaches(entries, k) <==>
            (k.Active? || k.Profile?) && k.node == node && DerivedValue(values, source, target, writes, k).Some?)
      && (forall k {:trigger G.After(values, entries, k)} :: Reaches(entries, k) && k in values ==>
            Some(G.After(values, entries, k)) == DerivedValue(values, source, target, writes, k))
  {
  }

  /** What the edit derives for `k`, wherever it lies. */
  function DerivedAnywhere(values: Values, source: InstanceId, targets: seq<InstanceId>, writes: seq<Write>,
                           k: Key): Option<Value>
    requires Whole(values, source) && AllWhole(values, targets) && WellFormed(writes)
  {
    if (k.Active? || k.Profile?) && k.instance in targets
    then DerivedValue(values, source, k.instance, writes, k)
    else None
  }

  lemma {:induction false} TargetsGive(values: Values, source: InstanceId, targets: seq<InstanceId>,
                                       writes: seq<Write>, k: Key)
    requires Whole(values, source) && AllWhole(values, targets) && WellFormed(writes) && Distinct(targets)
    ensures var entries := Derived(values, source, targets, writes);
      var given := DerivedAnywhere(values, source, targets, writes, k);
      && G.AllKnown(values, entries) && (Reaches(entries, k) <==> given.Some?)
      && (given.Some? ==> k in values && G.After(values, entries, k) == given.value)
    decreases |targets|
  {
    if targets != [] {
      var first := DerivedNodes(values, source, targets[0], writes, PARAMETERS);
      var rest := Derived(values, source, targets[1..], writes);
      NodesGive(values, source, targets[0], writes, PARAMETERS, k);
      TargetsGive(values, source, targets[1..], writes, k);
      ReachesAppend(first, rest, k);
      AfterAppend(values, first, rest, if k in values then k else Type(source));
    }
  }

  lemma {:induction false} TargetsAreSeparate(values: Values, source: InstanceId, targets: seq<InstanceId>,
                                              writes: seq<Write>)
    requires Whole(values, source) && AllWhole(values, targets) && WellFormed(writes) && Distinct(targets)
    ensures G.Separate(Derived(values, source, targets, writes))
    decreases |targets|
  {
    if targets != [] {
      var first := DerivedNodes(values, source, targets[0], writes, PARAMETERS);
      var rest := Derived(values, source, targets[1..], writes);
      NodesAreSeparate(values, source, targets[0], writes, PARAMETERS);
      TargetsAreSeparate(values, source, targets[1..], writes);
      forall k | Reaches(first, k) ensures !Reaches(rest, k) {
        NodesGive(values, source, targets[0], writes, PARAMETERS, k);
        TargetsGive(values, source, targets[1..], writes, k);
      }
      SeparateAppend(first, rest);
    }
  }

  // The grouped writes of the entries themselves

  function TypeKeys(targets: seq<InstanceId>): (r: seq<Key>)
    ensures forall k :: k in r <==> k.Type? && k.instance in targets
  {
    if targets == [] then [] else [Type(targets[0])] + TypeKeys(targets[1..])
  }

  function ActiveKeys(targets: seq<InstanceId>, node: nat): (r: seq<Key>)
    ensures forall k :: k in r <==> k.Active? && k.node == node && k.instance in targets
  {
    if targets == [] then [] else [Active(targets[0], node)] + ActiveKeys(targets[1..], node)
  }

  /** A write reaches the same leaf of every target. */
  function Entry(source: InstanceId, targets: seq<InstanceId>, w: Write): G.Entry<Key> {
    match w
    case SetType(value, mode) => G.Entry(Type(source), TypeKeys(targets), value, mode)
    case SetParameter(node, value, mode) => G.Entry(Active(source, node), ActiveKeys(targets, node), value, mode)
    case SetOther(entry) => entry
  }

  function Entries(source: InstanceId, targets: seq<InstanceId>, writes: seq<Write>): seq<G.Entry<Key>> {
    if writes == [] then [] else [Entry(source, targets, writes[0])] + Entries(source, targets, writes[1..])
  }

  /** What the entries write directly to a profile entry. */
  function DirectValue(values: Values, source: InstanceId, targets: seq<InstanceId>, writes: seq<Write>,
                       k: Key): Option<Value>
    requires k in values && G.AllKnown(values, Entries(source, targets, writes))
    decreases |writes|
  {
    if writes == [] then None
    else
      assert Entries(source, targets, writes)[0] == Entry(source, targets, writes[0]);
      assert Entries(source, targets, writes)[1..] == Entries(source, targets, writes[1..]);
      if writes[0].SetOther? && k in writes[0].entry.peers then Some(G.Target(values, writes[0].entry, k))
      else DirectValue(values, source, targets, writes[1..], k)
  }

  function GivenToActive(values: Values, source: InstanceId, targets: seq<InstanceId>, writes: seq<Write>,
                         k: Key): Option<Value>
    requires Whole(values, source) && AllWhole(values, targets) && WellFormed(writes)
  {
    if k.Type? && k.instance in targets then FirstType(writes)
    else if k.Active? && k.instance in targets && FirstParameter(writes, k.node).Some?
    then Some(ParameterValue(values, source, k.instance, FirstParameter(writes, k.node).value))
    else None
  }

  /** What the entries give to `k`: the type of every target follows a type write, the active values
      follow parameter writes, and profiles are given what is written to them directly. */
  function GivenValue(values: Values, source: InstanceId, targets: seq<InstanceId>, writes: seq<Write>,
                      k: Key): Option<Value>
    requires Whole(values, source) && AllWhole(values, targets) && WellFormed(writes)
    requires k in values && G.AllKnown(values, Entries(source, targets, writes))
  {
    if k.Profile? then DirectValue(values, source, targets, writes, k)
    else GivenToActive(values, source, targets, writes, k)
  }

  lemma EntryGivesProfile(values: Values, source: InstanceId, targets: seq<InstanceId>, writes: seq<Write>, k: Key)
    requires writes != [] && k in values && k.Profile? && G.AllKnown(values, Entries(source, targets, writes))
    ensures G.AllKnown(values, Entries(source, targets, writes[1..]))
    ensures var e := Entry(source, targets, writes[0]);
      G.Known(values, e) && DirectValue(values, source, targets, writes, k) ==
      if k in e.peers then Some(G.Target(values, e, k)) else DirectValue(values, source, targets, writes[1..], k)
  {
    var entries := Entries(source, targets, writes);
    assert entries[0] == Entry(source, targets, writes[0]) && entries[1..] == Entries(source, targets, writes[1..]);
  }

  lemma EntryGivesActive(values: Values, source: InstanceId, targets: seq<InstanceId>, writes: seq<Write>, k: Key)
    requires Whole(values, source) && AllWhole(values, targets) && WellFormed(writes) && writes != []
    requires k in values && (k.Type? || k.Active?) && G.Known(values, Entry(source, targets, writes[0]))
    ensures var e := Entry(source, targets, writes[0]);
      GivenToActive(values, source, targets, writes, k) ==
      if k in e.peers then Some(G.Target(values, e, k)) else GivenToActive(values, source, targets, writes[1..], k)
  {
    var w := writes[0];
    assert w in writes && (w.SetOther? ==> k !in w.entry.peers);
  }

  lemma {:induction false} EntriesGive(values: Values, source: InstanceId, targets: seq<InstanceId>,
                                       writes: seq<Write>, k: Key)
    requires Whole(values, source) && AllWhole(values, targets) && WellFormed(writes)
    requires k in values && !k.Other? && G.AllKnown(values, Entries(source, targets, writes))
    ensures var entries := Entries(source, targets, writes);
      var given := GivenValue(values, source, targets, writes, k);
      && (Reaches(entries, k) <==> given.Some?)
      && G.After(values, entries, k) == if given.Some? then given.value else values[k]
    decreases |writes|
  {
    if writes != [] {
      var entries := Entries(source, targets, writes);
      assert entries[0] == Entry(source, targets, writes[0]) && entries[1..] == Entries(source, targets, writes[1..]);
      if k.Profile? {
        EntryGivesProfile(values, source, targets, writes, k);
      } else {
        EntryGivesActive(values, source, targets, writes, k);
      }
      EntriesGive(values, source, targets, writes[1..], k);
      assert Reaches(entries, k) <==> k in entries[0].peers || Reaches(entries[1..], k) by {
        assert forall e :: e in entries <==> e == entries[0] || e in entries[1..];
      }
    }
  }

  // The command

  function Command(values: Values, source: InstanceId, targets: seq<InstanceId>, writes: seq<Write>): seq<G.Entry<Key>>
    requires Whole(values, source) && AllWhole(values, targets) && WellFormed(writes)
  {
    Derived(values, source, targets, writes) + Entries(source, targets, writes)
  }

  /** No entry writes a profile directly. */
  predicate LeavesProfiles(writes: seq<Write>) {
    forall w, p {:trigger p in w.entry.peers} :: w in writes && w.SetOther? && p in w.entry.peers ==> p.Other?
  }

  lemma {:induction false} NothingDirect(values: Values, source: InstanceId, targets: seq<InstanceId>,
                                         writes: seq<Write>, k: Key)
    requires k in values && k.Profile? && G.AllKnown(values, Entries(source, targets, writes)) && LeavesProfiles(writes)
    ensures DirectValue(values, source, targets, writes, k).None?
    decreases |writes|
  {
    if writes != [] {
      assert Entries(source, targets, writes)[1..] == Entries(source, targets, writes[1..]);
      var w := writes[0];
      assert w in writes && (w.SetOther? ==> k !in w.entry.peers);
      NothingDirect(values, source, targets, writes[1..], k);
    }
  }

  lemma {:induction false} DirectIsFloat(values: Values, source: InstanceId, targets: seq<InstanceId>,
                                         writes: seq<Write>, k: Key)
    requires k in values && k.Profile? && G.AllKnown(values, Entries(source, targets, writes)) && WellFormed(writes)
    ensures var direct := DirectValue(values, source, targets, writes, k); direct.Some? ==> direct.value.Float?
    decreases |writes|
  {
    if writes != [] {
      assert Entries(source, targets, writes)[1..] == Entries(source, targets, writes[1..]);
      DirectIsFloat(values, source, targets, writes[1..], k);
    }
  }

  /** The value that an accepted command leaves at `k`: the derived one if that is a change, otherwise the
      one that the entries give. */
  function Outcome(values: Values, source: InstanceId, targets: seq<InstanceId>, writes: seq<Write>, k: Key): Value
    requires Whole(values, source) && AllWhole(values, targets) && WellFormed(writes)
    requires k in values && G.AllKnown(values, Entries(source, targets, writes))
  {
    var derived := DerivedAnywhere(values, source, targets, writes, k);
    var given := GivenValue(values, source, targets, writes, k);
    if derived.Some? && derived.value != values[k] then derived.value
    else if given.Some? then given.value
    else values[k]
  }

  lemma CommandIsKnown(values: Values, source: InstanceId, targets: seq<InstanceId>, writes: seq<Write>)
    requires Whole(values, source) && AllWhole(values, targets) && WellFormed(writes) && Distinct(targets)
    requires G.AllKnown(values, Entries(source, targets, writes))
    ensures G.AllKnown(values, Derived(values, source, targets, writes))
    ensures G.AllKnown(values, Command(values, source, targets, writes))
  {
    TargetsGive(values, source, targets, writes, Type(source));
    G.AllKnownAppend(values, Derived(values, source, targets, writes), Entries(source, targets, writes));
  }

  lemma DerivedGives(values: Values, source: InstanceId, targets: seq<InstanceId>, writes: seq<Write>, k: Key)
    requires Whole(values, source) && AllWhole(values, targets) && WellFormed(writes) && Distinct(targets)
    requires k in values
    ensures G.AllKnown(values, Derived(values, source, targets, writes))
    ensures var derived := DerivedAnywhere(values, source, targets, writes, k);
      G.After(values, Derived(values, source, targets, writes), k) == if derived.Some? then derived.value else values[k]
  {
    var entries := Derived(values, source, targets, writes);
    TargetsGive(values, source, targets, writes, k);
    if !Reaches(entries, k) {
      assert forall e :: e in entries ==> k !in e.peers;
      G.NotReached(values, entries, k);
    }
  }

  /** Where derived writes and entries meet in a change, the command is refused: the value has been staged
      when the entry comes to it. */
  lemma ClashesAreRefused(values: Values, ranges: G.Ranges<Key>, source: InstanceId, targets: seq<InstanceId>,
                          writes: seq<Write>, k: Key)
    requires Whole(values, source) && AllWhole(values, targets) && WellFormed(writes) && Distinct(targets)
    requires G.AllKnown(values, Entries(source, targets, writes)) && G.Separate(Entries(source, targets, writes))
    requires k in values && !k.Other?
    ensures G.AllKnown(values, Command(values, source, targets, writes))
    ensures var derived := DerivedAnywhere(values, source, targets, writes, k);
      derived.Some? && derived.value != values[k] && GivenValue(values, source, targets, writes, k).Some? ==>
        && !G.Accepted(values, ranges, Command(values, source, targets, writes))
        && G.Execute(values, ranges, Command(values, source, targets, writes)) == values
  {
    var first, second := Derived(values, source, targets, writes), Entries(source, targets, writes);
    CommandIsKnown(values, source, targets, writes);
    TargetsAreSeparate(values, source, targets, writes);
    DerivedGives(values, source, targets, writes, k);
    EntriesGive(values, source, targets, writes, k);
    var derived := DerivedAnywhere(values, source, targets, writes, k);
    if derived.Some? && derived.value != values[k] && Reaches(second, k) {
      var e :| e in second && k in e.peers;
      G.MeetingPartsAreRefused(values, ranges, first, second, e, k);
    }
  }

  /** The final value of one compression leaf of an accepted command. */
  lemma CommandGives(values: Values, ranges: G.Ranges<Key>, source: InstanceId, targets: seq<InstanceId>,
                     writes: seq<Write>, k: Key)
    requires Whole(values, source) && AllWhole(values, targets) && WellFormed(writes) && Distinct(targets)
    requires G.AllKnown(values, Entries(source, targets, writes)) && G.Separate(Entries(source, targets, writes))
    requires k in values && !k.Other?
    ensures G.AllKnown(values, Command(values, source, targets, writes))
    ensures var command := Command(values, source, targets, writes);
      G.Accepted(values, ranges, command) ==>
        && G.Execute(values, ranges, command).Keys == values.Keys
        && G.Execute(values, ranges, command)[k] == Outcome(values, source, targets, writes, k)
  {
    CommandIsKnown(values, source, targets, writes);
    TargetsAreSeparate(values, source, targets, writes);
    DerivedGives(values, source, targets, writes, k);
    EntriesGive(values, source, targets, writes, k);
    G.TwoParts(values, ranges, Derived(values, source, targets, writes), Entries(source, targets, writes));
  }

  /** The profile that the type of `i` selects after the command. */
  function SelectedAfter(values: Values, targets: seq<InstanceId>, writes: seq<Write>, i: InstanceId): (r: nat)
    requires Whole(values, i) && IsWriteAllowed(writes)
    ensures r < PROFILES
  {
    if i in targets then TargetType(values, i, writes) else values[Type(i)].integer
  }

  /** No entry that is selected after the command is changed by a direct write. */
  ghost predicate SelectedIsLeft(values: Values, source: InstanceId, targets: seq<InstanceId>, writes: seq<Write>,
                                 i: InstanceId)
    requires Whole(values, i) && WellFormed(writes) && G.AllKnown(values, Entries(source, targets, writes))
  {
    forall n :: 0 <= n < PARAMETERS ==>
      var k := Profile(i, SelectedAfter(values, targets, writes, i), n);
      var direct := DirectValue(values, source, targets, writes, k);
      direct.None? || direct.value == values[k]
  }

  ghost predicate SelectedAreLeft(values: Values, source: InstanceId, targets: seq<InstanceId>, writes: seq<Write>)
    requires Mirror(values) && WellFormed(writes) && G.AllKnown(values, Entries(source, targets, writes))
  {
    forall i {:trigger Type(i)} :: Type(i) in values ==> SelectedIsLeft(values, source, targets, writes, i)
  }

  /** Derived writes and entries do not meet in a change of a compression value. */
  ghost predicate NoClash(values: Values, source: InstanceId, targets: seq<InstanceId>, writes: seq<Write>)
    requires Whole(values, source) && AllWhole(values, targets) && WellFormed(writes)
    requires G.AllKnown(values, Entries(source, targets, writes))
  {
    forall k {:trigger Outcome(values, source, targets, writes, k)} :: k in values && !k.Other? ==>
      var derived := DerivedAnywhere(values, source, targets, writes, k);
      derived.Some? && derived.value != values[k] ==> GivenValue(values, source, targets, writes, k).None?
  }

  lemma MirrorAfterCommand(values: Values, after: Values, source: InstanceId, targets: seq<InstanceId>,
                           writes: seq<Write>, i: InstanceId)
    requires Whole(values, source) && AllWhole(values, targets) && WellFormed(writes) && Distinct(targets)
    requires G.AllKnown(values, Entries(source, targets, writes)) && NoClash(values, source, targets, writes)
    requires Mirrored(values, i) && after.Keys == values.Keys
    requires forall k :: k in values && !k.Other? ==> after[k] == Outcome(values, source, targets, writes, k)
    ensures Mirrored(after, i) <==> SelectedIsLeft(values, source, targets, writes, i)
  {
    forall p, n | 0 <= p < PROFILES && 0 <= n < PARAMETERS ensures after[Profile(i, p, n)].Float? {
      DirectIsFloat(values, source, targets, writes, Profile(i, p, n));
    }
    assert after[Type(i)].integer == SelectedAfter(values, targets, writes, i);
    forall n | 0 <= n < PARAMETERS
      ensures var k := Profile(i, SelectedAfter(values, targets, writes, i), n);
        var direct := DirectValue(values, source, targets, writes, k);
        after[Active(i, n)] == after[k] <==> (direct.None? || direct.value == values[k])
    {
      ParameterAfterCommand(values, after, source, targets, writes, i, n);
    }
  }

  lemma ParameterAfterCommand(values: Values, after: Values, source: InstanceId, targets: seq<InstanceId>,
                              writes: seq<Write>, i: InstanceId, n: nat)
    requires Whole(values, source) && AllWhole(values, targets) && WellFormed(writes) && n < PARAMETERS
    requires G.AllKnown(values, Entries(source, targets, writes)) && NoClash(values, source, targets, writes)
    requires Mirrored(values, i) && after.Keys == values.Keys
    requires forall k :: k in values && !k.Other? ==> after[k] == Outcome(values, source, targets, writes, k)
    ensures var k := Profile(i, SelectedAfter(values, targets, writes, i), n);
      var direct := DirectValue(values, source, targets, writes, k);
      after[Active(i, n)] == after[k] <==> (direct.None? || direct.value == values[k])
  {
    var k := Profile(i, SelectedAfter(values, targets, writes, i), n);
    assert after[k] == Outcome(values, source, targets, writes, k);
    assert after[Active(i, n)] == Outcome(values, source, targets, writes, Active(i, n));
  }

  /** A write command, local or grouped, of copies or deltas, with or without a change of type, keeps
      the mirror exactly when it is refused or changes no selected profile entry directly. */
  lemma WritesKeepTheMirrorExactly(values: Values, ranges: G.Ranges<Key>, source: InstanceId, targets: seq<InstanceId>,
                                   writes: seq<Write>)
    requires Mirror(values) && Type(source) in values && (forall t :: t in targets ==> Type(t) in values)
    requires WellFormed(writes) && Distinct(targets) && Whole(values, source) && AllWhole(values, targets)
    requires G.AllKnown(values, Entries(source, targets, writes)) && G.Separate(Entries(source, targets, writes))
    ensures G.AllKnown(values, Command(values, source, targets, writes))
    ensures var command := Command(values, source, targets, writes);
      Mirror(G.Execute(values, ranges, command)) <==>
        (!G.Accepted(values, ranges, command) || SelectedAreLeft(values, source, targets, writes))
  {
    CommandIsKnown(values, source, targets, writes);
    var command := Command(values, source, targets, writes);
    if G.Accepted(values, ranges, command) {
      AcceptedOutcome(values, ranges, source, targets, writes);
      var after := G.Execute(values, ranges, command);
      forall i | Type(i) in values
        ensures Mirrored(after, i) <==> SelectedIsLeft(values, source, targets, writes, i)
      {
        MirrorAfterCommand(values, after, source, targets, writes, i);
      }
    } else {
      assert G.Execute(values, ranges, command) == values;
    }
  }

  lemma AcceptedOutcome(values: Values, ranges: G.Ranges<Key>, source: InstanceId, targets: seq<InstanceId>,
                        writes: seq<Write>)
    requires Whole(values, source) && AllWhole(values, targets) && WellFormed(writes) && Distinct(targets)
    requires G.AllKnown(values, Entries(source, targets, writes)) && G.Separate(Entries(source, targets, writes))
    requires G.AllKnown(values, Command(values, source, targets, writes))
    requires G.Accepted(values, ranges, Command(values, source, targets, writes))
    ensures NoClash(values, source, targets, writes)
    ensures var after := G.Execute(values, ranges, Command(values, source, targets, writes));
      && after.Keys == values.Keys
      && forall k :: k in values && !k.Other? ==> after[k] == Outcome(values, source, targets, writes, k)
  {
    CommandGives(values, ranges, source, targets, writes, Type(source));
    forall k | k in values && !k.Other?
      ensures G.Execute(values, ranges, Command(values, source, targets, writes))[k] ==
        Outcome(values, source, targets, writes, k)
      ensures var derived := DerivedAnywhere(values, source, targets, writes, k);
        derived.Some? && derived.value != values[k] ==> GivenValue(values, source, targets, writes, k).None?
    {
      CommandGives(values, ranges, source, targets, writes, k);
      ClashesAreRefused(values, ranges, source, targets, writes, k);
    }
  }

  lemma NothingIsChangedDirectly(values: Values, source: InstanceId, targets: seq<InstanceId>, writes: seq<Write>)
    requires Mirror(values) && WellFormed(writes) && LeavesProfiles(writes)
    requires G.AllKnown(values, Entries(source, targets, writes))
    ensures SelectedAreLeft(values, source, targets, writes)
  {
    forall i | Type(i) in values ensures SelectedIsLeft(values, source, targets, writes, i) {
      forall n | 0 <= n < PARAMETERS
        ensures DirectValue(values, source, targets, writes,
                            Profile(i, SelectedAfter(values, targets, writes, i), n)).None?
      {
        NothingDirect(values, source, targets, writes, Profile(i, SelectedAfter(values, targets, writes, i), n));
      }
    }
  }

  /** Commands that write no profile entry directly always keep the mirror. */
  lemma WritesKeepTheMirror(values: Values, ranges: G.Ranges<Key>, source: InstanceId, targets: seq<InstanceId>,
                            writes: seq<Write>)
    requires Mirror(values) && Type(source) in values && (forall t :: t in targets ==> Type(t) in values)
    requires WellFormed(writes) && LeavesProfiles(writes) && Distinct(targets)
    requires G.AllKnown(values, Entries(source, targets, writes)) && G.Separate(Entries(source, targets, writes))
    ensures Whole(values, source) && AllWhole(values, targets)
    ensures G.AllKnown(values, Command(values, source, targets, writes))
    ensures Mirror(G.Execute(values, ranges, Command(values, source, targets, writes)))
  {
    NothingIsChangedDirectly(values, source, targets, writes);
    WritesKeepTheMirrorExactly(values, ranges, source, targets, writes);
  }

  /** Writing the selected entry of a profile directly, to anything but what the active value shows,
      is accepted and breaks the mirror. */
  lemma ProfileWriteBreaksTheMirror(values: Values, ranges: G.Ranges<Key>, i: InstanceId, n: nat, x: real)
    requires Mirror(values) && Type(i) in values && n < PARAMETERS && Mirrored(values, i)
    requires values[Active(i, n)] != Float(x)
    ensures var selected := Profile(i, values[Type(i)].integer, n);
      var writes := [SetOther(Single(selected, Float(x)))];
      && WellFormed(writes) && G.AllKnown(values, Command(values, i, [i], writes))
      && G.Accepted(values, ranges, Command(values, i, [i], writes))
      && !Mirror(G.Execute(values, ranges, Command(values, i, [i], writes)))
  {
    var selected := Profile(i, values[Type(i)].integer, n);
    DirectCommand(values, i, Single(selected, Float(x)));
    G.CopyIsTaken(values, ranges, selected, Float(x));
    assert !Mirrored(values[selected := Float(x)], i);
  }

  lemma DirectCommand(values: Values, i: InstanceId, e: G.Entry<Key>)
    requires Whole(values, i) && WellFormed([SetOther(e)])
    ensures Command(values, i, [i], [SetOther(e)]) == [e]
  {
    var writes := [SetOther(e)];
    assert writes[1..] == [] && [i][1..] == [];
    NodesAreEmpty(values, i, writes, PARAMETERS);
    assert Derived(values, i, [i], writes) == [] && Entries(i, [i], writes) == [e];
  }

  lemma {:induction false} NodesAreEmpty(values: Values, i: InstanceId, writes: seq<Write>, count: nat)
    requires Whole(values, i) && WellFormed(writes) && (forall w :: w in writes ==> w.SetOther?) && count <= PARAMETERS
    ensures DerivedNodes(values, i, i, writes, count) == []
  {
    if count > 0 {
      NodesAreEmpty(values, i, writes, count - 1);
    }
  }

  // Resets

  const RATIO: nat := 4

  function InitialValue(k: Key): Value {
    match k
    case Active(_, n) => Float(if n == RATIO then 0.5 else 0.0)
    case Profile(_, _, n) => Float(if n == RATIO then 0.5 else 0.0)
    case _ => Int(0)
  }

  /** The leaf a reset addresses; resets of other nodes derive no writes. */
  datatype Leaf = TypeLeaf | ParameterLeaf(node: nat)

  /** Resetting a leaf is the same edit as copying its initial value to it. */
  function AsWrite(leaf: Leaf): seq<Write> {
    match leaf
    case TypeLeaf => [SetType(Int(0), G.CopyValue)]
    case ParameterLeaf(n) => [SetParameter(n, InitialValue(Active(0, n)), G.CopyValue)]
  }

  predicate ProperLeaf(leaf: Leaf) { leaf.ParameterLeaf? ==> leaf.node < PARAMETERS }

  /** What the reset handler stages before it resets the leaf itself: the active values of the default
      profile for a type, the entry of the selected profile for a parameter. */
  method PrepareReset(values: Values, source: InstanceId, targets: seq<InstanceId>, leaf: Leaf)
    returns (derived: seq<G.Entry<Key>>)
    requires Whole(values, source) && AllWhole(values, targets) && ProperLeaf(leaf)
    ensures WellFormed(AsWrite(leaf)) && derived == Derived(values, source, targets, AsWrite(leaf))
  {
    derived := [];
    ghost var writes := AsWrite(leaf);
    LeafIsWellFormed(leaf);
    for index := 0 to |targets|
      invariant Derived(values, source, targets, writes) == derived + Derived(values, source, targets[index..], writes)
    {
      var target := targets[index];
      assert targets[index..][0] == target && targets[index..][1..] == targets[index + 1..];
      var part := PrepareResetTarget(values, source, target, leaf);
      derived := derived + part;
    }
  }

  lemma LeafIsWellFormed(leaf: Leaf)
    requires ProperLeaf(leaf)
    ensures WellFormed(AsWrite(leaf))
  {
  }

  method PrepareResetTarget(values: Values, source: InstanceId, target: InstanceId, leaf: Leaf)
    returns (derived: seq<G.Entry<Key>>)
    requires Whole(values, source) && Whole(values, target) && ProperLeaf(leaf)
    ensures WellFormed(AsWrite(leaf)) && derived == DerivedNodes(values, source, target, AsWrite(leaf), PARAMETERS)
  {
    match leaf
    case TypeLeaf =>
      derived := PrepareActiveValues(values, source, target);
    case ParameterLeaf(node) =>
      var profile := values[Type(target)].integer;
      derived := [Single(Profile(target, profile, node), InitialValue(Profile(target, profile, node)))];
      ParameterReset(values, source, target, node, PARAMETERS);
  }

  method PrepareActiveValues(values: Values, source: InstanceId, target: InstanceId) returns (active: seq<G.Entry<Key>>)
    requires Whole(values, source) && Whole(values, target)
    ensures WellFormed(AsWrite(TypeLeaf))
    ensures active == DerivedNodes(values, source, target, AsWrite(TypeLeaf), PARAMETERS)
  {
    active := [];
    for node := 0 to PARAMETERS
      invariant active == DerivedNodes(values, source, target, AsWrite(TypeLeaf), node)
    {
      active := active + [Single(Active(target, node), values[Profile(target, 0, node)])];
    }
  }

  lemma NodeReset(values: Values, source: InstanceId, target: InstanceId, node: nat, n: nat)
    requires Whole(values, source) && Whole(values, target) && node < PARAMETERS && n < PARAMETERS
    ensures WellFormed(AsWrite(ParameterLeaf(node)))
    ensures var profile := values[Type(target)].integer;
      DerivedNode(values, source, target, AsWrite(ParameterLeaf(node)), n) ==
      if n == node then [Single(Profile(target, profile, node), InitialValue(Profile(target, profile, node)))] else []
  {
    var writes := AsWrite(ParameterLeaf(node));
    assert writes[1..] == [];
    assert FirstType(writes).None? && FirstParameter(writes, n) == if n == node then Some(writes[0]) else None;
  }

  lemma {:induction false} ParameterReset(values: Values, source: InstanceId, target: InstanceId, node: nat, count: nat)
    requires Whole(values, source) && Whole(values, target) && node < PARAMETERS && count <= PARAMETERS
    ensures var profile := values[Type(target)].integer;
      DerivedNodes(values, source, target, AsWrite(ParameterLeaf(node)), count) ==
      if node < count
      then [Single(Profile(target, profile, node), InitialValue(Profile(target, profile, node)))]
      else []
  {
    if count > 0 {
      NodeReset(values, source, target, node, count - 1);
      ParameterReset(values, source, target, node, count - 1);
    }
  }

  predicate IsKeyOf(k: Key, i: InstanceId) {
    && !k.Other? && k.instance == i
    && (k.Active? ==> k.node < PARAMETERS)
    && (k.Profile? ==> k.profile < PROFILES && k.node < PARAMETERS)
  }

  /** The nodes of the five parameters in the state tree. */
  const PARAMETER_NODES: seq<nat> := [38, 17, 22, 55, 56]

  const COMPRESSION: nat := 14

  const TYPE: nat := 39

  const PROFILE: nat := 57

  const FIRST_PROFILE: nat := 60

  /** Where a compression value lies in the tree of its instance. */
  function PathOf(k: Key): (path: Path)
    requires !k.Other? && IsKeyOf(k, k.instance)
    ensures |path| == if k.Profile? then 5 else 3
    ensures path[0] == S.DSP && path[1] == COMPRESSION && (k.Profile? <==> path[2] == PROFILE)
  {
    match k
    case Type(_) => [S.DSP, COMPRESSION, TYPE]
    case Active(_, n) => [S.DSP, COMPRESSION, PARAMETER_NODES[n]]
    case Profile(_, p, n) => [S.DSP, COMPRESSION, PROFILE, FIRST_PROFILE + p, PARAMETER_NODES[n]]
  }

  /** The leaves that the edit derives something from. */
  predicate IsLeaf(path: Path) {
    |path| == 3 && path[0] == S.DSP && path[1] == COMPRESSION && (path[2] == TYPE || path[2] in PARAMETER_NODES)
  }

  predicate IsReset(targets: seq<InstanceId>, path: Path, k: Key) {
    !k.Other? && k.instance in targets && IsKeyOf(k, k.instance) && path <= PathOf(k)
  }

  /** Resetting a node of the tree that is none of those leaves: every value below its path is given its
      initial value, in each of the targets. */
  function ResetBelow(values: Values, targets: seq<InstanceId>, path: Path): Values {
    map k | k in values :: if IsReset(targets, path, k) then InitialValue(k) else values[k]
  }

  /** The reset reaches profiles but not the active values, and the selected entry `n` of `i` is among
      what it reaches. */
  predicate ReachesOnlySelected(values: Values, targets: seq<InstanceId>, path: Path, i: InstanceId, n: nat)
    requires Whole(values, i) && n < PARAMETERS
  {
    |path| > 2 && IsReset(targets, path, Profile(i, values[Type(i)].integer, n))
  }

  /** Wherever a reset reaches a selected profile entry but not the active value, that value is at its
      initial value already. */
  ghost predicate ResetIsHarmless(values: Values, targets: seq<InstanceId>, path: Path)
    requires Mirror(values)
  {
    forall i, n {:trigger Active(i, n)} ::
      Type(i) in values && 0 <= n < PARAMETERS && ReachesOnlySelected(values, targets, path, i, n) ==>
      values[Active(i, n)] == InitialValue(Active(i, n))
  }

  /** A reset of any node but those leaves keeps the mirror exactly when it reaches the active values
      along with the profiles, or is harmless to the selected one. */
  lemma ResetsKeepTheMirrorExactly(values: Values, targets: seq<InstanceId>, path: Path)
    requires Mirror(values) && !IsLeaf(path)
    ensures Mirror(ResetBelow(values, targets, path)) <==> ResetIsHarmless(values, targets, path)
  {
    forall i | Type(i) in values
      ensures Mirrored(ResetBelow(values, targets, path), i) <==>
        forall n :: 0 <= n < PARAMETERS && ReachesOnlySelected(values, targets, path, i, n) ==>
          values[Active(i, n)] == InitialValue(Active(i, n))
    {
      if |path| <= 2 {
        ShallowReset(values, targets, path, i);
      } else {
        DeepReset(values, targets, path, i);
      }
    }
  }

  lemma ShallowReset(values: Values, targets: seq<InstanceId>, path: Path, i: InstanceId)
    requires Mirrored(values, i) && |path| <= 2
    ensures Mirrored(ResetBelow(values, targets, path), i)
  {
    var after := ResetBelow(values, targets, path);
    var all := i in targets && path <= [S.DSP, COMPRESSION];
    assert forall k :: k in values && !k.Other? && IsKeyOf(k, i) ==> PathOf(k)[..2] == [S.DSP, COMPRESSION];
    assert forall k :: k in values && !k.Other? && IsKeyOf(k, i) ==> (IsReset(targets, path, k) <==> all);
    assert after[Type(i)] == if all then Int(0) else values[Type(i)];
  }

  lemma DeepReset(values: Values, targets: seq<InstanceId>, path: Path, i: InstanceId)
    requires Mirrored(values, i) && |path| > 2 && !IsLeaf(path)
    ensures Mirrored(ResetBelow(values, targets, path), i) <==>
      forall n :: 0 <= n < PARAMETERS && ReachesOnlySelected(values, targets, path, i, n) ==>
        values[Active(i, n)] == InitialValue(Active(i, n))
  {
    var after, selected := ResetBelow(values, targets, path), values[Type(i)].integer;
    assert !IsReset(targets, path, Type(i)) && after[Type(i)] == values[Type(i)];
    forall n | 0 <= n < PARAMETERS
      ensures after[Active(i, n)] == values[Active(i, n)]
      ensures after[Profile(i, selected, n)] ==
        if ReachesOnlySelected(values, targets, path, i, n) then InitialValue(Active(i, n)) else values[Active(i, n)]
    {
      assert !IsReset(targets, path, Active(i, n));
    }
  }

  // Every slot of every run

  function ParameterKeys(i: InstanceId, n: nat): seq<Key> {
    [Active(i, n), Profile(i, 0, n), Profile(i, 1, n), Profile(i, 2, n), Profile(i, 3, n)]
  }

  /** The compression values of an instance. */
  function KeysOf(i: InstanceId): (r: seq<Key>)
    ensures forall k :: k in r <==> IsKeyOf(k, i)
  {
    [Type(i)] + ParameterKeys(i, 0) + ParameterKeys(i, 1)
      + ParameterKeys(i, 2) + ParameterKeys(i, 3) + ParameterKeys(i, 4)
  }

  type Rings = H.Rings<Key, Value>

  ghost function RegisterAll(r: Rings, keys: seq<Key>): (q: Rings)
    requires H.Valid(r)
    ensures H.Valid(q)
    decreases |keys|
  {
    if keys == [] then r else RegisterAll(H.Apply(r, H.Operation.Register(keys[0], InitialValue(keys[0]))), keys[1..])
  }

  ghost function UnregisterAll(r: Rings, keys: seq<Key>): (q: Rings)
    requires H.Valid(r)
    ensures H.Valid(q)
    decreases |keys|
  {
    if keys == [] then r else UnregisterAll(H.Apply(r, H.Operation.Unregister(keys[0])), keys[1..])
  }

  lemma {:induction false} RegisteredAll(r: Rings, keys: seq<Key>)
    requires H.Valid(r)
    ensures var q := RegisterAll(r, keys);
      && q.slot == r.slot && (forall k :: k in q.slots <==> k in r.slots || k in keys)
      && forall k :: k in q.slots ==>
           q.slots[k] == if k in r.slots then r.slots[k] else seq(H.CAPACITY, _ => InitialValue(k))
    decreases |keys|
  {
    if keys != [] {
      RegisteredAll(H.Apply(r, H.Operation.Register(keys[0], InitialValue(keys[0]))), keys[1..]);
    }
  }

  lemma {:induction false} UnregisteredAll(r: Rings, keys: seq<Key>)
    requires H.Valid(r)
    ensures var q := UnregisterAll(r, keys);
      && q.slot == r.slot && q.slots == map k | k in r.slots && k !in keys :: r.slots[k]
    decreases |keys|
  {
    if keys != [] {
      UnregisteredAll(H.Apply(r, H.Operation.Unregister(keys[0])), keys[1..]);
    }
  }

  datatype Event =
    | Join(instance: InstanceId)
    | Leave(instance: InstanceId)
    | Edit(source: InstanceId, targets: seq<InstanceId>, writes: seq<Write>, point: bool)
    | Reset(targets: seq<InstanceId>, path: Path, point: bool)
    | Navigate(cursor: int)
    | Restore(instance: InstanceId, baseline: Values)

  /** An edit comes from a present instance, reaches present instances once each, has entries that reach no
      value twice and changes no selected profile entry directly; a reset of anything but a leaf of the edit,
      which is an edit, is harmless; and a restored snapshot has been validated. */
  ghost predicate Enabled(r: Rings, e: Event)
    requires H.Valid(r)
  {
    match e
    case Join(i) => forall k :: k in r.slots ==> k.Other? || k.instance != i
    case Leave(_) => true
    case Navigate(_) => true
    case Reset(targets, path, _) =>
      !IsLeaf(path) && Mirror(H.Current(r)) && ResetIsHarmless(H.Current(r), targets, path)
    case Edit(source, targets, writes, _) =>
      var values := H.Current(r);
      && Type(source) in values && (forall t :: t in targets ==> Type(t) in values)
      && Whole(values, source) && AllWhole(values, targets)
      && WellFormed(writes) && Distinct(targets)
      && G.AllKnown(values, Entries(source, targets, writes)) && G.Separate(Entries(source, targets, writes))
      && Mirror(values) && SelectedAreLeft(values, source, targets, writes)
    case Restore(i, baseline) =>
      && Mirrored(baseline, i)
      && forall k :: k in baseline ==> k.Other? || k.instance == i
  }

  ghost function Perform(r: Rings, ranges: G.Ranges<Key>, e: Event): (q: Rings)
    requires H.Valid(r) && Enabled(r, e)
    ensures H.Valid(q)
  {
    match e
    case Join(i) => RegisterAll(r, KeysOf(i))
    case Leave(i) => UnregisterAll(r, KeysOf(i))
    case Navigate(cursor) => H.Apply(r, H.Operation.Jump(cursor))
    case Reset(targets, path, point) =>
      H.Apply(H.Opened(r, point), H.Operation.Write(ResetBelow(H.Current(r), targets, path)))
    case Restore(_, baseline) => H.Apply(r, H.Operation.Baseline(baseline))
    case Edit(source, targets, writes, point) =>
      CommandIsKnown(H.Current(r), source, targets, writes);
      match G.Prepare(H.Current(r), ranges, map[], Command(H.Current(r), source, targets, writes))
      case None => r
      case Some(staged) => H.Apply(H.Opened(r, point), H.Operation.Write(staged))
  }

  /** The mirror holds in all 32 slots of the ring. */
  ghost predicate Everywhere(r: Rings)
    requires H.Valid(r)
  {
    forall slot: nat {:trigger H.StateAt(r, slot)} :: slot < H.CAPACITY ==> Mirror(H.StateAt(r, slot))
  }

  lemma AdvanceKeepsEverywhere(r: Rings)
    requires H.Valid(r) && Everywhere(r)
    ensures Everywhere(H.Apply(r, H.Operation.Advance))
    ensures H.Current(H.Apply(r, H.Operation.Advance)) == H.Current(r)
  {
    forall slot: nat | slot < H.CAPACITY ensures Mirror(H.StateAt(H.Apply(r, H.Operation.Advance), slot)) {
      H.AdvanceSlot(r, slot);
    }
    H.AdvanceSlot(r, H.NextSlot(r.slot));
  }

  lemma WriteKeepsEverywhere(r: Rings, changes: Values)
    requires H.Valid(r) && Everywhere(r) && Mirror(H.Overwrite(H.Current(r), changes))
    ensures Everywhere(H.Apply(r, H.Operation.Write(changes)))
  {
    var q := H.Apply(r, H.Operation.Write(changes));
    forall slot: nat | slot < H.CAPACITY ensures Mirror(H.StateAt(q, slot)) {
      assert H.StateAt(q, slot) == if slot == r.slot then H.Overwrite(H.Current(r), changes) else H.StateAt(r, slot);
    }
  }

  lemma RestoreKeepsEverywhere(r: Rings, i: InstanceId, baseline: Values)
    requires H.Valid(r) && Everywhere(r) && Mirrored(baseline, i)
    requires forall k :: k in baseline ==> k.Other? || k.instance == i
    ensures Everywhere(H.Apply(r, H.Operation.Baseline(baseline)))
  {
    var q := H.Apply(r, H.Operation.Baseline(baseline));
    forall slot: nat | slot < H.CAPACITY ensures Mirror(H.StateAt(q, slot)) {
      var before, after := H.StateAt(r, slot), H.StateAt(q, slot);
      assert after == H.Overwrite(before, baseline);
      forall j | Type(j) in after ensures Mirrored(after, j) {
        assert Mirrored(before, j);
      }
    }
  }

  lemma JoinKeepsEverywhere(r: Rings, i: InstanceId, keys: seq<Key>)
    requires H.Valid(r) && Everywhere(r) && forall k :: k in r.slots ==> k.Other? || k.instance != i
    requires forall k :: k in keys <==> IsKeyOf(k, i)
    ensures Everywhere(RegisterAll(r, keys))
  {
    var q := RegisterAll(r, keys);
    RegisteredAll(r, keys);
    forall slot: nat | slot < H.CAPACITY ensures Mirror(H.StateAt(q, slot)) {
      JoinedState(H.StateAt(r, slot), H.StateAt(q, slot), i);
    }
  }

  lemma JoinedState(before: Values, after: Values, i: InstanceId)
    requires Mirror(before) && forall k :: k in before ==> k.Other? || k.instance != i
    requires forall k :: k in after <==> k in before || IsKeyOf(k, i)
    requires forall k :: k in after ==> after[k] == if k in before then before[k] else InitialValue(k)
    ensures Mirror(after)
  {
  }

  lemma LeaveKeepsEverywhere(r: Rings, i: InstanceId)
    requires H.Valid(r) && Everywhere(r)
    ensures Everywhere(UnregisterAll(r, KeysOf(i)))
  {
    var q := UnregisterAll(r, KeysOf(i));
    UnregisteredAll(r, KeysOf(i));
    forall slot: nat | slot < H.CAPACITY ensures Mirror(H.StateAt(q, slot)) {
      var before, after := H.StateAt(r, slot), H.StateAt(q, slot);
      forall j | Type(j) in after ensures Mirrored(after, j) {
        assert IsKeyOf(Type(j), i) <==> j == i;
        assert Mirrored(before, j);
      }
    }
  }

  lemma EventKeepsEverywhere(r: Rings, ranges: G.Ranges<Key>, e: Event)
    requires H.Valid(r) && Everywhere(r) && Enabled(r, e)
    ensures Everywhere(Perform(r, ranges, e))
  {
    match e
    case Join(i) => JoinKeepsEverywhere(r, i, KeysOf(i));
    case Leave(i) => LeaveKeepsEverywhere(r, i);
    case Navigate(cursor) =>
      var q := H.Apply(r, H.Operation.Jump(cursor));
      assert forall slot: nat :: slot < H.CAPACITY ==> H.StateAt(q, slot) == H.StateAt(r, slot);
    case Restore(i, baseline) => RestoreKeepsEverywhere(r, i, baseline);
    case Reset(targets, path, point) =>
      AdvanceKeepsEverywhere(r);
      ResetsKeepTheMirrorExactly(H.Current(r), targets, path);
      assert H.Overwrite(H.Current(r), ResetBelow(H.Current(r), targets, path)) ==
        ResetBelow(H.Current(r), targets, path);
      WriteKeepsEverywhere(H.Opened(r, point), ResetBelow(H.Current(r), targets, path));
    case Edit(source, targets, writes, point) => EditKeepsEverywhere(r, ranges, source, targets, writes, point);
  }

  lemma EditKeepsEverywhere(r: Rings, ranges: G.Ranges<Key>, source: InstanceId, targets: seq<InstanceId>,
                            writes: seq<Write>, point: bool)
    requires H.Valid(r) && Everywhere(r) && Enabled(r, Edit(source, targets, writes, point))
    ensures Everywhere(Perform(r, ranges, Edit(source, targets, writes, point)))
  {
    var values := H.Current(r);
    AdvanceKeepsEverywhere(r);
    var command := Command(values, source, targets, writes);
    WritesKeepTheMirrorExactly(values, ranges, source, targets, writes);
    match G.Prepare(values, ranges, map[], command)
    case None =>
    case Some(staged) =>
      G.StagedKeysAreKnown(values, ranges, command);
      assert H.Overwrite(values, staged) == values + staged;
      WriteKeepsEverywhere(H.Opened(r, point), staged);
  }

  ghost predicate AllEnabled(r: Rings, ranges: G.Ranges<Key>, events: seq<Event>)
    requires H.Valid(r)
    decreases |events|
  {
    events != [] ==> Enabled(r, events[0]) && AllEnabled(Perform(r, ranges, events[0]), ranges, events[1..])
  }

  ghost function Run(r: Rings, ranges: G.Ranges<Key>, events: seq<Event>): (q: Rings)
    requires H.Valid(r) && AllEnabled(r, ranges, events)
    ensures H.Valid(q)
    decreases |events|
  {
    if events == [] then r else Run(Perform(r, ranges, events[0]), ranges, events[1..])
  }

  /** In every slot of every reachable state the active compression values of every instance equal
      those of the profile its type selects. */
  lemma {:induction false} RunKeepsTheMirrorEverywhere(r: Rings, ranges: G.Ranges<Key>, events: seq<Event>)
    requires H.Valid(r) && Everywhere(r) && AllEnabled(r, ranges, events)
    ensures Everywhere(Run(r, ranges, events))
    decreases |events|
  {
    if events != [] {
      EventKeepsEverywhere(r, ranges, events[0]);
      RunKeepsTheMirrorEverywhere(Perform(r, ranges, events[0]), ranges, events[1..]);
    }
  }

  lemma EmptyIsMirrored()
    ensures Everywhere(H.Empty())
  {
  }
}
