/**
  Which compression values a command reaches by its path. The wire has no name for a profile, so no
  command that was decoded writes or resets a profile without its active values; that is what keeps the
  mirror. The second half says that the reset handler gives initial values to exactly what lies below
  the path of a reset.
 */
module CompressionPaths {
  import opened Common
  import opened StateValues
  import opened CompressionMirror
  import G = GroupEdits
  import H = HistoryModel
  import S = StatePaths
  import E = StateEdits
  import R = StateResets

  // Paths from the wire

  lemma {:induction false} SegmentsAvoidProfiles(atoms: seq<S.Atom>, path: Path)
    requires PROFILE !in path
    ensures S.Segments(atoms, path).Some? ==> PROFILE !in S.Segments(atoms, path).value
    decreases |atoms|
  {
    if atoms != [] {
      var segment := S.Segment(atoms, path);
      if segment.Some? {
        SegmentAvoidsProfiles(atoms, path);
        SegmentsAvoidProfiles(atoms[segment.value.1..], segment.value.0);
      }
    }
  }

  lemma SegmentAvoidsProfiles(atoms: seq<S.Atom>, path: Path)
    requires atoms != [] && PROFILE !in path
    ensures S.Segment(atoms, path).Some? ==> PROFILE !in S.Segment(atoms, path).value.0
  {
    var symbol := S.ReadSymbol(atoms);
    if symbol.Some? {
      NamesAvoidProfiles(symbol.value);
    }
  }

  lemma NamesAvoidProfiles(name: string)
    ensures S.ToNode(name) != Some(PROFILE) && S.ToDeviceNode(name) != Some(PROFILE)
    ensures S.ToDetectorNode(name) != Some(PROFILE)
  {
  }

  /** No path that the decoder accepts leads into a profile. */
  lemma DecodedAvoidsProfiles(atoms: seq<S.Atom>, allowContainer: bool)
    ensures S.Decoded(atoms, allowContainer).Some? ==> PROFILE !in S.Decoded(atoms, allowContainer).value
  {
    var first := S.ReadSymbol(atoms);
    if first.Some? {
      NamesAvoidProfiles(first.value);
      if S.ToDeviceNode(first.value).Some? {
        SegmentsAvoidProfiles(atoms[1..], [S.DSP, S.ToDeviceNode(first.value).value]);
      }
    }
  }

  /** A decoded path that a profile entry lies below is one that every compression value lies below. */
  lemma DecodedReachesProfilesFromAbove(atoms: seq<S.Atom>, allowContainer: bool, k: Key)
    requires k.Profile? && IsKeyOf(k, k.instance)
    requires S.Decoded(atoms, allowContainer).Some? && S.Decoded(atoms, allowContainer).value <= PathOf(k)
    ensures |S.Decoded(atoms, allowContainer).value| <= 2
  {
    DecodedAvoidsProfiles(atoms, allowContainer);
  }

  /** Every decoded reset of anything but a leaf of the edit keeps the mirror. */
  lemma WireResetsAreEnabled(r: Rings, targets: seq<InstanceId>, atoms: seq<S.Atom>, allowContainer: bool, point: bool)
    requires H.Valid(r) && Mirror(H.Current(r)) && S.Decoded(atoms, allowContainer).Some?
    requires !IsLeaf(S.Decoded(atoms, allowContainer).value)
    ensures Enabled(r, Reset(targets, S.Decoded(atoms, allowContainer).value, point))
  {
    var values, path := H.Current(r), S.Decoded(atoms, allowContainer).value;
    forall i, n | Type(i) in values && 0 <= n < PARAMETERS && ReachesOnlySelected(values, targets, path, i, n)
      ensures false
    {
      DecodedReachesProfilesFromAbove(atoms, allowContainer, Profile(i, values[Type(i)].integer, n));
    }
  }

  /** The entry writes the leaf at `path`, in every instance it reaches. */
  predicate Addresses(w: Write, path: Path) {
    match w
    case SetType(_, _) => path == [S.DSP, COMPRESSION, TYPE]
    case SetParameter(n, _, _) => n < PARAMETERS && path == PathOf(Active(0, n))
    case SetOther(e) => forall p :: p in e.peers && !p.Other? ==> IsKeyOf(p, p.instance) && PathOf(p) == path
  }

  predicate Decodes(writes: seq<Write>, atoms: seq<seq<S.Atom>>) {
    && |atoms| == |writes|
    && forall i :: 0 <= i < |writes| ==>
         S.Decoded(atoms[i], false).Some? && Addresses(writes[i], S.Decoded(atoms[i], false).value)
  }

  lemma DecodedWritesLeaveProfiles(writes: seq<Write>, atoms: seq<seq<S.Atom>>)
    requires WellFormed(writes) && Decodes(writes, atoms)
    ensures LeavesProfiles(writes)
  {
    forall w, p | w in writes && w.SetOther? && p in w.entry.peers ensures p.Other? {
      var i :| 0 <= i < |writes| && writes[i] == w;
      if p.Profile? {
        DecodedReachesProfilesFromAbove(atoms[i], false, p);
      }
    }
  }

  /** Every decoded write command whose entries reach no value twice keeps the mirror. */
  lemma WireWritesAreEnabled(r: Rings, source: InstanceId, targets: seq<InstanceId>, writes: seq<Write>,
                             atoms: seq<seq<S.Atom>>, point: bool)
    requires H.Valid(r) && Mirror(H.Current(r)) && WellFormed(writes) && Decodes(writes, atoms)
    requires Type(source) in H.Current(r) && (forall t :: t in targets ==> Type(t) in H.Current(r)) && Distinct(targets)
    requires G.AllKnown(H.Current(r), Entries(source, targets, writes)) && G.Separate(Entries(source, targets, writes))
    ensures Enabled(r, Edit(source, targets, writes, point))
  {
    DecodedWritesLeaveProfiles(writes, atoms);
    NothingIsChangedDirectly(H.Current(r), source, targets, writes);
  }

  // Resets of the state tree

  /** The values below a node, in order. */
  function Leaves(node: R.ResetNode): seq<StateValue>
    decreases node
  {
    match node
    case Branch(children) => LeavesOf(children)
    case Value(v) => [v]
    case NoValue => []
  }

  function LeavesOf(children: seq<R.ResetNode>): seq<StateValue>
    decreases children
  {
    if children == [] then [] else Leaves(children[0]) + LeavesOf(children[1..])
  }

  ghost predicate IsPeerOf(v: StateValue, leaves: seq<StateValue>, peers: E.Peers) {
    exists leaf :: leaf in leaves && leaf in peers && v in peers[leaf]
  }

  lemma {:induction false} TargetsArePeers(node: R.ResetNode, peers: E.Peers, v: StateValue)
    ensures v in R.Targets(node, peers) <==> IsPeerOf(v, Leaves(node), peers)
    decreases node
  {
    match node
    case Branch(children) => TargetsOfArePeers(children, peers, v);
    case Value(leaf) => assert leaf in Leaves(node);
    case NoValue =>
  }

  lemma {:induction false} TargetsOfArePeers(children: seq<R.ResetNode>, peers: E.Peers, v: StateValue)
    ensures v in R.TargetsOf(children, peers) <==> IsPeerOf(v, LeavesOf(children), peers)
    decreases children
  {
    if children != [] {
      TargetsArePeers(children[0], peers, v);
      TargetsOfArePeers(children[1..], peers, v);
      assert forall leaf :: leaf in LeavesOf(children) <==>
        leaf in Leaves(children[0]) || leaf in LeavesOf(children[1..]);
    }
  }

  /** Where the compression values are stored. */
  type Places = map<Key, StateValue>

  predicate ProperPlaces(at: Places) {
    && (forall k :: k in at ==> !k.Other? && IsKeyOf(k, k.instance) && at[k].initialValue == InitialValue(k))
    && (forall k, l :: k in at && l in at && at[k] == at[l] ==> k == l)
  }

  function Moved(k: Key, i: InstanceId): Key
    requires !k.Other?
  {
    match k
    case Type(_) => Type(i)
    case Active(_, n) => Active(i, n)
    case Profile(_, p, n) => Profile(i, p, n)
  }

  /** An edit of a compression value reaches the values at the same place in the targets. */
  ghost predicate Grouped(at: Places, peers: E.Peers, source: InstanceId, targets: seq<InstanceId>)
    requires ProperPlaces(at)
  {
    forall k :: k in at && k.instance == source ==>
      && at[k] in peers
      && (forall v :: v in peers[at[k]] ==> exists t :: t in targets && Moved(k, t) in at && at[Moved(k, t)] == v)
      && (forall t :: t in targets && Moved(k, t) in at ==> at[Moved(k, t)] in peers[at[k]])
  }

  /** `node` is what the tree of `source` holds at `path`, as far as compression is concerned; its other
      leaves, and their peers, are other values. */
  ghost predicate IsNodeAt(node: R.ResetNode, path: Path, at: Places, peers: E.Peers, source: InstanceId)
    requires ProperPlaces(at)
  {
    && (forall k :: k in at ==> (at[k] in Leaves(node) <==> k.instance == source && path <= PathOf(k)))
    && (forall v, p :: v in Leaves(node) && v !in at.Values && v in peers && p in peers[v] ==> p !in at.Values)
  }

  // The compression branch of the state tree

  function LeafNodes(at: Places, keys: seq<Key>): seq<R.ResetNode>
    requires forall k :: k in keys ==> k in at
  {
    if keys == [] then [] else [R.Value(at[keys[0]])] + LeafNodes(at, keys[1..])
  }

  function ProfileKeys(i: InstanceId, p: nat): seq<Key> {
    [Profile(i, p, 0), Profile(i, p, 1), Profile(i, p, 2), Profile(i, p, 3), Profile(i, p, 4)]
  }

  function ActiveKeysOf(i: InstanceId): seq<Key> {
    [Type(i), Active(i, 0), Active(i, 1), Active(i, 2), Active(i, 3), Active(i, 4)]
  }

  ghost predicate HasInstance(at: Places, i: InstanceId) {
    forall k :: IsKeyOf(k, i) ==> k in at
  }

  function ProfileNode(at: Places, i: InstanceId, p: nat): R.ResetNode
    requires forall k :: k in ProfileKeys(i, p) ==> k in at
  {
    R.Branch(LeafNodes(at, ProfileKeys(i, p)))
  }

  ghost function ProfilesNode(at: Places, i: InstanceId): R.ResetNode
    requires HasInstance(at, i)
  {
    R.Branch(seq(PROFILES, p requires 0 <= p < PROFILES => ProfileNode(at, i, p)))
  }

  /** The compression node; `others` are its bypass, its parallel switch and its detector. */
  ghost function CompressionNode(at: Places, i: InstanceId, others: seq<R.ResetNode>): R.ResetNode
    requires HasInstance(at, i)
  {
    R.Branch(LeafNodes(at, ActiveKeysOf(i)) + ([ProfilesNode(at, i)] + others))
  }

  lemma {:induction false} LeavesAreKeys(at: Places, keys: seq<Key>, k: Key)
    requires ProperPlaces(at) && (forall l :: l in keys ==> l in at) && k in at
    ensures at[k] in LeavesOf(LeafNodes(at, keys)) <==> k in keys
    ensures forall v :: v in LeavesOf(LeafNodes(at, keys)) ==> v in at.Values
    decreases |keys|
  {
    if keys != [] {
      LeavesAreKeys(at, keys[1..], k);
      assert Leaves(R.Value(at[keys[0]])) == [at[keys[0]]];
      assert LeafNodes(at, keys)[1..] == LeafNodes(at, keys[1..]);
      assert k in keys <==> k == keys[0] || k in keys[1..];
    }
  }

  lemma {:induction false} LeavesOfAppend(a: seq<R.ResetNode>, b: seq<R.ResetNode>)
    ensures LeavesOf(a + b) == LeavesOf(a) + LeavesOf(b)
    decreases |a|
  {
    if a == [] {
      assert a + b == b;
    } else {
      assert (a + b)[0] == a[0] && (a + b)[1..] == a[1..] + b;
      LeavesOfAppend(a[1..], b);
    }
  }

  /** The compression values among the leaves are those that `path` leads to, in instance `i`. */
  ghost predicate Holds(leaves: seq<StateValue>, at: Places, i: InstanceId, path: Path)
    requires ProperPlaces(at)
  {
    forall k :: k in at ==> (at[k] in leaves <==> k.instance == i && path <= PathOf(k))
  }

  ghost predicate OnlyPlaces(leaves: seq<StateValue>, at: Places) {
    forall v :: v in leaves ==> v in at.Values
  }

  function ProfilePath(p: nat): Path { [S.DSP, COMPRESSION, PROFILE, FIRST_PROFILE + p] }

  lemma PlaceOfProfile(p: nat, k: Key)
    requires !k.Other? && IsKeyOf(k, k.instance)
    ensures ProfilePath(p) <= PathOf(k) <==> k.Profile? && k.profile == p
  {
    var path := ProfilePath(p);
    assert path[3] == FIRST_PROFILE + p;
    if k.Profile? {
      assert PathOf(k)[3] == FIRST_PROFILE + k.profile && PathOf(k)[..4] == ProfilePath(k.profile);
    }
  }

  lemma ProfileHolds(at: Places, i: InstanceId, p: nat)
    requires ProperPlaces(at) && HasInstance(at, i) && p < PROFILES
    ensures Holds(Leaves(ProfileNode(at, i, p)), at, i, ProfilePath(p)) && OnlyPlaces(Leaves(ProfileNode(at, i, p)), at)
  {
    forall k | k in at
      ensures at[k] in Leaves(ProfileNode(at, i, p)) <==> k.instance == i && ProfilePath(p) <= PathOf(k)
    {
      LeavesAreKeys(at, ProfileKeys(i, p), k);
      PlaceOfProfile(p, k);
      assert k in ProfileKeys(i, p) <==> k.instance == i && k.Profile? && k.profile == p;
    }
    assert IsKeyOf(Type(i), i);
    LeavesAreKeys(at, ProfileKeys(i, p), Type(i));
  }

  lemma {:induction false} ProfileLeaves(nodes: seq<R.ResetNode>, p: nat, at: Places, i: InstanceId, k: Key)
    requires ProperPlaces(at) && p <= |nodes| == PROFILES && k in at
    requires forall q :: 0 <= q < PROFILES ==>
      Holds(Leaves(nodes[q]), at, i, ProfilePath(q)) && OnlyPlaces(Leaves(nodes[q]), at)
    ensures at[k] in LeavesOf(nodes[p..]) <==> k.instance == i && k.Profile? && k.profile >= p
    ensures OnlyPlaces(LeavesOf(nodes[p..]), at)
    decreases PROFILES - p
  {
    if p < PROFILES {
      ProfileLeaves(nodes, p + 1, at, i, k);
      assert nodes[p..][0] == nodes[p] && nodes[p..][1..] == nodes[p + 1..];
      PlaceOfProfile(p, k);
    }
  }

  lemma AllProfilesHold(at: Places, i: InstanceId)
    requires ProperPlaces(at) && HasInstance(at, i)
    ensures Holds(Leaves(ProfilesNode(at, i)), at, i, [S.DSP, COMPRESSION, PROFILE])
    ensures OnlyPlaces(Leaves(ProfilesNode(at, i)), at)
  {
    var nodes := ProfilesNode(at, i).children;
    forall p | 0 <= p < PROFILES
      ensures Holds(Leaves(nodes[p]), at, i, ProfilePath(p)) && OnlyPlaces(Leaves(nodes[p]), at)
    {
      ProfileHolds(at, i, p);
    }
    assert nodes[0..] == nodes && IsKeyOf(Type(i), i);
    forall k | k in at
      ensures at[k] in LeavesOf(nodes) <==> k.instance == i && [S.DSP, COMPRESSION, PROFILE] <= PathOf(k)
    {
      ProfileLeaves(nodes, 0, at, i, k);
    }
    ProfileLeaves(nodes, 0, at, i, Type(i));
  }

  /** The profile node reaches all profiles of its instance and nothing else. */
  lemma ProfilesAreAt(at: Places, peers: E.Peers, i: InstanceId)
    requires ProperPlaces(at) && HasInstance(at, i)
    ensures IsNodeAt(ProfilesNode(at, i), [S.DSP, COMPRESSION, PROFILE], at, peers, i)
  {
    AllProfilesHold(at, i);
  }

  /** The compression node reaches all compression values of its instance, besides the `others`. */
  lemma CompressionIsAt(at: Places, peers: E.Peers, i: InstanceId, others: seq<R.ResetNode>)
    requires ProperPlaces(at) && HasInstance(at, i)
    requires forall v :: v in LeavesOf(others) ==>
      v !in at.Values && (v in peers ==> forall p :: p in peers[v] ==> p !in at.Values)
    ensures IsNodeAt(CompressionNode(at, i, others), [S.DSP, COMPRESSION], at, peers, i)
  {
    AllProfilesHold(at, i);
    ActiveHold(at, i);
    Joined(LeafNodes(at, ActiveKeysOf(i)), ProfilesNode(at, i), others);
    ThreeParts(CompressionNode(at, i, others), LeavesOf(LeafNodes(at, ActiveKeysOf(i))), Leaves(ProfilesNode(at, i)),
               LeavesOf(others), at, peers, i);
  }

  lemma ActiveHold(at: Places, i: InstanceId)
    requires ProperPlaces(at) && HasInstance(at, i)
    ensures forall k :: k in at ==>
      (at[k] in LeavesOf(LeafNodes(at, ActiveKeysOf(i))) <==> k.instance == i && !k.Profile?)
    ensures OnlyPlaces(LeavesOf(LeafNodes(at, ActiveKeysOf(i))), at)
  {
    forall k | k in at ensures at[k] in LeavesOf(LeafNodes(at, ActiveKeysOf(i))) <==> k.instance == i && !k.Profile? {
      LeavesAreKeys(at, ActiveKeysOf(i), k);
      assert k in ActiveKeysOf(i) <==> k.instance == i && !k.Profile?;
    }
    assert IsKeyOf(Type(i), i);
    LeavesAreKeys(at, ActiveKeysOf(i), Type(i));
  }

  lemma ThreeParts(node: R.ResetNode, active: seq<StateValue>, profiles: seq<StateValue>, others: seq<StateValue>,
                   at: Places, peers: E.Peers, i: InstanceId)
    requires ProperPlaces(at) && Leaves(node) == active + (profiles + others)
    requires forall k :: k in at ==> (at[k] in active <==> k.instance == i && !k.Profile?)
    requires Holds(profiles, at, i, [S.DSP, COMPRESSION, PROFILE]) && OnlyPlaces(active, at) && OnlyPlaces(profiles, at)
    requires forall v :: v in others ==>
      v !in at.Values && (v in peers ==> forall p :: p in peers[v] ==> p !in at.Values)
    ensures IsNodeAt(node, [S.DSP, COMPRESSION], at, peers, i)
  {
    forall k | k in at ensures at[k] in Leaves(node) <==> k.instance == i && [S.DSP, COMPRESSION] <= PathOf(k) {
      assert at[k] in at.Values;
      assert [S.DSP, COMPRESSION, PROFILE] <= PathOf(k) <==> k.Profile?;
    }
  }

  lemma Joined(first: seq<R.ResetNode>, middle: R.ResetNode, last: seq<R.ResetNode>)
    ensures Leaves(R.Branch(first + ([middle] + last))) == LeavesOf(first) + (Leaves(middle) + LeavesOf(last))
  {
    LeavesOfAppend(first, [middle] + last);
    assert ([middle] + last)[1..] == last;
  }

  lemma ResetReaches(node: R.ResetNode, path: Path, at: Places, peers: E.Peers, source: InstanceId,
                     targets: seq<InstanceId>, k: Key)
    requires ProperPlaces(at) && Grouped(at, peers, source, targets) && IsNodeAt(node, path, at, peers, source)
    requires k in at && Moved(k, source) in at && IsReset(targets, path, k)
    ensures at[k] in R.Targets(node, peers)
  {
    TargetsArePeers(node, peers, at[k]);
    var origin := Moved(k, source);
    assert PathOf(origin) == PathOf(k) && Moved(origin, k.instance) == k;
    assert at[origin] in Leaves(node) && at[k] in peers[at[origin]];
  }

  lemma MovedKeepsItsPath(k: Key, i: InstanceId)
    requires !k.Other? && IsKeyOf(k, k.instance)
    ensures IsKeyOf(Moved(k, i), i) && PathOf(Moved(k, i)) == PathOf(k)
  {
  }

  /** A reset compression value is the peer of one below the path. */
  lemma Origin(node: R.ResetNode, path: Path, at: Places, peers: E.Peers, source: InstanceId, v: StateValue)
    returns (origin: Key)
    requires ProperPlaces(at) && IsNodeAt(node, path, at, peers, source)
    requires v in at.Values && v in R.Targets(node, peers)
    ensures origin in at && origin.instance == source && path <= PathOf(origin)
    ensures at[origin] in peers && v in peers[at[origin]]
  {
    TargetsArePeers(node, peers, v);
    var leaf :| leaf in Leaves(node) && leaf in peers && v in peers[leaf];
    assert leaf in at.Values;
    origin :| origin in at && at[origin] == leaf;
  }

  lemma ReachedAreReset(node: R.ResetNode, path: Path, at: Places, peers: E.Peers, source: InstanceId,
                        targets: seq<InstanceId>, k: Key)
    requires ProperPlaces(at) && Grouped(at, peers, source, targets) && IsNodeAt(node, path, at, peers, source)
    requires k in at && at[k] in R.Targets(node, peers)
    ensures IsReset(targets, path, k)
  {
    assert at[k] in at.Values;
    var origin := Origin(node, path, at, peers, source, at[k]);
    var t :| t in targets && Moved(origin, t) in at && at[Moved(origin, t)] == at[k];
    MovedKeepsItsPath(origin, t);
  }

  function Shown(values: E.Snapshot, at: Places): Values
    requires forall k :: k in at ==> at[k] in values
  {
    map k | k in at :: values[at[k]]
  }

  /** An accepted reset of the node at `path` is, for the compression values, the reset of everything
      below that path in every target. */
  lemma ResetsAreResetsBelow(values: E.Snapshot, node: R.ResetNode, path: Path, at: Places, peers: E.Peers,
                             source: InstanceId, targets: seq<InstanceId>)
    requires ProperPlaces(at) && Grouped(at, peers, source, targets) && IsNodeAt(node, path, at, peers, source)
    requires forall k :: k in at ==> at[k] in values && Moved(k, source) in at
    requires forall v :: v in R.Targets(node, peers) ==> v in values
    ensures E.DerivedTyped(values, [])
    ensures var effect := R.ResetEffect(values, [], R.Targets(node, peers));
      && (effect.Some? <==> R.ReachedOnce(values, R.Targets(node, peers)))
      && (effect.Some? ==> effect.value.Keys <= values.Keys)
      && (effect.Some? ==> Shown(values + effect.value, at) == ResetBelow(Shown(values, at), targets, path))
  {
    R.ResetRestoresInitialValues(values, map[], R.Targets(node, peers));
    assert E.Direct([]) == [];
    assert R.ResetEffect(values, [], R.Targets(node, peers)) == R.ResetAll(values, map[], R.Targets(node, peers));
    forall k | k in at ensures at[k] in R.Targets(node, peers) <==> IsReset(targets, path, k) {
      if IsReset(targets, path, k) {
        ResetReaches(node, path, at, peers, source, targets, k);
      }
      if at[k] in R.Targets(node, peers) {
        ReachedAreReset(node, path, at, peers, source, targets, k);
      }
    }
  }
}
