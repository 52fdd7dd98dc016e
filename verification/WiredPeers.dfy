/**
  The peers that the write handler stages are those of the peer observers: resolved in the edit context,
  they make the handler's world well wired, and no two entries of a command reach a common value.
 */
module WiredPeers {
  import opened Common
  import opened StateValues
  import opened Topology
  import opened PeerObservers
  import E = StateEdits
  import G = GroupEdits

  /** The observed values, how far edits reach, and where the values are stored. */
  datatype World = World(groups: BankGroups, values: ByAddress, banks: ByBank,
                         reach: Reach, at: map<Observed, StateValue>)

  function PeersIn(world: World, v: Observed): set<Observed> {
    MutationPeers(world.groups, world.values, world.banks, v, world.reach)
  }

  /** Every attached value is stored at a place of its own, and values of one type hold one kind. */
  ghost predicate Stored(world: World) {
    && Indexed(world.values, world.banks)
    && (forall a :: a in world.values ==> world.values[a] in world.at)
    && (forall v, w :: v in world.at && w in world.at && world.at[v] == world.at[w] ==> v == w)
    && (forall v, w :: v in world.at && w in world.at && v.valueType == w.valueType ==>
          E.SameKind(world.at[v].initialValue, world.at[w].initialValue))
  }

  /** `list` lists the peers of `v`, each of them once. */
  ghost predicate ListsPeers(world: World, v: Observed, list: seq<StateValue>) {
    && Distinct(list)
    && (forall w :: w in PeersIn(world, v) ==> w in world.at && world.at[w] in list)
    && (forall x :: x in list ==> exists w :: w in PeersIn(world, v) && w in world.at && world.at[w] == x)
  }

  ghost predicate ListsAll(world: World, peers: E.Peers) {
    && (forall x :: x in peers ==>
         exists a :: a in world.values && world.values[a] in world.at && world.at[world.values[a]] == x)
    && (forall a :: a in world.values && world.values[a] in world.at ==>
          && world.at[world.values[a]] in peers
          && ListsPeers(world, world.values[a], peers[world.at[world.values[a]]]))
  }

  /** The leaves of the tree of instance `i` are its values, each at its own path. */
  ghost predicate IsTreeOf(world: World, tree: E.Tree, i: InstanceId) {
    forall path :: path in tree && tree[path].Leaf? ==>
      && (i, path) in world.values && world.values[(i, path)] in world.at
      && tree[path].value == world.at[world.values[(i, path)]]
  }

  /** The handler's world is well wired. */
  lemma PeersAreWired(world: World, contents: E.Snapshot, tree: E.Tree, peers: E.Peers, i: InstanceId)
    requires Stored(world) && ListsAll(world, peers) && IsTreeOf(world, tree, i)
    requires forall x :: x in contents ==> E.SameKind(contents[x], x.initialValue)
    requires forall v :: v in world.at ==> world.at[v] in contents
    ensures E.Wired(contents, tree, peers)
  {
    forall x | x in peers
      ensures x in peers[x]
      ensures forall p :: p in peers[x] ==> p in contents && E.SameKind(p.initialValue, x.initialValue)
    {
      var a :| a in world.values && world.values[a] in world.at && world.at[world.values[a]] == x;
      var v := world.values[a];
      assert Attached(world.values, v) && ListsPeers(world, v, peers[x]);
      EditsReachTheirSource(world.groups, world.values, world.banks, v, world.reach);
    }
  }

  lemma {:induction false} AcceptedPathsDiffer(tree: E.Tree, entries: seq<E.WriteEntry>, seen: set<Path>)
    requires E.Complaint(tree, entries, seen).None?
    ensures forall k :: 0 <= k < |entries| ==> entries[k].path !in seen
    ensures forall k, l :: 0 <= k < l < |entries| ==> entries[k].path != entries[l].path
    decreases |entries|
  {
    if entries != [] {
      AcceptedPathsDiffer(tree, entries[1..], seen + {entries[0].path});
      assert forall k :: 0 < k < |entries| ==> entries[k] == entries[1..][k - 1];
    }
  }

  lemma {:induction false} WritesAt(tree: E.Tree, peers: E.Peers, entries: seq<E.WriteEntry>)
    ensures var writes := E.Writes(tree, peers, entries);
      && |writes| <= |entries|
      && forall k :: 0 <= k < |writes| ==>
           && E.IsLeaf(tree, entries[k]) && tree[entries[k].path].value in peers
           && writes[k].source == tree[entries[k].path].value && writes[k].peers == peers[writes[k].source]
           && writes[k].value == entries[k].value && writes[k].mode == entries[k].mode
    decreases |entries|
  {
    if entries != [] && E.IsLeaf(tree, entries[0]) && tree[entries[0].path].value in peers {
      WritesAt(tree, peers, entries[1..]);
      var writes := E.Writes(tree, peers, entries);
      assert forall k :: 0 < k < |writes| ==> writes[k] == E.Writes(tree, peers, entries[1..])[k - 1];
    }
  }

  /** Two values of one instance have no listed peer in common. */
  lemma ListsAreApart(world: World, v: Observed, w: Observed, first: seq<StateValue>, second: seq<StateValue>,
                      x: StateValue)
    requires Stored(world) && Attached(world.values, v) && Attached(world.values, w) && OneBankPerInstance(world.groups)
    requires v != w && v.instanceId == w.instanceId && ListsPeers(world, v, first) && ListsPeers(world, w, second)
    requires x in first
    ensures x !in second
  {
    EditsOfOneInstanceAreApart(world.groups, world.values, world.banks, v, w, world.reach);
  }

  /** The entries of an acceptable command reach no value twice, as long as no group holds two banks of
      one instance. */
  lemma EntriesAreSeparate(world: World, tree: E.Tree, peers: E.Peers, entries: seq<E.WriteEntry>, i: InstanceId)
    requires Stored(world) && ListsAll(world, peers) && IsTreeOf(world, tree, i) && OneBankPerInstance(world.groups)
    requires E.Complaint(tree, entries, {}).None?
    ensures G.Separate(E.Writes(tree, peers, entries))
  {
    var writes := E.Writes(tree, peers, entries);
    AcceptedPathsDiffer(tree, entries, {});
    WritesAt(tree, peers, entries);
    forall k | 0 <= k < |writes|
      ensures (i, entries[k].path) in world.values
      ensures ListsPeers(world, world.values[(i, entries[k].path)], writes[k].peers)
    {
      assert E.IsLeaf(tree, entries[k]);
    }
    forall k, l, x | 0 <= k < l < |writes| && x in writes[k].peers ensures x !in writes[l].peers {
      var v, w := world.values[(i, entries[k].path)], world.values[(i, entries[l].path)];
      assert v.Address() == (i, entries[k].path) && w.Address() == (i, entries[l].path);
      ListsAreApart(world, v, w, writes[k].peers, writes[l].peers, x);
    }
  }
}
