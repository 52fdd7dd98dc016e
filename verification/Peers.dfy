/**
  Peer observers: every state value carries the set of values an edit of it reaches. Bank values are
  cached per class, values that follow the focused bank per contextual key. The caches are refreshed
  for the instances a topology change affects; the proofs say that this is enough.
 */
module PeerObservers {
  import opened Common
  import opened Topology

  predicate IsBankNode(node: nat) {
    FIRST_BANK <= node < FIRST_BANK + BANK_COUNT
  }

  /** The bank a path runs through, taken from its first bank node. */
  function FirstBank(path: Path): (bank: Option<nat>)
    ensures bank.None? <==> forall i :: 0 <= i < |path| ==> !IsBankNode(path[i])
    ensures bank.Some? ==> bank.value < BANK_COUNT
  {
    if path == [] then None
    else if IsBankNode(path[0]) then Some(path[0] - FIRST_BANK)
    else FirstBank(path[1..])
  }

  /** An observed value; what the model needs of it never changes. */
  datatype Observed = Observed(instanceId: InstanceId, path: Path, valueType: nat, groupScope: bool) {
    function Bank(): Option<BankAddress> {
      match FirstBank(path)
      case None => None
      case Some(bank) => Some(BankAddress(instanceId, bank))
    }

    /** The path with the bank taken out, shared by the values that may be peers. */
    function PeerPath(): Path {
      if Bank().None? then path
      else seq(|path|, i requires 0 <= i < |path| => if IsBankNode(path[i]) then FIRST_BANK else path[i])
    }

    /** Edited together with the same value of the other banks of its group. */
    predicate BankScoped() { groupScope && Bank().Some? }

    /** Edited together with the same value of the instances connected to the focused bank. */
    predicate FollowsFocus() { groupScope && Bank().None? }

    function Address(): (InstanceId, Path) { (instanceId, path) }
  }

  datatype BankValue = BankValue(bank: BankAddress, peerPath: Path, valueType: nat)

  datatype ContextKey = ContextKey(instanceId: InstanceId, path: Path, valueType: nat, focusedBank: Option<BankAddress>)

  type ByAddress = map<(InstanceId, Path), Observed>

  type ByBank = map<BankValue, Observed>

  function BankKey(v: Observed): BankValue
    requires v.Bank().Some?
  {
    BankValue(v.Bank().value, v.PeerPath(), v.valueType)
  }

  predicate Attached(values: ByAddress, v: Observed) {
    v.Address() in values && values[v.Address()] == v
  }

  /** Both value indexes list the attached values, each under its own key, and values that may be
      peers have the same scope. */
  ghost predicate Indexed(values: ByAddress, banks: ByBank) {
    && (forall a {:trigger values[a]} :: a in values ==> values[a].Address() == a)
    && (forall k {:trigger banks[k]} :: k in banks ==>
          Attached(values, banks[k]) && banks[k].Bank().Some? && BankKey(banks[k]) == k)
    && (forall v {:trigger Attached(values, v)} :: Attached(values, v) && v.Bank().Some? ==>
          BankKey(v) in banks && banks[BankKey(v)] == v)
    && (forall k, l :: k in banks && l in banks && k.peerPath == l.peerPath && k.valueType == l.valueType ==>
          banks[k].groupScope == banks[l].groupScope)
  }

  // Fresh resolution

  function ResolvePeers(groups: BankGroups, banks: ByBank, v: Observed): set<Observed> {
    if !v.BankScoped() then {v}
    else
      set b | b in Peers(groups, v.Bank().value) && BankValue(b, v.PeerPath(), v.valueType) in banks ::
        banks[BankValue(b, v.PeerPath(), v.valueType)]
  }

  function ContextInstances(groups: BankGroups, instanceId: InstanceId,
                            focusedBank: Option<BankAddress>): set<InstanceId> {
    if focusedBank.Some? && focusedBank.value.instanceId == instanceId
    then Instances(Peers(groups, focusedBank.value)) + {instanceId}
    else {instanceId}
  }

  function ResolveFocusedPeers(groups: BankGroups, values: ByAddress, key: ContextKey): set<Observed> {
    set i | i in ContextInstances(groups, key.instanceId, key.focusedBank) &&
            (i, key.path) in values && values[(i, key.path)].valueType == key.valueType ::
      values[(i, key.path)]
  }

  /** Two values belong together: same peer path, same type, connected banks. */
  predicate SameClass(groups: BankGroups, v: Observed, w: Observed) {
    && v.Bank().Some? && w.Bank().Some?
    && w.Bank().value in Peers(groups, v.Bank().value)
    && v.PeerPath() == w.PeerPath() && v.valueType == w.valueType
  }

  /** Resolution finds exactly the attached values of the class. */
  lemma ResolutionFindsTheClass(groups: BankGroups, values: ByAddress, banks: ByBank, v: Observed, w: Observed)
    requires Indexed(values, banks) && v.BankScoped()
    ensures w in ResolvePeers(groups, banks, v) <==> Attached(values, w) && SameClass(groups, v, w)
  {
  }

  /** All members of a resolved set resolve to that very set. */
  lemma MembersResolveAlike(groups: BankGroups, values: ByAddress, banks: ByBank, v: Observed, w: Observed)
    requires Indexed(values, banks) && Attached(values, v) && w in ResolvePeers(groups, banks, v)
    ensures ResolvePeers(groups, banks, w) == ResolvePeers(groups, banks, v)
    ensures Attached(values, w)
  {
  }

  // Partition

  ghost predicate Fresh(groups: BankGroups, values: ByAddress, banks: ByBank, peers: map<Observed, set<Observed>>,
                        v: Observed) {
    v in peers && peers[v] == ResolvePeers(groups, banks, v)
  }

  /** When every set is fresh, the sets of the bank-scoped values are exactly the classes of
      (group, peer path, type): each value lies in its own set, two sets are equal or disjoint, and
      they are equal exactly for values of one class. */
  lemma FreshSetsPartition(groups: BankGroups, values: ByAddress, banks: ByBank, peers: map<Observed, set<Observed>>,
                           v: Observed, w: Observed)
    requires Indexed(values, banks)
    requires Attached(values, v) && Attached(values, w) && v.BankScoped() && w.BankScoped()
    requires Fresh(groups, values, banks, peers, v) && Fresh(groups, values, banks, peers, w)
    ensures v in peers[v]
    ensures peers[v] == peers[w] || peers[v] !! peers[w]
    ensures peers[v] == peers[w] <==> SameClass(groups, v, w)
  {
  }

  // Edits

  datatype Reach = Alone | Group(focusedBank: Option<BankAddress>)

  /** The peers an edit of `v` reaches. */
  function MutationPeers(groups: BankGroups, values: ByAddress, banks: ByBank, v: Observed,
                         reach: Reach): set<Observed> {
    if reach.Alone? then {v}
    else if v.FollowsFocus() then ResolveFocusedPeers(groups, values, KeyFor(v, reach.focusedBank))
    else ResolvePeers(groups, banks, v)
  }

  /** Edited together because the focused bank connects their instances: the same value of an instance that has
      a bank connected to the focused bank of the edited one. */
  ghost predicate SharesFocus(groups: BankGroups, v: Observed, w: Observed, focusedBank: Option<BankAddress>) {
    && v.path == w.path && v.valueType == w.valueType
    && focusedBank.Some? && focusedBank.value.instanceId == v.instanceId
    && exists b :: b in Peers(groups, focusedBank.value) && b.instanceId == w.instanceId
  }

  /** Exactly the values that an edit reaches: the edited one, and in a group edit its class, if it lies in a
      bank, or the values that share its focus, if it does not. */
  lemma EditsReachExactly(groups: BankGroups, values: ByAddress, banks: ByBank, v: Observed, reach: Reach, w: Observed)
    requires Indexed(values, banks) && Attached(values, v)
    ensures w in MutationPeers(groups, values, banks, v, reach) <==>
      (w == v ||
       (reach.Group? && v.groupScope && Attached(values, w)
        && if v.Bank().Some? then SameClass(groups, v, w) else SharesFocus(groups, v, w, reach.focusedBank)))
  {
    if reach.Group? && v.BankScoped() {
      ResolutionFindsTheClass(groups, values, banks, v, w);
      EditsReachTheirSource(groups, values, banks, v, reach);
    }
    if reach.Group? && v.FollowsFocus() {
      assert w.instanceId in ContextInstances(groups, v.instanceId, reach.focusedBank) <==>
        (w.instanceId == v.instanceId || (reach.focusedBank.Some? && reach.focusedBank.value.instanceId == v.instanceId
          && exists b :: b in Peers(groups, reach.focusedBank.value) && b.instanceId == w.instanceId));
    }
  }

  /** An edit reaches the edited value, and only attached values of its type. */
  lemma EditsReachTheirSource(groups: BankGroups, values: ByAddress, banks: ByBank, v: Observed, reach: Reach)
    requires Indexed(values, banks) && Attached(values, v)
    ensures v in MutationPeers(groups, values, banks, v, reach)
    ensures forall w :: w in MutationPeers(groups, values, banks, v, reach) ==>
      Attached(values, w) && w.valueType == v.valueType
  {
  }

  predicate OneBankPerInstance(groups: BankGroups) {
    forall b, c :: b in groups && c in groups && groups[b] == groups[c] && b.instanceId == c.instanceId ==> b == c
  }

  /** Two bank values of one instance with a common peer are the same. */
  lemma BankValuesAreApart(groups: BankGroups, values: ByAddress, banks: ByBank, v: Observed, w: Observed, x: Observed)
    requires Indexed(values, banks) && Attached(values, v) && Attached(values, w) && OneBankPerInstance(groups)
    requires v.instanceId == w.instanceId && v.BankScoped() && w.BankScoped()
    requires x in ResolvePeers(groups, banks, v) && x in ResolvePeers(groups, banks, w)
    ensures v == w
  {
    ResolutionFindsTheClass(groups, values, banks, v, x);
    ResolutionFindsTheClass(groups, values, banks, w, x);
    PeersAreClasses(groups, v.Bank().value, x.Bank().value);
    PeersAreClasses(groups, w.Bank().value, x.Bank().value);
    assert v.Bank() == w.Bank() && BankKey(v) == BankKey(w);
  }

  /** A bank value and one without a bank have no peer in common. */
  lemma BankValueIsApart(groups: BankGroups, values: ByAddress, banks: ByBank, v: Observed, w: Observed, x: Observed,
                         reach: Reach)
    requires Indexed(values, banks) && Attached(values, v) && Attached(values, w)
    requires v != w && v.instanceId == w.instanceId && reach.Group? && v.BankScoped() && !w.BankScoped()
    requires x in MutationPeers(groups, values, banks, v, reach)
    ensures x !in MutationPeers(groups, values, banks, w, reach)
  {
    ResolutionFindsTheClass(groups, values, banks, v, x);
  }

  /** While no group holds two banks of one instance, edits of two values of an instance reach disjoint
      sets of values: the entries of a command never meet. */
  lemma EditsOfOneInstanceAreApart(groups: BankGroups, values: ByAddress, banks: ByBank, v: Observed, w: Observed,
                                   reach: Reach)
    requires Indexed(values, banks) && Attached(values, v) && Attached(values, w) && OneBankPerInstance(groups)
    requires v != w && v.instanceId == w.instanceId
    ensures MutationPeers(groups, values, banks, v, reach) !! MutationPeers(groups, values, banks, w, reach)
  {
    forall x | x in MutationPeers(groups, values, banks, v, reach)
      ensures x !in MutationPeers(groups, values, banks, w, reach)
    {
      if x in MutationPeers(groups, values, banks, w, reach) {
        if reach.Group? && v.BankScoped() && w.BankScoped() {
          BankValuesAreApart(groups, values, banks, v, w, x);
        } else if reach.Group? && v.BankScoped() {
          BankValueIsApart(groups, values, banks, v, w, x, reach);
        } else if reach.Group? && w.BankScoped() {
          BankValueIsApart(groups, values, banks, w, v, x, reach);
        }
      }
    }
  }

  // The observer

  type Contexts = map<ContextKey, set<Observed>>

  type KeysByValue = map<Observed, set<ContextKey>>

  /** The values of an instance are listed under it. */
  ghost predicate Listed(values: ByAddress, listed: map<InstanceId, set<Observed>>) {
    && (forall v {:trigger Attached(values, v)} :: Attached(values, v) ==>
         v.instanceId in listed && v in listed[v.instanceId])
    && (forall i, v {:trigger v in listed[i]} :: i in listed && v in listed[i] ==>
         Attached(values, v) && v.instanceId == i)
  }

  /** A cached set was made for a value that is still attached. */
  predicate HasSource(values: ByAddress, key: ContextKey) {
    (key.instanceId, key.path) in values && values[(key.instanceId, key.path)].valueType == key.valueType
  }

  /** The cached sets hold attached values only, and the reverse index lists exactly the sets a value
      is in. */
  ghost predicate CrossLinked(values: ByAddress, contexts: Contexts, keys: KeysByValue) {
    && (forall k {:trigger HasSource(values, k)} :: k in contexts ==>
          HasSource(values, k) && values[(k.instanceId, k.path)] in contexts[k])
    && (forall v {:trigger Attached(values, v)} :: Attached(values, v) <==> v in keys)
    && (forall k, v {:trigger v in contexts[k]} :: k in contexts && v in contexts[k] ==> v in keys && k in keys[v])
    && (forall k, v {:trigger k in keys[v]} :: v in keys && k in keys[v] ==> k in contexts && v in contexts[k])
  }

  function KeyFor(v: Observed, focusedBank: Option<BankAddress>): ContextKey {
    ContextKey(v.instanceId, v.path, v.valueType, focusedBank)
  }

  function Unlink(keys: KeysByValue, members: set<Observed>, key: ContextKey): KeysByValue {
    map v | v in keys :: if v in members then keys[v] - {key} else keys[v]
  }

  function Link(keys: KeysByValue, members: set<Observed>, key: ContextKey): KeysByValue {
    map v | v in keys.Keys + members ::
      (if v in keys then keys[v] else {}) + (if v in members then {key} else {})
  }

  class StatePeerObserver {
    const topology: TopologyIndex
    var valuesByInstance: map<InstanceId, set<Observed>>
    var valuesByAddress: ByAddress
    var bankValues: ByBank
    var contexts: Contexts
    var keysByValue: KeysByValue
    var detachedContexts: set<ContextKey>
    /** The peer set that each attached value carries. */
    var peers: map<Observed, set<Observed>>
    var editingBank: Option<BankAddress>
    var groupEdit: bool
    var isEditing: bool

    ghost predicate Valid()
      reads this
    {
      && Indexed(valuesByAddress, bankValues)
      && Listed(valuesByAddress, valuesByInstance)
      && CrossLinked(valuesByAddress, contexts, keysByValue)
    }

    ghost predicate FreshExcept(except: set<InstanceId>)
      reads this, topology`bankGroups
    {
      forall v {:trigger Attached(valuesByAddress, v)} :: Attached(valuesByAddress, v) && v.instanceId !in except ==>
        Fresh(topology.bankGroups, valuesByAddress, bankValues, peers, v)
    }

    ghost predicate ContextsFreshExcept(except: set<InstanceId>)
      reads this`valuesByAddress, this`contexts, topology`bankGroups
    {
      forall k {:trigger contexts[k]} :: k in contexts && k.instanceId !in except ==>
        contexts[k] == ResolveFocusedPeers(topology.bankGroups, valuesByAddress, k)
    }

    constructor (topology: TopologyIndex)
      ensures Valid() && FreshExcept({}) && ContextsFreshExcept({}) && this.topology == topology
    {
      this.topology := topology;
      valuesByInstance, valuesByAddress, bankValues := map[], map[], map[];
      contexts, keysByValue, detachedContexts, peers := map[], map[], {}, map[];
      editingBank, groupEdit, isEditing := None, false, false;
    }

    method RemoveContextualPeerSet(key: ContextKey)
      requires Valid()
      modifies this`contexts, this`keysByValue
      ensures Valid() && contexts == old(contexts) - {key}
    {
      if key in contexts {
        keysByValue := Unlink(keysByValue, contexts[key], key);
        contexts := contexts - {key};
      }
    }

    /** The cached set for a focused bank, made on first use. */
    method GetContextualPeerSet(v: Observed, focusedBank: Option<BankAddress>) returns (members: set<Observed>)
      requires Valid() && Attached(valuesByAddress, v)
      modifies this`contexts, this`keysByValue
      ensures Valid() && var key := KeyFor(v, focusedBank);
        && key in contexts && members == contexts[key]
        && contexts == if key in old(contexts) then old(contexts)
                       else old(contexts)[key := ResolveFocusedPeers(topology.bankGroups, valuesByAddress, key)]
    {
      var key := KeyFor(v, focusedBank);
      if key in contexts {
        return contexts[key];
      }
      members := ResolveFocusedPeers(topology.bankGroups, valuesByAddress, key);
      assert forall w :: w in members ==> Attached(valuesByAddress, w) && w in keysByValue;
      contexts := contexts[key := members];
      keysByValue := Link(keysByValue, members, key);
    }

    /** Rebuilds every cached set that an affected instance owns or contributes to, and those that lost
        a detached member. No set is dropped for good. */
    method RefreshContextualPeerSets(affected: set<InstanceId>)
      requires Valid() && ContextsFreshExcept(affected)
      modifies this`contexts, this`keysByValue, this`detachedContexts
      ensures Valid() && ContextsFreshExcept({}) && detachedContexts == {}
      ensures old(contexts).Keys <= contexts.Keys
      ensures forall k {:trigger HasSource(valuesByAddress, k)} ::
        k in old(detachedContexts) && HasSource(valuesByAddress, k) ==> k in contexts
    {
      var previous := detachedContexts + set k | k in contexts &&
        (k.instanceId in affected || exists v :: v in contexts[k] && v.instanceId in affected);
      detachedContexts := {};
      ghost var before := contexts;
      RemoveAll(previous);
      assert forall k :: k in contexts ==> contexts[k] == before[k];
      var rest := previous;
      while rest != {}
        invariant Valid() && ContextsFreshExcept({}) && rest <= previous && detachedContexts == {}
        invariant forall k :: k in before && k !in rest ==> k in contexts
        invariant forall k {:trigger HasSource(valuesByAddress, k)} ::
          k in previous && k !in rest && HasSource(valuesByAddress, k) ==> k in contexts
        decreases rest
      {
        var key :| key in rest;
        rest := rest - {key};
        assert key in before ==> HasSource(valuesByAddress, key);
        if (key.instanceId, key.path) in valuesByAddress {
          assert valuesByAddress[(key.instanceId, key.path)].Address() == (key.instanceId, key.path);
          var members := GetContextualPeerSet(valuesByAddress[(key.instanceId, key.path)], key.focusedBank);
        }
      }
    }

    method RemoveAll(keys: set<ContextKey>)
      requires Valid()
      modifies this`contexts, this`keysByValue
      ensures Valid() && contexts == old(contexts) - keys
    {
      var rest := keys;
      while rest != {}
        invariant Valid() && rest <= keys && contexts == old(contexts) - (keys - rest)
        decreases rest
      {
        var key :| key in rest;
        RemoveContextualPeerSet(key);
        rest := rest - {key};
      }
    }

    /** Gives every value of the changed instances its peers anew, class by class, and rebuilds the
        cached sets. If only values of these instances were stale, nothing is stale afterwards. */
    method Refresh(changed: set<InstanceId>)
      requires Valid() && FreshExcept(changed) && ContextsFreshExcept(changed)
      modifies this`peers, this`contexts, this`keysByValue, this`detachedContexts
      ensures Valid() && FreshExcept({}) && ContextsFreshExcept({}) && detachedContexts == {}
      ensures old(contexts).Keys <= contexts.Keys
      ensures forall k {:trigger HasSource(valuesByAddress, k)} ::
        k in old(detachedContexts) && HasSource(valuesByAddress, k) ==> k in contexts
    {
      RefreshValues(changed);
      RefreshContextualPeerSets(changed);
    }

    method RefreshValues(changed: set<InstanceId>)
      requires Valid() && FreshExcept(changed)
      modifies this`peers
      ensures Valid() && FreshExcept({})
    {
      var todo := set i, v | i in changed && i in valuesByInstance && v in valuesByInstance[i] :: v;
      var served: set<Observed> := {};
      while todo != {}
        invariant forall v :: v in todo ==> Attached(valuesByAddress, v)
        invariant forall v {:trigger Attached(valuesByAddress, v)} ::
          Attached(valuesByAddress, v) && (v in served || v !in todo) ==>
            Fresh(topology.bankGroups, valuesByAddress, bankValues, peers, v)
        decreases todo
      {
        var v :| v in todo;
        todo := todo - {v};
        if v !in served {
          served := AssignPeers(v, served);
        }
      }
    }

    /** Every peer of `v` gets the set of `v`, which is its own. */
    method AssignPeers(v: Observed, served: set<Observed>) returns (r: set<Observed>)
      requires Valid() && Attached(valuesByAddress, v)
      modifies this`peers
      ensures r >= served + {v} && Fresh(topology.bankGroups, valuesByAddress, bankValues, peers, v)
      ensures forall w {:trigger Attached(valuesByAddress, w)} :: Attached(valuesByAddress, w) && w in r - served ==>
        Fresh(topology.bankGroups, valuesByAddress, bankValues, peers, w)
      ensures forall w {:trigger Attached(valuesByAddress, w)} :: Attached(valuesByAddress, w) ==>
        (old(Fresh(topology.bankGroups, valuesByAddress, bankValues, peers, w)) ==>
           Fresh(topology.bankGroups, valuesByAddress, bankValues, peers, w))
    {
      var members := ResolvePeers(topology.bankGroups, bankValues, v);
      if v.BankScoped() {
        ResolutionFindsTheClass(topology.bankGroups, valuesByAddress, bankValues, v, v);
        PeersAreClasses(topology.bankGroups, v.Bank().value, v.Bank().value);
      }
      forall w | w in members
        ensures ResolvePeers(topology.bankGroups, bankValues, w) == members
      {
        MembersResolveAlike(topology.bankGroups, valuesByAddress, bankValues, v, w);
      }
      peers := map w | w in peers.Keys + members :: if w in members then members else peers[w];
      r := served + {v} + members;
    }

    /** A value joins. Its instance is not part of the topology yet, so no other value is affected. */
    method Attach(v: Observed, ghost stale: set<InstanceId>)
      requires Valid() && FreshExcept(stale) && ContextsFreshExcept({})
      requires v.Address() !in valuesByAddress && Joinable(bankValues, v)
      requires v.instanceId in stale && forall b :: b in topology.bankGroups ==> b.instanceId != v.instanceId
      modifies this`valuesByInstance, this`valuesByAddress, this`bankValues, this`keysByValue, this`peers
      ensures Valid() && FreshExcept(stale) && ContextsFreshExcept({})
      ensures valuesByAddress == old(valuesByAddress)[v.Address() := v]
    {
      ghost var values, banks, groups, carried := valuesByAddress, bankValues, topology.bankGroups, peers;
      IndexedAfterAttach(values, banks, v);
      AddToIndexes(v);
      forall w {:trigger Attached(valuesByAddress, w)} | Attached(valuesByAddress, w) && w.instanceId !in stale
        ensures Fresh(groups, valuesByAddress, bankValues, peers, w)
      {
        assert Attached(values, w) && Fresh(groups, values, banks, carried, w);
        PeersAfterAttach(groups, banks, v, w);
      }
      forall k | k in contexts
        ensures contexts[k] == ResolveFocusedPeers(groups, valuesByAddress, k)
      {
        ContextAfterAttach(groups, values, v, k);
      }
    }

    method AddToIndexes(v: Observed)
      requires Valid() && v.Address() !in valuesByAddress
      requires Indexed(valuesByAddress[v.Address() := v], WithBankValue(bankValues, v))
      modifies this`valuesByInstance, this`valuesByAddress, this`bankValues, this`keysByValue, this`peers
      ensures Valid() && valuesByAddress == old(valuesByAddress)[v.Address() := v]
      ensures bankValues == WithBankValue(old(bankValues), v) && peers == old(peers)[v := {}]
    {
      LinkedAfterAttach(valuesByAddress, valuesByInstance, contexts, keysByValue, v);
      valuesByInstance := WithListed(valuesByInstance, v);
      valuesByAddress := valuesByAddress[v.Address() := v];
      bankValues := WithBankValue(bankValues, v);
      keysByValue := keysByValue[v := {}];
      peers := peers[v := {}];
    }

    /** A value leaves. The cached sets it was in are dropped; those made for other values are
        remembered for the next refresh. Values connected to its bank go stale. */
    method Detach(v: Observed, ghost stale: set<InstanceId>)
      requires Valid() && FreshExcept(stale) && ContextsFreshExcept({})
      requires Attached(valuesByAddress, v) && v.instanceId in stale
      requires v.Bank().Some? ==> Instances(Peers(topology.bankGroups, v.Bank().value)) <= stale
      modifies this`valuesByInstance, this`valuesByAddress, this`bankValues, this`peers
      modifies this`contexts, this`keysByValue, this`detachedContexts
      ensures Valid() && FreshExcept(stale) && ContextsFreshExcept({})
      ensures valuesByAddress == old(valuesByAddress) - {v.Address()}
      ensures contexts == old(contexts) - old(keysByValue)[v]
      ensures forall k :: k in old(contexts) && k !in contexts && k != KeyFor(v, k.focusedBank) ==>
        k in detachedContexts
    {
      ghost var values, banks, groups, carried := valuesByAddress, bankValues, topology.bankGroups, peers;
      DropContexts(v);
      ghost var kept := contexts;
      IndexedAfterDetach(values, banks, v);
      RemoveFromIndexes(v);
      forall w {:trigger Attached(valuesByAddress, w)} | Attached(valuesByAddress, w) && w.instanceId !in stale
        ensures Fresh(groups, valuesByAddress, bankValues, peers, w)
      {
        assert Attached(values, w) && Fresh(groups, values, banks, carried, w);
        PeersAfterDetach(groups, values, banks, v, w);
      }
      forall k | k in contexts ensures contexts[k] == ResolveFocusedPeers(groups, valuesByAddress, k) {
        assert kept[k] == ResolveFocusedPeers(groups, values, k);
        ContextAfterDetach(groups, values, v, k);
      }
    }

    method DropContexts(v: Observed)
      requires Valid() && Attached(valuesByAddress, v)
      modifies this`contexts, this`keysByValue, this`detachedContexts
      ensures Valid() && contexts == old(contexts) - old(keysByValue)[v] && keysByValue[v] == {}
      ensures forall k :: k in old(keysByValue)[v] && k != KeyFor(v, k.focusedBank) ==> k in detachedContexts
    {
      var rest := keysByValue[v];
      detachedContexts := detachedContexts + set k | k in rest && k != KeyFor(v, k.focusedBank);
      RemoveAll(rest);
      assert forall k :: k in contexts ==> v !in contexts[k];
    }

    // Edits

    /** How far the edits of the open edit context reach. */
    function Reached(): Reach
      reads this`isEditing, this`groupEdit, this`editingBank
    {
      if isEditing && groupEdit then Group(editingBank) else Alone
    }

    method BeginEdit(focusedBank: Option<BankAddress>, groupEdit: bool) returns (ok: bool)
      modifies this`editingBank, this`groupEdit, this`isEditing
      ensures ok == !old(isEditing) && isEditing
      ensures Reached() == if !ok then old(Reached()) else if groupEdit then Group(focusedBank) else Alone
    {
      if isEditing {
        return false;
      }
      editingBank, this.groupEdit, isEditing := focusedBank, groupEdit, true;
      ok := true;
    }

    method EndEdit()
      modifies this`editingBank, this`groupEdit, this`isEditing
      ensures !isEditing && Reached() == Alone
    {
      editingBank, groupEdit, isEditing := None, false, false;
    }

    /** The peers an edit stages, taken from the caches. With nothing stale they are those that fresh
        resolution gives. */
    method ResolveMutationPeers(v: Observed) returns (members: set<Observed>)
      requires Valid() && Attached(valuesByAddress, v) && FreshExcept({}) && ContextsFreshExcept({})
      modifies this`contexts, this`keysByValue
      ensures Valid() && FreshExcept({}) && ContextsFreshExcept({})
      ensures members == MutationPeers(topology.bankGroups, valuesByAddress, bankValues, v, Reached())
    {
      if !isEditing || !groupEdit {
        return {v};
      }
      if !v.FollowsFocus() {
        return peers[v];
      }
      members := GetContextualPeerSet(v, editingBank);
    }

    method RemoveFromIndexes(v: Observed)
      requires Valid() && Attached(valuesByAddress, v) && keysByValue[v] == {}
      requires Indexed(valuesByAddress - {v.Address()}, WithoutBankValue(bankValues, v))
      modifies this`valuesByInstance, this`valuesByAddress, this`bankValues, this`keysByValue, this`peers
      ensures Valid() && valuesByAddress == old(valuesByAddress) - {v.Address()}
      ensures bankValues == WithoutBankValue(old(bankValues), v) && peers == old(peers) - {v}
    {
      LinkedAfterDetach(valuesByAddress, valuesByInstance, contexts, keysByValue, v);
      valuesByInstance := WithoutListed(valuesByInstance, v);
      valuesByAddress := valuesByAddress - {v.Address()};
      bankValues := WithoutBankValue(bankValues, v);
      keysByValue := keysByValue - {v};
      peers := peers - {v};
    }
  }

  function WithListed(listed: map<InstanceId, set<Observed>>, v: Observed): map<InstanceId, set<Observed>> {
    listed[v.instanceId := (if v.instanceId in listed then listed[v.instanceId] else {}) + {v}]
  }

  lemma LinkedAfterAttach(values: ByAddress, listed: map<InstanceId, set<Observed>>, contexts: Contexts,
                          keys: KeysByValue, v: Observed)
    requires Listed(values, listed) && CrossLinked(values, contexts, keys) && v.Address() !in values
    ensures var after := values[v.Address() := v];
      Listed(after, WithListed(listed, v)) && CrossLinked(after, contexts, keys[v := {}])
  {
    var after := values[v.Address() := v];
    assert forall w {:trigger Attached(after, w)} :: Attached(after, w) <==> w == v || Attached(values, w);
    assert !Attached(values, v);
    forall k | k in contexts ensures HasSource(after, k) && after[(k.instanceId, k.path)] in contexts[k] {
      assert HasSource(values, k);
    }
    forall i, w | i in WithListed(listed, v) && w in WithListed(listed, v)[i]
      ensures Attached(after, w) && w.instanceId == i
    {
      assert w == v || w in listed[i];
    }
    forall w | Attached(after, w)
      ensures w.instanceId in WithListed(listed, v) && w in WithListed(listed, v)[w.instanceId]
    {
      assert w == v || Attached(values, w);
    }
    assert CrossLinked(after, contexts, keys[v := {}]);
  }

  /** No other value has its bank key, and the values that may become its peers have its scope. */
  ghost predicate Joinable(banks: ByBank, v: Observed) {
    v.Bank().Some? ==>
      && BankKey(v) !in banks
      && forall k :: k in banks && k.peerPath == v.PeerPath() && k.valueType == v.valueType ==>
           banks[k].groupScope == v.groupScope
  }

  function WithBankValue(banks: ByBank, v: Observed): ByBank {
    if v.Bank().Some? then banks[BankKey(v) := v] else banks
  }

  lemma IndexedAfterAttach(values: ByAddress, banks: ByBank, v: Observed)
    requires Indexed(values, banks) && v.Address() !in values && Joinable(banks, v)
    ensures Indexed(values[v.Address() := v], WithBankValue(banks, v))
  {
    var after := values[v.Address() := v];
    assert forall w {:trigger Attached(after, w)} :: Attached(after, w) <==> w == v || Attached(values, w);
    forall k | k in WithBankValue(banks, v) ensures Attached(after, WithBankValue(banks, v)[k]) {
      assert k in banks ==> Attached(values, banks[k]);
    }
  }

  lemma PeersAfterAttach(groups: BankGroups, banks: ByBank, v: Observed, w: Observed)
    requires v.instanceId != w.instanceId && forall b :: b in groups ==> b.instanceId != v.instanceId
    ensures ResolvePeers(groups, WithBankValue(banks, v), w) == ResolvePeers(groups, banks, w)
  {
  }

  lemma ContextAfterAttach(groups: BankGroups, values: ByAddress, v: Observed, key: ContextKey)
    requires v.Address() !in values && HasSource(values, key)
    requires forall b :: b in groups ==> b.instanceId != v.instanceId
    ensures ResolveFocusedPeers(groups, values[v.Address() := v], key) == ResolveFocusedPeers(groups, values, key)
  {
  }

  function WithoutBankValue(banks: ByBank, v: Observed): ByBank {
    if v.Bank().Some? then banks - {BankKey(v)} else banks
  }

  function WithoutListed(listed: map<InstanceId, set<Observed>>, v: Observed): map<InstanceId, set<Observed>> {
    if v.instanceId !in listed then listed
    else if listed[v.instanceId] - {v} == {} then listed - {v.instanceId}
    else listed[v.instanceId := listed[v.instanceId] - {v}]
  }

  lemma IndexedAfterDetach(values: ByAddress, banks: ByBank, v: Observed)
    requires Indexed(values, banks) && Attached(values, v)
    ensures Indexed(values - {v.Address()}, WithoutBankValue(banks, v))
  {
    var after := values - {v.Address()};
    assert forall w {:trigger Attached(after, w)} :: Attached(after, w) <==> w != v && Attached(values, w);
    forall k | k in WithoutBankValue(banks, v) ensures Attached(after, banks[k]) {
      assert Attached(values, banks[k]) && BankKey(banks[k]) == k;
    }
    forall w | Attached(after, w) && w.Bank().Some?
      ensures BankKey(w) in WithoutBankValue(banks, v) && banks[BankKey(w)] == w
    {
      assert Attached(values, w);
    }
  }

  lemma LinkedAfterDetach(values: ByAddress, listed: map<InstanceId, set<Observed>>, contexts: Contexts,
                          keys: KeysByValue, v: Observed)
    requires Listed(values, listed) && CrossLinked(values, contexts, keys) && Attached(values, v) && keys[v] == {}
    ensures var after := values - {v.Address()};
      Listed(after, WithoutListed(listed, v)) && CrossLinked(after, contexts, keys - {v})
  {
    var after := values - {v.Address()};
    assert forall w {:trigger Attached(after, w)} :: Attached(after, w) <==> w != v && Attached(values, w);
    forall k | k in contexts ensures HasSource(after, k) && after[(k.instanceId, k.path)] in contexts[k] {
      assert HasSource(values, k) && v !in contexts[k];
    }
    forall i, w | i in WithoutListed(listed, v) && w in WithoutListed(listed, v)[i]
      ensures Attached(after, w) && w.instanceId == i
    {
      assert w in listed[i];
    }
    forall w | Attached(after, w)
      ensures w.instanceId in WithoutListed(listed, v) && w in WithoutListed(listed, v)[w.instanceId]
    {
      assert Attached(values, w);
      assert w in listed[w.instanceId] - {v};
    }
    assert CrossLinked(after, contexts, keys - {v});
  }

  lemma PeersAfterDetach(groups: BankGroups, values: ByAddress, banks: ByBank, v: Observed, w: Observed)
    requires Indexed(values, banks) && Attached(values, v) && Attached(values, w) && v != w
    requires v.Bank().Some? ==> w.instanceId !in Instances(Peers(groups, v.Bank().value))
    ensures ResolvePeers(groups, WithoutBankValue(banks, v), w) == ResolvePeers(groups, banks, w)
  {
  }

  lemma ContextAfterDetach(groups: BankGroups, values: ByAddress, v: Observed, key: ContextKey)
    requires Attached(values, v) && v !in ResolveFocusedPeers(groups, values, key)
    ensures ResolveFocusedPeers(groups, values - {v.Address()}, key) == ResolveFocusedPeers(groups, values, key)
  {
  }
}
