/**
  Topology changes: the index is updated first, then the peers of the affected instances. After each
  change no peer set and no cached contextual set is stale.
 */
module StateTopology {
  import opened Common
  import opened Topology
  import opened PeerObservers

  /** Values whose peers are untouched by a topology change stay fresh. */
  lemma CoveredValuesStayFresh(affected: set<InstanceId>, before: BankGroups, after: BankGroups, banks: ByBank,
                               v: Observed)
    requires Covers(affected, before, after) && v.instanceId !in affected
    ensures ResolvePeers(after, banks, v) == ResolvePeers(before, banks, v)
  {
  }

  lemma CoveredContextsStayFresh(affected: set<InstanceId>, before: BankGroups, after: BankGroups, values: ByAddress,
                                 key: ContextKey)
    requires Covers(affected, before, after) && key.instanceId !in affected
    ensures ResolveFocusedPeers(after, values, key) == ResolveFocusedPeers(before, values, key)
  {
  }

  /** The instances with a bank in a group of `instanceId`, and `instanceId` itself. */
  function ConnectedTo(groups: BankGroups, instanceId: InstanceId): set<InstanceId> {
    {instanceId} + set b, c | b in groups && b.instanceId == instanceId && c in Peers(groups, b) :: c.instanceId
  }

  lemma LeavingAffectsTheConnected(affected: set<InstanceId>, before: BankGroups, instanceId: InstanceId)
    requires instanceId in affected && Covers(affected, before, WithoutInstance(before, instanceId))
    ensures ConnectedTo(before, instanceId) <= affected
  {
  }

  class StateTopologyObserver {
    const topology: TopologyIndex
    const peers: StatePeerObserver

    ghost predicate Valid()
      reads topology, peers
    {
      peers.topology == topology && topology.Valid() && peers.Valid()
    }

    /** Outside `stale`, every value carries the peers that fresh resolution gives; every cached
        contextual set is fresh, whatever instance it belongs to. */
    ghost predicate FreshOutside(stale: set<InstanceId>)
      reads topology, peers, peers.topology
    {
      peers.FreshExcept(stale) && peers.ContextsFreshExcept({})
    }

    constructor ()
      ensures Valid() && FreshOutside({}) && fresh(topology) && fresh(peers)
    {
      var index := new TopologyIndex();
      topology := index;
      peers := new StatePeerObserver(index);
    }

    /** The index has changed from `before`; refreshing the affected instances makes everything fresh. */
    method Propagate(affected: set<InstanceId>, ghost before: BankGroups, ghost stale: set<InstanceId>)
      requires Valid() && Covers(affected, before, topology.bankGroups) && stale <= affected
      requires forall v {:trigger Attached(peers.valuesByAddress, v)} ::
        Attached(peers.valuesByAddress, v) && v.instanceId !in stale ==>
          Fresh(before, peers.valuesByAddress, peers.bankValues, peers.peers, v)
      requires forall k {:trigger peers.contexts[k]} :: k in peers.contexts ==>
        peers.contexts[k] == ResolveFocusedPeers(before, peers.valuesByAddress, k)
      modifies peers`peers, peers`contexts, peers`keysByValue, peers`detachedContexts
      ensures Valid() && FreshOutside({})
      ensures old(peers.contexts).Keys <= peers.contexts.Keys
    {
      var groups := topology.bankGroups;
      forall v {:trigger Attached(peers.valuesByAddress, v)} | Attached(peers.valuesByAddress, v)
        && v.instanceId !in affected
        ensures Fresh(groups, peers.valuesByAddress, peers.bankValues, peers.peers, v)
      {
        CoveredValuesStayFresh(affected, before, groups, peers.bankValues, v);
      }
      forall k | k in peers.contexts && k.instanceId !in affected
        ensures peers.contexts[k] == ResolveFocusedPeers(groups, peers.valuesByAddress, k)
      {
        CoveredContextsStayFresh(affected, before, groups, peers.valuesByAddress, k);
      }
      peers.Refresh(affected);
    }

    /** A bank moves to another group. */
    method BankGroupChanged(bank: BankAddress, groupId: Option<GroupId>)
      requires Valid() && FreshOutside({}) && bank.bank < BANK_COUNT
      modifies topology`bankGroups, topology`groupBanks, topology`groupInstances
      modifies peers`peers, peers`contexts, peers`keysByValue, peers`detachedContexts
      ensures Valid() && FreshOutside({})
      ensures topology.bankGroups ==
        if bank.instanceId in topology.focusedBanks then Regrouped(old(topology.bankGroups), bank, groupId)
        else old(topology.bankGroups)
    {
      ghost var before := topology.bankGroups;
      var affected := topology.UpdateBankGroup(bank, groupId);
      Propagate(affected, before, {});
    }

    /** An instance joins; its values have been attached before. */
    method AddState(instanceId: InstanceId, focusedBank: Option<BankAddress>, groups: seq<Option<GroupId>>)
      returns (ok: bool)
      requires Valid() && FreshOutside({instanceId})
      modifies topology
      modifies peers`peers, peers`contexts, peers`keysByValue, peers`detachedContexts
      ensures Valid() && ok == (|groups| == BANK_COUNT && instanceId !in old(topology.focusedBanks))
      ensures ok ==> FreshOutside({})
      ensures ok ==> topology.bankGroups == WithBanks(old(topology.bankGroups), instanceId, groups, BANK_COUNT)
    {
      ghost var before := topology.bankGroups;
      ok := topology.AddInstance(instanceId, focusedBank, groups);
      if !ok {
        return;
      }
      var affected := Joined(instanceId, groups);
      JoiningIsCovered(affected, before, instanceId, groups);
      Propagate(affected, before, {instanceId});
    }

    /** The instance and the peers of its grouped banks. */
    method Joined(instanceId: InstanceId, groups: seq<Option<GroupId>>) returns (affected: set<InstanceId>)
      requires topology.Valid() && |groups| == BANK_COUNT
      requires forall b :: b in topology.bankGroups && b.instanceId == instanceId ==> groups[b.bank].Some?
      ensures instanceId in affected
      ensures forall b, c ::
        b in topology.bankGroups && b.instanceId == instanceId && c in Peers(topology.bankGroups, b) ==>
        c.instanceId in affected
    {
      affected := {instanceId};
      for bank := 0 to BANK_COUNT
        invariant instanceId in affected
        invariant forall b, c :: b in topology.bankGroups && b.instanceId == instanceId && b.bank < bank ==>
          (c in Peers(topology.bankGroups, b) ==> c.instanceId in affected)
      {
        if groups[bank].Some? {
          var connected := topology.GetConnectedBankPeers(BankAddress(instanceId, bank));
          affected := affected + set c | c in connected :: c.instanceId;
        }
      }
    }

    /** An instance leaves; its values have been detached before, which left the connected instances
        stale. */
    method RemoveState(instanceId: InstanceId)
      requires Valid() && FreshOutside(ConnectedTo(topology.bankGroups, instanceId))
      requires forall v {:trigger Attached(peers.valuesByAddress, v)} ::
        Attached(peers.valuesByAddress, v) ==> v.instanceId != instanceId
      modifies topology
      modifies peers`peers, peers`contexts, peers`keysByValue, peers`detachedContexts
      ensures Valid() && FreshOutside({})
      ensures topology.bankGroups == WithoutInstance(old(topology.bankGroups), instanceId)
    {
      ghost var before, stale := topology.bankGroups, ConnectedTo(topology.bankGroups, instanceId);
      ghost var known := instanceId in topology.focusedBanks;
      var affected := topology.RemoveInstance(instanceId);
      if known {
        LeavingAffectsTheConnected(affected, before, instanceId);
      }
      Propagate(affected, before, if known then stale else {});
    }

    method FocusedBankChanged(instanceId: InstanceId, focusedBank: Option<BankAddress>) returns (ok: bool)
      requires Valid() && FreshOutside({})
      modifies topology`focusedBanks
      ensures Valid() && FreshOutside({}) && ok == (instanceId in old(topology.focusedBanks))
      ensures topology.focusedBanks ==
        if ok then old(topology.focusedBanks)[instanceId := focusedBank] else old(topology.focusedBanks)
    {
      ok := topology.UpdateFocusedBank(instanceId, focusedBank);
    }
  }
}
