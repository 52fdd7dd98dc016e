/**
  The topology follows the groups that the state values hold: whatever step the history makes, the banks
  that changed their group tell the topology observer, one after the other. In between it may see states
  that no history point has; in the end it has the groups of the new state and nothing stale.
 */
module GroupTopology {
  import opened Common
  import opened Topology
  import opened BankGrouping
  import opened StateTopology
  import H = HistoryModel
  import O = PeerObservers

  type GroupTimeline = H.Timeline<BankAddress, Option<GroupId>>

  type GroupOperation = H.Operation<BankAddress, Option<GroupId>>

  /** The groups of which the banks in `rest` have not been announced. */
  function Announced(before: Groups, after: Groups, rest: set<BankAddress>): Groups
    requires before.Keys == after.Keys
  {
    map b | b in before :: if b in rest then before[b] else after[b]
  }

  lemma AnnounceOne(before: Groups, after: Groups, rest: set<BankAddress>, bank: BankAddress)
    requires before.Keys == after.Keys && bank in rest && bank in before
    ensures Regrouped(Grouped(Announced(before, after, rest)), bank, after[bank])
      == Grouped(Announced(before, after, rest - {bank}))
  {
  }

  /** The banks that changed tell the observer. */
  method Announce(observer: StateTopologyObserver, before: Groups, after: Groups)
    requires observer.Valid() && observer.FreshOutside({}) && before.Keys == after.Keys
    requires observer.topology.bankGroups == Grouped(before)
    requires forall b :: b in before ==> b.bank < BANK_COUNT && b.instanceId in observer.topology.focusedBanks
    modifies observer.topology`bankGroups, observer.topology`groupBanks, observer.topology`groupInstances
    modifies observer.peers`peers, observer.peers`contexts, observer.peers`keysByValue, observer.peers`detachedContexts
    ensures observer.Valid() && observer.FreshOutside({})
    ensures observer.topology.bankGroups == Grouped(after)
  {
    var rest := set b | b in before && before[b] != after[b];
    assert Announced(before, after, rest) == before;
    while rest != {}
      invariant observer.Valid() && observer.FreshOutside({}) && rest <= before.Keys
      invariant observer.topology.bankGroups == Grouped(Announced(before, after, rest))
      decreases rest
    {
      var bank :| bank in rest;
      AnnounceOne(before, after, rest, bank);
      observer.BankGroupChanged(bank, after[bank]);
      rest := rest - {bank};
    }
    assert Announced(before, after, {}) == after;
  }

  /** A step of the history that keeps the registered banks: a command, a jump, an advance or a restore. The
      topology then has the groups of the new state, nothing is stale, and no group holds two banks of one
      instance. */
  method Follow(observer: StateTopologyObserver, before: Groups, after: Groups, ghost t: GroupTimeline,
                ghost op: GroupOperation)
    requires H.Proper(t) && H.Always(t, Proper) && Permitted(t, op) && !op.Register? && !op.Unregister?
    requires before == H.CurrentState(t) && after == H.CurrentState(H.Edit(t, op))
    requires observer.Valid() && observer.FreshOutside({}) && observer.topology.bankGroups == Grouped(before)
    requires forall b :: b in before ==> b.instanceId in observer.topology.focusedBanks
    modifies observer.topology`bankGroups, observer.topology`groupBanks, observer.topology`groupInstances
    modifies observer.peers`peers, observer.peers`contexts, observer.peers`keysByValue, observer.peers`detachedContexts
    ensures observer.Valid() && observer.FreshOutside({}) && observer.topology.bankGroups == Grouped(after)
    ensures O.OneBankPerInstance(observer.topology.bankGroups) && H.Always(H.Edit(t, op), Proper)
  {
    PermittedKeepsProper(t, op);
    SameBanks(t, op);
    ProperGroupsHoldOneBankPerInstance(after);
    Announce(observer, before, after);
  }

  lemma SameBanks(t: GroupTimeline, op: GroupOperation)
    requires H.Proper(t) && !op.Register? && !op.Unregister?
    ensures H.CurrentState(H.Edit(t, op)).Keys == H.CurrentState(t).Keys
  {
    var u := H.Edit(t, op);
    if op.Advance? {
      H.DuplicatedAt(t, 0);
      H.DuplicatedAt(t, u.cursor);
    }
  }
}
