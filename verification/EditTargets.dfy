/**
  Who an edit is for. The router resolves a target instance and a target bank; grouped writes follow the
  peers of the edited value, while the edits that keep the compression mirror follow the members of the
  target bank's group. Both reach the same instances.
 */
module EditTargets {
  import opened Common
  import opened Topology
  import opened PeerObservers

  /** The instance a write or a reset works on: the one it names, or the one its sender focuses. */
  function TargetInstance(focused: Option<BankAddress>, explicit: Option<InstanceId>): Option<InstanceId> {
    if explicit.Some? then explicit
    else if focused.Some? then Some(focused.value.instanceId)
    else None
  }

  /** The bank it works on: the focused bank's number, or an explicit one, on a named target; else the
      focused bank itself. Without a focused bank there is none. */
  function TargetBank(focused: Option<BankAddress>, explicit: Option<InstanceId>,
                      bankIndex: Option<nat>): Option<BankAddress> {
    if focused.None? then None
    else if explicit.Some?
    then Some(BankAddress(explicit.value, if bankIndex.Some? then bankIndex.value else focused.value.bank))
    else focused
  }

  /** The edit context that the router opens. */
  function Context(bank: Option<BankAddress>, groupScope: bool): Reach {
    if groupScope then Group(bank) else Alone
  }

  /** The instances whose compression values are kept in step. */
  function CompressionTargets(groups: BankGroups, bank: Option<BankAddress>, instance: InstanceId, groupScope: bool)
    : set<InstanceId>
  {
    if groupScope && bank.Some? && bank.value in groups
    then Instances(Members(groups, groups[bank.value]))
    else {instance}
  }

  predicate HasPeer(values: ByAddress, v: Observed, i: InstanceId) {
    (i, v.path) in values && values[(i, v.path)].valueType == v.valueType
  }

  lemma TargetBankLiesOnTheTarget(focused: Option<BankAddress>, explicit: Option<InstanceId>, bankIndex: Option<nat>)
    ensures var bank := TargetBank(focused, explicit, bankIndex);
      bank.Some? ==> TargetInstance(focused, explicit) == Some(bank.value.instanceId)
  {
  }

  /** A target bank exists exactly when a bank is focused. It is the focused bank unless the command names an
      instance; then it lies there, and has the number that the command gives, or else the focused one. */
  lemma TargetBankIsTheNamedOne(focused: Option<BankAddress>, explicit: Option<InstanceId>, bankIndex: Option<nat>)
    ensures var bank := TargetBank(focused, explicit, bankIndex);
      && (bank.Some? <==> focused.Some?)
      && (explicit.None? ==> bank == focused)
      && (bank.Some? && explicit.Some? && bankIndex.Some? ==>
            bank == Some(BankAddress(explicit.value, bankIndex.value)))
      && (bank.Some? && bankIndex.None? ==> bank.value.bank == focused.value.bank)
      && (focused.Some? && explicit == Some(focused.value.instanceId) && bankIndex.None? ==> bank == focused)
  {
  }

  /** An edit of a value that follows the focused bank, such as a compression value, reaches it in exactly
      the instances whose compression values are kept in step, as far as they have that value. */
  lemma CompressionFollowsTheEdit(groups: BankGroups, values: ByAddress, banks: ByBank, v: Observed,
                                  focused: Option<BankAddress>, explicit: Option<InstanceId>, bankIndex: Option<nat>,
                                  groupScope: bool)
    requires Indexed(values, banks) && Attached(values, v) && v.FollowsFocus()
    requires TargetInstance(focused, explicit) == Some(v.instanceId)
    ensures var bank := TargetBank(focused, explicit, bankIndex);
      var reached := MutationPeers(groups, values, banks, v, Context(bank, groupScope));
      (set w | w in reached :: w.instanceId) ==
      set i | i in CompressionTargets(groups, bank, v.instanceId, groupScope) && HasPeer(values, v, i)
  {
    TargetBankLiesOnTheTarget(focused, explicit, bankIndex);
    var bank := TargetBank(focused, explicit, bankIndex);
    var reached := MutationPeers(groups, values, banks, v, Context(bank, groupScope));
    var targets := CompressionTargets(groups, bank, v.instanceId, groupScope);
    if groupScope {
      assert ContextInstances(groups, v.instanceId, bank) == targets by {
        if bank.Some? {
          PeersAreClasses(groups, bank.value, bank.value);
        }
      }
      forall i ensures i in targets && HasPeer(values, v, i) <==> exists w :: w in reached && w.instanceId == i {
        if i in targets && HasPeer(values, v, i) {
          assert values[(i, v.path)] in reached && values[(i, v.path)].instanceId == i;
        }
      }
    }
  }
}
