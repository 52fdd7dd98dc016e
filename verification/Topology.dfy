/**
  The topology index: which bank belongs to which group, kept in three cross-linked dictionaries
  that are updated one bank at a time.
 */
module Topology {
  import opened Common

  type GroupId = nat

  datatype BankAddress = BankAddress(instanceId: InstanceId, bank: nat)

  type BankGroups = map<BankAddress, GroupId>

  /** The banks an edit of `bank` reaches: its group, or itself alone. */
  function Peers(groups: BankGroups, bank: BankAddress): set<BankAddress> {
    if bank in groups then Members(groups, groups[bank]) else {bank}
  }

  function Members(groups: BankGroups, group: GroupId): set<BankAddress> {
    set b | b in groups && groups[b] == group
  }

  function Instances(banks: set<BankAddress>): set<InstanceId> {
    set b | b in banks :: b.instanceId
  }

  /** Every bank whose peers differ lies, with all its peers before and after, in `affected`. */
  ghost predicate Covers(affected: set<InstanceId>, before: BankGroups, after: BankGroups) {
    forall b :: Peers(before, b) != Peers(after, b) ==>
      b.instanceId in affected && Instances(Peers(before, b)) + Instances(Peers(after, b)) <= affected
  }

  /** `b` and `c` share a peer set exactly when one is a peer of the other. */
  lemma PeersAreClasses(groups: BankGroups, b: BankAddress, c: BankAddress)
    ensures b in Peers(groups, b)
    ensures c in Peers(groups, b) <==> Peers(groups, b) == Peers(groups, c)
    ensures c in Peers(groups, b) <==> b in Peers(groups, c)
  {
  }

  /** Only the banks in `changed` change their group. */
  ghost predicate ChangesOnly(changed: set<BankAddress>, before: BankGroups, after: BankGroups) {
    forall b :: b !in changed ==> (b in before <==> b in after) && (b in before ==> before[b] == after[b])
  }

  /** The instances of every group that a changed bank leaves or joins are affected. */
  ghost predicate CoversGroupsOf(affected: set<InstanceId>, changed: set<BankAddress>, before: BankGroups,
                                 after: BankGroups) {
    forall b :: b in changed ==>
      && b.instanceId in affected
      && (b in before ==> Instances(Members(before, before[b])) <= affected)
      && (b in after ==> Instances(Members(after, after[b])) <= affected)
  }

  lemma GroupsOfChangedBanksSuffice(affected: set<InstanceId>, changed: set<BankAddress>, before: BankGroups,
                                    after: BankGroups)
    requires ChangesOnly(changed, before, after) && CoversGroupsOf(affected, changed, before, after)
    ensures Covers(affected, before, after)
  {
  }

  function Regrouped(groups: BankGroups, bank: BankAddress, groupId: Option<GroupId>): BankGroups {
    if groupId.Some? then groups[bank := groupId.value] else groups - {bank}
  }

  lemma RegroupingIsCovered(affected: set<InstanceId>, before: BankGroups, between: BankGroups, bank: BankAddress,
                            groupId: Option<GroupId>)
    requires between == before - {bank} && bank.instanceId in affected
    requires bank in before ==> Instances(Members(before, before[bank])) <= affected
    requires groupId.Some? ==> Instances(Members(between, groupId.value)) <= affected
    ensures Covers(affected, before, Regrouped(between, bank, groupId))
    ensures Regrouped(between, bank, groupId) == Regrouped(before, bank, groupId)
  {
    var after := Regrouped(between, bank, groupId);
    if groupId.Some? {
      assert Members(after, groupId.value) == Members(between, groupId.value) + {bank};
    }
    GroupsOfChangedBanksSuffice(affected, {bank}, before, after);
  }

  lemma LeavingIsCovered(affected: set<InstanceId>, before: BankGroups, instanceId: InstanceId)
    requires instanceId in affected
    requires forall b :: b in before && b.instanceId == instanceId ==> Instances(Members(before, before[b])) <= affected
    ensures Covers(affected, before, WithoutInstance(before, instanceId))
  {
  }

  /** The groups with the first `count` banks of an instance added. */
  function WithBanks(groups: BankGroups, instanceId: InstanceId, added: seq<Option<GroupId>>,
                     count: nat): (r: BankGroups)
    requires count <= |added| && forall b :: b in groups ==> b.instanceId != instanceId
    ensures forall b :: b in r <==>
      b in groups || (b.instanceId == instanceId && b.bank < count && added[b.bank].Some?)
    ensures forall b :: b in r ==> r[b] == if b.instanceId == instanceId then added[b.bank].value else groups[b]
  {
    if count == 0 then groups
    else
      var r := WithBanks(groups, instanceId, added, count - 1);
      if added[count - 1].Some? then r[BankAddress(instanceId, count - 1) := added[count - 1].value] else r
  }

  function WithoutBanks(groups: BankGroups, instanceId: InstanceId, count: nat): BankGroups {
    map b | b in groups && !(b.instanceId == instanceId && b.bank < count) :: groups[b]
  }

  function WithoutInstance(groups: BankGroups, instanceId: InstanceId): BankGroups {
    map b | b in groups && b.instanceId != instanceId :: groups[b]
  }

  /** The instances that are refreshed when an instance joins: itself and the peers of its grouped
      banks. They cover every bank whose peers change. */
  function JoinedInstances(groups: BankGroups, instanceId: InstanceId, added: seq<Option<GroupId>>): set<InstanceId>
    requires |added| == BANK_COUNT && forall b :: b in groups ==> b.instanceId != instanceId
  {
    var after := WithBanks(groups, instanceId, added, BANK_COUNT);
    {instanceId} + set b, c | b in after && b.instanceId == instanceId && c in Peers(after, b) :: c.instanceId
  }

  lemma JoiningIsCovered(affected: set<InstanceId>, groups: BankGroups, instanceId: InstanceId,
                         added: seq<Option<GroupId>>)
    requires |added| == BANK_COUNT && forall b :: b in groups ==> b.instanceId != instanceId
    requires JoinedInstances(groups, instanceId, added) <= affected
    ensures Covers(affected, groups, WithBanks(groups, instanceId, added, BANK_COUNT))
  {
  }

  class TopologyIndex {
    var focusedBanks: map<InstanceId, Option<BankAddress>>
    var bankGroups: BankGroups
    var groupBanks: map<GroupId, set<BankAddress>>
    var groupInstances: map<GroupId, set<InstanceId>>

    /** The three indexes say the same: the banks of a group are the inverse of the groups of banks,
        its instances are their projection, and no group is listed without banks. */
    ghost predicate Agree()
      reads this`bankGroups, this`groupBanks, this`groupInstances
    {
      && groupBanks.Keys == groupInstances.Keys
      && (forall b :: b in bankGroups ==> bankGroups[b] in groupBanks)
      && (forall g :: g in groupBanks ==> groupBanks[g] == Members(bankGroups, g) && groupBanks[g] != {})
      && (forall g :: g in groupInstances ==> groupInstances[g] == Instances(Members(bankGroups, g)))
    }

    ghost predicate Valid()
      reads this`bankGroups, this`groupBanks, this`groupInstances, this`focusedBanks
    {
      && Agree()
      && forall b :: b in bankGroups ==> b.instanceId in focusedBanks && b.bank < BANK_COUNT
    }

    constructor ()
      ensures Valid() && focusedBanks == map[] && bankGroups == map[]
    {
      focusedBanks, bankGroups, groupBanks, groupInstances := map[], map[], map[], map[];
    }

    method GetConnectedBankPeers(bank: BankAddress) returns (peers: set<BankAddress>)
      requires Valid()
      ensures peers == Peers(bankGroups, bank)
    {
      if bank !in bankGroups || bankGroups[bank] !in groupBanks {
        return {bank};
      }
      peers := groupBanks[bankGroups[bank]];
    }

    static function AddToSet<T>(index: map<GroupId, set<T>>, key: GroupId, value: T): map<GroupId, set<T>> {
      index[key := (if key in index then index[key] else {}) + {value}]
    }

    static lemma MembersWith(before: BankGroups, bank: BankAddress, group: GroupId, g: GroupId)
      requires bank !in before
      ensures Members(before[bank := group], g) == Members(before, g) + if g == group then {bank} else {}
      ensures Instances(Members(before, g) + {bank}) == Instances(Members(before, g)) + {bank.instanceId}
    {
    }

    method AddToGroup(bank: BankAddress, group: GroupId)
      requires Agree() && bank !in bankGroups
      modifies this`bankGroups, this`groupBanks, this`groupInstances
      ensures Agree() && bankGroups == old(bankGroups)[bank := group]
    {
      bankGroups := bankGroups[bank := group];
      groupBanks := AddToSet(groupBanks, group, bank);
      groupInstances := AddToSet(groupInstances, group, bank.instanceId);
      forall g | g in groupBanks
        ensures groupBanks[g] == Members(bankGroups, g) != {} && groupInstances[g] == Instances(Members(bankGroups, g))
      {
        MembersWith(old(bankGroups), bank, group, g);
        if g !in old(groupBanks) {
          assert Members(old(bankGroups), g) == {};
        }
      }
    }

    /** Drops an element from the set of a key, and the key with its last element. */
    static function RemoveFromSet<T>(index: map<GroupId, set<T>>, key: GroupId, value: T): map<GroupId, set<T>> {
      if key !in index then index
      else if index[key] - {value} == {} then index - {key}
      else index[key := index[key] - {value}]
    }

    method RemoveFromGroup(bank: BankAddress)
      requires Agree() && bank in bankGroups
      modifies this`bankGroups, this`groupBanks, this`groupInstances
      ensures Agree() && bankGroups == old(bankGroups) - {bank}
    {
      ghost var before := bankGroups;
      var group := bankGroups[bank];
      groupBanks := RemoveFromSet(groupBanks, group, bank);
      if group !in groupBanks || forall b :: b in groupBanks[group] ==> b.instanceId != bank.instanceId {
        groupInstances := RemoveFromSet(groupInstances, group, bank.instanceId);
      }
      bankGroups := bankGroups - {bank};
      assert forall g :: Members(bankGroups, g) == Members(before, g) - {bank};
      assert forall g :: g != group ==> Members(bankGroups, g) == Members(before, g);
      InstancesWithout(Members(before, group), bank);
    }

    // The operations

    method UpdateFocusedBank(instanceId: InstanceId, focusedBank: Option<BankAddress>) returns (ok: bool)
      requires Valid()
      modifies this`focusedBanks
      ensures Valid() && ok == (instanceId in old(focusedBanks))
      ensures focusedBanks == if ok then old(focusedBanks)[instanceId := focusedBank] else old(focusedBanks)
    {
      if instanceId !in focusedBanks {
        return false;
      }
      focusedBanks := focusedBanks[instanceId := focusedBank];
      ok := true;
    }

    /** Moves a bank to another group, or to none. The affected instances cover every bank whose peers
        change; a bank of an unknown instance changes nothing. */
    method UpdateBankGroup(bank: BankAddress, groupId: Option<GroupId>) returns (affected: set<InstanceId>)
      requires Valid() && bank.bank < BANK_COUNT
      modifies this`bankGroups, this`groupBanks, this`groupInstances
      ensures Valid() && Covers(affected, old(bankGroups), bankGroups)
      ensures if bank.instanceId !in focusedBanks then affected == {} && bankGroups == old(bankGroups)
              else bank.instanceId in affected && bankGroups == Regrouped(old(bankGroups), bank, groupId)
    {
      if bank.instanceId !in focusedBanks {
        return {};
      }
      affected := MoveBank(bank, groupId);
    }

    method MoveBank(bank: BankAddress, groupId: Option<GroupId>) returns (affected: set<InstanceId>)
      requires Agree()
      modifies this`bankGroups, this`groupBanks, this`groupInstances
      ensures Agree() && Covers(affected, old(bankGroups), bankGroups)
      ensures bank.instanceId in affected && bankGroups == Regrouped(old(bankGroups), bank, groupId)
    {
      ghost var before := bankGroups;
      var left := LeaveGroup(bank);
      ghost var between := bankGroups;
      var joined := JoinGroup(bank, groupId);
      affected := {bank.instanceId} + left + joined;
      RegroupingIsCovered(affected, before, between, bank, groupId);
    }

    /** The instances of the group that `bank` leaves. */
    method LeaveGroup(bank: BankAddress) returns (left: set<InstanceId>)
      requires Agree()
      modifies this`bankGroups, this`groupBanks, this`groupInstances
      ensures Agree() && bankGroups == old(bankGroups) - {bank}
      ensures bank in old(bankGroups) ==> left == Instances(Members(old(bankGroups), old(bankGroups)[bank]))
    {
      if bank !in bankGroups {
        return {};
      }
      left := groupInstances[bankGroups[bank]];
      RemoveFromGroup(bank);
    }

    /** The instances that were already in the group that `bank` joins. */
    method JoinGroup(bank: BankAddress, groupId: Option<GroupId>) returns (joined: set<InstanceId>)
      requires Agree() && bank !in bankGroups
      modifies this`bankGroups, this`groupBanks, this`groupInstances
      ensures Agree() && bankGroups == Regrouped(old(bankGroups), bank, groupId)
      ensures groupId.Some? ==> joined == Instances(Members(old(bankGroups), groupId.value))
    {
      if groupId.None? {
        return {};
      }
      joined := if groupId.value in groupInstances then groupInstances[groupId.value] else {};
      AddToGroup(bank, groupId.value);
    }

    /** An instance joins with its banks; a wrong number of banks and a known instance are errors. */
    method AddInstance(instanceId: InstanceId, focusedBank: Option<BankAddress>, groups: seq<Option<GroupId>>)
      returns (ok: bool)
      requires Valid()
      modifies this
      ensures Valid() && ok == (|groups| == BANK_COUNT && instanceId !in old(focusedBanks))
      ensures ok ==>
        && focusedBanks == old(focusedBanks)[instanceId := focusedBank]
        && bankGroups == WithBanks(old(bankGroups), instanceId, groups, BANK_COUNT)
      ensures !ok ==> focusedBanks == old(focusedBanks) && bankGroups == old(bankGroups)
    {
      if |groups| != BANK_COUNT || instanceId in focusedBanks {
        return false;
      }
      focusedBanks := focusedBanks[instanceId := focusedBank];
      AddIndexes(instanceId, groups);
      ok := true;
    }

    method AddIndexes(instanceId: InstanceId, groups: seq<Option<GroupId>>)
      requires Agree() && |groups| == BANK_COUNT && forall b :: b in bankGroups ==> b.instanceId != instanceId
      modifies this`bankGroups, this`groupBanks, this`groupInstances
      ensures Agree() && bankGroups == WithBanks(old(bankGroups), instanceId, groups, BANK_COUNT)
    {
      for index := 0 to BANK_COUNT
        invariant Agree() && bankGroups == WithBanks(old(bankGroups), instanceId, groups, index)
      {
        if groups[index].Some? {
          AddToGroup(BankAddress(instanceId, index), groups[index].value);
        }
      }
    }

    /** An instance leaves with all its banks. */
    method RemoveInstance(instanceId: InstanceId) returns (affected: set<InstanceId>)
      requires Valid()
      modifies this
      ensures Valid() && Covers(affected, old(bankGroups), bankGroups)
      ensures focusedBanks == old(focusedBanks) - {instanceId}
      ensures bankGroups == WithoutInstance(old(bankGroups), instanceId)
      ensures if instanceId in old(focusedBanks) then instanceId in affected else affected == {}
    {
      if instanceId !in focusedBanks {
        return {};
      }
      focusedBanks := focusedBanks - {instanceId};
      affected := ConnectedInstances(instanceId);
      RemoveIndexes(instanceId);
      assert WithoutInstance(old(bankGroups), instanceId) == WithoutBanks(old(bankGroups), instanceId, BANK_COUNT);
      LeavingIsCovered(affected, old(bankGroups), instanceId);
    }

    method ConnectedInstances(instanceId: InstanceId) returns (affected: set<InstanceId>)
      requires Agree()
      ensures instanceId in affected
      ensures forall b :: b in bankGroups && b.instanceId == instanceId ==>
        Instances(Members(bankGroups, bankGroups[b])) <= affected
    {
      affected := {instanceId};
      var rest := groupInstances.Keys;
      while rest != {}
        invariant instanceId in affected && rest <= groupInstances.Keys
        invariant forall g :: g in groupInstances && g !in rest && instanceId in groupInstances[g] ==>
          groupInstances[g] <= affected
        decreases rest
      {
        var group :| group in rest;
        if instanceId in groupInstances[group] {
          affected := affected + groupInstances[group];
        }
        rest := rest - {group};
      }
    }

    method RemoveIndexes(instanceId: InstanceId)
      requires Agree()
      modifies this`bankGroups, this`groupBanks, this`groupInstances
      ensures Agree() && bankGroups == WithoutBanks(old(bankGroups), instanceId, BANK_COUNT)
    {
      for index := 0 to BANK_COUNT
        invariant Agree() && bankGroups == WithoutBanks(old(bankGroups), instanceId, index)
      {
        if BankAddress(instanceId, index) in bankGroups {
          RemoveFromGroup(BankAddress(instanceId, index));
        }
      }
    }

    static lemma InstancesWithout(banks: set<BankAddress>, bank: BankAddress)
      requires bank in banks
      ensures Instances(banks - {bank}) ==
        if exists b :: b in banks - {bank} && b.instanceId == bank.instanceId then Instances(banks)
        else Instances(banks) - {bank.instanceId}
      ensures Instances(banks - {bank}) == {} <==> banks - {bank} == {}
    {
      if b :| b in banks - {bank} {
        assert b.instanceId in Instances(banks - {bank});
      }
    }
  }
}
