/**
  The groups of banks, as the state values hold them, and the commands that change them. Their guards
  keep every instance from having two banks in one group; the last bank of an instance stays in group
  zero. This is what makes the entries of one command reach disjoint values.
 */
module BankGrouping {
  import opened Common
  import opened Topology
  import H = HistoryModel
  import O = PeerObservers

  /** The group of every bank of every instance. */
  type Groups = map<BankAddress, Option<GroupId>>

  const USER_GROUPS: nat := 15

  predicate IsLast(b: BankAddress) { b.bank == BANK_COUNT - 1 }

  predicate Proper(groups: Groups) {
    && (forall b :: b in groups ==> b.bank < BANK_COUNT && (groups[b] == Some(0) <==> IsLast(b)))
    && (forall b, c ::
          b in groups && c in groups && groups[b].Some? && groups[b] == groups[c] && b.instanceId == c.instanceId ==>
            b == c)
  }

  /** What the topology index is told. */
  function Grouped(groups: Groups): BankGroups {
    map b | b in groups && groups[b].Some? :: groups[b].value
  }

  lemma ProperGroupsHoldOneBankPerInstance(groups: Groups)
    requires Proper(groups)
    ensures O.OneBankPerInstance(Grouped(groups))
  {
  }

  // The commands

  datatype GroupEntry = GroupEntry(bank: BankAddress, group: Option<GroupId>)

  datatype Command =
    | WriteGroups(entries: seq<GroupEntry>)
    | GroupBanks(banks: seq<BankAddress>)
    | UngroupBanks(group: GroupId)
    | ClearTopology
    | ResetGroups(reset: set<BankAddress>)

  /** The policy for one entry of a write: group zero is neither left nor joined, a group is only joined
      from none, and no other bank of the instance is in it or is put into it. */
  predicate EntryAllowed(groups: Groups, entries: seq<GroupEntry>, e: GroupEntry)
    requires e.bank in groups
  {
    && e.group != Some(0) && groups[e.bank] != Some(0)
    && (groups[e.bank].None? || e.group.None?)
    && (e.group.Some? ==>
          && (forall b :: b in groups && b.instanceId == e.bank.instanceId && b != e.bank ==> groups[b] != e.group)
          && (forall other :: other in entries && other.bank != e.bank ==> other.group != e.group))
  }

  /** The entries are for known banks of one instance, each of them once. */
  predicate Wellformed(groups: Groups, entries: seq<GroupEntry>) {
    && AreKnown(groups, entries)
    && (forall i, j :: 0 <= i < j < |entries| ==>
          entries[i].bank != entries[j].bank && entries[i].bank.instanceId == entries[j].bank.instanceId)
  }

  predicate AreKnown(groups: Groups, entries: seq<GroupEntry>) {
    forall i :: 0 <= i < |entries| ==> entries[i].bank in groups
  }

  predicate Allowed(groups: Groups, entries: seq<GroupEntry>)
    requires AreKnown(groups, entries)
  {
    forall i :: 0 <= i < |entries| ==> EntryAllowed(groups, entries, entries[i])
  }

  method IsAllowed(groups: Groups, entries: seq<GroupEntry>) returns (allowed: bool)
    requires AreKnown(groups, entries)
    ensures allowed == Allowed(groups, entries)
  {
    for index := 0 to |entries|
      invariant forall i :: 0 <= i < index ==> EntryAllowed(groups, entries, entries[i])
    {
      var e := entries[index];
      var current := groups[e.bank];
      if e.group == Some(0) || current == Some(0) || (current.Some? && e.group.Some?) {
        return false;
      }
      if e.group.None? {
        continue;
      }
      var sameGroupOnTrack :=
        exists b :: b in groups && b.instanceId == e.bank.instanceId && b != e.bank && groups[b] == e.group;
      var sameGroupInCommand := exists other :: other in entries && other.bank != e.bank && other.group == e.group;
      if sameGroupOnTrack || sameGroupInCommand {
        return false;
      }
    }
    allowed := true;
  }

  function Written(entries: seq<GroupEntry>): Groups
    decreases |entries|
  {
    if entries == [] then map[] else Written(entries[1..])[entries[0].bank := entries[0].group]
  }

  predicate IsUsed(groups: Groups, group: GroupId) {
    exists b :: b in groups && groups[b] == Some(group)
  }

  /** The first of the user groups that no bank is in. */
  function FreeGroup(groups: Groups, from: nat): (r: Option<GroupId>)
    ensures r.Some? ==> from <= r.value <= USER_GROUPS && !IsUsed(groups, r.value)
    ensures r.None? ==> forall g :: from <= g <= USER_GROUPS ==> IsUsed(groups, g)
    decreases USER_GROUPS + 1 - from
  {
    if from > USER_GROUPS then None
    else if !IsUsed(groups, from) then Some(from)
    else FreeGroup(groups, from + 1)
  }

  /** Banks of different instances, two at least, and none of them in a group. */
  predicate Groupable(groups: Groups, banks: seq<BankAddress>) {
    && |banks| >= 2
    && (forall i :: 0 <= i < |banks| ==> banks[i] in groups && groups[banks[i]].None?)
    && (forall i, j :: 0 <= i < j < |banks| ==> banks[i].instanceId != banks[j].instanceId)
  }

  function InitialGroup(b: BankAddress): Option<GroupId> {
    if IsLast(b) then Some(0) else None
  }

  /** What a command changes; `None` when it is refused. */
  function Effect(groups: Groups, c: Command): Option<Groups> {
    match c
    case WriteGroups(entries) =>
      if Wellformed(groups, entries) && Allowed(groups, entries) then Some(Written(entries)) else None
    case GroupBanks(banks) =>
      var group := FreeGroup(groups, 1);
      if Groupable(groups, banks) && group.Some? then Some(map b | b in banks :: group) else None
    case UngroupBanks(group) =>
      if group > 0 then Some(map b | b in groups && groups[b] == Some(group) :: None) else None
    case ClearTopology => Some(map b | b in groups && groups[b].Some? && groups[b].value > 0 :: None)
    case ResetGroups(banks) => Some(map b | b in groups && b in banks :: InitialGroup(b))
  }

  lemma {:induction false} WrittenIs(entries: seq<GroupEntry>)
    requires forall i, j :: 0 <= i < j < |entries| ==> entries[i].bank != entries[j].bank
    ensures forall b :: b in Written(entries) <==> exists i :: 0 <= i < |entries| && entries[i].bank == b
    ensures forall i :: 0 <= i < |entries| ==> Written(entries)[entries[i].bank] == entries[i].group
    decreases |entries|
  {
    if entries != [] {
      WrittenIs(entries[1..]);
      assert forall i :: 0 < i < |entries| ==> entries[i] == entries[1..][i - 1];
    }
  }

  /** An entry that puts a bank into a group puts it there alone, of its instance. */
  lemma JoinsAlone(groups: Groups, entries: seq<GroupEntry>, i: nat, c: BankAddress)
    requires Wellformed(groups, entries) && Allowed(groups, entries) && i < |entries| && entries[i].group.Some?
    requires c in groups && c.instanceId == entries[i].bank.instanceId && c != entries[i].bank
    ensures H.Overwrite(groups, Written(entries))[c] != entries[i].group
  {
    WrittenIs(entries);
    assert EntryAllowed(groups, entries, entries[i]);
    if j :| 0 <= j < |entries| && entries[j].bank == c {
      assert entries[j] in entries;
    }
  }

  lemma WritesKeepProper(groups: Groups, entries: seq<GroupEntry>)
    requires Proper(groups) && Wellformed(groups, entries) && Allowed(groups, entries)
    ensures Proper(H.Overwrite(groups, Written(entries)))
  {
    WrittenIs(entries);
    var after := H.Overwrite(groups, Written(entries));
    forall b | b in after ensures b.bank < BANK_COUNT && (after[b] == Some(0) <==> IsLast(b)) {
      if i :| 0 <= i < |entries| && entries[i].bank == b {
        assert EntryAllowed(groups, entries, entries[i]);
      }
    }
    forall i, c |
        && 0 <= i < |entries| && entries[i].group.Some?
        && c in groups && c.instanceId == entries[i].bank.instanceId && c != entries[i].bank
      ensures after[c] != entries[i].group
    {
      JoinsAlone(groups, entries, i, c);
    }
  }

  /** The entry leaves the last banks alone, moves its bank not from one group into another, and joins no group
      that a bank of its instance is in. */
  predicate IsCareful(groups: Groups, e: GroupEntry) {
    && e.bank in groups && !IsLast(e.bank) && (groups[e.bank].None? || e.group.None?)
    && (e.group.Some? ==> forall b :: b in groups && b.instanceId == e.bank.instanceId ==> groups[b] != e.group)
  }

  lemma AllowedAreCareful(groups: Groups, entries: seq<GroupEntry>, i: nat)
    requires Proper(groups) && Wellformed(groups, entries) && i < |entries|
    requires EntryAllowed(groups, entries, entries[i])
    ensures IsCareful(groups, entries[i])
  {
  }

  lemma CarefulAreAllowed(groups: Groups, entries: seq<GroupEntry>, i: nat)
    requires Proper(groups) && Wellformed(groups, entries) && i < |entries| && IsCareful(groups, entries[i])
    requires Proper(H.Overwrite(groups, Written(entries)))
    ensures EntryAllowed(groups, entries, entries[i])
  {
    WrittenIs(entries);
    var e, after := entries[i], H.Overwrite(groups, Written(entries));
    assert after[e.bank] == e.group;
    forall other | other in entries && other.bank != e.bank && e.group.Some? ensures other.group != e.group {
      var j :| 0 <= j < |entries| && entries[j] == other;
      assert after[other.bank] == other.group && other.bank.instanceId == e.bank.instanceId;
    }
  }

  /** Exactly which group writes pass: those of careful entries that end with proper groups. */
  lemma AllowedExactly(groups: Groups, entries: seq<GroupEntry>)
    requires Proper(groups) && Wellformed(groups, entries)
    ensures Allowed(groups, entries) <==>
      Proper(H.Overwrite(groups, Written(entries))) && forall i :: 0 <= i < |entries| ==> IsCareful(groups, entries[i])
  {
    if Allowed(groups, entries) {
      WritesKeepProper(groups, entries);
      forall i | 0 <= i < |entries| ensures IsCareful(groups, entries[i]) {
        AllowedAreCareful(groups, entries, i);
      }
    }
    var careful := forall i :: 0 <= i < |entries| ==> IsCareful(groups, entries[i]);
    if Proper(H.Overwrite(groups, Written(entries))) && careful {
      forall i | 0 <= i < |entries| ensures EntryAllowed(groups, entries, entries[i]) {
        CarefulAreAllowed(groups, entries, i);
      }
    }
  }

  lemma GroupingKeepsProper(groups: Groups, banks: seq<BankAddress>, group: GroupId)
    requires Proper(groups) && Groupable(groups, banks) && group > 0 && !IsUsed(groups, group)
    ensures Proper(H.Overwrite(groups, map b | b in banks :: Some(group)))
  {
  }

  ghost predicate IsFirstFree(groups: Groups, g: GroupId) {
    && 1 <= g <= USER_GROUPS && !IsUsed(groups, g)
    && forall h :: 1 <= h < g ==> IsUsed(groups, h)
  }

  /** A change of the groups that concerns the banks in `banks` only, and gives them `group`. */
  ghost predicate GivesGroup(groups: Groups, after: Groups, banks: set<BankAddress>, group: Option<GroupId>) {
    && banks <= groups.Keys && after.Keys == groups.Keys
    && forall b :: b in groups ==> after[b] == if b in banks then group else groups[b]
  }

  /** What grouping does: the named banks, two at least, of different instances and in no group, come into the
      first user group that nobody is in. Without such a group, or for other banks, nothing is done. */
  lemma GroupingIsExact(groups: Groups, banks: seq<BankAddress>)
    ensures var effect := Effect(groups, GroupBanks(banks));
      && (effect.Some? <==>
            && |banks| >= 2 && (forall i :: 0 <= i < |banks| ==> banks[i] in groups && groups[banks[i]].None?)
            && (forall i, j :: 0 <= i < j < |banks| ==> banks[i].instanceId != banks[j].instanceId)
            && exists g :: IsFirstFree(groups, g))
      && (effect.Some? ==>
            var after := H.Overwrite(groups, effect.value);
            exists g :: IsFirstFree(groups, g) && GivesGroup(groups, after, (set b | b in banks), Some(g)))
  {
    FreeGroupIsFirst(groups, 1);
    if Groupable(groups, banks) && FreeGroup(groups, 1).Some? {
      var g := FreeGroup(groups, 1).value;
      assert IsFirstFree(groups, g);
      assert GivesGroup(groups, H.Overwrite(groups, map b | b in banks :: Some(g)), (set b | b in banks), Some(g));
    }
  }

  lemma {:induction false} FreeGroupIsFirst(groups: Groups, from: nat)
    ensures var g := FreeGroup(groups, from); g.Some? ==> forall h :: from <= h < g.value ==> IsUsed(groups, h)
    decreases USER_GROUPS + 1 - from
  {
    if from <= USER_GROUPS && IsUsed(groups, from) {
      FreeGroupIsFirst(groups, from + 1);
    }
  }

  /** What ungrouping, clearing and resetting do. */
  lemma UngroupingIsExact(groups: Groups, group: GroupId, banks: set<BankAddress>)
    requires Proper(groups)
    ensures Effect(groups, UngroupBanks(group)).Some? <==> group > 0
    ensures group > 0 ==>
      GivesGroup(groups, H.Overwrite(groups, Effect(groups, UngroupBanks(group)).value),
                 (set b | b in groups && groups[b] == Some(group)), None)
    ensures var cleared := H.Overwrite(groups, Effect(groups, ClearTopology).value);
      GivesGroup(groups, cleared, (set b | b in groups && !IsLast(b)), None)
    ensures var reset := H.Overwrite(groups, Effect(groups, ResetGroups(banks)).value);
      && reset.Keys == groups.Keys
      && forall b :: b in groups ==>
           reset[b] == if b !in banks then groups[b] else if IsLast(b) then Some(0) else None
  {
  }

  /** Every command keeps the groups proper. */
  lemma CommandsKeepProper(groups: Groups, c: Command)
    requires Proper(groups) && Effect(groups, c).Some?
    ensures Proper(H.Overwrite(groups, Effect(groups, c).value))
  {
    match c
    case WriteGroups(entries) => WritesKeepProper(groups, entries);
    case GroupBanks(banks) => GroupingKeepsProper(groups, banks, FreeGroup(groups, 1).value);
    case UngroupBanks(_) =>
    case ClearTopology =>
    case ResetGroups(_) =>
  }

  // Every run

  /** The groups that a restored snapshot gives to an instance. */
  ghost predicate RestoresInstance(changes: Groups, i: InstanceId) {
    && (forall b :: b in changes <==> b.instanceId == i && b.bank < BANK_COUNT)
    && Proper(changes)
  }

  /** Every change of the groups comes from a command, a new bank with its initial group, or a restored
      instance. */
  ghost predicate Permitted(t: H.Timeline<BankAddress, Option<GroupId>>, op: H.Operation<BankAddress, Option<GroupId>>)
    requires H.Proper(t)
  {
    match op
    case Write(changes) => exists c :: Effect(H.CurrentState(t), c) == Some(changes)
    case Register(b, group) => b.bank < BANK_COUNT && group == InitialGroup(b)
    case Baseline(changes) => exists i :: RestoresInstance(changes, i)
    case _ => true
  }

  ghost predicate AllPermitted(t: H.Timeline<BankAddress, Option<GroupId>>,
                               ops: seq<H.Operation<BankAddress, Option<GroupId>>>)
    requires H.Proper(t)
    decreases |ops|
  {
    ops != [] ==> Permitted(t, ops[0]) && AllPermitted(H.Edit(t, ops[0]), ops[1..])
  }

  lemma RestoringKeepsProper(groups: Groups, changes: Groups, i: InstanceId)
    requires Proper(groups) && RestoresInstance(changes, i)
    ensures Proper(H.Overwrite(groups, changes))
  {
  }

  lemma WriteKeepsAlways(t: H.Timeline<BankAddress, Option<GroupId>>, changes: Groups)
    requires H.Proper(t) && H.Always(t, Proper) && Proper(H.Overwrite(H.CurrentState(t), changes))
    ensures H.Always(H.Edit(t, H.Operation.Write(changes)), Proper)
  {
  }

  lemma BaselineKeepsAlways(t: H.Timeline<BankAddress, Option<GroupId>>, changes: Groups, i: InstanceId)
    requires H.Proper(t) && H.Always(t, Proper) && RestoresInstance(changes, i)
    ensures H.Always(H.Edit(t, H.Operation.Baseline(changes)), Proper)
  {
    var u := H.Edit(t, H.Operation.Baseline(changes));
    forall k | 0 <= k < |u.states| ensures Proper(u.states[k]) {
      RestoringKeepsProper(t.states[k], changes, i);
    }
  }

  lemma RegistrationKeepsAlways(t: H.Timeline<BankAddress, Option<GroupId>>, b: BankAddress)
    requires H.Proper(t) && H.Always(t, Proper) && b.bank < BANK_COUNT
    ensures H.Always(H.Edit(t, H.Operation.Register(b, InitialGroup(b))), Proper)
  {
    var u := H.Edit(t, H.Operation.Register(b, InitialGroup(b)));
    forall k | 0 <= k < |u.states| ensures Proper(u.states[k]) {
      assert Proper(t.states[k]);
    }
  }

  lemma UnregistrationKeepsAlways(t: H.Timeline<BankAddress, Option<GroupId>>, b: BankAddress)
    requires H.Proper(t) && H.Always(t, Proper)
    ensures H.Always(H.Edit(t, H.Operation.Unregister(b)), Proper)
  {
    var w := H.Edit(t, H.Operation.Unregister(b));
    forall k | 0 <= k < |w.states| ensures Proper(w.states[k]) {
      assert Proper(t.states[k]);
    }
  }

  lemma AdvanceKeepsAlways(t: H.Timeline<BankAddress, Option<GroupId>>)
    requires H.Proper(t) && H.Always(t, Proper)
    ensures H.Always(H.Edit(t, H.Operation.Advance), Proper)
  {
    var u := H.Edit(t, H.Operation.Advance);
    H.DuplicatedAt(t, 0);
    forall k | 0 <= k < |u.states| ensures Proper(u.states[k]) {
      H.DuplicatedAt(t, k);
    }
  }

  lemma PermittedKeepsProper(t: H.Timeline<BankAddress, Option<GroupId>>, op: H.Operation<BankAddress, Option<GroupId>>)
    requires H.Proper(t) && H.Always(t, Proper) && Permitted(t, op)
    ensures H.Always(H.Edit(t, op), Proper)
  {
    match op
    case Write(changes) =>
      var c :| Effect(H.CurrentState(t), c) == Some(changes);
      CommandsKeepProper(H.CurrentState(t), c);
      WriteKeepsAlways(t, changes);
    case Baseline(changes) =>
      var i :| RestoresInstance(changes, i);
      BaselineKeepsAlways(t, changes, i);
    case Register(b, group) => RegistrationKeepsAlways(t, b);
    case Unregister(b) => UnregistrationKeepsAlways(t, b);
    case Advance => AdvanceKeepsAlways(t);
    case Jump(_) =>
  }

  /** In every state that any run of commands, jumps, joining and leaving instances and restores can
      show, no group holds two banks of one instance. */
  lemma {:induction false} GroupsStayProper(t: H.Timeline<BankAddress, Option<GroupId>>,
                                            ops: seq<H.Operation<BankAddress, Option<GroupId>>>)
    requires H.Proper(t) && H.Always(t, Proper) && AllPermitted(t, ops)
    ensures H.Always(H.EditAll(t, ops), Proper)
    ensures O.OneBankPerInstance(Grouped(H.CurrentState(H.EditAll(t, ops))))
    decreases |ops|
  {
    if ops == [] {
      ProperGroupsHoldOneBankPerInstance(H.CurrentState(t));
    } else {
      PermittedKeepsProper(t, ops[0]);
      GroupsStayProper(H.Edit(t, ops[0]), ops[1..]);
    }
  }
}
