# Verification of the Consolidator state engine and its real-time borders

This project models the hand-written core of Consolidator, a multi-instance audio processor with a
managed (C#) control side and a native (C++) audio side, and proves what that core promises.

* **Undo and redo.** Every state value owns a ring of 32 slots; the history moves all rings together.
  `HistoryModel` shows that the rings are a bounded list of global states with a cursor.
  `StateValues` and `StateHistory` carry the real fields, arrays and loops and are proved against it.
* **Edits.** `GroupEdits` says what grouped copies and deltas mean; `StateEdits` and `StateResets` carry
  the write and reset handlers over transactions of real values; `UndoneEdits` composes a handled write
  with the jumps back and forth. `CompressionMirror` proves the cross-value invariant of the compression
  profiles in every history slot, `CompressionPaths` which commands reach them, and `EditTargets` that
  both kinds of edit reach the same instances. `WriteOutcomes` says which commands are taken and what
  becomes of every value. `HandledWrites` is the write handler as a whole, with the compression edits
  (`ProfileEdits`, through `RenamedEdits`) and the policy for bank groups (`GroupWrites`), and
  `HandledResets` the reset of a compression leaf with what is derived from it. `Persistence` restores an
  instance, and `RestoreConditions` says what can be restored.
* **Topology.** `Topology` keeps three indexes of bank groups, `PeerObservers` two levels of cached peer
  sets, and `StateTopology` drives them; nothing is stale after any change. `WiredPeers` hands the
  resolved peers to the write handler, `BankGrouping` keeps the bank groups proper, and `GroupTopology`
  lets the topology follow them through the history.
* **Borders.** `SnapshotExchange`, `TelemetrySequence` and `AudioCaptureRing` are the lock-free protocols,
  as state machines over single shared-memory steps in any interleaving. `CommandQueue` is the coalescing
  queue between protocol producers and the worker, and `CoalescedEdits` joins it to the edits.
  `DspStates` tracks which published DSP snapshots are out of date, and `LiveSnapshots` ties the runtime
  states to the values through every operation.
* **Smaller algorithms.** `WetTransitions` (ramps and bypass cross-fades), `StatePaths` (the path codec,
  with its grammar in `WirePaths` and the abbreviation for observed banks in `ObservedPaths`) and
  `ObservationSampler` (the stratified sampler of the emulation laboratory).

`dafny verify dfyconfig.toml` checks everything.

## What turned out differently than documented

* *Snapshot exchange.* Docs/Aspects/DspStateExchange.md says that the publisher never writes the
  protected slot, so that the payload copy has explicit ownership. That holds unless a publication reads
  `consumerIndex` while the consumer has loaded an index that is no longer the published one and has not
  yet announced it. `HazardFreeRunsAreSafe` proves safety of all runs without that event;
  `HazardPicksTheLoadedSlot`, `EveryHazardCanTear` and `SnapshotsCanTear` show that the event is exactly
  what goes wrong, that it can always tear a snapshot, and that a torn snapshot can be reported from the
  start.
* *Telemetry.* The sequence counter wraps; the bound of 2^31 publications per read is exact.
* *Coalescing.* Dropping superseded writes preserves their meaning whenever the values at the start of
  the burst accept the surviving command; for copies that is always so. When they do not, the result
  differs exactly if the last earlier command that they accept changes something (`CoalescingIsExact`);
  a delta to the end of a range and one beyond it is such a burst (`RefusedLastDeltaBreaksCoalescing`).
  Entries that share a peer also break it; they cannot, because no group ever holds two banks of one
  instance (`GroupsStayProper`, `EntriesAreSeparate`). Across keys it takes more than the key of a command
  guarantees: commands of one key have to write the same values, or an edit is lost
  (`DifferentShapesLoseAnEdit`), and commands of different keys different ones, or they are reordered
  (`SharedValuesAreReordered`).
* *Compression profiles.* The entries of the profiles are ordinary leaves of the state tree. The edits
  derive nothing from writing or resetting them, so a command on a selected entry alone breaks the
  equality of active values and selected profile (`ProfileWriteBreaksTheMirror`; the exact conditions are
  `WritesKeepTheMirrorExactly` and `ResetsKeepTheMirrorExactly`). Only the wire keeps such commands out,
  because it has no name for a profile (`DecodedAvoidsProfiles`).
* *Persistence.* Copies are not checked against ranges, so an instance can be captured and then not be
  restored (`CopyBeyondRange`); `CapturesAreAcceptedExactly` says when it can.
* *Wet processors.* The comment on the transition asks the callback to touch only the borrowed buffer. It
  also has to leave the channels that the mode does not select alone: otherwise the end of a ramp is heard
  (`TouchedChannelsAreHeard`, `CutsAreInaudibleExactly`).
* *State paths.* Printing a path with a focused bank and without an observed one gives a text that is not
  a path; all other value paths survive. For a client that observes a bank, the encoder leaves that bank
  out in front of a filter, so the text reads as a filter outside of any bank (`FiltersAreConfused`); the
  other paths come back once the focused bank is resolved (`ResolvedExactly`). The decoder ignores what
  follows a label, mute or solo path (`DecodedExactly`).
* *Sampler.* A bucket with fewer than perBucket observations is sampled twice at one place, unless it has
  a single one, or two for a share of three; a bucket that is still picked from after perBucket rounds is
  clamped to its last observation (`PicksIncreaseExactly`).

## Conventions

Floating-point numbers are reals. State values are compared by content. A method returns `false`, `None`
or `Failed` where the original raises an exception. `observed` is the content that the observers of a
value, its runtime projection among them, were last told; `LiveSnapshots` passes it on to the runtime
states right after the operation, where the original does so at the end of the commit or jump. Ghost
parameters named `all`, `values`, `staged`, `seen` and `before` only name the state a contract talks
about. Lists whose order no result depends on (peer sets, affected instances, marked instances) are sets.

## Model

| member | source | states |
|---|---|---|
| `HistoryModel.StepRefines` | Consolidator.Managed/State/History/StateHistory.cs:103-189 | One engine step (register, unregister, advance, jump, commit, baseline) on the rings is exactly the evident edit of a list of at most 32 global states with a cursor. |
| `HistoryModel.RunRefines` | Consolidator.Managed/State/History/StateHistory.cs:103-189 | Every run of the engine shows the list that the same edits give when applied to the list directly; undo plus redo never exceeds 31. |
| `HistoryModel.AdvanceRefines` | Consolidator.Managed/State/History/StateHistory.cs:103-125 | Advancing drops the redo states, duplicates the current state and, when 32 states are full, drops the oldest. |
| `HistoryModel.JumpRefines` | Consolidator.Managed/State/History/StateHistory.cs:127-153 | A jump only moves the cursor; a cursor outside the list changes nothing. |
| `HistoryModel.WriteRefines` | Consolidator.Managed/State/StateValue.cs:270-288 | A commit rewrites the state at the cursor and no other state, whichever ring slot the cursor is in. |
| `HistoryModel.BaselineRefines` | Consolidator.Managed/State/StateValue.cs:183-238 | A baseline rewrites the value in every state of the list. |
| `HistoryModel.UndoIsExact` | Consolidator.Managed/Core/Commands/Handlers/WriteStateCommandHandler.cs:104-109 | An edit behind a new history point is undone and redone exactly, also from a full history and in front of redo states. |
| `HistoryModel.AdvanceKeepsThePast` | Consolidator.Managed/State/History/StateHistory.cs:103-122 | Every earlier state stays reachable after an advance, one step further back, except the oldest of a full history. |
| `HistoryModel.JumpLandsOnThePoint` | Consolidator.Managed/State/History/StateHistory.cs:141-146 | Jumping to a cursor shows the state that the list has there. |
| `HistoryModel.InvariantInEverySlot` | Consolidator.Managed/State/History/StateHistory.cs:103-153 | A property of single states that commits keep at the cursor holds at every history point of every run. |
| `HistoryModel.UniformValuesStay` | Consolidator.Managed/State/StateValue.cs:221-225 | A value whose slots all agree shows the same content at every history point, whatever advances and jumps follow. |
| `StateHistories.StateHistory.Register` | Consolidator.Managed/State/History/StateHistory.cs:18-31 | A value joins once, with its ring as it is; filled with its initial content it shows that content in every state of the list. |
| `StateHistories.StateHistory.Unregister` | Consolidator.Managed/State/History/StateHistory.cs:33-44 | Unregistering removes the value from every state and disturbs no other. |
| `StateHistories.StateHistory.AdvanceHistoryPoint` | Consolidator.Managed/State/History/StateHistory.cs:103-125 | The copy loop over all registered rings performs the advance step of the model; no value shows anything new. |
| `StateHistories.StateHistory.MoveSlot` | Consolidator.Managed/State/History/StateHistory.cs:180-189 | Walking the ring slot by slot lands on the slot at the offset modulo 32, in either direction. |
| `StateHistories.StateHistory.JumpToHistory` | Consolidator.Managed/State/History/StateHistory.cs:127-161 | Performs the jump step of the model and tells the observers of exactly the values whose content differs; an invalid cursor changes nothing. |
| `StateValues.StateValue.Prepare` | Consolidator.Managed/State/StateValue.cs:132-165 | Stages a change once, refuses a value that is already staged, and stages nothing when the content is the same. |
| `StateValues.StateValue.PrepareBaseline` | Consolidator.Managed/State/StateValue.cs:183-219 | Remembers all slots and stages a baseline, unless every slot holds it already; refuses a staged value. |
| `StateValues.StateValue.PrepareResetDirect` | Consolidator.Managed/State/StateValue.cs:257-268 | Reports a reset exactly when the value differs from its initial content and could be staged. |
| `StateValues.StateHistoryTransaction.Appended` | Consolidator.Managed/State/History/StateHistoryTransaction.cs:18-29 | Adding an entry keeps the transaction sound: one entry per value, and every queued notification tells what its entry commits. |
| `StateValues.StateHistoryTransaction.Commit` | Consolidator.Managed/State/History/StateHistoryTransaction.cs:31-69 | Commits all entries, completes them, and only then tells each observer exactly what was committed. |
| `StateValues.StateHistoryTransaction.Rollback` | Consolidator.Managed/State/History/StateHistoryTransaction.cs:71-115 | A transaction rolled back before anything else happened leaves every slot and every current slot as it was. |
| `GroupEdits.CalculateEffectiveDeltaRange` | Consolidator.Managed/Core/State/Observers/StatePeerObserver.cs:536-562 | The loop returns exactly the deltas that keep every peer in its own physical range; a peer without a range is an error, no peers give an empty range. |
| `GroupEdits.ExecutedEntries` | Consolidator.Managed/Core/State/Observers/StatePeerObserver.ValueMutation.cs:23-70 | A command whose entries reach disjoint peers is accepted exactly when every entry passes its guard, and then gives every peer its target; otherwise nothing changes. |
| `GroupEdits.DeltaMovesTheGroupTogether` | Consolidator.Managed/Core/State/Observers/StatePeerObserver.ValueMutation.cs:41-69 | A grouped delta is accepted exactly when every shifted peer stays in its range; then all pairwise differences are unchanged and all peers are in range. |
| `GroupEdits.CopyIsTaken` | Consolidator.Managed/Core/State/Observers/StatePeerObserver.ValueMutation.cs:23-40 | A copy to one value is accepted and taken over whatever the range of the value. |
| `GroupEdits.EntryTelescopes` | Consolidator.Managed/Core/State/Observers/StatePeerObserver.ValueMutation.cs:42-67 | After an accepted entry, a later one of the same shape is acceptable exactly when it was before, and leads to the same targets. |
| `GroupEdits.CommandTelescopes` | Consolidator.Managed/Protocol/ProtocolService.cs:77-89 | Executing an accepted command and then another of its shape is executing the second alone. |
| `GroupEdits.BurstIsItsLastAcceptedCommand` | Consolidator.Managed/Protocol/ProtocolService.cs:77-105 | A whole burst of same-shaped commands has the effect of the last one that is acceptable at its start. |
| `GroupEdits.CoalescingIsExact` | Consolidator.Managed/Protocol/ProtocolService.cs:166-178 | Executing only the last command of a burst preserves the meaning exactly when the values at its start accept that command, or the last earlier command that they accept, if any, would leave every value it reaches as it is. |
| `GroupEdits.RefusedLastDeltaBreaksCoalescing` | Consolidator.Managed/Core/State/Observers/StatePeerObserver.ValueMutation.cs:41-52 | In every range with two ends: a delta to the upper end and then one beyond it do not coalesce. |
| `GroupEdits.CopiesAlwaysCoalesce` | Consolidator.Managed/Protocol/ProtocolService.cs:166-178 | For copies the condition always holds: a burst may be replaced by its last command. |
| `GroupEdits.SharedPeersBreakCoalescing` | Consolidator.Managed/Core/State/Observers/StatePeerObserver.ValueMutation.cs:55-69 | If two entries of a command share a peer there are values for which dropping a superseded command changes the result. |
| `GroupEdits.TwoParts` | Consolidator.Managed/State/StateValue.cs:132-165 | A command of two parts, each without a shared peer, is accepted exactly when both pass their guards and the second reaches nothing that the first changes; every value is then left by the part that changes it. |
| `CoalescedEdits.CoalescedRunsMeanTheSame` | Consolidator.Managed/Protocol/ProtocolService.cs:77-178 | Once the worker has caught up with any run: if commands of one key have one separate shape, commands of different keys reach different values, and the start values accept the latest command of every key, the executed commands leave the same values as all accepted ones in order. |
| `CoalescedEdits.LastingValues` | Consolidator.Managed/Protocol/ProtocolService.cs:144-178 | Any sequence of such commands leaves every value as the last command that reaches it and that the start values accept would. |
| `CoalescedEdits.DifferentShapesLoseAnEdit` | Consolidator.Managed/Protocol/ProtocolService.cs:235-250 | If two commands of one key write different values, there is a run whose worker executes only the second, and the first edit is lost. |
| `CoalescedEdits.SharedValuesAreReordered` | Consolidator.Managed/Protocol/ProtocolService.cs:77-105 | If a command of another key in between writes the same value, there is a run in which it is executed after the superseding command that was received last, and decides the value. |
| `StateEdits.StageValue` | Consolidator.Managed/State/StateValue.cs:132-165 | Staging one value in a transaction follows the pure staging rule and keeps the transaction's books. |
| `StateEdits.CheckEntry` | Consolidator.Managed/Core/State/Observers/StatePeerObserver.cs:416-434 | The guard before a grouped write passes exactly for copies and for float deltas that fit every peer. |
| `StateEdits.StagePeers` | Consolidator.Managed/Core/State/Observers/StatePeerObserver.ValueMutation.cs:55-69 | The loop over the peers stages what the pure model stages, and stops at the first refusal. |
| `StateEdits.Validate` | Consolidator.Managed/Core/Commands/Handlers/WriteStateCommandHandler.cs:55-77 | There is no complaint exactly when every entry names a leaf, none names one again, and all are of the type of their leaf; otherwise the first entry for which that fails gives the status, rejected if only its type is wrong, not handled if not. |
| `StateEdits.StageWrites` | Consolidator.Managed/Core/Commands/Handlers/WriteStateCommandHandler.cs:83-99 | The write loop stages the entries in order, rejects a transient leaf and fails on a refused preparation. |
| `StateEdits.AdvanceStaged` | Consolidator.Managed/Core/Commands/Handlers/WriteStateCommandHandler.cs:104-108 | Opening a history point while changes are staged shows nothing new and disturbs neither the staged values nor their transaction. |
| `StateEdits.CommitStaged` | Consolidator.Managed/State/History/StateHistoryTransaction.cs:31-69 | After the commit each staged value holds its staged content in its current slot only, and its observers know. |
| `StateEdits.RollbackStaged` | Consolidator.Managed/State/History/StateHistoryTransaction.cs:71-92 | Leaving a handler without a commit restores every slot. |
| `StateEdits.HandleWrite` | Consolidator.Managed/Core/Commands/Handlers/WriteStateCommandHandler.cs:32-111 | The status of a write command, and its effect: the staged changes committed behind a history point exactly when one is due, or no value, no history and no observer changed. |
| `WriteOutcomes.CommandsAreTakenExactly` | Consolidator.Managed/Core/Commands/Handlers/WriteStateCommandHandler.cs:32-111 | A command is taken exactly when it has entries, the policies allow it, every entry is the first for a leaf with a state value and of its type, and every delta keeps all peers in range; then every peer shows what was copied or is shifted as the leaf, the derived values are there, and nothing else changes. |
| `WriteOutcomes.StatusIsTheFirstReason` | Consolidator.Managed/Core/Commands/Handlers/WriteStateCommandHandler.cs:38-111 | The status of every command: applied or unchanged when it is taken, and otherwise what the first reason in the order of the handler gives. |
| `UndoneEdits.PointsAreOpenedByOrdinaryEdits` | Consolidator.Managed/Core/Commands/Handlers/WriteStateCommandHandler.cs:104-109 | A command of a gesture or for the topology opens no history point; any other one opens one exactly when it changes a registered value. |
| `HistoryModel.GestureIsOneStep` | Consolidator.Managed/Core/Commands/Handlers/BeginHistoryCommandHandler.cs:18-25 | A history point and any number of commits behind it, as in a gesture, are undone and redone in one step. |
| `StateEdits.ObserversStayUpToDate` | Consolidator.Managed/State/StateValue.cs:354-367 | Observers that know what every value shows before a command know it after the command, whatever its outcome. |
| `StateResets.ResetRestoresInitialValues` | Consolidator.Managed/Core/State/Observers/StatePeerObserver.ValueMutation.cs:72-103 | A reset is accepted exactly when no displaced value is reached twice; it gives every reached value its initial content and touches no other. |
| `StateResets.PrepareResetRecursive` | Consolidator.Managed/State/Tree/StateNode.cs:58-64 | The recursive walk resets the peers of every leaf below the target, in order. |
| `StateResets.ResetGives` | Consolidator.Managed/Core/Commands/Handlers/ResetStateCommandHandler.cs:36-57 | With derived writes for different values a reset is accepted exactly when it reaches no displaced value twice and none that a derived write changes; then reached displaced values are at their initial values, other derived ones at their derived values, and the rest is as it was. |
| `StateResets.HandleReset` | Consolidator.Managed/Core/Commands/Handlers/ResetStateCommandHandler.cs:28-57 | The reset command commits all resets and derived writes behind one history point exactly under that condition, or changes nothing. |
| `HandledResets.LeafResetsAreTaken` | Consolidator.Managed/Core/Commands/Editing/CompressionEdits.cs:46-72 | Resetting a compression leaf, with the writes that the edits derive, is always accepted and keeps active values equal to the selected profile. |
| `HandledResets.Derive` | Consolidator.Managed/Core/Commands/Editing/CompressionEdits.cs:46-72 | The loops of the compression edits compute these writes, for the values where they are stored. |
| `HandledResets.HandleReset` | Consolidator.Managed/Core/Commands/Handlers/ResetStateCommandHandler.cs:28-57 | The handler on a compression leaf: leaf, profiles and active values are committed together behind one history point, and compression stays mirrored. |
| `UndoneEdits.WriteAndUndo` | Consolidator.Managed/Core/Commands/Handlers/WriteStateCommandHandler.cs:32-111 | A handled write that opens a history point, a jump back and a jump forward: undone, the registered values show what they showed before and the others what the edit made of them; redone, all show what the edit made of them. |
| `UndoneEdits.Navigate` | Consolidator.Managed/State/History/StateHistory.cs:127-161 | A jump changes what the registered values show to the state it lands on and touches nothing else. |
| `RenamedEdits.RenamedCommand` | Consolidator.Managed/Core/State/Observers/StatePeerObserver.ValueMutation.cs:23-70 | Renaming values one to one changes neither whether a command is accepted nor, up to the new names, what it does: an edit may be judged by places in the instances or by the values stored there. |
| `ProfileEdits.HandledAsEdited` | Consolidator.Managed/Core/Commands/Handlers/WriteStateCommandHandler.cs:79-99 | What the handler stages, the derived writes before the entries, is accepted exactly when the compression edits accept the command, and leaves every stored value as they say. |
| `ProfileEdits.HandledWritesKeepTheMirrorExactly` | Consolidator.Managed/Core/Commands/Handlers/WriteStateCommandHandler.cs:45-111 | A handled write keeps active compression values equal to the selected profile exactly when it is refused or changes no selected profile entry directly. |
| `GroupWrites.WritesKeepGroupsProper` | Consolidator.Managed/Core/Commands/Policies/BankGroupWritePolicy.cs:14-56 | The policy sees the entries only, the handler also stages peers and derived writes; whatever the outcome, the groups that the values show stay proper. |
| `HandledWrites.Derive` | Consolidator.Managed/Core/Commands/Handlers/WriteStateCommandHandler.cs:45-81 | The loops of the compression edits compute the derived writes of every command that is not refused before, for the values where they are stored. |
| `HandledWrites.HandleWrite` | Consolidator.Managed/Core/Commands/Handlers/WriteStateCommandHandler.cs:32-111 | The handler with the policy for bank groups, the guard for compression types and the derived writes: committed as a whole behind a history point when one is due, or nothing changes; the groups are proper afterwards, and compression is mirrored under the exact condition. |
| `Topology.GroupsOfChangedBanksSuffice` | Consolidator.Managed/Core/Topology/TopologyIndex.cs:62-92 | If the groups that changed banks leave and join are affected, every bank whose peers change is affected, with all its old and new peers. |
| `Topology.PeersAreClasses` | Consolidator.Managed/Core/Topology/TopologyIndex.cs:165-177 | Being connected is an equivalence: banks have the same peers exactly when they are peers. |
| `Topology.TopologyIndex.AddToGroup` | Consolidator.Managed/Core/Topology/TopologyIndex.cs:255-268 | Adding a bank keeps the three indexes in agreement. |
| `Topology.TopologyIndex.RemoveFromGroup` | Consolidator.Managed/Core/Topology/TopologyIndex.cs:71-77 | Removing a bank keeps the three indexes in agreement and drops empty sets. |
| `Topology.TopologyIndex.UpdateBankGroup` | Consolidator.Managed/Core/Topology/TopologyIndex.cs:51-94 | Moves one bank; the returned instances cover every bank whose peers change; an unknown instance changes nothing. |
| `Topology.TopologyIndex.AddInstance` | Consolidator.Managed/Core/Topology/TopologyIndex.cs:14-32 | Adds seven banks, refuses any other number and a known instance, and keeps the indexes in agreement. |
| `Topology.TopologyIndex.RemoveInstance` | Consolidator.Managed/Core/Topology/TopologyIndex.cs:96-117 | Removes all banks of an instance; the returned instances cover every bank whose peers change. |
| `Topology.TopologyIndex.UpdateFocusedBank` | Consolidator.Managed/Core/Topology/TopologyIndex.cs:34-48 | Changes the focus of a known instance only. |
| `Topology.TopologyIndex.GetConnectedBankPeers` | Consolidator.Managed/Core/Topology/TopologyIndex.cs:165-177 | Returns the group of a bank, or the bank alone. |
| `Topology.JoiningIsCovered` | Consolidator.Managed/Core/State/Observers/StateTopologyObserver.cs:42-50 | The peers of the new banks and the new instance cover every bank whose peers change when an instance joins. |
| `PeerObservers.ResolutionFindsTheClass` | Consolidator.Managed/Core/State/Observers/StatePeerObserver.cs:218-249 | Resolving a bank value finds exactly the attached values with its peer path, its type and a connected bank. |
| `PeerObservers.FreshSetsPartition` | Consolidator.Managed/Core/State/Observers/StatePeerObserver.cs:66-93 | Fresh peer sets of bank values are exactly the classes of group, peer path and type: equal or disjoint, and equal exactly within a class. |
| `PeerObservers.StatePeerObserver.AssignPeers` | Consolidator.Managed/Core/State/Observers/StatePeerObserver.cs:75-92 | Handing one resolved set to all its members gives each of them its own resolution. |
| `PeerObservers.StatePeerObserver.GetContextualPeerSet` | Consolidator.Managed/Core/State/Observers/StatePeerObserver.cs:281-315 | Returns the cached set, or resolves it and links it to its members. |
| `PeerObservers.StatePeerObserver.RefreshContextualPeerSets` | Consolidator.Managed/Core/State/Observers/StatePeerObserver.cs:317-358 | If only contexts of affected instances were stale, all are fresh afterwards; no cached set is lost. |
| `PeerObservers.StatePeerObserver.Refresh` | Consolidator.Managed/Core/State/Observers/StatePeerObserver.cs:48-96 | If only values of the changed instances were stale, every peer set and every cached contextual set is fresh afterwards. |
| `PeerObservers.StatePeerObserver.Attach` | Consolidator.Managed/Core/State/Observers/StatePeerObserver.cs:118-145 | A value of an instance outside the topology joins without making any other value or cached set stale. |
| `PeerObservers.StatePeerObserver.Detach` | Consolidator.Managed/Core/State/Observers/StatePeerObserver.cs:147-186 | A leaving value drops exactly the cached sets it was in, remembers those made for others, and makes only connected instances stale. |
| `PeerObservers.StatePeerObserver.ResolveMutationPeers` | Consolidator.Managed/Core/State/Observers/StatePeerObserver.cs:251-265 | With nothing stale, an edit reaches the value alone, its class, or its focused context, as fresh resolution gives them. |
| `PeerObservers.EditsReachTheirSource` | Consolidator.Managed/Core/State/Observers/StatePeerObserver.cs:397-414 | An edit reaches the edited value and only attached values of its type. |
| `PeerObservers.EditsReachExactly` | Consolidator.Managed/Core/State/Observers/StatePeerObserver.cs:251-265 | An edit reaches the edited value and, in a group edit, exactly the attached values of its class, or, outside of banks, the same value of the instances that the focused bank connects. |
| `PeerObservers.EditsOfOneInstanceAreApart` | Consolidator.Managed/Core/State/Observers/StatePeerObserver.cs:251-265 | While no group holds two banks of one instance, edits of different values of an instance reach disjoint values. |
| `WiredPeers.PeersAreWired` | Consolidator.Managed/Core/State/Observers/StatePeerObserver.cs:397-414 | The peers that the observers resolve in the edit context are what the write handler needs: every value is among its own peers, and they are known and of its kind. |
| `WiredPeers.EntriesAreSeparate` | Consolidator.Managed/Core/State/Observers/StatePeerObserver.cs:251-265 | The entries of an acceptable command of one instance reach no value twice, while no group holds two banks of one instance. |
| `BankGrouping.IsAllowed` | Consolidator.Managed/Core/Commands/Policies/BankGroupWritePolicy.cs:14-56 | The policy lets a group write pass exactly when every entry neither leaves nor joins group zero, joins only from no group, and meets no other bank of its instance in the group. |
| `BankGrouping.CommandsKeepProper` | Consolidator.Managed/Core/Commands/Handlers/GroupBanksCommandHandler.cs:26-67 | Group writes, grouping, ungrouping, clearing and resetting keep every instance from having two banks in one group and keep the last bank, and no other, in group zero. |
| `BankGrouping.AllowedExactly` | Consolidator.Managed/Core/Commands/Policies/BankGroupWritePolicy.cs:14-56 | A group write passes exactly when it ends with proper groups, leaves the last banks alone, moves no bank from group to group, and joins no group that a bank of the instance is in. |
| `BankGrouping.GroupingIsExact` | Consolidator.Managed/Core/Commands/Handlers/GroupBanksCommandHandler.cs:26-67 | Grouping is taken exactly for two or more ungrouped banks of different instances while a user group is free; they come into the first free one, and no other bank changes. |
| `BankGrouping.UngroupingIsExact` | Consolidator.Managed/Core/Commands/Handlers/UngroupBanksCommandHandler.cs:21-45 | Ungrouping empties exactly one group, clearing all but group zero, and resetting restores initial groups. |
| `BankGrouping.GroupsStayProper` | Consolidator.Managed/Core/Commands/Policies/BankGroupWritePolicy.cs:14-56 | In every state of every run of commands, jumps, joins, leaves and restores no group holds two banks of one instance. |
| `StateTopology.StateTopologyObserver.BankGroupChanged` | Consolidator.Managed/Core/State/Observers/StateTopologyObserver.cs:77-84 | After a bank changes its group no peer set and no cached set is stale. |
| `GroupTopology.Announce` | Consolidator.Managed/Core/State/Observers/StateTopologyObserver.cs:77-84 | The banks that changed their group tell the observer one after the other, in any order; in the end the topology has the new groups and nothing is stale. |
| `GroupTopology.Follow` | Consolidator.Managed/Core/State/Observers/StateTopologyObserver.cs:77-115 | Whatever the history does to the registered groups, the topology has the groups that the values show, nothing is stale, and no group holds two banks of one instance. |
| `StateTopology.StateTopologyObserver.AddState` | Consolidator.Managed/Core/State/Observers/StateTopologyObserver.cs:28-59 | After an instance joins no peer set and no cached set is stale. |
| `StateTopology.StateTopologyObserver.RemoveState` | Consolidator.Managed/Core/State/Observers/StateTopologyObserver.cs:61-67 | After an instance whose values were detached leaves, no peer set and no cached set is stale. |
| `StateTopology.StateTopologyObserver.FocusedBankChanged` | Consolidator.Managed/Core/State/Observers/StateTopologyObserver.cs:69-75 | A change of focus leaves every peer set and every cached set fresh. |
| `PeerObservers.StatePeerObserver.BeginEdit` | Consolidator.Managed/Core/State/Observers/StatePeerObserver.cs:98-109 | Opens an edit context unless one is open; only group edits reach beyond the edited value. |
| `PeerObservers.StatePeerObserver.EndEdit` | Consolidator.Managed/Core/State/Observers/StatePeerObserver.cs:111-116 | Closes the context: edits reach the edited value alone. |
| `SnapshotExchange.FindWritableIndex` | Consolidator.Managed/Native/NativeDspStatePublisher.cs:67-82 | The search always finds the lowest slot that is neither published nor held. |
| `SnapshotExchange.HazardFreeRunsAreSafe` | Consolidator.Managed/Native/NativeDspStatePublisher.cs:41-65 | In every interleaving without the named hazard: the slot being copied is never written, each reported snapshot is the complete publication of the version it is reported as, versions strictly increase, and an idle consumer with its own index holds the newest. |
| `SnapshotExchange.ProducerStepKeepsCoherent` | Consolidator.Managed/Native/NativeDspStatePublisher.cs:43-64 | Each single step of a publication keeps the invariant of the exchange. |
| `SnapshotExchange.ConsumerStepKeepsCoherent` | Consolidator.Native/Transport/DspStateConsumer.cpp:13-29 | Each single step of a consumption keeps the invariant of the exchange. |
| `SnapshotExchange.HazardPicksTheLoadedSlot` | Consolidator.Native/Transport/DspStateConsumer.cpp:13-26 | A publication picks the loaded slot exactly when it reads the consumer index between the slot's departure and its announcement. |
| `SnapshotExchange.EveryHazardCanTear` | Consolidator.Native/Transport/DspStateConsumer.cpp:23-29 | Every such hazard can continue into a consumed snapshot that mixes two publications. |
| `SnapshotExchange.HazardIsReachable` | Consolidator.Managed/Native/NativeDspStatePublisher.cs:41-65 | The hazard is reachable from the start, in a coherent state, with three publications. |
| `SnapshotExchange.SnapshotsCanTear` | Consolidator.Native/Transport/DspStateConsumer.cpp:13-29 | From the start there is a run after which the consumer reports a snapshot that was never published. |
| `TelemetrySequence.SuccessfulReadIsOnePublication` | Consolidator.Managed/Native/DspTelemetryReader.cs:15-36 | Under word-by-word interleaving a successful read with fewer than 2^31 publications in between returns all ten words of one publication. |
| `TelemetrySequence.StepKeepsCoherent` | Consolidator.Native/Audio/Runtime/AudioRuntime.cpp:118-130 | Every step of the writer and the reader keeps the sequence protocol coherent. |
| `TelemetrySequence.WrappingReadMixesPayloads` | Consolidator.Managed/Native/DspTelemetryReader.cs:32-36 | With exactly 2^31 publications in between, a read is accepted that mixes two payloads: the bound is exact. |
| `AudioCaptureRing.RunsDeliverTheNewestWindow` | Consolidator.Managed/Analysis/AudioCapture.cs:69-102 | In every interleaving a delivered window is exactly the last samples accepted before its load, in order; no cell being read is stored into; offered equals accepted plus dropped. |
| `AudioCaptureRing.StepKeepsCoherent` | Consolidator.Managed/Analysis/AudioCapture.cs:38-67 | Every single-sample step of producer and consumer keeps the ring coherent. |
| `AudioCaptureRing.DistinctCells` | Consolidator.Managed/Analysis/AudioCapture.cs:53-58 | Indices less than one capacity apart never share a cell. |
| `AudioCaptureRing.DeliveryIsFixedByTheLoad` | Consolidator.Managed/Analysis/AudioCapture.cs:73-83 | Whether and what a read delivers is fixed when it loads the write index, whatever the producer does meanwhile. |
| `CommandQueue.StepKeepsQueue` | Consolidator.Managed/Protocol/ProtocolService.cs:77-105 | Every step keeps the map and the queue matched: a key is in the map exactly when one unresolved entry carries it. |
| `CommandQueue.StepKeepsOrder` | Consolidator.Managed/Protocol/ProtocolService.cs:144-178 | Places are resolved and executed in the order in which they were first taken. |
| `CommandQueue.RunsCoalesce` | Consolidator.Managed/Protocol/ProtocolService.cs:77-105 | In every interleaving at most 256 entries wait, the map matches the unresolved entries, and executions follow first acceptance. |
| `CommandQueue.AcceptedCommandsAreServed` | Consolidator.Managed/Protocol/ProtocolService.cs:144-178 | Once the worker has caught up, each accepted command was executed once, or superseded by a later accepted one of its key that was. |
| `CommandQueue.LatestIsExecutedLast` | Consolidator.Managed/Protocol/ProtocolService.cs:144-178 | Once the worker has caught up, the latest accepted command of every key has been executed, and none of its key after it. |
| `CommandQueue.ReceiveRefusesOnlyWhenFull` | Consolidator.Managed/Protocol/ProtocolService.cs:88-104 | A command is turned away only by cancellation or by a full queue without its key, and that changes nothing. |
| `EditTargets.TargetBankLiesOnTheTarget` | Consolidator.Managed/Core/Commands/Routing/InstanceCommandRouter.cs:57-73 | The target bank of a write or reset, if there is one, lies on its target instance. |
| `EditTargets.TargetBankIsTheNamedOne` | Consolidator.Managed/Core/Commands/Routing/InstanceCommandRouter.cs:57-73 | Without a named instance the target bank is the focused one; on a named instance it has the given number, or the focused one. |
| `EditTargets.CompressionFollowsTheEdit` | Consolidator.Managed/Core/Commands/Editing/CompressionEdits.cs:140-150 | An edit of a compression value reaches it in exactly the instances whose profiles are kept in step with it. |
| `CompressionMirror.PrepareTarget` | Consolidator.Managed/Core/Commands/Editing/CompressionEdits.cs:74-102 | The loop over the parameter nodes stages, for one target, the profile entry of a written parameter or the active value of a changed type. |
| `CompressionMirror.PrepareWrite` | Consolidator.Managed/Core/Commands/Editing/CompressionEdits.cs:30-44 | The derived writes of a command are those of its targets, in order. |
| `CompressionMirror.PrepareReset` | Consolidator.Managed/Core/Commands/Editing/CompressionEdits.cs:46-72 | Resetting a compression leaf derives the same writes as copying its initial value. |
| `CompressionMirror.CommandGives` | Consolidator.Managed/Core/Commands/Editing/CompressionEdits.cs:80-101 | The final content of every compression value after an accepted command. |
| `CompressionMirror.ClashesAreRefused` | Consolidator.Managed/State/StateValue.cs:132-165 | A command with an entry for a value that a derived write changes is refused as a whole: the value has been staged already. |
| `CompressionMirror.WritesKeepTheMirrorExactly` | Consolidator.Managed/Core/Commands/Editing/CompressionEdits.cs:30-102 | A write command keeps active values equal to the selected profile exactly when it is refused or changes no selected profile entry directly, also where its entries meet the derived writes. |
| `CompressionMirror.WritesKeepTheMirror` | Consolidator.Managed/Core/Commands/Editing/CompressionEdits.cs:30-102 | Local and grouped, copied and shifted writes, with or without a change of type, that write no profile entry directly always keep the mirror. |
| `CompressionMirror.ProfileWriteBreaksTheMirror` | Consolidator.Managed/Core/Commands/Editing/CompressionEdits.cs:157-160 | Writing the selected entry of a profile directly, to anything but the active value, is accepted and breaks the mirror. |
| `CompressionMirror.ResetsKeepTheMirrorExactly` | Consolidator.Managed/Core/Commands/Handlers/ResetStateCommandHandler.cs:36-53 | A reset of any node other than a compression leaf keeps the mirror exactly when it reaches the active values as well, or the selected entries it reaches are at their initial values. |
| `CompressionMirror.RunKeepsTheMirrorEverywhere` | Consolidator.Managed/Core/Commands/Editing/CompressionEdits.cs:30-102 | In all 32 slots of every history that joins, writes, resets, jumps, restores and leaves can reach, active values equal the selected profile; direct profile writes and resets that would break this are the events its hypothesis excludes. |
| `CompressionPaths.DecodedAvoidsProfiles` | Consolidator.Managed/Protocol/Decoding/StatePathDecoder.cs:11-140 | No path that the decoder accepts leads into a profile. |
| `CompressionPaths.WireWritesAreEnabled` | Consolidator.Managed/Protocol/Decoding/StatePathDecoder.cs:11-140 | Every decoded write command whose entries reach no value twice is an event that keeps the mirror. |
| `CompressionPaths.WireResetsAreEnabled` | Consolidator.Managed/Protocol/Decoding/StatePathDecoder.cs:11-140 | Every decoded reset of anything but a compression leaf is an event that keeps the mirror. |
| `CompressionPaths.ResetsAreResetsBelow` | Consolidator.Managed/Core/Commands/Handlers/ResetStateCommandHandler.cs:36-53 | An accepted reset gives initial values to exactly the compression values below its path, in every target. |
| `CompressionPaths.CompressionIsAt` | Consolidator.Managed/Core/State/Composition/ManagedStateBuilder.cs:401-461 | The compression node of the state tree holds the type, the active values and all profiles of its instance. |
| `CompressionPaths.ProfilesAreAt` | Consolidator.Managed/Core/State/Composition/ManagedStateBuilder.cs:438-461 | The profile node holds all profiles of its instance and no active value. |
| `DspStates.SoloSilencesTheRest` | Consolidator.Managed/Core/State/Observers/AudibilityObserver.cs:40-43 | With a soloed instance exactly the soloed ones that are not muted are heard, without one exactly those that are not muted. |
| `DspStates.AudibilityObserver.Refresh` | Consolidator.Managed/Core/State/Observers/AudibilityObserver.cs:32-52 | Every flag becomes not-muted and (no solo or own solo); exactly the instances whose flag flips are marked. |
| `DspStates.AudibilityObserver.Attach` | Consolidator.Managed/Core/State/Observers/AudibilityObserver.cs:54-91 | An attaching flag observer creates or joins the entry of its instance and recomputes; another runtime for the instance is an error. |
| `DspStates.AudibilityObserver.Change` | Consolidator.Managed/Core/State/Observers/AudibilityObserver.cs:93-104 | A changed flag is stored and all flags are recomputed and marked. |
| `DspStates.AudibilityObserver.Detach` | Consolidator.Managed/Core/State/Observers/AudibilityObserver.cs:106-118 | The last observer removes the entry; the others are recomputed and marked. |
| `DspStates.InstanceRegistry.PublishDspStates` | Consolidator.Managed/Core/Services/Instances/InstanceRegistry.cs:141-154 | Publishes the runtime snapshot of exactly the given registered instances; refreshing the activity before only tells the display and is left out. |
| `DspStates.InstanceRegistry.RegisterInstance` | Consolidator.Managed/Core/Services/Instances/InstanceRegistry.cs:42-65 | A new instance publishes at once, and so do all that its arrival changed. |
| `DspStates.InstanceRegistry.UnregisterInstance` | Consolidator.Managed/Core/Services/Instances/InstanceRegistry.cs:86-104 | When an instance leaves, those that become audible or inaudible publish. |
| `LiveSnapshots.LiveValues` | Consolidator.Managed/Core/State/Observers/StateProjectionObserver.cs:15-27 | Between operations every projected value is what its field of the runtime state shows, and the mute and solo flags are the contents of their values. |
| `LiveSnapshots.Deliver` | Consolidator.Managed/Core/State/Observers/StateProjectionObserver.cs:20-27 | Once every changed value has told its observers, the runtime side shows all values, audibility is settled, and what is not published is marked. |
| `LiveSnapshots.Write` | Consolidator.Managed/Core/Commands/Execution/CommandExecutor.cs:51-86 | A write command keeps this; once applied, every published snapshot shows what the values hold. |
| `LiveSnapshots.Reset` | Consolidator.Managed/Core/Commands/Execution/CommandExecutor.cs:51-86 | A reset command keeps this, and publishes when it succeeds. |
| `LiveSnapshots.Jump` | Consolidator.Managed/Core/Services/HistoryNavigation.cs:31-41 | A jump keeps this, and publishes when the cursor exists. |
| `LiveSnapshots.Restore` | Consolidator.Managed/Core/Services/Persistence/InstancePersistenceService.cs:44-60 | A restore keeps this, accepted or refused, and publishes when it is accepted. |
| `LiveSnapshots.Join` | Consolidator.Managed/Core/Services/Instances/InstanceRegistry.cs:42-65 | An instance that joins with its values keeps this for all, itself included. |
| `LiveSnapshots.Leave` | Consolidator.Managed/Core/Services/Instances/InstanceRegistry.cs:86-104 | An instance that leaves keeps this for the others. |
| `WetTransitions.AdvanceAdds` | Consolidator.Native/Audio/Primitives/ParameterRamp.h:25-40 | Advancing twice is advancing once by the sum. |
| `WetTransitions.AdvanceStaysValid` | Consolidator.Native/Audio/Primitives/ParameterRamp.h:25-40 | However far it has advanced, the steps that remain lead exactly to the target. |
| `WetTransitions.RampHitsItsTarget` | Consolidator.Native/Audio/Primitives/ParameterRamp.h:25-40 | The ramp runs on a straight line and hits its target exactly when its samples are used up. |
| `WetTransitions.RampsTakeTenMilliseconds` | Consolidator.Native/Audio/Primitives/ParameterRamp.cpp:16-22 | The prepared number of samples is ten milliseconds, to half a sample, and at least one. |
| `WetTransitions.TargetIsReachedInTime` | Consolidator.Native/Audio/Primitives/ParameterRamp.cpp:46-48 | A new target is reached on a straight line in exactly the prepared number of samples, also from the middle of another ramp, and held from then on. |
| `WetTransitions.ParameterRamp.SetTarget` | Consolidator.Native/Audio/Primitives/ParameterRamp.cpp:31-49 | A new target starts a ramp from the current value that arrives after exactly the prepared number of samples, or rests there if it is the current value; the same target changes nothing. |
| `WetTransitions.WetTransition.SetTarget` | Consolidator.Native/Audio/Devices/WetTransition.h:31-34 | A bypass ramps to its new target in exactly the prepared number of samples. |
| `WetTransitions.ParameterRamp.NextValue` | Consolidator.Native/Audio/Primitives/ParameterRamp.h:18-23 | Returns the current value and advances by one sample. |
| `WetTransitions.WetTransition.Process` | Consolidator.Native/Audio/Devices/WetTransition.h:36-80 | The in-place block, with bypass, full-wet and mixing branches, computes the block function on the frames of the buffer, for any wet callback that touches only its lanes. |
| `WetTransitions.BlockIsWetted` | Consolidator.Native/Audio/Devices/WetTransition.h:39-53 | The shortcut at zero is never audible, and the one at full wet is not unless the processor touches channels that are not selected: a block is the ramped mix of dry and wet. |
| `WetTransitions.BlocksAreWettedExactly` | Consolidator.Native/Audio/Devices/WetTransition.h:39-53 | Every block of every device is the ramped mix exactly when the processor leaves channels that are not selected alone. |
| `WetTransitions.BlocksCannotBeHeard` | Consolidator.Native/Audio/Devices/WetTransition.h:36-80 | With the target fixed, any cutting into blocks gives the reference output for any causal per-sample processor that leaves channels that are not selected alone. |
| `WetTransitions.CutsAreInaudibleExactly` | Consolidator.Native/Audio/Devices/WetTransition.h:36-80 | No cutting of any audio into blocks is ever audible exactly when the processor leaves channels that are not selected alone from its second sample on. |
| `WetTransitions.CutsCannotBeHeard` | Consolidator.Native/Audio/Devices/WetTransition.h:36-80 | For such a processor two cuttings of the same audio into blocks sound the same. |
| `WetTransitions.TouchedChannelsAreHeard` | Consolidator.Native/Audio/Devices/WetTransition.h:50-79 | A processor that touches such a channel makes the end of a ramp audible: cut after the ramp the touched sample is heard, uncut it is not. |
| `WetTransitions.WettedAt` | Consolidator.Native/Audio/Devices/WetTransition.h:68-79 | Every output sample is the mix of its dry and wet sample at its own ramp value. |
| `WetTransitions.MixIsLinear` | Consolidator.Native/Audio/Devices/WetTransition.h:68-79 | The mix is dry at zero, wet at one and on the straight line between, on selected channels only. |
| `WetTransitions.ModesDivideTheChannels` | Consolidator.Native/Audio/Primitives/ChannelView.h:44-51 | Stereo selects the channels that are present; left and right divide them. |
| `WetTransitions.BypassForgets` | Consolidator.Native/Audio/Devices/WetTransition.h:39-47 | A bypassed device starts anew when it is switched on again; otherwise its processor runs on. |
| `StatePaths.Decode` | Consolidator.Managed/Protocol/Decoding/StatePathDecoder.cs:11-140 | The loop over the segments computes the decoding function, with all its format errors. |
| `StatePaths.Encode` | Consolidator.Managed/Protocol/Encoding/StatePathEncoder.cs:9-38 | The loop over the nodes prints the parts, or fails on a node without a wire name. |
| `StatePaths.PartsRoundTrip` | Consolidator.Managed/Protocol/Encoding/StatePathEncoder.cs:12-33 | What the decoder accepted is always printable, and its tokens decode to it exactly when no focused bank is in it. |
| `StatePaths.NoBareBank` | Consolidator.Managed/Protocol/Encoding/StatePathEncoder.cs:34-37 | The abbreviation of a focused bank cannot strike where every bank has its number. |
| `StatePaths.RoundTrip` | Consolidator.Managed/Protocol/Decoding/StatePathDecoder.cs:11-140 | Every accepted value path survives printing, splitting on dots and decoding exactly when it has no focused-bank segment; otherwise the text is refused. |
| `WirePaths.DecodedExactly` | Consolidator.Managed/Protocol/Decoding/StatePathDecoder.cs:11-140 | The decoder accepts exactly the value paths of the grammar (instance values, groups of banks, and legal sequences of detectors, filters, banks and one final value below a device) and gives the path they mean. |
| `ObservedPaths.ObserversReadPaths` | Consolidator.Managed/Protocol/Encoding/StatePathEncoder.cs:9-38 | Printed for an observed bank, every value path without a focused bank is read as the same path with that bank focused, or missing in front of a filter. |
| `ObservedPaths.AbbreviatedExactly` | Consolidator.Managed/Protocol/Encoding/StatePathEncoder.cs:15-24 | The observed bank makes a difference to the text exactly for the paths that hold it. |
| `ObservedPaths.ResolvedExactly` | Consolidator.Managed/Core/Commands/Abstractions/InstanceCommand.cs:59-77 | Read again and resolved on the observed bank, a path comes back exactly when that bank does not stand in front of a filter in it. |
| `ObservedPaths.PrintedAlikeExactly` | Consolidator.Managed/Protocol/Encoding/StatePathEncoder.cs:34-37 | Two paths are printed alike exactly when they differ at most in the observed bank in front of filters. |
| `ObservedPaths.BankPathsAreToldApart` | Consolidator.Managed/Protocol/Encoding/StatePathEncoder.cs:9-38 | Paths of devices that lead through one bank are never printed alike. |
| `ObservedPaths.FiltersAreConfused` | Consolidator.Managed/Protocol/Encoding/StatePathEncoder.cs:34-37 | A filter of the observed bank and one outside of any bank are printed alike. |
| `Persistence.ApplyItem` | Consolidator.Managed/Core/Services/Persistence/InstancePersistenceService.cs:258-303 | Stages one field or filter in order, and stops where a filter parameter is missing or unsupported. |
| `Persistence.Restore` | Consolidator.Managed/Core/Services/Persistence/InstancePersistenceService.cs:44-60 | A restore gives every value its baseline in all 32 slots and is one baseline step of the history, or it changes nothing; it is accepted exactly when the snapshot is valid (shape, ranges, bank groups, compression mirror) and fits the filters. |
| `Persistence.CreateSnapshot` | Consolidator.Managed/Core/Services/Persistence/InstancePersistenceService.cs:62-147 | The captured record shows the current content of every item, filter kind by filter kind. |
| `Persistence.RestoredIsCaptured` | Consolidator.Managed/Core/Services/Persistence/InstancePersistenceService.cs:62-147 | If the values hold what a snapshot asks for, capturing yields that snapshot. |
| `Persistence.CapturesAreAcceptedExactly` | Consolidator.Managed/Core/Services/Persistence/InstancePersistenceService.cs:305-455 | A captured snapshot can be restored exactly when every float of the instance lies in its range, its bank groups are proper and its active compression values are those of the selected profile; then it asks for what is there. |
| `Persistence.Validate` | Consolidator.Managed/Core/Services/Persistence/InstancePersistenceService.cs:305-455 | The checks in order decide whether a snapshot has the shape of the instance, all floats in range, proper bank groups and the selected profile active. |
| `RestoreConditions.MirroredCapturesNeedOnlyRanges` | Consolidator.Managed/Core/Services/Persistence/InstancePersistenceService.cs:379-387 | As long as the mirror and the bank groups are kept, a capture can be restored exactly when every float lies in its range. |
| `RestoreConditions.CopyBeyondRange` | Consolidator.Managed/Protocol/Decoding/WriteInputCodec.cs:185-192 | A copy-write beyond the range of a value is taken over, and the snapshot captured afterwards is refused. |
| `RestoreConditions.AcceptedRestoresAreEnabled` | Consolidator.Managed/Core/Services/Persistence/InstancePersistenceService.cs:379-387 | An accepted snapshot gives mirrored compression values, so restoring it keeps the mirror in every slot. |
| `RestoreConditions.AcceptedGroupsAreProper` | Consolidator.Managed/Core/Services/Persistence/InstancePersistenceService.cs:329-337 | The check accepts exactly the bank groups that commands keep. |
| `Persistence.RestoredCannotBeUndone` | Consolidator.Managed/State/StateValue.cs:221-225 | No later advance or jump can change a restored registered value. |
| `Persistence.PlanAt` | Consolidator.Managed/Core/Services/Persistence/InstancePersistenceService.cs:149-180 | The plan of a snapshot gives every item exactly what its own record says. |
| `ObservationSampler.Sample` | EmulationLab/Source/Optimization/PluginParameterProblem.cpp:49-85 | Exactly the wanted number is picked, round after round and bucket after bucket; each pick takes the observation in the middle of its part of the bucket, or the last one when there are no parts left; buckets that are not exhausted are picked from evenly. |
| `ObservationSampler.SourceIsInTheMiddle` | EmulationLab/Source/Optimization/PluginParameterProblem.cpp:73-75 | The index taken is the only one that the middle of the part falls on. |
| `ObservationSampler.ShareIsTheLeast` | EmulationLab/Source/Optimization/PluginParameterProblem.cpp:58-59 | The share of a bucket is the least with which the buckets together can make the picks. |
| `ObservationSampler.ClampedAfterPerBucketRounds` | EmulationLab/Source/Optimization/PluginParameterProblem.cpp:73-75 | A source index is not clamped exactly in the first perBucket rounds. |
| `ObservationSampler.PicksIncreaseExactly` | EmulationLab/Source/Optimization/PluginParameterProblem.cpp:58-83 | Decided by the sizes and the maximum alone: the picks of a bucket are strictly increasing exactly when it is smaller than its share of perBucket and holds one observation, or two for a share of three; or it can serve its share and its turn comes no more often, or once more while it holds more than twice its share. |
| `ObservationSampler.WideBucketsAreSpread` | EmulationLab/Source/Optimization/PluginParameterProblem.cpp:58-83 | If every bucket has at least perBucket observations, no pick is clamped and picks of a bucket are strictly increasing. |
| `ObservationSampler.ShortBucketsRepeat` | EmulationLab/Source/Optimization/PluginParameterProblem.cpp:58-83 | A run of the loop that picks the same observation of a bucket of two twice. |

## Left out

- C ABI, handles, marshalling, library loading, logging, metrics, dependency injection, notification encoders and command codecs other than state paths.
- JSON text, files, audio files, plugin hosting and command lines; persistence is modelled on snapshot records.
- Command routing beyond the target instance, the target bank and the edit context; the resolution of relative bank paths before a write; activity flags, whose refresh before a publication only tells the display.
- DSP algorithms, filters, transforms and numerical optimisers.
- Hardware memory ordering: shared-memory steps are sequentially consistent. Floating-point rounding and NaN.
- Exceptions raised by observers or by single entries during a commit, and the disposed flag of values.
- The cached effective ranges shown to the user, including their notifications; the guard of a delta recomputes its own range, and that is modelled.
- The exact list of state values and of the fields of the DSP snapshot: instances hold finite families of values. Gain staging's derived writes and its level freeze enter the handlers as a list of derived writes.
- The schema number and missing objects of a persisted snapshot; its records are typed and complete up to the array lengths.
- PeerObservers.StatePeerObserver.Attach: a second value at a taken address, or for a taken bank key, is excluded by its precondition; the dictionaries of the original would throw there.
- StateEdits.HandleWrite: the peers of a value are given as a list that contains it, which `PeersAreWired` proves of the resolved peer sets; the case of an empty list, an exception, is not modelled. Derived writes and the verdict of the policies are parameters; `HandledWrites` gives them for compression and bank groups.
- HandledWrites.HandleWrite: the guard and the derived writes of gain staging are not modelled, and the remaining policies are one flag; what the loops of `IsAllowed` and `Derive` compute enters as the functions they are proved equal to. That the peers of a compression leaf are those of the edit's targets, in their order, is a hypothesis (`Reached`).
- CoalescedEdits.CoalescedRunsMeanTheSame: that keys separate shapes and values is a hypothesis, because the key alone does not guarantee it (`DifferentShapesLoseAnEdit`, `SharedValuesAreReordered`); so for `CoalescedEdits.LastingValues`.
- StateResets.HandleReset: derived writes and direct resets are parameters; `HandledResets` gives them for a compression leaf, for which the direct resets of profiles are derived writes of their initial values.
- HandledResets.HandleReset: what the loops of `Derive` compute enters as the function they are proved equal to.
- WriteOutcomes.CommandsAreTakenExactly: entries and derived writes reach different values here; `GroupEdits.TwoParts` and `CompressionMirror.ClashesAreRefused` say what happens where they meet.
- BankGrouping.UngroupingIsExact: that the group to be dissolved is that of the command's target bank is not modelled.
- Topology.TopologyIndex.UpdateBankGroup: banks are numbered below seven, as the state builder numbers them.
- StateTopology.StateTopologyObserver.AddState: the rollback after an exception from a refresh is not modelled, because no refresh step raises one.
- CommandQueue.RunsCoalesce: barriers are unkeyed entries whose writer waits for room; disposal of the service is not modelled, and the key of a command is abstract because the text of its path shape does not separate different paths.
- AudioCaptureRing.RunsDeliverTheNewestWindow: indices do not overflow, and the calculation of the capacity is a parameter.
- WetTransitions.WetTransition.Process: wet processors are functions of one sample and their own state that leave absent lanes alone.
- LiveSnapshots.Write: a field shows the content of its value; how the original encodes it in the snapshot (flags, negations, several fields for one value) and fields computed from others are not modelled.
- ObservationSampler.Sample: works on the sizes of the buckets; grouping observations by key is not modelled.
