/**
  Published DSP snapshots: state observers project values into runtime states and mark the instances
  they touch; marked instances are drained and published after an operation. Audibility depends on
  the mute and solo flags of every instance and is projected the same way.
 */
module DspStates {
  import opened Common

  datatype Snapshot = Snapshot(audible: bool, fields: map<nat, Value>)

  class DspRuntimeState {
    var audible: bool
    var fields: map<nat, Value>

    function Shown(): Snapshot
      reads this
    {
      Snapshot(audible, fields)
    }

    constructor ()
      ensures fields == map[]
    {
      audible, fields := true, map[];
    }
  }

  class DspStateChangeTracker {
    var instances: set<InstanceId>

    constructor ()
      ensures instances == {}
    {
      instances := {};
    }

    method MarkChanged(instanceId: InstanceId)
      modifies this
      ensures instances == old(instances) + {instanceId}
    {
      instances := instances + {instanceId};
    }

    method Drain() returns (drained: set<InstanceId>)
      modifies this
      ensures drained == old(instances) && instances == {}
    {
      drained := instances;
      instances := {};
    }
  }

  datatype Entry = Entry(runtime: DspRuntimeState, mute: bool, solo: bool, observerCount: nat)

  type Entries = map<InstanceId, Entry>

  predicate HasSolo(entries: Entries) {
    exists i :: i in entries && entries[i].solo
  }

  /** Not muted, and soloed if any instance is. */
  predicate Audible(entries: Entries, i: InstanceId)
    requires i in entries
  {
    !entries[i].mute && (!HasSolo(entries) || entries[i].solo)
  }

  /** Muting silences, soloing silences all others, and nothing else does: with a soloed instance exactly the
      soloed ones that are not muted are heard, without one exactly those that are not muted. */
  lemma SoloSilencesTheRest(entries: Entries, i: InstanceId)
    requires i in entries
    ensures entries[i].mute ==> !Audible(entries, i)
    ensures forall j :: j in entries && entries[j].solo && !entries[i].solo ==> !Audible(entries, i)
    ensures entries[i].solo && !entries[i].mute ==> Audible(entries, i)
    ensures (forall j :: j in entries ==> !entries[j].solo) && !entries[i].mute ==> Audible(entries, i)
  {
  }

  function WithFlag(e: Entry, solo: bool, value: bool): Entry {
    if solo then e.(solo := value) else e.(mute := value)
  }

  class AudibilityObserver {
    const tracker: DspStateChangeTracker
    var entries: Entries

    constructor (tracker: DspStateChangeTracker)
      ensures this.tracker == tracker && entries == map[]
    {
      this.tracker := tracker;
      entries := map[];
    }

    ghost function Runtimes(): set<DspRuntimeState>
      reads this`entries
    {
      set i | i in entries :: entries[i].runtime
    }

    ghost predicate Valid()
      reads this
    {
      Proper(entries)
    }

    /** Every runtime state shows whether its instance is audible. */
    ghost predicate Settled()
      reads this, Runtimes()
    {
      forall i {:trigger entries[i]} :: i in entries ==> entries[i].runtime.audible == Audible(entries, i)
    }

    /** Recomputes all flags and marks exactly the instances whose flag flips. */
    method Refresh()
      requires Valid()
      modifies Runtimes()`audible, tracker
      ensures Settled()
      ensures tracker.instances == old(tracker.instances) +
        set i | i in entries && old(entries[i].runtime.audible) != Audible(entries, i)
    {
      var hasSolo := HasSolo(entries);
      var rest := entries.Keys;
      while rest != {}
        invariant rest <= entries.Keys
        invariant forall i :: i in entries ==>
          entries[i].runtime.audible == if i in rest then old(entries[i].runtime.audible) else Audible(entries, i)
        invariant tracker.instances == old(tracker.instances) +
          set i | i in entries && i !in rest && old(entries[i].runtime.audible) != Audible(entries, i)
        decreases rest
      {
        var i :| i in rest;
        RefreshInstance(i, hasSolo);
        rest := rest - {i};
      }
    }

    method RefreshInstance(i: InstanceId, hasSolo: bool)
      requires i in entries && hasSolo == HasSolo(entries)
      modifies entries[i].runtime`audible, tracker
      ensures entries[i].runtime.audible == Audible(entries, i)
      ensures tracker.instances == old(tracker.instances) +
        if old(entries[i].runtime.audible) != Audible(entries, i) then {i} else {}
    {
      var entry := entries[i];
      var audible := !entry.mute && (!hasSolo || entry.solo);
      if entry.runtime.audible == audible {
        return;
      }
      entry.runtime.audible := audible;
      tracker.MarkChanged(i);
    }

    /** Every runtime state whose flag differs from before is marked, and no mark is lost. */
    twostate predicate FlipsMarked()
      reads this, Runtimes()`audible, tracker
    {
      && old(tracker.instances) <= tracker.instances
      && forall i :: i in entries ==>
           var runtime := entries[i].runtime;
           old(allocated(runtime)) && runtime.audible != old(runtime.audible) ==> i in tracker.instances
    }

    /** Recomputing after any change of the entries. */
    method Update(next: Entries)
      requires Proper(next) && forall i :: i in next ==> i in entries ==> next[i].runtime == entries[i].runtime
      modifies this`entries, (set i | i in next :: next[i].runtime)`audible, tracker
      ensures Valid() && Settled() && entries == next && FlipsMarked()
    {
      entries := next;
      Refresh();
    }

    /** An observer of the mute or solo value of an instance attaches. The runtime of an instance may
        not change while it is observed. */
    method Attach(i: InstanceId, runtime: DspRuntimeState, solo: bool, value: bool) returns (ok: bool)
      requires Valid() && forall j :: j in entries && j != i ==> entries[j].runtime != runtime
      modifies this`entries, Runtimes()`audible, runtime`audible, tracker
      ensures Valid() && ok == (i !in old(entries) || old(entries)[i].runtime == runtime)
      ensures ok ==> Settled() && entries == Attached(old(entries), i, runtime, solo, value) && FlipsMarked()
      ensures !ok ==> entries == old(entries) && tracker.instances == old(tracker.instances)
    {
      if i in entries && entries[i].runtime != runtime {
        return false;
      }
      Update(Attached(entries, i, runtime, solo, value));
      ok := true;
    }

    method Change(i: InstanceId, solo: bool, value: bool)
      requires Valid() && i in entries
      modifies this`entries, Runtimes()`audible, tracker
      ensures Valid() && Settled() && FlipsMarked()
      ensures entries == old(entries)[i := WithFlag(old(entries)[i], solo, value)] && Runtimes() == old(Runtimes())
    {
      assert forall j :: j in entries ==>
        entries[i := WithFlag(entries[i], solo, value)][j].runtime == entries[j].runtime;
      Update(entries[i := WithFlag(entries[i], solo, value)]);
    }

    /** The last observer takes the entry with it. */
    method Detach(i: InstanceId)
      requires Valid() && i in entries && entries[i].observerCount > 0
      modifies this`entries, Runtimes()`audible, tracker
      ensures Valid() && Settled() && FlipsMarked()
      ensures entries == Detached(old(entries), i)
    {
      Update(Detached(entries, i));
    }
  }

  ghost predicate Proper(entries: Entries) {
    forall i, j {:trigger entries[i], entries[j]} ::
      i in entries && j in entries && i != j ==> entries[i].runtime != entries[j].runtime
  }

  /** The entry of `i` with one more observer and its flag set. */
  function Attached(entries: Entries, i: InstanceId, runtime: DspRuntimeState, solo: bool, value: bool): Entries {
    var entry := if i in entries then entries[i] else Entry(runtime, false, false, 0);
    entries[i := WithFlag(entry.(observerCount := entry.observerCount + 1), solo, value)]
  }

  function Detached(entries: Entries, i: InstanceId): Entries
    requires i in entries && entries[i].observerCount > 0
  {
    if entries[i].observerCount == 1 then entries - {i}
    else entries[i := entries[i].(observerCount := entries[i].observerCount - 1)]
  }

  /** A registered instance and the snapshot it published last. */
  datatype ManagedInstance = ManagedInstance(runtime: DspRuntimeState, published: Option<Snapshot>)

  predicate SameRuntimes(before: map<InstanceId, ManagedInstance>, after: map<InstanceId, ManagedInstance>) {
    before.Keys == after.Keys && forall i :: i in before ==> before[i].runtime == after[i].runtime
  }

  class InstanceRegistry {
    const tracker: DspStateChangeTracker
    const audibility: AudibilityObserver
    var instances: map<InstanceId, ManagedInstance>

    ghost function Runtimes(): set<DspRuntimeState>
      reads this`instances
    {
      set i | i in instances :: instances[i].runtime
    }

    ghost predicate Valid()
      reads this, audibility
    {
      && audibility.tracker == tracker && audibility.Valid()
      && forall i {:trigger instances[i]} :: i in instances ==>
           i in audibility.entries && audibility.entries[i].runtime == instances[i].runtime
    }

    /** An instance whose published snapshot is out of date is marked. */
    ghost predicate Marked()
      reads this, tracker, Runtimes()
    {
      forall i {:trigger instances[i]} ::
        i in instances && instances[i].published != Some(instances[i].runtime.Shown()) ==> i in tracker.instances
    }

    /** What holds between operations. */
    ghost predicate Consistent()
      reads this, tracker, audibility, Runtimes(), audibility.Runtimes()
    {
      Valid() && audibility.Settled() && Marked()
    }

    ghost predicate UpToDate()
      reads this, Runtimes()
    {
      forall i {:trigger instances[i]} ::
        i in instances ==> instances[i].published == Some(instances[i].runtime.Shown())
    }

    constructor ()
      ensures Consistent() && instances == map[] && fresh(tracker) && fresh(audibility)
    {
      var changes := new DspStateChangeTracker();
      tracker := changes;
      audibility := new AudibilityObserver(changes);
      instances := map[];
    }

    method PublishDspStates(affected: set<InstanceId>)
      modifies this`instances
      ensures instances == map i | i in old(instances) ::
        if i in affected then ManagedInstance(old(instances)[i].runtime, Some(old(instances)[i].runtime.Shown()))
        else old(instances)[i]
    {
      var rest := affected;
      while rest != {}
        invariant rest <= affected
        invariant instances == map i | i in old(instances) ::
          if i in affected - rest
          then ManagedInstance(old(instances)[i].runtime, Some(old(instances)[i].runtime.Shown()))
          else old(instances)[i]
        decreases rest
      {
        var i :| i in rest;
        if i in instances {
          instances := instances[i := ManagedInstance(instances[i].runtime, Some(instances[i].runtime.Shown()))];
        }
        rest := rest - {i};
      }
    }

    method PublishChanges()
      requires Consistent()
      modifies this`instances, tracker
      ensures Consistent() && UpToDate() && tracker.instances == {}
      ensures SameRuntimes(old(instances), instances)
    {
      PublishOthers({});
    }

    /** Publishes what is marked, except for instances that have just published. */
    method PublishOthers(recent: set<InstanceId>)
      requires Consistent()
      requires forall i :: i in recent && i in instances ==>
        instances[i].published == Some(instances[i].runtime.Shown())
      modifies this`instances, tracker
      ensures Consistent() && UpToDate() && tracker.instances == {}
      ensures SameRuntimes(old(instances), instances)
    {
      var affected := tracker.Drain();
      PublishDspStates(affected - recent);
    }

    /** The end of a command: changes are published when it succeeded and reports a change; otherwise
        the marks stay for the next publication. */
    method FinishCommand(succeeded: bool, stateChanged: bool)
      requires Consistent()
      modifies this`instances, tracker
      ensures Consistent() && SameRuntimes(old(instances), instances)
      ensures if succeeded && stateChanged then UpToDate() && tracker.instances == {}
              else instances == old(instances) && tracker.instances == old(tracker.instances)
    {
      if succeeded && stateChanged {
        PublishChanges();
      }
    }

    /** The end of a jump through the history. */
    method FinishJump(moved: bool)
      requires Consistent()
      modifies this`instances, tracker
      ensures Consistent() && SameRuntimes(old(instances), instances)
      ensures if moved then UpToDate() else instances == old(instances) && tracker.instances == old(tracker.instances)
    {
      if moved {
        PublishChanges();
      }
    }

    /** A value tells its observers: its projection first, the change tracker last. */
    method ValueChanged(i: InstanceId, field: nat, value: Value)
      requires Consistent() && i in instances
      modifies instances[i].runtime`fields, tracker
      ensures Consistent() && i in tracker.instances
      ensures instances[i].runtime.fields == old(instances[i].runtime.fields)[field := value]
    {
      var runtime := instances[i].runtime;
      runtime.fields := runtime.fields[field := value];
      tracker.MarkChanged(i);
    }

    /** A mute or solo value tells its observers. */
    method FlagChanged(i: InstanceId, solo: bool, value: bool)
      requires Consistent() && i in instances
      modifies audibility`entries, audibility.Runtimes()`audible, tracker
      ensures Consistent() && i in tracker.instances && audibility.Runtimes() == old(audibility.Runtimes())
      ensures audibility.entries == old(audibility.entries)[i := WithFlag(old(audibility.entries)[i], solo, value)]
    {
      ChangeFlag(i, solo, value);
      tracker.MarkChanged(i);
    }

    method ChangeFlag(i: InstanceId, solo: bool, value: bool)
      requires Consistent() && i in instances
      modifies audibility`entries, audibility.Runtimes()`audible, tracker
      ensures Consistent() && audibility.Runtimes() == old(audibility.Runtimes())
      ensures audibility.entries == old(audibility.entries)[i := WithFlag(old(audibility.entries)[i], solo, value)]
    {
      audibility.Change(i, solo, value);
    }

    /** The state of an instance is built: its mute and its solo value attach. */
    method AttachFlag(i: InstanceId, runtime: DspRuntimeState, solo: bool, value: bool)
      requires Consistent() && i !in instances
      requires i in audibility.entries ==> audibility.entries[i].runtime == runtime
      requires forall j :: j in audibility.entries && j != i ==> audibility.entries[j].runtime != runtime
      modifies audibility`entries, audibility.Runtimes()`audible, runtime`audible, tracker
      ensures Consistent() && audibility.entries == Attached(old(audibility.entries), i, runtime, solo, value)
    {
      var ok := audibility.Attach(i, runtime, solo, value);
    }

    /** An instance whose state has been built joins: its own snapshot is published at once, then those
        of the others that its arrival changed. */
    method RegisterInstance(i: InstanceId, runtime: DspRuntimeState)
      requires Consistent() && i !in instances
      requires i in audibility.entries && audibility.entries[i].runtime == runtime
      modifies this`instances, tracker
      ensures Consistent() && UpToDate()
      ensures SameRuntimes(old(instances)[i := ManagedInstance(runtime, None)], instances)
    {
      Add(i, runtime);
      PublishOthers({i});
    }

    method Add(i: InstanceId, runtime: DspRuntimeState)
      requires Consistent() && i !in instances
      requires i in audibility.entries && audibility.entries[i].runtime == runtime
      modifies this`instances
      ensures Consistent() && instances == old(instances)[i := ManagedInstance(runtime, Some(runtime.Shown()))]
    {
      instances := instances[i := ManagedInstance(runtime, Some(runtime.Shown()))];
    }

    /** An instance leaves: its two flag observers detach, which may make others audible. */
    method UnregisterInstance(i: InstanceId)
      requires Consistent() && (i in instances ==> audibility.entries[i].observerCount == 2)
      modifies this`instances, tracker, audibility`entries, audibility.Runtimes()`audible
      ensures Consistent() && SameRuntimes(old(instances) - {i}, instances)
      ensures if i in old(instances) then UpToDate() && audibility.entries == old(audibility.entries) - {i}
              else audibility.entries == old(audibility.entries)
    {
      if i !in instances {
        return;
      }
      Remove(i);
      DetachFlags(i);
      PublishChanges();
    }

    method Remove(i: InstanceId)
      requires Consistent()
      modifies this`instances
      ensures Consistent() && instances == old(instances) - {i}
    {
      instances := instances - {i};
    }

    method DetachFlags(i: InstanceId)
      requires Consistent() && i !in instances && i in audibility.entries && audibility.entries[i].observerCount == 2
      modifies tracker, audibility`entries, audibility.Runtimes()`audible
      ensures Consistent() && audibility.entries == old(audibility.entries) - {i}
    {
      DetachFlag(i);
      DetachFlag(i);
    }

    method DetachFlag(i: InstanceId)
      requires Consistent() && i !in instances && i in audibility.entries && audibility.entries[i].observerCount > 0
      modifies tracker, audibility`entries, audibility.Runtimes()`audible
      ensures Consistent() && audibility.entries == Detached(old(audibility.entries), i)
    {
      audibility.Detach(i);
    }
  }
}
