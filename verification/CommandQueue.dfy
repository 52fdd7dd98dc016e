/**
  The coalescing command queue: producers call Receive, one worker takes, resolves and executes.
  Each action is one atomic region of the source (a lock body, one channel operation or one
  execution). An action whose side is not ready for it leaves the state unchanged, so every
  sequence of actions is a run.
 */
module CommandQueue {
  import opened Common

  const CAPACITY := 256


  datatype Key = Key(source: nat, target: nat, shape: string, transaction: nat)

  /** `id` is the position of the command in the order of acceptance. */
  datatype Command = Command(id: nat, source: nat, key: Option<Key>)

  datatype Hand = Empty | Taken(entry: Command) | Resolved(first: nat, command: Command)

  datatype Outcome = Pending | Superseded(successor: nat) | Executed | Dropped

  /** One executed command together with the entry that reserved its place in the queue. */
  datatype Execution = Execution(first: nat, last: nat)

  /** `accepted`, `outcomes` and `executions` only record the run; `outcomes` is parallel to
      `accepted`. */
  datatype State = State(
    queue: seq<Command>,
    coalesced: map<Key, Command>,
    hand: Hand,
    cancelled: set<nat>,
    accepted: seq<Command>,
    outcomes: seq<Outcome>,
    executions: seq<Execution>)

  /** A control barrier is an unkeyed entry whose writer waits for room; `source` of a barrier is
      no instance, so it is never cancelled. */
  datatype Action =
    | Receive(source: nat, key: Option<Key>)
    | Cancel(source: nat)
    | TakeNext
    | Resolve
    | Execute

  function Initial(): State { State([], map[], Empty, {}, [], [], []) }

  function Accept(s: State, command: Command): State {
    s.(accepted := s.accepted + [command], outcomes := s.outcomes + [Pending])
  }

  function Supersede(s: State, previous: nat, successor: nat): State {
    if previous < |s.outcomes| then s.(outcomes := s.outcomes[previous := Superseded(successor)]) else s
  }

  function Finish(s: State, id: nat, outcome: Outcome): State {
    if id < |s.outcomes| then s.(outcomes := s.outcomes[id := outcome], hand := Empty) else s
  }

  function Step(s: State, a: Action): State {
    match a
    case Receive(source, key) =>
      var command := Command(|s.accepted|, source, key);
      if source in s.cancelled then s
      else if key.Some? && key.value in s.coalesced then
        var previous := s.coalesced[key.value];
        Supersede(Accept(s, command), previous.id, command.id).(coalesced := s.coalesced[key.value := command])
      else if |s.queue| < CAPACITY then
        Accept(s, command).(
          queue := s.queue + [command],
          coalesced := if key.Some? then s.coalesced[key.value := command] else s.coalesced)
      else
        // Overloaded: a keyed entry is taken out of the map again before the lock is released.
        s
    case Cancel(source) => s.(cancelled := s.cancelled + {source})
    case TakeNext =>
      if s.hand.Empty? && s.queue != [] then s.(hand := Taken(s.queue[0]), queue := s.queue[1..]) else s
    case Resolve =>
      if s.hand.Taken? then
        var entry := s.hand.entry;
        if entry.key.Some? && entry.key.value in s.coalesced then
          s.(hand := Resolved(entry.id, s.coalesced[entry.key.value]),
             coalesced := s.coalesced - {entry.key.value})
        else s.(hand := Resolved(entry.id, entry))
      else s
    case Execute =>
      if s.hand.Resolved? then
        var command := s.hand.command;
        if command.source in s.cancelled then Finish(s, command.id, Dropped)
        else Finish(s, command.id, Executed).(executions := s.executions + [Execution(s.hand.first, command.id)])
      else s
  }

  ghost function Final(s: State, actions: seq<Action>): State
    decreases |actions|
  {
    if actions == [] then s else Final(Step(s, actions[0]), actions[1..])
  }

  /** Entries that still have to consult the map: the one in the worker's hand, then the queue. */
  function Unresolved(s: State): seq<Command> {
    (if s.hand.Taken? then [s.hand.entry] else []) + s.queue
  }

  /** Everything that holds a place, in order: executed places, the resolved one, the unresolved. */
  function Places(s: State): seq<nat> {
    Firsts(s.executions)
    + (if s.hand.Resolved? then [s.hand.first] else [])
    + Ids(Unresolved(s))
  }

  function Ids(commands: seq<Command>): seq<nat> {
    seq(|commands|, i requires 0 <= i < |commands| => commands[i].id)
  }

  function Firsts(executions: seq<Execution>): seq<nat> {
    seq(|executions|, i requires 0 <= i < |executions| => executions[i].first)
  }

  predicate Increasing(ids: seq<nat>) {
    forall i, j :: 0 <= i < j < |ids| ==> ids[i] < ids[j]
  }

  /** `id` is the command that will be executed for some place that is not executed yet. */
  ghost predicate Current(s: State, id: nat) {
    (s.hand.Resolved? && s.hand.command.id == id) || Awaited(Unresolved(s), s.coalesced, id)
  }

  ghost predicate Awaited(unresolved: seq<Command>, coalesced: map<Key, Command>, id: nat) {
    exists i :: 0 <= i < |unresolved| && CurrentOf(unresolved[i], coalesced).id == id
  }

  function CurrentOf(entry: Command, coalesced: map<Key, Command>): Command {
    if entry.key.Some? && entry.key.value in coalesced then coalesced[entry.key.value] else entry
  }

  /** A key is in the map exactly when one unresolved entry carries it, and the map holds a command
      of that key that is at least as recent as the entry. */
  ghost predicate MapMatches(unresolved: seq<Command>, coalesced: map<Key, Command>) {
    && (forall k :: k in coalesced <==> exists i :: 0 <= i < |unresolved| && unresolved[i].key == Some(k))
    && (forall i, j :: 0 <= i < j < |unresolved| && unresolved[i].key.Some? ==> unresolved[i].key != unresolved[j].key)
    && (forall k :: k in coalesced ==> coalesced[k].key == Some(k))
    && (forall i :: 0 <= i < |unresolved| && unresolved[i].key.Some? && unresolved[i].key.value in coalesced ==>
          unresolved[i].id <= coalesced[unresolved[i].key.value].id)
  }

  ghost predicate IsAccepted(accepted: seq<Command>, command: Command) {
    command.id < |accepted| && accepted[command.id] == command
  }

  ghost predicate QueueCoherent(s: State) {
    && |s.queue| <= CAPACITY
    && |s.outcomes| == |s.accepted|
    && MapMatches(Unresolved(s), s.coalesced)
    && (forall id :: 0 <= id < |s.accepted| ==> s.accepted[id].id == id)
    && (forall i :: 0 <= i < |Unresolved(s)| ==> IsAccepted(s.accepted, Unresolved(s)[i]))
    && (forall k :: k in s.coalesced ==> IsAccepted(s.accepted, s.coalesced[k]))
    && (s.hand.Resolved? ==> s.hand.first <= s.hand.command.id && IsAccepted(s.accepted, s.hand.command))
  }

  /** Places are taken, resolved and executed in the order in which they were first accepted. */
  ghost predicate Ordered(places: seq<nat>, bound: nat) {
    Increasing(places) && forall i :: 0 <= i < |places| ==> places[i] < bound
  }

  ghost predicate OrderCoherent(s: State) {
    Ordered(Places(s), |s.accepted|)
  }

  ghost predicate WasExecuted(executions: seq<Execution>, id: nat) {
    exists i :: 0 <= i < |executions| && executions[i].last == id
  }

  ghost predicate RecordsMatch(accepted: seq<Command>, outcomes: seq<Outcome>, executions: seq<Execution>,
                               cancelled: set<nat>) {
    && |outcomes| == |accepted|
    && (forall id: nat :: id < |outcomes| ==> (outcomes[id].Executed? <==> WasExecuted(executions, id)))
    && (forall id: nat :: id < |outcomes| && outcomes[id].Superseded? ==>
          && id < outcomes[id].successor < |accepted|
          && accepted[id].key.Some? && accepted[outcomes[id].successor].key == accepted[id].key)
    && (forall id: nat :: id < |outcomes| && outcomes[id].Dropped? ==> accepted[id].source in cancelled)
    && (forall i :: 0 <= i < |executions| ==> executions[i].last < |outcomes|)
    && (forall i, j :: 0 <= i < j < |executions| ==> executions[i].last != executions[j].last)
  }

  /** Every accepted command has exactly one fate. */
  ghost predicate OutcomesCoherent(s: State) {
    && RecordsMatch(s.accepted, s.outcomes, s.executions, s.cancelled)
    && (forall id: nat :: id < |s.outcomes| ==> (s.outcomes[id].Pending? <==> Current(s, id)))
    && (s.hand.Resolved? ==> !Awaited(Unresolved(s), s.coalesced, s.hand.command.id))
  }

  ghost predicate Coherent(s: State) {
    QueueCoherent(s) && OrderCoherent(s) && OutcomesCoherent(s)
  }

  lemma UnresolvedAfter(s: State, a: Action)
    ensures a.Cancel? || a.TakeNext? || a.Execute? ==> Unresolved(Step(s, a)) == Unresolved(s)
    ensures a.Resolve? && s.hand.Taken? ==> Unresolved(Step(s, a)) == Unresolved(s)[1..]
    ensures a.Receive? && Step(s, a).queue == s.queue ==> Unresolved(Step(s, a)) == Unresolved(s)
    ensures a.Receive? && Step(s, a).queue != s.queue ==>
      Unresolved(Step(s, a)) == Unresolved(s) + [Command(|s.accepted|, a.source, a.key)]
  {
  }

  lemma AppendKeepsMatch(u: seq<Command>, m: map<Key, Command>, command: Command)
    requires MapMatches(u, m) && (command.key.Some? ==> command.key.value !in m)
    ensures MapMatches(u + [command], if command.key.Some? then m[command.key.value := command] else m)
  {
    var v := u + [command];
    var n := if command.key.Some? then m[command.key.value := command] else m;
    forall k ensures k in n <==> exists i :: 0 <= i < |v| && v[i].key == Some(k)
    {
      if k in m {
        var i :| 0 <= i < |u| && u[i].key == Some(k);
        assert v[i].key == Some(k);
      } else if command.key == Some(k) {
        assert v[|u|].key == Some(k);
      }
    }
  }

  lemma ReplaceKeepsMatch(u: seq<Command>, m: map<Key, Command>, k: Key, command: Command)
    requires MapMatches(u, m) && k in m && command.key == Some(k) && m[k].id <= command.id
    ensures MapMatches(u, m[k := command])
  {
  }

  lemma DropKeepsMatch(u: seq<Command>, m: map<Key, Command>)
    requires MapMatches(u, m) && u != []
    ensures MapMatches(u[1..], if u[0].key.Some? then m - {u[0].key.value} else m)
  {
  }

  lemma AppendKeepsQueue(s: State, source: nat, key: Option<Key>)
    requires QueueCoherent(s) && Step(s, Receive(source, key)).queue != s.queue
    ensures QueueCoherent(Step(s, Receive(source, key)))
  {
    var command := Command(|s.accepted|, source, key);
    UnresolvedAfter(s, Receive(source, key));
    AppendKeepsMatch(Unresolved(s), s.coalesced, command);
    assert forall c :: IsAccepted(s.accepted, c) ==> IsAccepted(s.accepted + [command], c);
    assert IsAccepted(s.accepted + [command], command);
  }

  lemma SupersedeKeepsQueue(s: State, source: nat, k: Key)
    requires QueueCoherent(s) && source !in s.cancelled && k in s.coalesced
    ensures QueueCoherent(Step(s, Receive(source, Some(k))))
  {
    var command := Command(|s.accepted|, source, Some(k));
    UnresolvedAfter(s, Receive(source, Some(k)));
    assert IsAccepted(s.accepted, s.coalesced[k]);
    ReplaceKeepsMatch(Unresolved(s), s.coalesced, k, command);
    assert forall c :: IsAccepted(s.accepted, c) ==> IsAccepted(s.accepted + [command], c);
    assert IsAccepted(s.accepted + [command], command);
  }

  lemma ResolveKeepsQueue(s: State)
    requires QueueCoherent(s)
    ensures QueueCoherent(Step(s, Resolve))
  {
    if s.hand.Taken? {
      UnresolvedAfter(s, Resolve);
      var u := Unresolved(s);
      assert u[0] == s.hand.entry;
      DropKeepsMatch(u, s.coalesced);
      if u[0].key.Some? {
        assert u[0].key.value in s.coalesced;
      }
    }
  }

  lemma StepKeepsQueue(s: State, a: Action)
    requires QueueCoherent(s)
    ensures QueueCoherent(Step(s, a))
  {
    match a
    case Receive(source, key) =>
      if Step(s, a).queue != s.queue {
        AppendKeepsQueue(s, source, key);
      } else if source !in s.cancelled && key.Some? && key.value in s.coalesced {
        SupersedeKeepsQueue(s, source, key.value);
      }
    case Resolve => ResolveKeepsQueue(s);
    case Cancel(_) => UnresolvedAfter(s, a);
    case TakeNext => UnresolvedAfter(s, a);
    case Execute => UnresolvedAfter(s, a);
  }

  lemma ReceivePlaces(s: State, source: nat, key: Option<Key>)
    ensures var t := Step(s, Receive(source, key));
      Places(t) == if t.queue == s.queue then Places(s) else Places(s) + [|s.accepted|]
  {
    UnresolvedAfter(s, Receive(source, key));
  }

  lemma ResolvePlaces(s: State)
    ensures Places(Step(s, Resolve)) == Places(s)
  {
    if s.hand.Taken? {
      assert Ids([s.hand.entry] + s.queue) == [s.hand.entry.id] + Ids(s.queue);
      assert Ids([] + s.queue) == Ids(s.queue);
      assert Firsts(s.executions) + [] + ([s.hand.entry.id] + Ids(s.queue))
        == Firsts(s.executions) + [s.hand.entry.id] + Ids(s.queue);
    }
  }

  lemma ExecutePlaces(s: State)
    requires QueueCoherent(s)
    ensures var n := |s.executions|;
      Places(Step(s, Execute)) ==
      if s.hand.Resolved? && s.hand.command.source in s.cancelled then Places(s)[..n] + Places(s)[n + 1..]
      else Places(s)
  {
  }

  lemma OtherPlaces(s: State, a: Action)
    requires a.Cancel? || a.TakeNext?
    ensures Places(Step(s, a)) == Places(s)
  {
  }

  lemma OrderedAfter(places: seq<nat>, bound: nat, n: nat)
    requires Ordered(places, bound)
    ensures Ordered(places, bound + 1) && Ordered(places + [bound], bound + 1)
    ensures n < |places| ==> Ordered(places[..n] + places[n + 1..], bound)
  {
  }

  /** Places that stay, gain one for a new command, or lose the one at `n` keep their order. */
  lemma PlacesKeepOrder(s: State, t: State, n: nat)
    requires OrderCoherent(s)
    requires
      || (Places(t) == Places(s) && |s.accepted| <= |t.accepted| <= |s.accepted| + 1)
      || (Places(t) == Places(s) + [|s.accepted|] && |t.accepted| == |s.accepted| + 1)
      || (n < |Places(s)| && Places(t) == Places(s)[..n] + Places(s)[n + 1..] && |t.accepted| == |s.accepted|)
    ensures OrderCoherent(t)
  {
    OrderedAfter(Places(s), |s.accepted|, n);
  }

  lemma ReceiveKeepsOrder(s: State, source: nat, key: Option<Key>)
    requires OrderCoherent(s)
    ensures OrderCoherent(Step(s, Receive(source, key)))
  {
    ReceivePlaces(s, source, key);
    PlacesKeepOrder(s, Step(s, Receive(source, key)), 0);
  }

  lemma ExecuteKeepsOrder(s: State)
    requires QueueCoherent(s) && OrderCoherent(s)
    ensures OrderCoherent(Step(s, Execute))
  {
    ExecutePlaces(s);
    PlacesKeepOrder(s, Step(s, Execute), |s.executions|);
  }

  lemma ResolveKeepsOrder(s: State)
    requires OrderCoherent(s)
    ensures OrderCoherent(Step(s, Resolve))
  {
    ResolvePlaces(s);
    PlacesKeepOrder(s, Step(s, Resolve), 0);
  }

  lemma OthersKeepOrder(s: State, a: Action)
    requires OrderCoherent(s) && (a.Cancel? || a.TakeNext?)
    ensures OrderCoherent(Step(s, a))
  {
    OtherPlaces(s, a);
    PlacesKeepOrder(s, Step(s, a), 0);
  }

  lemma StepKeepsOrder(s: State, a: Action)
    requires QueueCoherent(s) && OrderCoherent(s)
    ensures OrderCoherent(Step(s, a))
  {
    match a
    case Receive(source, key) => ReceiveKeepsOrder(s, source, key);
    case Resolve => ResolveKeepsOrder(s);
    case Execute => ExecuteKeepsOrder(s);
    case Cancel(_) => OthersKeepOrder(s, a);
    case TakeNext => OthersKeepOrder(s, a);
  }

  lemma AwaitedAfterAppend(u: seq<Command>, m: map<Key, Command>, command: Command, id: nat)
    requires MapMatches(u, m) && (command.key.Some? ==> command.key.value !in m)
    ensures Awaited(u + [command], if command.key.Some? then m[command.key.value := command] else m, id)
      <==> Awaited(u, m, id) || id == command.id
  {
    var v := u + [command];
    var n := if command.key.Some? then m[command.key.value := command] else m;
    forall i | 0 <= i < |u| ensures CurrentOf(v[i], n) == CurrentOf(u[i], m) {
      assert v[i] == u[i];
    }
    assert CurrentOf(v[|u|], n) == command;
    if Awaited(u, m, id) {
      var i :| 0 <= i < |u| && CurrentOf(u[i], m).id == id;
      assert CurrentOf(v[i], n).id == id;
    }
  }

  lemma AwaitedAfterReplace(s: State, k: Key, command: Command, id: nat)
    requires QueueCoherent(s) && k in s.coalesced && command.id == |s.accepted|
    ensures Awaited(Unresolved(s), s.coalesced[k := command], id)
      <==> (Awaited(Unresolved(s), s.coalesced, id) && id != s.coalesced[k].id) || id == command.id
  {
  }

  lemma AwaitedAfterDrop(u: seq<Command>, m: map<Key, Command>, id: nat)
    requires MapMatches(u, m) && u != []
    ensures Awaited(u, m, id) <==>
      Awaited(u[1..], if u[0].key.Some? then m - {u[0].key.value} else m, id) || id == CurrentOf(u[0], m).id
  {
  }

  lemma UnresolvedIdsIncrease(s: State, i: nat, j: nat)
    requires OrderCoherent(s) && i < j < |Unresolved(s)|
    ensures Unresolved(s)[i].id < Unresolved(s)[j].id
  {
    var offset := |s.executions| + (if s.hand.Resolved? then 1 else 0);
    assert Places(s)[offset + i] == Unresolved(s)[i].id;
    assert Places(s)[offset + j] == Unresolved(s)[j].id;
  }

  /** Entries other than the one in front are not awaiting the command the front one gets. */
  lemma FrontIsAwaitedOnce(s: State)
    requires QueueCoherent(s) && OrderCoherent(s) && Unresolved(s) != []
    ensures var u, m := Unresolved(s), s.coalesced;
      !Awaited(u[1..], if u[0].key.Some? then m - {u[0].key.value} else m, CurrentOf(u[0], m).id)
  {
    var u, m := Unresolved(s), s.coalesced;
    var n := if u[0].key.Some? then m - {u[0].key.value} else m;
    forall i | 0 < i < |u| ensures CurrentOf(u[i], n).id != CurrentOf(u[0], m).id
    {
      assert IsAccepted(s.accepted, u[i]) && IsAccepted(s.accepted, u[0]);
      if u[i].key.Some? || u[0].key.Some? {
        assert u[0].key != u[i].key;
        assert CurrentOf(u[i], n).key == u[i].key && CurrentOf(u[0], m).key == u[0].key;
      } else {
        UnresolvedIdsIncrease(s, 0, i);
      }
    }
  }

  lemma RecordsAfterAccept(accepted: seq<Command>, outcomes: seq<Outcome>, executions: seq<Execution>,
                           cancelled: set<nat>, command: Command)
    requires RecordsMatch(accepted, outcomes, executions, cancelled)
    ensures RecordsMatch(accepted + [command], outcomes + [Pending], executions, cancelled)
  {
  }

  lemma RecordsAfterSupersede(accepted: seq<Command>, outcomes: seq<Outcome>, executions: seq<Execution>,
                              cancelled: set<nat>, id: nat, successor: nat)
    requires RecordsMatch(accepted, outcomes, executions, cancelled)
    requires id < successor < |outcomes| && outcomes[id].Pending?
    requires accepted[id].key.Some? && accepted[successor].key == accepted[id].key
    ensures RecordsMatch(accepted, outcomes[id := Superseded(successor)], executions, cancelled)
  {
  }

  lemma AppendKeepsOutcomes(s: State, source: nat, key: Option<Key>)
    requires Coherent(s)
    requires Step(s, Receive(source, key)).queue != s.queue
    ensures OutcomesCoherent(Step(s, Receive(source, key)))
  {
    var t := Step(s, Receive(source, key));
    var command := Command(|s.accepted|, source, key);
    UnresolvedAfter(s, Receive(source, key));
    RecordsAfterAccept(s.accepted, s.outcomes, s.executions, s.cancelled, command);
    forall id: nat ensures Current(t, id) <==> Current(s, id) || id == command.id {
      AwaitedAfterAppend(Unresolved(s), s.coalesced, command, id);
    }
    if s.hand.Resolved? {
      AwaitedAfterAppend(Unresolved(s), s.coalesced, command, s.hand.command.id);
      assert IsAccepted(s.accepted, s.hand.command);
    }
  }

  lemma CurrentAfterSupersede(s: State, source: nat, k: Key, id: nat)
    requires QueueCoherent(s) && source !in s.cancelled && k in s.coalesced
    requires s.hand.Resolved? ==> !Awaited(Unresolved(s), s.coalesced, s.hand.command.id)
    ensures Current(Step(s, Receive(source, Some(k))), id) <==>
      (Current(s, id) && id != s.coalesced[k].id) || id == |s.accepted|
  {
    UnresolvedAfter(s, Receive(source, Some(k)));
    AwaitedAfterReplace(s, k, Command(|s.accepted|, source, Some(k)), id);
    LatestIsAwaited(s, k);
  }

  lemma SupersedeKeepsOutcomes(s: State, source: nat, k: Key)
    requires Coherent(s)
    requires source !in s.cancelled && k in s.coalesced
    ensures OutcomesCoherent(Step(s, Receive(source, Some(k))))
  {
    var t := Step(s, Receive(source, Some(k)));
    var command := Command(|s.accepted|, source, Some(k));
    var previous := s.coalesced[k].id;
    assert IsAccepted(s.accepted, s.coalesced[k]);
    LatestIsAwaited(s, k);
    assert Current(s, previous);
    RecordsAfterAccept(s.accepted, s.outcomes, s.executions, s.cancelled, command);
    RecordsAfterSupersede(t.accepted, s.outcomes + [Pending], s.executions, s.cancelled, previous, command.id);
    SupersedeKeepsHand(s, source, k);
    forall id: nat ensures Current(t, id) <==> (Current(s, id) && id != previous) || id == command.id {
      CurrentAfterSupersede(s, source, k, id);
    }
  }

  lemma SupersedeKeepsHand(s: State, source: nat, k: Key)
    requires QueueCoherent(s) && source !in s.cancelled && k in s.coalesced
    requires s.hand.Resolved? ==> !Awaited(Unresolved(s), s.coalesced, s.hand.command.id)
    ensures var t := Step(s, Receive(source, Some(k)));
      t.hand.Resolved? ==> !Awaited(Unresolved(t), t.coalesced, t.hand.command.id)
  {
    UnresolvedAfter(s, Receive(source, Some(k)));
    if s.hand.Resolved? {
      AwaitedAfterReplace(s, k, Command(|s.accepted|, source, Some(k)), s.hand.command.id);
      assert IsAccepted(s.accepted, s.hand.command);
    }
  }

  lemma LatestIsAwaited(s: State, k: Key)
    requires QueueCoherent(s) && k in s.coalesced
    ensures Awaited(Unresolved(s), s.coalesced, s.coalesced[k].id)
  {
  }

  lemma ResolveKeepsOutcomes(s: State)
    requires Coherent(s)
    ensures OutcomesCoherent(Step(s, Resolve))
  {
    if s.hand.Taken? {
      UnresolvedAfter(s, Resolve);
      var t := Step(s, Resolve);
      var u, m := Unresolved(s), s.coalesced;
      assert u[0] == s.hand.entry;
      if u[0].key.Some? {
        assert u[0].key.value in m;
      }
      forall id: nat ensures Current(t, id) <==> Current(s, id) {
        AwaitedAfterDrop(u, m, id);
      }
      FrontIsAwaitedOnce(s);
    }
  }

  lemma ExecuteKeepsOutcomes(s: State)
    requires Coherent(s)
    ensures OutcomesCoherent(Step(s, Execute))
  {
    if s.hand.Resolved? {
      UnresolvedAfter(s, Execute);
      var t := Step(s, Execute);
      var command := s.hand.command;
      assert Current(s, command.id);
      if command.source !in s.cancelled {
        var n := |s.executions|;
        assert t.executions[n].last == command.id;
        forall id: nat ensures WasExecuted(t.executions, id) <==> WasExecuted(s.executions, id) || id == command.id {
          if WasExecuted(s.executions, id) {
            var i :| 0 <= i < n && s.executions[i].last == id;
            assert t.executions[i].last == id;
          }
        }
        assert !WasExecuted(s.executions, command.id);
      }
    }
  }

  lemma StepKeepsCoherent(s: State, a: Action)
    requires Coherent(s)
    ensures Coherent(Step(s, a))
  {
    StepKeepsQueue(s, a);
    StepKeepsOrder(s, a);
    UnresolvedAfter(s, a);
    match a
    case Receive(source, key) =>
      if Step(s, a).queue != s.queue {
        AppendKeepsOutcomes(s, source, key);
      } else if source !in s.cancelled && key.Some? && key.value in s.coalesced {
        SupersedeKeepsOutcomes(s, source, key.value);
      }
    case Resolve => ResolveKeepsOutcomes(s);
    case Execute => ExecuteKeepsOutcomes(s);
    case Cancel(_) =>
    case TakeNext =>
  }

  lemma {:induction false} RunKeepsCoherent(s: State, actions: seq<Action>)
    requires Coherent(s)
    ensures Coherent(Final(s, actions))
    decreases |actions|
  {
    if actions != [] {
      StepKeepsCoherent(s, actions[0]);
      RunKeepsCoherent(Step(s, actions[0]), actions[1..]);
    }
  }

  lemma InitialIsCoherent()
    ensures Coherent(Initial())
  {
  }

  predicate Idle(s: State) { s.hand.Empty? && s.queue == [] }

  /** Every interleaving: at most 256 entries wait; a key is in the map exactly when one unresolved
      entry (in hand or queued) carries it, and never two; no command is executed twice; places are
      executed in the order of their first acceptance. */
  lemma {:induction false} RunsCoalesce(actions: seq<Action>)
    ensures var t := Final(Initial(), actions); var u := Unresolved(t);
      && |t.queue| <= CAPACITY
      && (forall k :: k in t.coalesced <==> exists i :: 0 <= i < |u| && u[i].key == Some(k))
      && (forall i, j :: 0 <= i < j < |u| && u[i].key.Some? ==> u[i].key != u[j].key)
      && (forall i, j :: 0 <= i < j < |t.executions| ==>
            t.executions[i].first < t.executions[j].first && t.executions[i].last != t.executions[j].last)
  {
    InitialIsCoherent();
    RunKeepsCoherent(Initial(), actions);
    var t := Final(Initial(), actions);
    forall i, j | 0 <= i < j < |t.executions| ensures t.executions[i].first < t.executions[j].first
    {
      assert Places(t)[i] == t.executions[i].first && Places(t)[j] == t.executions[j].first;
    }
  }

  /** The command that stands for an accepted one once everything has been executed. */
  lemma {:induction false} Survivor(t: State, id: nat) returns (last: nat)
    requires Coherent(t) && Idle(t) && t.cancelled == {} && id < |t.accepted|
    ensures id <= last < |t.accepted| && t.outcomes[last].Executed?
    ensures t.outcomes[id].Executed? ==> last == id
    ensures last == id || (t.accepted[id].key.Some? && t.accepted[last].key == t.accepted[id].key)
    decreases |t.accepted| - id
  {
    assert !Current(t, id);
    if t.outcomes[id].Superseded? {
      last := Survivor(t, t.outcomes[id].successor);
    } else {
      last := id;
    }
  }

  /** Command `last` was executed exactly once, in place of command `id`. */
  ghost predicate ServedBy(t: State, id: nat, last: nat, i: nat) {
    && id <= last < |t.accepted| && id < |t.accepted| && i < |t.executions| && t.executions[i].last == last
    && (forall j :: 0 <= j < |t.executions| && t.executions[j].last == last ==> j == i)
    && (last != id ==>
          && !WasExecuted(t.executions, id)
          && t.accepted[id].key.Some? && t.accepted[last].key == t.accepted[id].key)
  }

  lemma IdleServes(t: State, id: nat) returns (last: nat, i: nat)
    requires Coherent(t) && Idle(t) && t.cancelled == {} && id < |t.accepted|
    ensures ServedBy(t, id, last, i)
  {
    last := Survivor(t, id);
    i :| 0 <= i < |t.executions| && t.executions[i].last == last;
  }

  /** When the worker has caught up and nothing was cancelled, each accepted command was executed
      exactly once, or a later accepted command of the same key was executed exactly once and it
      was not executed itself. */
  lemma AcceptedCommandsAreServed(actions: seq<Action>, id: nat)
    requires var t := Final(Initial(), actions); Idle(t) && t.cancelled == {} && id < |t.accepted|
    ensures exists last: nat, i: nat :: ServedBy(Final(Initial(), actions), id, last, i)
  {
    InitialIsCoherent();
    RunKeepsCoherent(Initial(), actions);
    var last, i := IdleServes(Final(Initial(), actions), id);
  }

  // The latest command of a key is executed last

  predicate SameKey(c: Command, d: Command) { c.key.Some? && c.key == d.key }

  function ExecutedCommands(accepted: seq<Command>, executions: seq<Execution>): seq<Command> {
    seq(|executions|, i requires 0 <= i < |executions| =>
      if executions[i].last < |accepted| then accepted[executions[i].last] else Command(executions[i].last, 0, None))
  }

  function InHand(hand: Hand): seq<Command> {
    if hand.Resolved? then [hand.command] else []
  }

  /** The commands that have been executed, the one that is about to be, and the entries that wait. */
  function Line(s: State): seq<Command> {
    ExecutedCommands(s.accepted, s.executions) + InHand(s.hand) + Unresolved(s)
  }

  /** Commands of one key stand in the order of their acceptance. */
  ghost predicate InOrder(line: seq<Command>, bound: nat) {
    && (forall i, j :: 0 <= i < j < |line| && SameKey(line[i], line[j]) ==> line[i].id < line[j].id)
    && (forall i :: 0 <= i < |line| ==> line[i].id < bound)
  }

  ghost predicate KeysInOrder(s: State) {
    InOrder(Line(s), |s.accepted|)
  }

  ghost predicate AllAccepted(s: State) {
    forall i :: 0 <= i < |s.executions| ==> s.executions[i].last < |s.accepted|
  }

  lemma ExecutedStay(s: State, command: Command)
    requires AllAccepted(s)
    ensures ExecutedCommands(s.accepted + [command], s.executions) == ExecutedCommands(s.accepted, s.executions)
  {
  }

  lemma ReceiveLine(s: State, source: nat, key: Option<Key>)
    requires AllAccepted(s)
    ensures var t := Step(s, Receive(source, key));
      Line(t) == if t.queue == s.queue then Line(s) else Line(s) + [Command(|s.accepted|, source, key)]
  {
    UnresolvedAfter(s, Receive(source, key));
    ExecutedStay(s, Command(|s.accepted|, source, key));
  }

  lemma OrderAfter(line: seq<Command>, bound: nat, command: Command, n: nat)
    requires InOrder(line, bound)
    ensures InOrder(line, bound + 1)
    ensures command.id == bound ==> InOrder(line + [command], bound + 1)
    ensures n < |line| ==> InOrder(line[..n] + line[n + 1..], bound)
  {
  }

  lemma ReplaceKeepsOrder(line: seq<Command>, bound: nat, n: nat, command: Command)
    requires InOrder(line, bound) && n < |line| && command.key == line[n].key && line[n].id <= command.id < bound
    requires forall j :: n < j < |line| ==> !SameKey(line[n], line[j])
    ensures InOrder(line[n := command], bound)
  {
  }

  lemma FrontOfLine(s: State)
    requires QueueCoherent(s) && s.hand.Taken?
    ensures var entry, command := s.hand.entry, CurrentOf(s.hand.entry, s.coalesced);
      && command.key == entry.key && entry.id <= command.id < |s.accepted|
      && (forall j :: 0 <= j < |s.queue| ==> !SameKey(entry, s.queue[j]))
  {
    var u := Unresolved(s);
    assert u[0] == s.hand.entry && IsAccepted(s.accepted, u[0]);
    forall j | 0 <= j < |s.queue| ensures !SameKey(u[0], s.queue[j]) {
      assert u[j + 1] == s.queue[j];
    }
  }

  /** A line that stays, gains a new command, loses one, or gets a later command of its key at `n` keeps
      its order. */
  lemma LineKeepsOrder(s: State, t: State, n: nat, command: Command)
    requires KeysInOrder(s)
    requires
      || (Line(t) == Line(s) && |s.accepted| <= |t.accepted| <= |s.accepted| + 1)
      || (Line(t) == Line(s) + [command] && command.id == |s.accepted| && |t.accepted| == |s.accepted| + 1)
      || (n < |Line(s)| && Line(t) == Line(s)[..n] + Line(s)[n + 1..] && |t.accepted| == |s.accepted|)
    ensures KeysInOrder(t)
  {
    OrderAfter(Line(s), |s.accepted|, command, n);
  }

  lemma ReceiveKeepsKeysInOrder(s: State, source: nat, key: Option<Key>)
    requires AllAccepted(s) && KeysInOrder(s)
    ensures KeysInOrder(Step(s, Receive(source, key)))
  {
    ReceiveLine(s, source, key);
    LineKeepsOrder(s, Step(s, Receive(source, key)), 0, Command(|s.accepted|, source, key));
  }

  /** What the front of the queue is resolved to takes its place in the line. */
  lemma ResolveLine(s: State)
    requires s.hand.Taken?
    ensures var n := |s.executions|;
      && n < |Line(s)| && Line(s)[n] == s.hand.entry && Line(s)[n + 1..] == s.queue
      && Line(Step(s, Resolve)) == Line(s)[n := CurrentOf(s.hand.entry, s.coalesced)]
  {
    var done, entry, command :=
      ExecutedCommands(s.accepted, s.executions), s.hand.entry, CurrentOf(s.hand.entry, s.coalesced);
    assert Line(s) == done + [] + ([entry] + s.queue);
    assert Line(Step(s, Resolve)) == done + [command] + ([] + s.queue);
    Replaced(done, entry, command, s.queue);
  }

  lemma Replaced(done: seq<Command>, entry: Command, command: Command, rest: seq<Command>)
    ensures var line := done + [] + ([entry] + rest);
      && line[|done|] == entry && line[|done| + 1..] == rest
      && done + [command] + ([] + rest) == line[|done| := command]
  {
  }

  lemma ResolveKeepsKeysInOrder(s: State)
    requires QueueCoherent(s) && KeysInOrder(s) && s.hand.Taken?
    ensures KeysInOrder(Step(s, Resolve))
  {
    FrontOfLine(s);
    ResolveLine(s);
    FrontKeepsOrder(s, Step(s, Resolve), |s.executions|, CurrentOf(s.hand.entry, s.coalesced));
  }

  lemma FrontKeepsOrder(s: State, t: State, n: nat, command: Command)
    requires KeysInOrder(s) && n < |Line(s)| && Line(t) == Line(s)[n := command] && t.accepted == s.accepted
    requires command.key == Line(s)[n].key && Line(s)[n].id <= command.id < |s.accepted| && Line(s)[n + 1..] == s.queue
    requires forall j :: 0 <= j < |s.queue| ==> !SameKey(Line(s)[n], s.queue[j])
    ensures KeysInOrder(t)
  {
    var line := Line(s);
    forall j | n < j < |line| ensures !SameKey(line[n], line[j]) {
      assert line[j] == s.queue[j - n - 1];
    }
    ReplaceKeepsOrder(line, |s.accepted|, n, command);
  }

  lemma ExecuteLine(s: State)
    requires s.hand.Resolved? && IsAccepted(s.accepted, s.hand.command) && |s.outcomes| == |s.accepted|
    ensures var n := |s.executions|;
      && n < |Line(s)|
      && Line(Step(s, Execute)) == if s.hand.command.source in s.cancelled then Line(s)[..n] + Line(s)[n + 1..]
                                   else Line(s)
  {
    var done, command := ExecutedCommands(s.accepted, s.executions), s.hand.command;
    assert Line(s) == done + ([command] + Unresolved(s));
    if command.source in s.cancelled {
      assert Line(Step(s, Execute)) == done + Unresolved(s);
    } else {
      ExecutedMore(s.accepted, s.executions, Execution(s.hand.first, command.id), command);
    }
  }

  lemma ExecutedMore(accepted: seq<Command>, executions: seq<Execution>, execution: Execution, command: Command)
    requires execution.last < |accepted| && accepted[execution.last] == command
    ensures ExecutedCommands(accepted, executions + [execution]) == ExecutedCommands(accepted, executions) + [command]
  {
  }

  lemma ExecuteKeepsKeysInOrder(s: State)
    requires QueueCoherent(s) && KeysInOrder(s)
    ensures KeysInOrder(Step(s, Execute))
  {
    if s.hand.Resolved? {
      ExecuteLine(s);
      LineKeepsOrder(s, Step(s, Execute), |s.executions|, s.hand.command);
    }
  }

  lemma TakeNextKeepsKeysInOrder(s: State)
    requires KeysInOrder(s)
    ensures KeysInOrder(Step(s, TakeNext))
  {
    if s.hand.Empty? && s.queue != [] {
      assert [s.queue[0]] + s.queue[1..] == [] + s.queue;
    }
    assert Line(Step(s, TakeNext)) == Line(s);
  }

  lemma StepKeepsKeysInOrder(s: State, a: Action)
    requires QueueCoherent(s) && AllAccepted(s) && KeysInOrder(s)
    ensures KeysInOrder(Step(s, a))
  {
    match a
    case Receive(source, key) => ReceiveKeepsKeysInOrder(s, source, key);
    case Resolve =>
      if s.hand.Taken? {
        ResolveKeepsKeysInOrder(s);
      }
    case Execute => ExecuteKeepsKeysInOrder(s);
    case Cancel(_) =>
    case TakeNext => TakeNextKeepsKeysInOrder(s);
  }

  lemma {:induction false} RunKeepsKeysInOrder(s: State, actions: seq<Action>)
    requires Coherent(s) && KeysInOrder(s)
    ensures KeysInOrder(Final(s, actions))
    decreases |actions|
  {
    if actions != [] {
      StepKeepsCoherent(s, actions[0]);
      StepKeepsKeysInOrder(s, actions[0]);
      RunKeepsKeysInOrder(Step(s, actions[0]), actions[1..]);
    }
  }

  /** No later accepted command has the key of command `id`. */
  predicate IsLatest(accepted: seq<Command>, id: nat)
    requires id < |accepted|
  {
    forall j :: id < j < |accepted| ==> !SameKey(accepted[id], accepted[j])
  }

  lemma LatestIsLast(t: State, id: nat) returns (i: nat)
    requires Coherent(t) && KeysInOrder(t) && Idle(t) && t.cancelled == {} && id < |t.accepted|
    requires IsLatest(t.accepted, id)
    ensures i < |t.executions| && t.executions[i].last == id
    ensures forall j :: 0 <= j < |t.executions| ==> t.executions[j].last < |t.accepted|
    ensures forall j :: i < j < |t.executions| ==>
      t.executions[j].last != id && !SameKey(t.accepted[id], t.accepted[t.executions[j].last])
  {
    var last := Survivor(t, id);
    assert last == id;
    i :| 0 <= i < |t.executions| && t.executions[i].last == id;
    var line := ExecutedCommands(t.accepted, t.executions);
    assert Line(t) == line;
    forall j | i < j < |line| ensures !SameKey(t.accepted[id], t.accepted[t.executions[j].last]) {
      assert line[i].id == id && line[j].id == t.executions[j].last;
    }
  }

  /** Once the worker has caught up, the latest command of every key has been executed, and no command
      of its key after it. */
  lemma LatestIsExecutedLast(actions: seq<Action>, id: nat) returns (i: nat)
    requires var t := Final(Initial(), actions);
      Idle(t) && t.cancelled == {} && id < |t.accepted| && IsLatest(t.accepted, id)
    ensures var t := Final(Initial(), actions);
      && i < |t.executions| && t.executions[i].last == id
      && (forall j :: 0 <= j < |t.executions| ==> t.executions[j].last < |t.accepted|)
      && (forall j :: i < j < |t.executions| ==>
            t.executions[j].last != id && !SameKey(t.accepted[id], t.accepted[t.executions[j].last]))
  {
    InitialIsCoherent();
    RunKeepsCoherent(Initial(), actions);
    RunKeepsKeysInOrder(Initial(), actions);
    i := LatestIsLast(Final(Initial(), actions), id);
  }

  lemma ExecutionsAreAccepted(actions: seq<Action>)
    ensures var t := Final(Initial(), actions);
      forall i :: 0 <= i < |t.executions| ==> t.executions[i].last < |t.accepted|
  {
    InitialIsCoherent();
    RunKeepsCoherent(Initial(), actions);
  }

  // Two runs that show what coalescing does

  lemma {:induction false} FinalSnoc(s: State, actions: seq<Action>, a: Action)
    ensures Final(s, actions + [a]) == Step(Final(s, actions), a)
    decreases |actions|
  {
    if actions == [] {
      assert [a][0] == a && [a][1..] == [] && [] + [a] == [a];
      assert Final(Step(s, a), []) == Step(s, a);
    } else {
      assert (actions + [a])[0] == actions[0] && (actions + [a])[1..] == actions[1..] + [a];
      FinalSnoc(Step(s, actions[0]), actions[1..], a);
    }
  }

  /** The worker takes, resolves and executes the front of the queue. */
  lemma Worked(actions: seq<Action>) returns (more: seq<Action>)
    ensures Final(Initial(), more) == Step(Step(Step(Final(Initial(), actions), TakeNext), Resolve), Execute)
  {
    FinalSnoc(Initial(), actions, TakeNext);
    FinalSnoc(Initial(), actions + [TakeNext], Resolve);
    FinalSnoc(Initial(), actions + [TakeNext] + [Resolve], Execute);
    more := actions + [TakeNext] + [Resolve] + [Execute];
  }

  lemma OneExecution(s: State, entry: Command, latest: Command)
    requires s.hand.Empty? && s.queue != [] && s.queue[0] == entry && entry.key.Some? && entry.key.value in s.coalesced
    requires s.coalesced[entry.key.value] == latest && latest.id < |s.outcomes| && s.cancelled == {}
    ensures Step(Step(Step(s, TakeNext), Resolve), Execute) ==
      s.(queue := s.queue[1..], coalesced := s.coalesced - {entry.key.value},
         outcomes := s.outcomes[latest.id := Executed], executions := s.executions + [Execution(entry.id, latest.id)])
  {
  }

  /** Two commands of one key before the worker comes to them: only the second is executed. */
  lemma PairRun(source: nat, k: Key) returns (actions: seq<Action>)
    ensures var t := Final(Initial(), actions);
      && Idle(t) && t.cancelled == {} && t.executions == [Execution(0, 1)]
      && t.accepted == [Command(0, source, Some(k)), Command(1, source, Some(k))]
  {
    var receive := Receive(source, Some(k));
    var first, second := Command(0, source, Some(k)), Command(1, source, Some(k));
    FinalSnoc(Initial(), [], receive);
    FinalSnoc(Initial(), [] + [receive], receive);
    var s := Final(Initial(), [] + [receive] + [receive]);
    assert s == State([first], map[k := second], Empty, {}, [first, second], [Superseded(1), Pending], []);
    OneExecution(s, first, second);
    actions := Worked([] + [receive] + [receive]);
  }

  /** A command, one of another key and again one of the first key: the third is executed in place of the
      first, before the second. */
  lemma OvertakingRun(source: nat, k: Key, other: Key) returns (actions: seq<Action>)
    requires k != other
    ensures var t := Final(Initial(), actions);
      && Idle(t) && t.cancelled == {} && t.executions == [Execution(0, 2), Execution(1, 1)]
      && t.accepted == [Command(0, source, Some(k)), Command(1, source, Some(other)), Command(2, source, Some(k))]
  {
    var receive, between := Receive(source, Some(k)), Receive(source, Some(other));
    var a, b, c := Command(0, source, Some(k)), Command(1, source, Some(other)), Command(2, source, Some(k));
    FinalSnoc(Initial(), [], receive);
    FinalSnoc(Initial(), [] + [receive], between);
    FinalSnoc(Initial(), [] + [receive] + [between], receive);
    var s := Final(Initial(), [] + [receive] + [between] + [receive]);
    assert s == State([a, b], map[k := c, other := b], Empty, {}, [a, b, c], [Superseded(2), Pending, Pending], []);
    OneExecution(s, a, c);
    actions := Worked([] + [receive] + [between] + [receive]);
    var t := Final(Initial(), actions);
    assert t ==
      State([b], map[other := b], Empty, {}, [a, b, c], [Superseded(2), Pending, Executed], [Execution(0, 2)]);
    OneExecution(t, b, b);
    actions := Worked(actions);
  }

  /** A command is turned away only by cancellation of its instance or by a full queue that holds
      no entry of its key; and turning it away changes nothing. */
  lemma ReceiveRefusesOnlyWhenFull(s: State, source: nat, key: Option<Key>)
    requires Coherent(s)
    ensures var t := Step(s, Receive(source, key));
      var refused := source in s.cancelled ||
        (|s.queue| == CAPACITY && forall i :: 0 <= i < |Unresolved(s)| && key.Some? ==> Unresolved(s)[i].key != key);
      if refused then t == s else t.accepted == s.accepted + [Command(|s.accepted|, source, key)]
  {
  }
}
