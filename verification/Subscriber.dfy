/** The notification protocol between informer goroutines and the snapshot loop, step by step
    (pkg/state/subscriber.go with the locks of pkg/state/cache.go and the loop of cmd/controlplane/controlplane.go). */
module Subscriber {
  import opened Kube
  import opened CacheSpec
  import GoText

  datatype Tid = Dispatcher(i: nat) | Receiver

  /** Where an informer goroutine stands inside a handler. */
  datatype DispatcherPC =
    | Idle
    | WantCache(ev: Event)                    // at the cache mutex
    | InCache(ev: Event)                      // holding it
    | InContainer(ev: Event, key: string)     // holding it and the mutex of container `key`
    | Leaving(reported: bool)                 // cache changed, cache mutex still held
    | Dispatching                             // at the select of dispatchEvent
    | WantLost                                // default branch, at eventLostLock
    | HoldLost                                // holding it

  /** Where the snapshot loop stands. */
  datatype ReceiverPC =
    | AtLoop
    | WantFlag                                // at eventLostLock
    | HoldFlag                                // holding it, flag not yet read
    | Parked                                  // blocked in the select, still holding it
    | Consumed                                // event or flag taken, at the cache mutex
    | Copying(acc: Cache, key: Option<string>)  // holding the cache mutex, and container `key` if any
    | Returning(snap: Cache, at: nat)         // cache mutex released, eventLostLock not yet
    | Publishing(snap: Cache, at: nat)        // translating and handing to the server

  datatype State = State(
    ds: seq<DispatcherPC>,
    r: ReceiverPC,
    lostOwner: Option<Tid>,
    cacheOwner: Option<Tid>,
    containerOwner: map<string, Tid>,
    eventLost: bool,
    cache: Cache,
    log: seq<Event>,       // events in the order in which they went through the cache mutex
    envoy: Cache,          // the cache value behind the configuration the server holds
    envoyAt: nat,          // how much of the log that value covers
    failed: bool,          // the last snapshot taken was not published
    taken: Cache,          // the last snapshot taken
    dispatched: nat,       // completed calls of dispatchEvent
    received: nat)         // calls of ReceiveEvent that got past the select with a snapshot

  /** A step of an informer goroutine inside a handler. */
  datatype HandlerStep =
    | Begin(ev: Event) | LockCache | LockContainer | Mutate | UnlockCache
    | Send | TakeDefault | LockLost | Mark

  /** A step of the snapshot loop. */
  datatype ReceiverStep =
    | Loop | LockFlag | CheckFlag | Deadline
    | LockCacheToCopy | LockContainerToCopy(key: string) | CopyContainer | UnlockCopied
    | Return | Publish | Fail

  datatype Action = Handler(i: nat, step: HandlerStep) | Snapshotter(move: ReceiverStep)

  /** Slice calls that return before they touch shared state. */
  predicate SkipsLock(ev: Event) {
    ev.NilSlice? || ((ev.UpdateSlice? || ev.DeleteSlice?) && !Labelled(ev.slice))
  }

  /** The container whose mutex the event takes, if any. */
  function ContainerOf(c: Cache, ev: Event): Option<string> {
    match ev
    case UpdateService(svc) =>
      if svc.name in c && GoText.Less(c[svc.name].obj.resourceVersion, svc.resourceVersion) then Some(svc.name)
      else None
    case UpdateSlice(slice) => if Labelled(slice) && Owner(slice) in c then Some(Owner(slice)) else None
    case DeleteSlice(slice) => if Labelled(slice) && Owner(slice) in c then Some(Owner(slice)) else None
    case _ => None
  }

  predicate HandlerEnabled(s: State, i: nat, step: HandlerStep)
    requires i < |s.ds|
  {
    var d := s.ds[i];
    match step
    case Begin(ev) => d.Idle? && !SkipsLock(ev)
    case LockCache => d.WantCache? && s.cacheOwner.None?
    case LockContainer =>
      d.InCache? && ContainerOf(s.cache, d.ev).Some? && ContainerOf(s.cache, d.ev).value !in s.containerOwner
    case Mutate => d.InContainer? || (d.InCache? && ContainerOf(s.cache, d.ev).None?)
    case UnlockCache => d.Leaving?
    case Send => d.Dispatching? && s.r.Parked?
    case TakeDefault => d.Dispatching? && !s.r.Parked?
    case LockLost => d.WantLost? && s.lostOwner.None?
    case Mark => d.HoldLost?
  }

  function HandlerDo(s: State, i: nat, step: HandlerStep): State
    requires i < |s.ds| && HandlerEnabled(s, i, step)
  {
    var d := s.ds[i];
    match step
    case Begin(ev) => s.(ds := s.ds[i := WantCache(ev)])
    case LockCache => s.(ds := s.ds[i := InCache(d.ev)], cacheOwner := Some(Dispatcher(i)))
    case LockContainer =>
      var key := ContainerOf(s.cache, d.ev).value;
      s.(ds := s.ds[i := InContainer(d.ev, key)], containerOwner := s.containerOwner[key := Dispatcher(i)])
    case Mutate =>
      var outcome := Apply(s.cache, d.ev);
      s.(ds := s.ds[i := Leaving(outcome.reported)],
         cache := outcome.cache,
         log := s.log + [d.ev],
         containerOwner := if d.InContainer? then s.containerOwner - {d.key} else s.containerOwner)
    case UnlockCache => s.(ds := s.ds[i := if d.reported then Dispatching else Idle], cacheOwner := None)
    case Send =>
      s.(ds := s.ds[i := Idle], r := Consumed, dispatched := s.dispatched + 1, received := s.received + 1)
    case TakeDefault => s.(ds := s.ds[i := WantLost])
    case LockLost => s.(ds := s.ds[i := HoldLost], lostOwner := Some(Dispatcher(i)))
    case Mark => s.(ds := s.ds[i := Idle], lostOwner := None, eventLost := true, dispatched := s.dispatched + 1)
  }

  predicate ReceiverEnabled(s: State, step: ReceiverStep) {
    match step
    case Loop => s.r.AtLoop?
    case LockFlag => s.r.WantFlag? && s.lostOwner.None?
    case CheckFlag => s.r.HoldFlag?
    case Deadline => s.r.Parked?
    case LockCacheToCopy => s.r.Consumed? && s.cacheOwner.None?
    case LockContainerToCopy(k) =>
      s.r.Copying? && s.r.key.None? && k in s.cache && k !in s.r.acc && k !in s.containerOwner
    case CopyContainer => s.r.Copying? && s.r.key.Some? && s.r.key.value in s.cache
    case UnlockCopied => s.r.Copying? && s.r.key.None? && s.r.acc.Keys == s.cache.Keys
    case Return => s.r.Returning?
    case Publish => s.r.Publishing?
    case Fail => s.r.Publishing?
  }

  function ReceiverDo(s: State, step: ReceiverStep): State
    requires ReceiverEnabled(s, step)
  {
    match step
    case Loop => s.(r := WantFlag)
    case LockFlag => s.(r := HoldFlag, lostOwner := Some(Receiver))
    case CheckFlag =>
      if s.eventLost then s.(r := Consumed, eventLost := false, received := s.received + 1) else s.(r := Parked)
    case Deadline => s.(r := AtLoop, lostOwner := None)
    case LockCacheToCopy => s.(r := Copying(map[], None), cacheOwner := Some(Receiver))
    case LockContainerToCopy(k) =>
      s.(r := Copying(s.r.acc, Some(k)), containerOwner := s.containerOwner[k := Receiver])
    case CopyContainer =>
      var k := s.r.key.value;
      s.(r := Copying(s.r.acc[k := s.cache[k]], None), containerOwner := s.containerOwner - {k})
    case UnlockCopied => s.(r := Returning(s.r.acc, |s.log|), cacheOwner := None, taken := s.r.acc)
    case Return => s.(r := Publishing(s.r.snap, s.r.at), lostOwner := None)
    case Publish => s.(r := AtLoop, envoy := s.r.snap, envoyAt := s.r.at, failed := false)
    case Fail => s.(r := AtLoop, failed := true)
  }

  predicate Enabled(s: State, a: Action) {
    match a
    case Handler(i, step) => i < |s.ds| && HandlerEnabled(s, i, step)
    case Snapshotter(move) => ReceiverEnabled(s, move)
  }

  function Do(s: State, a: Action): State
    requires Enabled(s, a)
  {
    match a
    case Handler(i, step) => HandlerDo(s, i, step)
    case Snapshotter(move) => ReceiverDo(s, move)
  }

  /** `n` informer goroutines, empty cache, empty configuration. */
  function Init(n: nat): State {
    State(seq(n, _ => Idle), AtLoop, None, None, map[], false, map[], [], map[], 0, false, map[], 0, 0)
  }

  /** The states along a run; `run` lists actions from the first. */
  predicate Runs(s: State, run: seq<Action>, t: State)
    decreases |run|
  {
    if run == [] then s == t
    else Enabled(s, run[0]) && Runs(Do(s, run[0]), run[1..], t)
  }

  ghost predicate Reachable(s: State) {
    exists n: nat, run: seq<Action> :: Runs(Init(n), run, s)
  }

  // ---------- invariant ----------

  predicate ReceiverHoldsLost(r: ReceiverPC) {
    r.HoldFlag? || r.Parked? || r.Consumed? || r.Copying? || r.Returning?
  }

  predicate HoldsCache(d: DispatcherPC) { d.InCache? || d.InContainer? || d.Leaving? }

  /** Who owns a mutex is where the threads say they stand. */
  predicate LocksMatch(s: State) {
    && (s.lostOwner == Some(Receiver) <==> ReceiverHoldsLost(s.r))
    && (s.cacheOwner == Some(Receiver) <==> s.r.Copying?)
    && (forall i: nat | i < |s.ds| :: s.lostOwner == Some(Dispatcher(i)) <==> s.ds[i].HoldLost?)
    && (forall i: nat | i < |s.ds| :: s.cacheOwner == Some(Dispatcher(i)) <==> HoldsCache(s.ds[i]))
    && (s.lostOwner.Some? && s.lostOwner.value.Dispatcher? ==> s.lostOwner.value.i < |s.ds|)
    && (s.cacheOwner.Some? && s.cacheOwner.value.Dispatcher? ==> s.cacheOwner.value.i < |s.ds|)
    && s.containerOwner == ContainerOwners(s)
  }

  /** The container mutexes in use: at most one, by the thread inside the cache. */
  function ContainerOwners(s: State): map<string, Tid> {
    match s.cacheOwner
    case None => map[]
    case Some(Receiver) => if s.r.Copying? && s.r.key.Some? then map[s.r.key.value := Receiver] else map[]
    case Some(Dispatcher(i)) =>
      if i < |s.ds| && s.ds[i].InContainer? then map[s.ds[i].key := Dispatcher(i)] else map[]
  }

  /** A container being worked on is in the cache. */
  predicate KeysHeld(s: State) {
    && (forall i: nat | i < |s.ds| && s.ds[i].InContainer? :: ContainerOf(s.cache, s.ds[i].ev) == Some(s.ds[i].key))
    && (s.r.Copying? && s.r.key.Some? ==> s.r.key.value in s.cache && s.r.key.value !in s.r.acc)
  }

  /** The part copied so far is part of the cache as it is now. */
  predicate CopyFaithful(s: State) {
    s.r.Copying? ==> forall k <- s.r.acc :: k in s.cache && s.r.acc[k] == s.cache[k]
  }

  /** The cache and what was taken from it are replays of the log and of prefixes of it. */
  predicate LogTold(s: State) {
    && s.cache == Replay(s.log)
    && s.envoyAt <= |s.log|
    && s.envoy == Replay(s.log[..s.envoyAt])
    && (s.r.Returning? || s.r.Publishing? ==>
          s.envoyAt <= s.r.at <= |s.log| && s.r.snap == Replay(s.log[..s.r.at]))
  }

  /** The value the configuration will have once the snapshot in flight, if any, is published. */
  function InFlight(s: State): Cache {
    if s.r.Returning? || s.r.Publishing? then s.r.snap else s.envoy
  }

  /** A dispatcher has changed the cache and not yet told. */
  predicate Owes(d: DispatcherPC) {
    (d.Leaving? && d.reported) || d.Dispatching? || d.WantLost? || d.HoldLost?
  }

  predicate SomeoneOwes(s: State) { exists i: nat | i < |s.ds| :: Owes(s.ds[i]) }

  predicate EventTaken(s: State) { s.r.Consumed? || s.r.Copying? }

  /** No wake-up is lost: a change since the last snapshot was taken is still owed. Whatever became of that snapshot,
      only a failed publication keeps it from the server. */
  predicate WakeUp(s: State) {
    && (s.cache != s.taken ==> SomeoneOwes(s) || s.eventLost || EventTaken(s))
    && (InFlight(s) != s.taken ==> s.failed && !s.r.Returning? && !s.r.Publishing?)
  }

  /** The flag is never set while the receiver waits in the select. */
  predicate ParkedUnflagged(s: State) { s.r.Parked? ==> !s.eventLost }

  /** Every snapshot is paid for by a dispatch of its own. */
  predicate Paid(s: State) { s.received + (if s.eventLost then 1 else 0) <= s.dispatched }

  ghost predicate Inv(s: State) {
    LocksMatch(s) && KeysHeld(s) && CopyFaithful(s) && LogTold(s) && WakeUp(s) && ParkedUnflagged(s) && Paid(s)
  }

  lemma InitInv(n: nat)
    ensures Inv(Init(n))
  {
  }

  lemma LocksHandler(s: State, i: nat, step: HandlerStep)
    requires LocksMatch(s) && KeysHeld(s) && i < |s.ds| && HandlerEnabled(s, i, step)
    ensures LocksMatch(HandlerDo(s, i, step))
  {
    hide ContainerOf, Apply;
  }

  lemma LocksReceiver(s: State, step: ReceiverStep)
    requires LocksMatch(s) && ReceiverEnabled(s, step)
    ensures LocksMatch(ReceiverDo(s, step))
  {
  }

  /** Only the thread inside the cache mutex changes the cache, so nobody else is there to notice. */
  lemma CopyHandler(s: State, i: nat, step: HandlerStep)
    requires LocksMatch(s) && KeysHeld(s) && CopyFaithful(s) && i < |s.ds| && HandlerEnabled(s, i, step)
    ensures KeysHeld(HandlerDo(s, i, step)) && CopyFaithful(HandlerDo(s, i, step))
  {
    hide ContainerOf, ContainerOwners, Apply;
  }

  lemma CopyReceiver(s: State, step: ReceiverStep)
    requires LocksMatch(s) && KeysHeld(s) && CopyFaithful(s) && ReceiverEnabled(s, step)
    ensures KeysHeld(ReceiverDo(s, step)) && CopyFaithful(ReceiverDo(s, step))
  {
    hide ContainerOf, ContainerOwners;
  }

  lemma LogHandler(s: State, i: nat, step: HandlerStep)
    requires LogTold(s) && i < |s.ds| && HandlerEnabled(s, i, step)
    ensures LogTold(HandlerDo(s, i, step))
  {
    hide ContainerOf, Apply;
    if step.Mutate? {
      var e := s.ds[i].ev;
      ReplaySnoc(map[], s.log, e);
      assert forall n: nat | n <= |s.log| :: (s.log + [e])[..n] == s.log[..n];
    }
  }

  lemma LogReceiver(s: State, step: ReceiverStep)
    requires CopyFaithful(s) && LogTold(s) && ReceiverEnabled(s, step)
    ensures LogTold(ReceiverDo(s, step))
  {
    if step.UnlockCopied? {
      assert s.log[..|s.log|] == s.log;
      assert s.r.acc == s.cache;
    }
  }

  lemma WakeHandler(s: State, i: nat, step: HandlerStep)
    requires LogTold(s) && WakeUp(s) && i < |s.ds| && HandlerEnabled(s, i, step)
    ensures WakeUp(HandlerDo(s, i, step))
  {
    hide ContainerOf, Apply;
    var t := HandlerDo(s, i, step);
    if step.Mutate? {
      ReportsExact(s.log, s.ds[i].ev);
    }
    if Owes(s.ds[i]) ==> Owes(t.ds[i]) {
      KeepsOwing(s, t, i);
    }
    assert Owes(t.ds[i]) ==> SomeoneOwes(t);
  }

  lemma WakeReceiver(s: State, step: ReceiverStep)
    requires CopyFaithful(s) && LogTold(s) && WakeUp(s) && ReceiverEnabled(s, step)
    ensures WakeUp(ReceiverDo(s, step))
  {
    if step.UnlockCopied? {
      assert s.r.acc == s.cache;
    }
  }

  /** A dispatcher that owes a notification before a step of its own owes it after. */
  lemma KeepsOwing(s: State, t: State, i: nat)
    requires i < |s.ds| == |t.ds| && t.ds == s.ds[i := t.ds[i]]
    requires Owes(s.ds[i]) ==> Owes(t.ds[i])
    ensures SomeoneOwes(s) ==> SomeoneOwes(t)
  {
    if SomeoneOwes(s) {
      var j: nat :| j < |s.ds| && Owes(s.ds[j]);
      assert Owes(t.ds[j]);
    }
  }

  lemma PaidHandler(s: State, i: nat, step: HandlerStep)
    requires LocksMatch(s) && ParkedUnflagged(s) && Paid(s) && i < |s.ds| && HandlerEnabled(s, i, step)
    ensures ParkedUnflagged(HandlerDo(s, i, step)) && Paid(HandlerDo(s, i, step))
  {
    hide ContainerOf, ContainerOwners, Apply;
  }

  lemma PaidReceiver(s: State, step: ReceiverStep)
    requires ParkedUnflagged(s) && Paid(s) && ReceiverEnabled(s, step)
    ensures ParkedUnflagged(ReceiverDo(s, step)) && Paid(ReceiverDo(s, step))
  {
  }

  lemma StepInv(s: State, a: Action)
    requires Inv(s) && Enabled(s, a)
    ensures Inv(Do(s, a))
  {
    hide HandlerDo, ReceiverDo, HandlerEnabled, ReceiverEnabled;
    hide LocksMatch, KeysHeld, CopyFaithful, LogTold, WakeUp, ParkedUnflagged, Paid;
    match a
    case Handler(i, step) =>
      LocksHandler(s, i, step);
      CopyHandler(s, i, step);
      LogHandler(s, i, step);
      WakeHandler(s, i, step);
      PaidHandler(s, i, step);
    case Snapshotter(step) =>
      LocksReceiver(s, step);
      CopyReceiver(s, step);
      LogReceiver(s, step);
      WakeReceiver(s, step);
      PaidReceiver(s, step);
  }

  lemma {:induction false} RunInv(s: State, run: seq<Action>, t: State)
    requires Inv(s) && Runs(s, run, t)
    ensures Inv(t)
    decreases |run|
  {
    if run != [] {
      StepInv(s, run[0]);
      RunInv(Do(s, run[0]), run[1..], t);
    }
  }

  lemma ReachableInv(s: State)
    requires Reachable(s)
    ensures Inv(s)
  {
    var n: nat, run: seq<Action> :| Runs(Init(n), run, s);
    InitInv(n);
    RunInv(Init(n), run, s);
  }

  // ---------- no lost wake-up ----------

  /** In every reachable state, a cache that has changed since the last snapshot was taken is owed to a pending
      dispatcher, the flag or a taken event, whatever failed before. A configuration behind the cache is owed so too,
      or to a snapshot in flight, or to a failed publication. */
  lemma NoLostWakeUp(s: State)
    requires Reachable(s)
    ensures s.cache == Replay(s.log) && s.envoyAt <= |s.log| && s.envoy == Replay(s.log[..s.envoyAt])
    ensures s.cache != s.taken ==> SomeoneOwes(s) || s.eventLost || EventTaken(s)
    ensures InFlight(s) != s.taken ==> s.failed
    ensures s.envoy != s.cache ==>
              SomeoneOwes(s) || s.eventLost || EventTaken(s) || s.r.Returning? || s.r.Publishing? || s.failed
  {
    ReachableInv(s);
  }

  /** Nothing is going on but the receiver's polling. */
  predicate Quiescent(s: State) {
    && (forall d <- s.ds :: d.Idle?)
    && !s.eventLost
    && (s.r.AtLoop? || s.r.WantFlag? || s.r.HoldFlag? || s.r.Parked?)
  }

  /** At quiescence the last snapshot taken is the whole cache: the receiver has been told of every change. */
  lemma QuiescentTaken(s: State)
    requires Reachable(s) && Quiescent(s)
    ensures s.cache == s.taken
  {
    ReachableInv(s);
    assert forall i: nat | i < |s.ds| :: s.ds[i] in s.ds;
  }

  /** At quiescence the server holds the configuration of the whole history, unless the last publication failed. */
  lemma QuiescentDelivered(s: State)
    requires Reachable(s) && Quiescent(s) && !s.failed
    ensures s.envoy == s.cache == Replay(s.log)
  {
    ReachableInv(s);
    assert forall i: nat | i < |s.ds| :: s.ds[i] in s.ds;
  }

  predicate Advances(s: State, t: State) {
    s.log <= t.log && s.envoyAt <= t.envoyAt
  }

  lemma HandlerAdvances(s: State, i: nat, step: HandlerStep)
    requires i < |s.ds| && HandlerEnabled(s, i, step)
    ensures Advances(s, HandlerDo(s, i, step))
  {
    hide ContainerOf, Apply;
    if step.Mutate? {
      assert s.log <= s.log + [s.ds[i].ev];
    }
  }

  lemma ReceiverAdvances(s: State, move: ReceiverStep)
    requires s.r.Publishing? ==> s.envoyAt <= s.r.at
    requires ReceiverEnabled(s, move)
    ensures Advances(s, ReceiverDo(s, move))
  {
  }

  lemma StepAdvances(s: State, a: Action)
    requires s.r.Publishing? ==> s.envoyAt <= s.r.at
    requires Enabled(s, a)
    ensures Advances(s, Do(s, a))
  {
    hide HandlerEnabled, HandlerDo, ReceiverEnabled, ReceiverDo, Advances;
    match a
    case Handler(i, step) => HandlerAdvances(s, i, step);
    case Snapshotter(move) => ReceiverAdvances(s, move);
  }

  /** Between two states of a run the log only grows and the server never goes back to an older configuration. */
  lemma {:induction false} NeverGoesBack(s: State, run: seq<Action>, t: State)
    requires Inv(s) && Runs(s, run, t)
    ensures Advances(s, t)
    decreases |run|
  {
    if run != [] {
      StepInv(s, run[0]);
      StepAdvances(s, run[0]);
      hide Inv, HandlerDo, ReceiverDo, HandlerEnabled, ReceiverEnabled;
      NeverGoesBack(Do(s, run[0]), run[1..], t);
    }
  }

  /** Along every run the snapshots received never outnumber the dispatches completed. */
  lemma SnapshotsArePaidFor(s: State)
    requires Reachable(s)
    ensures s.received + (if s.eventLost then 1 else 0) <= s.dispatched
  {
    ReachableInv(s);
  }

  /** A snapshot is the cache at one instant, although its containers are copied one by one. */
  lemma SnapshotIsAtomic(s: State)
    requires Reachable(s) && ReceiverEnabled(s, UnlockCopied)
    ensures ReceiverDo(s, UnlockCopied).r.snap == s.cache
  {
    ReachableInv(s);
  }

  /** An announcement made while the receiver waits in its select is taken, and any other goes on to mark the flag. */
  lemma AnnouncementIsTaken(s: State, i: nat, step: HandlerStep)
    requires i < |s.ds| && s.ds[i].Dispatching?
    ensures HandlerEnabled(s, i, step) <==> step == if s.r.Parked? then Send else TakeDefault
    ensures HandlerEnabled(s, i, Send) ==> HandlerDo(s, i, Send).r.Consumed? && HandlerDo(s, i, Send).ds[i].Idle?
  {
  }

  /** Only the container whose mutex the event takes is changed in place. */
  lemma ChangesItsContainer(c: Cache, ev: Event, k: string)
    requires k in c && k in Apply(c, ev).cache && Apply(c, ev).cache[k] != c[k]
    ensures ContainerOf(c, ev) == Some(k)
  {
    hide GoText.Less;
  }

  /** Whoever changes a container that stays in the cache holds its mutex, and the cache's. */
  lemma ChangesAreLocked(s: State, i: nat, k: string)
    requires Reachable(s) && i < |s.ds| && HandlerEnabled(s, i, Mutate)
    requires k in s.cache && k in HandlerDo(s, i, Mutate).cache && HandlerDo(s, i, Mutate).cache[k] != s.cache[k]
    ensures s.cacheOwner == Some(Dispatcher(i)) && k in s.containerOwner && s.containerOwner[k] == Dispatcher(i)
  {
    ReachableInv(s);
    ChangesItsContainer(s.cache, s.ds[i].ev, k);
    hide Apply, ContainerOf, LogTold, WakeUp, Reachable;
  }
}
