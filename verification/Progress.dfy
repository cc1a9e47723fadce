/** The notification protocol cannot wedge: lock order, progress, and a way to deliver from every state. */
module Progress {
  import opened Kube
  import opened CacheSpec
  import opened Subscriber

  // ---------- lock order ----------

  datatype Lock = LostLock | CacheLock | ContainerLock(key: string)

  function Rank(l: Lock): nat {
    match l
    case LostLock => 0
    case CacheLock => 1
    case ContainerLock(_) => 2
  }

  function HolderOf(s: State, l: Lock): Option<Tid> {
    match l
    case LostLock => s.lostOwner
    case CacheLock => s.cacheOwner
    case ContainerLock(k) => if k in s.containerOwner then Some(s.containerOwner[k]) else None
  }

  /** The next step of `t` acquires `l`. */
  predicate WaitsFor(s: State, t: Tid, l: Lock) {
    match t
    case Dispatcher(i) =>
      i < |s.ds| &&
      (match s.ds[i]
       case WantCache(_) => l == CacheLock
       case InCache(ev) => ContainerOf(s.cache, ev).Some? && l == ContainerLock(ContainerOf(s.cache, ev).value)
       case WantLost => l == LostLock
       case _ => false)
    case Receiver =>
      match s.r
      case WantFlag => l == LostLock
      case Consumed => l == CacheLock
      case Copying(acc, None) => l.ContainerLock? && l.key in s.cache && l.key !in acc
      case _ => false
  }

  /** A thread that waits for a lock holds only locks of lower rank. */
  lemma LockOrder(s: State, t: Tid, wanted: Lock, held: Lock)
    requires Reachable(s) && WaitsFor(s, t, wanted) && HolderOf(s, held) == Some(t)
    ensures Rank(held) < Rank(wanted)
  {
    ReachableInv(s);
  }

  function Successor(i: nat, n: nat): nat { if i + 1 == n then 0 else i + 1 }

  /** Thread `ts[i]` waits for lock `ls[i]`, which the next thread of the ring holds. */
  predicate WaitCycle(s: State, ts: seq<Tid>, ls: seq<Lock>) {
    0 < |ts| == |ls| &&
    forall i: nat | i < |ts| ::
      WaitsFor(s, ts[i], ls[i]) && HolderOf(s, ls[i]) == Some(ts[Successor(i, |ts|)])
  }

  /** In a ring each thread's wanted lock outranks the one its predecessor wants, which it holds. */
  lemma RingClimbs(s: State, ts: seq<Tid>, ls: seq<Lock>, i: nat)
    requires Reachable(s) && WaitCycle(s, ts, ls) && i < |ts|
    ensures Rank(ls[i]) < Rank(ls[Successor(i, |ts|)])
  {
    hide Reachable, WaitsFor, HolderOf, Rank;
    var j := Successor(i, |ts|);
    assert WaitsFor(s, ts[j], ls[j]) && HolderOf(s, ls[i]) == Some(ts[j]);
    LockOrder(s, ts[j], ls[j], ls[i]);
  }

  lemma {:induction false} RanksClimb(s: State, ts: seq<Tid>, ls: seq<Lock>, i: nat)
    requires Reachable(s) && WaitCycle(s, ts, ls) && i < |ts| == |ls|
    ensures Rank(ls[0]) + i <= Rank(ls[i])
  {
    hide Reachable, WaitCycle, Rank;
    if i > 0 {
      RingClimbs(s, ts, ls, i - 1);
      RanksClimb(s, ts, ls, i - 1);
    }
  }

  /** No ring of threads of any length waits for one another's locks. */
  lemma NoWaitCycle(s: State, ts: seq<Tid>, ls: seq<Lock>)
    requires Reachable(s)
    ensures !WaitCycle(s, ts, ls)
  {
    if WaitCycle(s, ts, ls) {
      hide Reachable, WaitsFor, HolderOf, Rank;
      RanksClimb(s, ts, ls, |ts| - 1);
      RingClimbs(s, ts, ls, |ts| - 1);
    }
  }

  // ---------- a measure of pending work ----------

  /** How many steps a dispatcher is away from idle, at least. */
  function Distance(d: DispatcherPC): nat {
    match d
    case Idle => 0
    case HoldLost => 1
    case WantLost => 2
    case Dispatching => 3
    case Leaving(_) => 4
    case InContainer(_, _) => 5
    case InCache(_) => 6
    case WantCache(_) => 7
  }

  function Work(ds: seq<DispatcherPC>): nat {
    if ds == [] then 0 else Distance(ds[0]) + Work(ds[1..])
  }

  lemma {:induction false} WorkUpdate(ds: seq<DispatcherPC>, i: nat, d: DispatcherPC)
    requires i < |ds|
    ensures Work(ds[i := d]) == Work(ds) - Distance(ds[i]) + Distance(d)
  {
    if i == 0 {
      assert ds[i := d][1..] == ds[1..];
    } else {
      assert ds[i := d][1..] == ds[1..][i - 1 := d];
      WorkUpdate(ds[1..], i - 1, d);
    }
  }

  function Flag(s: State): nat { if s.eventLost then 1 else 0 }

  /** How far a receiver at `r` is from having nothing to do. */
  function Rest(r: ReceiverPC, flag: bool, keys: set<string>): nat {
    match r
    case Publishing(_, _) => 20
    case Returning(_, _) => 21
    case Copying(acc, key) => 22 + 2 * |keys - acc.Keys| + (if key.None? then 1 else 0)
    case Consumed => 24 + 2 * |keys|
    case Parked => if flag then 13 else 2
    case AtLoop => if flag then 12 else 1
    case WantFlag => if flag then 11 else 1
    case HoldFlag => if flag then 10 else 3
  }

  function Remaining(s: State): nat { Rest(s.r, s.eventLost, s.cache.Keys) }

  /** `t` is closer to quiescence than `s`. */
  predicate Closer(t: State, s: State) {
    Work(t.ds) < Work(s.ds) ||
    (Work(t.ds) == Work(s.ds) && (Flag(t) < Flag(s) || (Flag(t) == Flag(s) && Remaining(t) < Remaining(s))))
  }

  /** No new handler call, and no failed publication. */
  predicate Internal(a: Action) {
    match a
    case Handler(_, step) => !step.Begin?
    case Snapshotter(move) => !move.Fail?
  }

  /** `a` is enabled in `s` and gets closer to quiescence. */
  predicate Helps(s: State, a: Action) {
    Enabled(s, a) && Internal(a) && Closer(Do(s, a), s)
  }

  // ---------- every busy thread, or the one it waits for, can move ----------

  lemma HandlerHelps(s: State, i: nat, step: HandlerStep)
    requires i < |s.ds| && HandlerEnabled(s, i, step) && !step.Begin?
    ensures Helps(s, Handler(i, step))
  {
    hide ContainerOf, Apply;
    var t := HandlerDo(s, i, step);
    WorkUpdate(s.ds, i, t.ds[i]);
  }

  lemma InsideMoves(s: State, i: nat) returns (a: Action)
    requires LocksMatch(s) && s.cacheOwner == Some(Dispatcher(i))
    ensures Helps(s, a) && a.Handler?
  {
    hide Helps;
    var step := match s.ds[i]
                case InCache(ev) => if ContainerOf(s.cache, ev).Some? then LockContainer else Mutate
                case InContainer(_, _) => Mutate
                case _ => UnlockCache;
    HandlerHelps(s, i, step);
    a := Handler(i, step);
  }

  /** Locking a container, copying it, and ending the loop each leave less to do. */
  lemma CopyShrinks(c: Cache, acc: Cache, k: string, flag: bool)
    requires k in c && k !in acc
    ensures Rest(Copying(acc, Some(k)), flag, c.Keys) < Rest(Copying(acc, None), flag, c.Keys)
    ensures Rest(Copying(acc[k := c[k]], None), flag, c.Keys) < Rest(Copying(acc, Some(k)), flag, c.Keys)
  {
    assert k in c.Keys - acc.Keys;
    assert c.Keys - acc[k := c[k]].Keys == (c.Keys - acc.Keys) - {k};
  }

  lemma CopyOneHelps(s: State)
    requires s.r.Copying? && s.r.key.Some? && s.r.key.value in s.cache && s.r.key.value !in s.r.acc
    ensures Helps(s, Snapshotter(CopyContainer))
  {
    CopyShrinks(s.cache, s.r.acc, s.r.key.value, s.eventLost);
    hide Work, Rest, HandlerDo, HandlerEnabled;
  }

  lemma CopyMoves(s: State) returns (move: ReceiverStep)
    requires LocksMatch(s) && KeysHeld(s) && CopyFaithful(s) && s.r.Copying?
    ensures Helps(s, Snapshotter(move))
  {
    hide Helps, ContainerOf;
    var acc := s.r.acc;
    if s.r.key.Some? {
      CopyOneHelps(s);
      return CopyContainer;
    }
    if k :| k in s.cache && k !in acc {
      LockContainerHelps(s, k);
      return LockContainerToCopy(k);
    }
    assert acc.Keys == s.cache.Keys;
    UnlockCopiedHelps(s);
    move := UnlockCopied;
  }

  /** The receiver may rest only when there is nothing to take. */
  predicate ReceiverBusy(s: State) {
    s.eventLost || (!s.r.AtLoop? && !s.r.WantFlag?)
  }

  lemma ReceiverMoves(s: State) returns (a: Action)
    requires LocksMatch(s) && KeysHeld(s) && CopyFaithful(s) && ReceiverBusy(s)
    ensures Helps(s, a)
  {
    hide Helps, ContainerOf, KeysHeld, CopyFaithful;
    if s.r.Copying? {
      var move := CopyMoves(s);
      return Snapshotter(move);
    }
    if s.r.WantFlag? && s.lostOwner.Some? {
      HandlerHelps(s, s.lostOwner.value.i, Mark);
      return Handler(s.lostOwner.value.i, Mark);
    }
    if s.r.Consumed? && s.cacheOwner.Some? {
      a := InsideMoves(s, s.cacheOwner.value.i);
      return;
    }
    var move := FreeMove(s);
    a := Snapshotter(move);
  }

  /** A receiver that neither copies nor waits for a lock. */
  lemma FreeMove(s: State) returns (move: ReceiverStep)
    requires ReceiverBusy(s) && !s.r.Copying?
    requires (s.r.WantFlag? ==> s.lostOwner.None?) && (s.r.Consumed? ==> s.cacheOwner.None?)
    ensures Helps(s, Snapshotter(move))
  {
    hide Helps;
    match s.r {
      case AtLoop => LoopHelps(s); move := Loop;
      case WantFlag => LockFlagHelps(s); move := LockFlag;
      case HoldFlag => CheckFlagHelps(s); move := CheckFlag;
      case Parked => DeadlineHelps(s); move := Deadline;
      case Consumed => StartCopyHelps(s); move := LockCacheToCopy;
      case Returning(_, _) => ReturnHelps(s); move := Return;
      case _ => PublishHelps(s); move := Publish;
    }
  }

  lemma LoopHelps(s: State)
    requires s.r.AtLoop? && s.eventLost
    ensures Helps(s, Snapshotter(Loop))
  {
    hide Work, HandlerDo, HandlerEnabled;
  }

  lemma LockFlagHelps(s: State)
    requires s.r.WantFlag? && s.eventLost && s.lostOwner.None?
    ensures Helps(s, Snapshotter(LockFlag))
  {
    hide Work, HandlerDo, HandlerEnabled;
  }

  lemma CheckFlagHelps(s: State)
    requires s.r.HoldFlag?
    ensures Helps(s, Snapshotter(CheckFlag))
  {
    hide Work, HandlerDo, HandlerEnabled;
  }

  lemma DeadlineHelps(s: State)
    requires s.r.Parked?
    ensures Helps(s, Snapshotter(Deadline))
  {
    hide Work, HandlerDo, HandlerEnabled;
  }

  lemma ReturnHelps(s: State)
    requires s.r.Returning?
    ensures Helps(s, Snapshotter(Return))
  {
    hide Work, HandlerDo, HandlerEnabled;
  }

  lemma PublishHelps(s: State)
    requires s.r.Publishing?
    ensures Helps(s, Snapshotter(Publish))
  {
    hide Work, HandlerDo, HandlerEnabled;
  }

  lemma UnlockCopiedHelps(s: State)
    requires s.r.Copying? && s.r.key.None? && s.r.acc.Keys == s.cache.Keys
    ensures Helps(s, Snapshotter(UnlockCopied))
  {
    assert Rest(Returning(s.r.acc, |s.log|), s.eventLost, s.cache.Keys) < Rest(s.r, s.eventLost, s.cache.Keys);
    hide Work, Rest, HandlerDo, HandlerEnabled;
  }

  lemma LockContainerHelps(s: State, k: string)
    requires s.r.Copying? && s.r.key.None? && k in s.cache && k !in s.r.acc && k !in s.containerOwner
    ensures Helps(s, Snapshotter(LockContainerToCopy(k)))
  {
    CopyShrinks(s.cache, s.r.acc, k, s.eventLost);
    hide Work, Rest, HandlerDo, HandlerEnabled;
  }

  lemma StartCopyHelps(s: State)
    requires s.r.Consumed? && s.cacheOwner.None?
    ensures Helps(s, Snapshotter(LockCacheToCopy))
  {
    hide Work, HandlerDo, HandlerEnabled;
    var empty: Cache := map[];
    assert s.cache.Keys - empty.Keys == s.cache.Keys;
  }

  lemma DispatcherMoves(s: State, i: nat) returns (a: Action)
    requires LocksMatch(s) && KeysHeld(s) && CopyFaithful(s)
    requires i < |s.ds| && !s.ds[i].Idle?
    ensures Helps(s, a)
  {
    hide Helps, ContainerOf, KeysHeld, CopyFaithful, ContainerOwners;
    var d := s.ds[i];
    if HoldsCache(d) || (d.WantCache? && s.cacheOwner.Some? && s.cacheOwner.value.Dispatcher?) {
      a := InsideMoves(s, s.cacheOwner.value.i);
    } else if (d.WantCache? && s.cacheOwner.Some?) || (d.WantLost? && s.lostOwner == Some(Receiver)) {
      a := ReceiverMoves(s);
    } else if d.HoldLost? || (d.WantLost? && s.lostOwner.Some?) {
      HandlerHelps(s, s.lostOwner.value.i, Mark);
      a := Handler(s.lostOwner.value.i, Mark);
    } else {
      var step := if d.WantCache? then LockCache
                  else if d.WantLost? then LockLost
                  else if s.r.Parked? then Send
                  else TakeDefault;
      HandlerHelps(s, i, step);
      a := Handler(i, step);
    }
  }

  /** Unless everything is at rest, some step brings the system closer to rest. */
  lemma SomeStepHelps(s: State) returns (a: Action)
    requires Inv(s) && !Quiescent(s)
    ensures Helps(s, a)
  {
    hide Helps, LocksMatch, KeysHeld, CopyFaithful, LogTold, WakeUp, Paid;
    if d :| d in s.ds && !d.Idle? {
      var i :| 0 <= i < |s.ds| && s.ds[i] == d;
      a := DispatcherMoves(s, i);
    } else {
      a := ReceiverMoves(s);
    }
  }

  // ---------- from every state the cache can be delivered ----------

  /** The cache reaches the server, or something will still make it. */
  predicate Hope(s: State) {
    !s.failed || SomeoneOwes(s) || s.eventLost || EventTaken(s) || s.r.Returning? || s.r.Publishing?
  }

  lemma HopeStaysHandler(s: State, i: nat, step: HandlerStep)
    requires Hope(s) && i < |s.ds| && HandlerEnabled(s, i, step)
    ensures Hope(HandlerDo(s, i, step))
  {
    hide ContainerOf, Apply;
    var t := HandlerDo(s, i, step);
    if Owes(s.ds[i]) ==> Owes(t.ds[i]) {
      KeepsOwing(s, t, i);
    }
  }

  lemma HopeStays(s: State, a: Action)
    requires Hope(s) && Enabled(s, a) && Internal(a)
    ensures Hope(Do(s, a))
  {
    match a
    case Handler(i, step) =>
      hide HandlerDo, HandlerEnabled, Hope;
      HopeStaysHandler(s, i, step);
    case Snapshotter(_) =>
  }

  predicate AllInternal(run: seq<Action>) { forall a <- run :: Internal(a) }

  lemma {:induction false} Drain(s: State) returns (run: seq<Action>, t: State)
    requires Inv(s)
    ensures Runs(s, run, t) && AllInternal(run)
    ensures Inv(t) && Quiescent(t) && (Hope(s) ==> Hope(t))
    decreases Work(s.ds), Flag(s), Remaining(s)
  {
    hide HandlerDo, ReceiverDo, HandlerEnabled, ReceiverEnabled, Inv, Quiescent, Hope, Work, Rest;
    if Quiescent(s) {
      return [], s;
    }
    var a := SomeStepHelps(s);
    StepInv(s, a);
    if Hope(s) {
      HopeStays(s, a);
    }
    var rest;
    rest, t := Drain(Do(s, a));
    run := [a] + rest;
    assert run[0] == a && run[1..] == rest;
  }

  /** From every reachable state the goroutines can finish and the receiver deliver the whole cache, without a new
      event; only a failed publication that nothing follows stays undelivered. */
  lemma CanAlwaysDeliver(s: State)
    requires Reachable(s)
    ensures exists run: seq<Action>, t: State ::
              Runs(s, run, t) && AllInternal(run) && Quiescent(t) && (Hope(s) ==> t.envoy == t.cache)
  {
    ReachableInv(s);
    var run, t := Drain(s);
    if Hope(s) {
      hide Runs;
      QuietIsDelivered(t);
    }
  }

  lemma QuietIsDelivered(t: State)
    requires Inv(t) && Quiescent(t) && Hope(t)
    ensures t.envoy == t.cache
  {
    assert forall i: nat | i < |t.ds| :: t.ds[i] in t.ds;
  }

  // ---------- what needs the deadline, and what a failed publication costs ----------

  /** Nothing can happen but the receive deadline, or a handler call of an idle goroutine. */
  ghost predicate OnlyDeadline(s: State) {
    forall a: Action :: Enabled(s, a) ==> a == Snapshotter(Deadline) || (a.Handler? && a.step.Begin?)
  }

  /** The system stands still until the deadline exactly when the receiver sits in its select, holding the lock,
      and every busy dispatcher is waiting for that lock. */
  lemma StandstillIff(s: State)
    requires Reachable(s)
    ensures OnlyDeadline(s) <==> s.r.Parked? && forall d <- s.ds :: d.Idle? || d.WantLost?
  {
    ReachableInv(s);
    if !s.r.Parked? {
      var a := UnparkedMoves(s);
    } else if d :| d in s.ds && !d.Idle? && !d.WantLost? {
      var i: nat :| i < |s.ds| && s.ds[i] == d;
      var a := ParkedMoves(s, i);
    } else {
      NothingElseMoves(s);
    }
  }

  lemma HolderIsBusy(s: State)
    requires LocksMatch(s) && s.lostOwner.Some? && s.lostOwner.value.Dispatcher?
    ensures !Quiescent(s)
  {
    assert s.ds[s.lostOwner.value.i] in s.ds;
  }

  /** Deadlock freedom: a state that is not waiting for the deadline has an enabled step of a running thread. */
  lemma UnparkedMoves(s: State) returns (a: Action)
    requires Inv(s) && !s.r.Parked?
    ensures Enabled(s, a) && Internal(a) && a != Snapshotter(Deadline)
  {
    if s.lostOwner.Some? && s.lostOwner.value.Dispatcher? {
      HolderIsBusy(s);
    }
    if Quiescent(s) {
      a := Snapshotter(if s.r.AtLoop? then Loop else if s.r.WantFlag? then LockFlag else CheckFlag);
    } else {
      hide Inv, Quiescent, HandlerEnabled, HandlerDo, ReceiverDo, Closer;
      a := SomeStepHelps(s);
    }
  }

  lemma NothingElseMoves(s: State)
    requires LocksMatch(s) && s.r.Parked? && forall d <- s.ds :: d.Idle? || d.WantLost?
    ensures OnlyDeadline(s)
  {
    forall a: Action | Enabled(s, a)
      ensures a == Snapshotter(Deadline) || (a.Handler? && a.step.Begin?)
    {
      assert a.Handler? ==> s.ds[a.i] in s.ds;
    }
  }

  /** While the receiver is parked only the flag's lock can hold a dispatcher up. */
  lemma ParkedMoves(s: State, i: nat) returns (a: Action)
    requires LocksMatch(s) && s.r.Parked? && i < |s.ds|
    requires !s.ds[i].Idle? && !s.ds[i].WantLost?
    ensures Enabled(s, a) && Internal(a) && a.Handler?
  {
    hide ContainerOf, ContainerOwners, HandlerDo, ReceiverDo, Closer;
    if s.cacheOwner.Some? {
      a := InsideMoves(s, s.cacheOwner.value.i);
    } else {
      a := Handler(i, if s.ds[i].WantCache? then LockCache else if s.ds[i].Dispatching? then Send else Mark);
    }
  }

  /** One more step of a run. */
  lemma {:induction false} RunSnoc(s: State, run: seq<Action>, t: State, a: Action)
    requires Runs(s, run, t) && Enabled(t, a)
    ensures Runs(s, run + [a], Do(t, a))
    decreases |run|
  {
    hide HandlerDo, ReceiverDo, HandlerEnabled, ReceiverEnabled;
    if run == [] {
      assert run + [a] == [a] && [a][1..] == [];
    } else {
      assert (run + [a])[1..] == run[1..] + [a];
      RunSnoc(Do(s, run[0]), run[1..], t, a);
    }
  }

  lemma Reaches(s: State, a: Action)
    requires Reachable(s) && Enabled(s, a)
    ensures Reachable(Do(s, a))
  {
    hide HandlerDo, ReceiverDo, HandlerEnabled, ReceiverEnabled;
    var n: nat, run: seq<Action> :| Runs(Init(n), run, s);
    RunSnoc(Init(n), run, s, a);
  }

  /** One goroutine, one new service, changed cache, nobody told yet. */
  lemma OneServiceSeen(svc: Service) returns (s: State)
    ensures Reachable(s) && |s.ds| == 1 && s.ds[0].Dispatching? && s.r.AtLoop? && !s.eventLost && s.lostOwner.None?
    ensures s.cacheOwner.None? && s.containerOwner == map[]
    ensures s.cache == map[svc.name := Entry(svc, map[])] && s.envoy == map[] && !s.failed
  {
    var s0 := Init(1);
    assert Runs(s0, [], s0);
    Reaches(s0, Handler(0, Begin(UpdateService(svc))));
    var s1 := HandlerDo(s0, 0, Begin(UpdateService(svc)));
    Reaches(s1, Handler(0, LockCache));
    var s2 := HandlerDo(s1, 0, LockCache);
    Reaches(s2, Handler(0, Mutate));
    var s3 := HandlerDo(s2, 0, Mutate);
    Reaches(s3, Handler(0, UnlockCache));
    s := HandlerDo(s3, 0, UnlockCache);
  }

  /** An update can stand unseen until the receive deadline: its dispatcher finds the receiver not yet in the
      select, and then waits for the lock the receiver holds there. */
  lemma AnUpdateMayWaitForTheDeadline(svc: Service)
    ensures exists s: State :: Reachable(s) && OnlyDeadline(s) && s.envoy != s.cache
  {
    var s0 := OneServiceSeen(svc);
    Reaches(s0, Handler(0, TakeDefault));
    var s1 := HandlerDo(s0, 0, TakeDefault);
    Reaches(s1, Snapshotter(Loop));
    var s2 := ReceiverDo(s1, Loop);
    Reaches(s2, Snapshotter(LockFlag));
    var s3 := ReceiverDo(s2, LockFlag);
    Reaches(s3, Snapshotter(CheckFlag));
    var s4 := ReceiverDo(s3, CheckFlag);
    StandstillIff(s4);
    assert svc.name in s4.cache;
  }

  /** The receiver has taken the event of that service and nothing else is pending. */
  lemma OneEventTaken(svc: Service) returns (s: State)
    ensures Reachable(s) && s.ds == [Idle] && s.r.Consumed? && !s.eventLost
    ensures s.cacheOwner.None? && s.containerOwner == map[]
    ensures s.cache == map[svc.name := Entry(svc, map[])] && s.envoy == map[]
  {
    var s0 := OneServiceSeen(svc);
    Reaches(s0, Snapshotter(Loop));
    var s1 := ReceiverDo(s0, Loop);
    Reaches(s1, Snapshotter(LockFlag));
    var s2 := ReceiverDo(s1, LockFlag);
    Reaches(s2, Snapshotter(CheckFlag));
    var s3 := ReceiverDo(s2, CheckFlag);
    Reaches(s3, Handler(0, Send));
    s := HandlerDo(s3, 0, Send);
  }

  /** A failed translation or server error consumes its event: the run ends at rest with the update undelivered. */
  lemma AFailedPublicationLosesTheUpdate(svc: Service)
    ensures exists s: State :: Reachable(s) && Quiescent(s) && s.failed && s.envoy != s.cache
  {
    var s4 := OneEventTaken(svc);
    Reaches(s4, Snapshotter(LockCacheToCopy));
    var s5 := ReceiverDo(s4, LockCacheToCopy);
    Reaches(s5, Snapshotter(LockContainerToCopy(svc.name)));
    var s6 := ReceiverDo(s5, LockContainerToCopy(svc.name));
    Reaches(s6, Snapshotter(CopyContainer));
    var s7 := ReceiverDo(s6, CopyContainer);
    assert s7.r.acc.Keys == s7.cache.Keys;
    Reaches(s7, Snapshotter(UnlockCopied));
    var s8 := ReceiverDo(s7, UnlockCopied);
    Reaches(s8, Snapshotter(Return));
    FailAtRest(ReceiverDo(s8, Return), svc.name);
  }

  lemma FailAtRest(s: State, n: string)
    requires Reachable(s) && s.ds == [Idle] && s.r.Publishing? && !s.eventLost && n in s.cache && n !in s.envoy
    ensures exists t: State :: Reachable(t) && Quiescent(t) && t.failed && t.envoy != t.cache
  {
    Reaches(s, Snapshotter(Fail));
    var t := ReceiverDo(s, Fail);
    assert n in t.cache && n !in t.envoy;
  }

  /** The polling loop alone never repairs it: until the next handler call nothing changes at the server. */
  lemma {:induction false} PollingNeverRepairs(s: State, run: seq<Action>, t: State)
    requires LocksMatch(s) && Quiescent(s) && Runs(s, run, t)
    requires forall a <- run :: !(a.Handler? && a.step.Begin?)
    ensures Quiescent(t) && t.envoy == s.envoy && t.cache == s.cache && t.failed == s.failed
    decreases |run|
  {
    if run != [] {
      assert run[0] in run && forall a <- run[1..] :: a in run;
      RestStays(s, run[0]);
      hide Quiescent, LocksMatch, HandlerDo, ReceiverDo, HandlerEnabled, ReceiverEnabled;
      PollingNeverRepairs(Do(s, run[0]), run[1..], t);
    }
  }

  lemma RestStays(s: State, a: Action)
    requires LocksMatch(s) && Quiescent(s) && Enabled(s, a) && !(a.Handler? && a.step.Begin?)
    ensures LocksMatch(Do(s, a)) && Quiescent(Do(s, a))
    ensures var t := Do(s, a); t.envoy == s.envoy && t.cache == s.cache && t.failed == s.failed
  {
    forall i: nat, step: HandlerStep | i < |s.ds| && !step.Begin?
      ensures !HandlerEnabled(s, i, step)
    {
      assert s.ds[i] in s.ds;
    }
    LocksReceiver(s, a.move);
  }
}
