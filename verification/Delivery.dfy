/** How long delivery can take: without new calls only finitely many steps are more than idle polling, and rounds of the
    snapshot loop that never ignore everything else end delivered. */
module Delivery {
  import opened Kube
  import opened CacheSpec
  import opened Subscriber
  import opened Progress
  import GoText

  predicate BeginsCall(a: Action) { a.Handler? && a.step.Begin? }

  predicate NoNewCall(run: seq<Action>) { forall a <- run :: !BeginsCall(a) }

  /** The receiver goes round without finding anything. */
  predicate Polls(s: State, a: Action) {
    !s.eventLost && a.Snapshotter? && (a.move.Loop? || a.move.LockFlag? || a.move.CheckFlag? || a.move.Deadline?)
  }

  /** How many steps of a run from `s` are more than polling. */
  function Steps(s: State, run: seq<Action>): nat
    decreases |run|
  {
    if run == [] || !Enabled(s, run[0]) then 0
    else (if Polls(s, run[0]) then 0 else 1) + Steps(Do(s, run[0]), run[1..])
  }

  // ---------- a bound ----------

  predicate MayAdd(d: DispatcherPC) { d.WantCache? || d.InCache? || d.InContainer? }

  /** How many dispatchers may still add a service to the cache. */
  function Additions(ds: seq<DispatcherPC>): nat {
    if ds == [] then 0 else (if MayAdd(ds[0]) then 1 else 0) + Additions(ds[1..])
  }

  lemma {:induction false} AdditionsUpdate(ds: seq<DispatcherPC>, i: nat, d: DispatcherPC)
    requires i < |ds|
    ensures Additions(ds[i := d]) == Additions(ds) - (if MayAdd(ds[i]) then 1 else 0) + (if MayAdd(d) then 1 else 0)
  {
    if i == 0 {
      assert ds[i := d][1..] == ds[1..];
    } else {
      assert ds[i := d][1..] == ds[1..][i - 1 := d];
      AdditionsUpdate(ds[1..], i - 1, d);
    }
  }

  /** The most services the cache can come to hold without a new call. */
  function Capacity(s: State): nat { |s.cache| + Additions(s.ds) }

  /** What the receiver has left to do when at most `cap` services are to be copied. */
  function Load(r: ReceiverPC, flag: bool, cap: nat): int {
    match r
    case Publishing(_, _) => 5
    case Returning(_, _) => 6
    case Copying(acc, key) => 7 + 2 * (cap - |acc|) + (if key.None? then 1 else 0)
    case Consumed => 9 + 2 * cap
    case Parked => if flag then 4 else 0
    case AtLoop => if flag then 3 else 0
    case WantFlag => if flag then 2 else 0
    case HoldFlag => if flag then 1 else 0
  }

  /** Each pending dispatch may cost a snapshot, and each step of a dispatcher two. */
  function Potential(s: State, cap: nat): int {
    (10 + 2 * cap) * (2 * Work(s.ds) + Flag(s)) + Load(s.r, s.eventLost, cap)
  }

  function Bound(s: State): int { Potential(s, Capacity(s)) }

  lemma ApplyAddsOne(c: Cache, e: Event)
    ensures |Apply(c, e).cache| <= |c| + 1
  {
    var d := Apply(c, e).cache;
    if k :| k in d && k !in c {
      assert d.Keys - {k} <= c.Keys;
      SubsetSize(d.Keys - {k}, c.Keys);
    } else {
      SubsetSize(d.Keys, c.Keys);
    }
  }

  lemma {:induction false} SubsetSize<T>(a: set<T>, b: set<T>)
    requires a <= b
    ensures |a| <= |b|
  {
    if x :| x in a {
      SubsetSize(a - {x}, b - {x});
    }
  }

  lemma HandlerKeepsCapacity(s: State, i: nat, step: HandlerStep)
    requires i < |s.ds| && HandlerEnabled(s, i, step) && !step.Begin?
    ensures Capacity(HandlerDo(s, i, step)) <= Capacity(s)
  {
    hide ContainerOf, Apply;
    var t := HandlerDo(s, i, step);
    AdditionsUpdate(s.ds, i, t.ds[i]);
    if step.Mutate? {
      ApplyAddsOne(s.cache, s.ds[i].ev);
    }
  }

  lemma HandlerLowers(s: State, i: nat, step: HandlerStep, cap: nat)
    requires i < |s.ds| && HandlerEnabled(s, i, step) && !step.Begin?
    ensures Potential(HandlerDo(s, i, step), cap) < Potential(s, cap)
  {
    hide ContainerOf, Apply;
    var t := HandlerDo(s, i, step);
    WorkUpdate(s.ds, i, t.ds[i]);
    hide Work;
    var k, w, v := 10 + 2 * cap, 2 * Work(s.ds) + Flag(s), 2 * Work(t.ds) + Flag(t);
    assert v <= w - 1;
    assert Load(t.r, t.eventLost, cap) - Load(s.r, s.eventLost, cap) < k;
    Weigh(k, v, w);
  }

  lemma Weigh(k: int, v: int, w: int)
    requires v <= w - 1 && k >= 0
    ensures k * v + k <= k * w
  {
    GoText.AtLeastOnce(w - v, k);
    assert (w - v) * k == w * k - v * k;
  }

  lemma CopyLowers(s: State, cap: nat)
    requires s.r.Copying? && KeysHeld(s)
    ensures s.r.key.Some? ==>
              Load(Copying(s.r.acc[s.r.key.value := s.cache[s.r.key.value]], None), s.eventLost, cap) <
              Load(s.r, s.eventLost, cap)
    ensures s.r.key.None? && s.r.acc.Keys == s.cache.Keys && |s.cache| <= cap ==> 6 < Load(s.r, s.eventLost, cap)
  {
    if s.r.key.Some? {
      var k := s.r.key.value;
      assert |s.r.acc[k := s.cache[k]]| == |s.r.acc| + 1;
    } else if s.r.acc.Keys == s.cache.Keys {
      assert |s.r.acc| == |s.r.acc.Keys| == |s.cache.Keys| == |s.cache|;
    }
  }

  lemma ReceiverLowers(s: State, move: ReceiverStep, cap: nat)
    requires ReceiverEnabled(s, move) && KeysHeld(s) && |s.cache| <= cap
    ensures if Polls(s, Snapshotter(move)) then Potential(ReceiverDo(s, move), cap) == Potential(s, cap)
            else Potential(ReceiverDo(s, move), cap) < Potential(s, cap)
  {
    var t := ReceiverDo(s, move);
    var k, w, v := 10 + 2 * cap, 2 * Work(s.ds) + Flag(s), 2 * Work(t.ds) + Flag(t);
    if s.r.Copying? {
      CopyLowers(s, cap);
    }
    hide Work, KeysHeld;
    if move.CheckFlag? && s.eventLost {
      assert w == v + 1;
      Weigh(k, v, w);
    } else {
      assert w == v;
    }
  }

  /** Without a new call the potential never rises, and every step that is more than polling lowers it. */
  lemma StepLowers(s: State, a: Action, cap: nat)
    requires Inv(s) && Enabled(s, a) && !BeginsCall(a) && Capacity(s) <= cap
    ensures Capacity(Do(s, a)) <= cap
    ensures Potential(Do(s, a), cap) + (if Polls(s, a) then 0 else 1) <= Potential(s, cap)
  {
    match a
    case Handler(i, step) =>
      hide HandlerDo, HandlerEnabled, Inv, Work, Capacity, Potential;
      HandlerKeepsCapacity(s, i, step);
      HandlerLowers(s, i, step, cap);
    case Snapshotter(move) =>
      ReceiverKeepsCapacity(s, move);
      hide ReceiverDo, ReceiverEnabled, LocksMatch, CopyFaithful, LogTold, WakeUp, Paid, Potential, Additions;
      ReceiverLowers(s, move, cap);
  }

  lemma ReceiverKeepsCapacity(s: State, move: ReceiverStep)
    requires ReceiverEnabled(s, move)
    ensures Capacity(ReceiverDo(s, move)) == Capacity(s)
  {
  }

  lemma PotentialIsNatural(s: State, cap: nat)
    requires CopyFaithful(s) && |s.cache| <= cap
    ensures 0 <= Potential(s, cap)
  {
    hide Work;
    if s.r.Copying? {
      SubsetSize(s.r.acc.Keys, s.cache.Keys);
      assert |s.r.acc| == |s.r.acc.Keys| && |s.cache| == |s.cache.Keys|;
    }
  }

  lemma {:induction false} StepsLower(s: State, run: seq<Action>, t: State, cap: nat)
    requires Inv(s) && Runs(s, run, t) && NoNewCall(run) && Capacity(s) <= cap
    ensures Inv(t) && Capacity(t) <= cap
    ensures Steps(s, run) + Potential(t, cap) <= Potential(s, cap)
    decreases |run|
  {
    if run != [] {
      assert run[0] in run && forall a <- run[1..] :: a in run;
      StepInv(s, run[0]);
      StepLowers(s, run[0], cap);
      hide Inv, Potential, Capacity, HandlerDo, ReceiverDo, HandlerEnabled, ReceiverEnabled;
      StepsLower(Do(s, run[0]), run[1..], t, cap);
    }
  }

  /** However the goroutines are scheduled, a run without a new call takes no more than this many steps that are not
      polling. */
  lemma StepsAreBounded(s: State, run: seq<Action>, t: State)
    requires Inv(s) && Runs(s, run, t) && NoNewCall(run)
    ensures Steps(s, run) <= Bound(s)
  {
    hide Potential, Runs, Steps;
    StepsLower(s, run, t, Capacity(s));
    PotentialIsNatural(t, Capacity(s));
  }

  // ---------- fair rounds ----------

  /** Some step other than a new call or polling is enabled. */
  ghost predicate Useful(s: State) {
    exists a: Action :: Enabled(s, a) && !BeginsCall(a) && !Polls(s, a)
  }

  /** Rounds of the snapshot loop from loop head to loop head, without new calls; no round polls only while something
      else is enabled at its start. */
  ghost predicate FairRounds(states: seq<State>, rounds: seq<seq<Action>>) {
    && |states| == |rounds| + 1
    && (forall s <- states :: s.r.AtLoop?)
    && forall i :: 0 <= i < |rounds| ==> FairRound(states[i], rounds[i], states[i + 1])
  }

  ghost predicate FairRound(s: State, round: seq<Action>, t: State) {
    Runs(s, round, t) && NoNewCall(round) && (Useful(s) ==> Steps(s, round) > 0)
  }

  /** At the loop head there is something useful to do, or everything is at rest. */
  lemma UsefulOrQuiet(s: State)
    requires Inv(s) && s.r.AtLoop?
    ensures Useful(s) || Quiescent(s)
  {
    if !Quiescent(s) {
      var a := SomeStepHelps(s);
      assert Enabled(s, a) && !BeginsCall(a) && !Polls(s, a);
    }
  }

  lemma {:induction false} QuietRoundComes(states: seq<State>, rounds: seq<seq<Action>>, cap: nat)
    requires FairRounds(states, rounds) && Inv(states[0]) && Capacity(states[0]) <= cap
    requires Potential(states[0], cap) < |rounds|
    ensures exists i :: 0 <= i < |states| && Inv(states[i]) && Quiescent(states[i])
    decreases |rounds|
  {
    hide Inv, Potential, Capacity, Useful, Quiescent;
    if !Quiescent(states[0]) {
      PotentialFits(states[0], cap);
      UsefulOrQuiet(states[0]);
      assert FairRound(states[0], rounds[0], states[1]);
      StepsLower(states[0], rounds[0], states[1], cap);
      assert forall i :: 0 <= i < |rounds[1..]| ==> rounds[1..][i] == rounds[i + 1];
      assert FairRounds(states[1..], rounds[1..]);
      QuietRoundComes(states[1..], rounds[1..], cap);
      var i :| 0 <= i < |states[1..]| && Inv(states[1..][i]) && Quiescent(states[1..][i]);
      assert states[i + 1] == states[1..][i];
    }
  }

  lemma PotentialFits(s: State, cap: nat)
    requires Inv(s) && Capacity(s) <= cap
    ensures 0 <= Potential(s, cap)
  {
    PotentialIsNatural(s, cap);
  }

  /** Delivery: after that many fair rounds the loop has come by a state of rest, and unless the last publication
      failed the server then holds the whole cache. */
  lemma FairRoundsDeliver(states: seq<State>, rounds: seq<seq<Action>>)
    requires FairRounds(states, rounds) && Reachable(states[0]) && Bound(states[0]) < |rounds|
    ensures exists i :: 0 <= i < |states| && Quiescent(states[i]) &&
              (!states[i].failed ==> states[i].envoy == states[i].cache)
  {
    ReachableInv(states[0]);
    hide Inv, Quiescent, FairRounds, Reachable;
    QuietRoundComes(states, rounds, Capacity(states[0]));
    var i :| 0 <= i < |states| && Inv(states[i]) && Quiescent(states[i]);
    RestDelivered(states[i]);
  }

  lemma RestDelivered(s: State)
    requires Inv(s) && Quiescent(s)
    ensures !s.failed ==> s.envoy == s.cache
  {
    if !s.failed {
      QuietIsDelivered(s);
    }
  }

  // ---------- a failed publication ----------

  /** The call finds nothing new in the cache. */
  predicate NothingNew(c: Cache, e: Event) { !Apply(c, e).reported }

  /** The dispatcher is idle, or inside a call that finds nothing new. */
  predicate OnIdleErrand(c: Cache, d: DispatcherPC) {
    match d
    case Idle => true
    case WantCache(ev) => NothingNew(c, ev)
    case InCache(ev) => NothingNew(c, ev)
    case InContainer(ev, _) => NothingNew(c, ev)
    case Leaving(reported) => !reported
    case _ => false
  }

  /** Nothing is going on but polling and calls that find nothing new. */
  predicate Lull(s: State) {
    && (forall d <- s.ds :: OnIdleErrand(s.cache, d))
    && !s.eventLost
    && (s.r.AtLoop? || s.r.WantFlag? || s.r.HoldFlag? || s.r.Parked?)
  }

  /** The action starts no call that finds something new in `c`. */
  predicate BringsNothing(c: Cache, a: Action) { BeginsCall(a) ==> NothingNew(c, a.step.ev) }

  lemma HandlerStaysIdle(s: State, i: nat, step: HandlerStep)
    requires Lull(s) && i < |s.ds| && HandlerEnabled(s, i, step)
    requires step.Begin? ==> NothingNew(s.cache, step.ev)
    ensures var t := HandlerDo(s, i, step);
            Lull(t) && t.envoy == s.envoy && t.cache == s.cache && t.failed == s.failed
  {
    assert s.ds[i] in s.ds && OnIdleErrand(s.cache, s.ds[i]);
    if step.Mutate? {
      UnreportedIsUnchanged(s.cache, s.ds[i].ev);
    }
    hide ContainerOf, Apply;
    var t := HandlerDo(s, i, step);
    assert t.cache == s.cache && OnIdleErrand(s.cache, t.ds[i]);
    hide OnIdleErrand, HandlerEnabled;
    forall d <- t.ds ensures OnIdleErrand(t.cache, d) {
      var j :| 0 <= j < |t.ds| && t.ds[j] == d;
      assert j != i ==> s.ds[j] in s.ds;
    }
  }

  lemma LullStays(s: State, a: Action)
    requires Lull(s) && Enabled(s, a) && BringsNothing(s.cache, a)
    ensures Lull(Do(s, a))
    ensures var t := Do(s, a); t.envoy == s.envoy && t.cache == s.cache && t.failed == s.failed
  {
    match a
    case Handler(i, step) =>
      hide HandlerEnabled, HandlerDo, Lull;
      HandlerStaysIdle(s, i, step);
    case Snapshotter(_) =>
      hide OnIdleErrand;
  }

  lemma UnreportedIsUnchanged(c: Cache, e: Event)
    requires NothingNew(c, e)
    ensures Apply(c, e).cache == c
  {
  }

  /** The poll and the calls of a resync that find nothing new never repair a lost publication: until a call changes
      the cache or finds an unregistered slice, nothing changes at the server. */
  lemma {:induction false} ResyncNeverRepairs(s: State, run: seq<Action>, t: State)
    requires Lull(s) && Runs(s, run, t)
    requires forall a <- run :: BringsNothing(s.cache, a)
    ensures Lull(t) && t.envoy == s.envoy && t.cache == s.cache && t.failed == s.failed
    decreases |run|
  {
    if run != [] {
      assert run[0] in run && forall a <- run[1..] :: a in run;
      LullStays(s, run[0]);
      hide Lull, HandlerDo, ReceiverDo, HandlerEnabled, ReceiverEnabled, BringsNothing;
      ResyncNeverRepairs(Do(s, run[0]), run[1..], t);
    }
  }

  /** From rest in particular. */
  lemma QuietIsLull(s: State)
    requires Quiescent(s)
    ensures Lull(s)
  {
  }

  /** Dispatcher `i` is in a call that will find something new. */
  predicate BearsNews(s: State, i: nat) {
    i < |s.ds| &&
    match s.ds[i]
    case WantCache(ev) => !NothingNew(s.cache, ev)
    case InCache(ev) => !NothingNew(s.cache, ev)
    case InContainer(ev, _) => !NothingNew(s.cache, ev)
    case _ => false
  }

  /** Whoever moves, the news stays news, or a dispatcher has told it. */
  lemma NewsStays(s: State, i: nat, j: nat, step: HandlerStep)
    requires BearsNews(s, i) && j < |s.ds| && HandlerEnabled(s, j, step) && !step.Begin?
    ensures BearsNews(HandlerDo(s, j, step), i) || Hope(HandlerDo(s, j, step))
  {
    var t := HandlerDo(s, j, step);
    if step.Mutate? {
      if NothingNew(s.cache, s.ds[j].ev) {
        UnreportedIsUnchanged(s.cache, s.ds[j].ev);
      } else {
        assert Owes(t.ds[j]);
      }
    }
    hide ContainerOf, Apply;
  }

  /** While a dispatcher bears news and nobody owes, some dispatcher can move on. */
  lemma BearerOrOwnerMoves(s: State, i: nat) returns (j: nat, step: HandlerStep)
    requires LocksMatch(s) && BearsNews(s, i) && !s.r.Copying?
    ensures j < |s.ds| && HandlerEnabled(s, j, step) && !step.Begin?
  {
    hide ContainerOf, NothingNew;
    if s.cacheOwner.None? {
      j, step := i, LockCache;
    } else {
      j := s.cacheOwner.value.i;
      step := match s.ds[j]
              case InCache(ev) => if ContainerOf(s.cache, ev).Some? then LockContainer else Mutate
              case InContainer(_, _) => Mutate
              case _ => UnlockCache;
    }
  }

  lemma {:induction false} NewsIsTold(s: State, i: nat) returns (run: seq<Action>, t: State)
    requires Inv(s) && (BearsNews(s, i) || Hope(s))
    ensures Runs(s, run, t) && AllInternal(run) && Inv(t) && Hope(t)
    decreases Work(s.ds)
  {
    if Hope(s) {
      return [], s;
    }
    var j, step := BearerOrOwnerMoves(s, i);
    NewsStays(s, i, j, step);
    HandlerHelps(s, j, step);
    StepInv(s, Handler(j, step));
    HandlerWorks(s, j, step);
    hide HandlerDo, HandlerEnabled, Inv, Hope, BearsNews, Work;
    var rest;
    rest, t := NewsIsTold(HandlerDo(s, j, step), i);
    run := [Handler(j, step)] + rest;
    assert run[1..] == rest;
  }

  lemma HandlerWorks(s: State, i: nat, step: HandlerStep)
    requires i < |s.ds| && HandlerEnabled(s, i, step) && !step.Begin?
    ensures Work(HandlerDo(s, i, step).ds) < Work(s.ds)
  {
    hide ContainerOf, Apply;
    WorkUpdate(s.ds, i, HandlerDo(s, i, step).ds[i]);
  }

  lemma HopelessIsLull(s: State)
    requires !Hope(s) && forall i: nat :: !BearsNews(s, i)
    ensures Lull(s)
  {
    hide NothingNew;
    forall d <- s.ds ensures OnIdleErrand(s.cache, d) {
      var i: nat :| i < |s.ds| && s.ds[i] == d;
      assert !BearsNews(s, i) && !Owes(s.ds[i]);
    }
  }

  lemma {:induction false} RunsConcat(s: State, run: seq<Action>, t: State, more: seq<Action>, u: State)
    requires Runs(s, run, t) && Runs(t, more, u)
    ensures Runs(s, run + more, u)
    decreases |run|
  {
    hide HandlerDo, ReceiverDo, HandlerEnabled, ReceiverEnabled;
    if run == [] {
      assert run + more == more;
    } else {
      assert (run + more)[1..] == run[1..] + more;
      RunsConcat(Do(s, run[0]), run[1..], t, more, u);
    }
  }

  /** Some run without a new call or a failure ends with the whole cache delivered. */
  ghost predicate Deliverable(s: State) {
    exists run: seq<Action>, t: State :: Runs(s, run, t) && AllInternal(run) && t.envoy == t.cache
  }

  lemma HopefulIsDeliverable(s: State, i: nat)
    requires Inv(s) && (BearsNews(s, i) || Hope(s))
    ensures Deliverable(s)
  {
    hide Runs, Inv, Hope, BearsNews, Quiescent;
    var run, t := NewsIsTold(s, i);
    var more, u := Drain(t);
    RunsConcat(s, run, t, more, u);
    QuietIsDelivered(u);
  }

  /** An update is lost, so that no run without a new call or a further failure delivers it, exactly when the last
      publication failed, the server is behind, and nothing is going on but polling and calls that find nothing new. */
  lemma LostIff(s: State)
    requires Reachable(s)
    ensures !Deliverable(s) <==> s.failed && s.envoy != s.cache && Lull(s)
  {
    ReachableInv(s);
    hide Inv, Lull, BearsNews, OnIdleErrand, Reachable;
    if s.failed && s.envoy != s.cache && Lull(s) {
      forall run: seq<Action>, t: State | Runs(s, run, t) && AllInternal(run)
        ensures t.envoy != t.cache
      {
        ResyncNeverRepairs(s, run, t);
      }
    } else if Hope(s) {
      HopefulIsDeliverable(s, 0);
    } else if i: nat :| BearsNews(s, i) {
      HopefulIsDeliverable(s, i);
    } else {
      HopelessIsLull(s);
      assert s.envoy == s.cache && Runs(s, [], s) && AllInternal([]);
    }
  }

  /** At rest a server that is behind the cache has lost the update for good. */
  lemma RestIsLostIff(s: State)
    requires Reachable(s) && Quiescent(s)
    ensures !Deliverable(s) <==> s.envoy != s.cache
  {
    QuietIsLull(s);
    hide Reachable, Quiescent, Lull, Deliverable;
    LostIff(s);
    if !s.failed {
      QuiescentDelivered(s);
    }
  }

  /** A call that re-sends what the cache holds finds nothing new. */
  lemma ResendFindsNothing(c: Cache, n: string, s: string)
    requires WellKeyed(c) && n in c
    ensures NothingNew(c, UpdateService(c[n].obj))
    ensures s in c[n].slices ==> NothingNew(c, UpdateSlice(c[n].slices[s]))
  {
    GoText.LessTotal(c[n].obj.resourceVersion, c[n].obj.resourceVersion);
    if s in c[n].slices {
      GoText.LessTotal(c[n].slices[s].resourceVersion, c[n].slices[s].resourceVersion);
    }
  }
}
