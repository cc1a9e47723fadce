/** What the cache holds, told from the event history alone. */
module History {
  import opened Kube
  import opened GoText
  import opened CacheSpec
  import opened Meaning

  // ---------- the history view ----------

  predicate UpdatesService(e: Event, n: string) { e.UpdateService? && e.svc.name == n }
  predicate DeletesService(e: Event, n: string) { e.DeleteService? && e.svc.name == n }

  predicate UpdatesSlice(e: Event, n: string, s: string) {
    e.UpdateSlice? && LabelledFor(e.slice, n) && e.slice.name == s
  }
  predicate DeletesSlice(e: Event, n: string, s: string) {
    e.DeleteSlice? && LabelledFor(e.slice, n) && e.slice.name == s
  }

  function Version(e: Event): string {
    match e
    case UpdateService(svc) => svc.resourceVersion
    case UpdateSlice(slice) => slice.resourceVersion
    case _ => ""
  }

  predicate NoServiceDelete(log: seq<Event>, n: string, from: nat) {
    forall j :: from <= j < |log| ==> !DeletesService(log[j], n)
  }

  predicate NoSliceDelete(log: seq<Event>, n: string, s: string, from: nat) {
    forall j :: from <= j < |log| ==> !DeletesSlice(log[j], n, s)
  }

  /** The updates of service `n` since its last delete. */
  function ServiceUpdates(log: seq<Event>, n: string): set<nat> {
    set i: nat | i < |log| && UpdatesService(log[i], n) && NoServiceDelete(log, n, i + 1)
  }

  /** The service existed when event `i` arrived, and has not been deleted since. */
  predicate CreatedBefore(log: seq<Event>, n: string, i: nat) {
    exists k <- ServiceUpdates(log, n) :: k < i
  }

  /** The updates of slice `s` of service `n` since the later of the service's last creation and the slice's own
      last delete. */
  function SliceUpdates(log: seq<Event>, n: string, s: string): set<nat> {
    set i: nat | i < |log| && UpdatesSlice(log[i], n, s) && CreatedBefore(log, n, i) && NoSliceDelete(log, n, s, i + 1)
  }

  /** Event `i` carries the greatest version among `candidates`, and is the earliest to do so. */
  predicate EarliestGreatest(log: seq<Event>, candidates: set<nat>, i: nat) {
    i in candidates && i < |log| &&
    forall j <- candidates ::
      j < |log| && !Less(Version(log[i]), Version(log[j])) && (j < i ==> Less(Version(log[j]), Version(log[i])))
  }

  /** `e` is the event of `log` that wins among `candidates`. */
  ghost predicate Wins(log: seq<Event>, candidates: set<nat>, e: Event) {
    exists i: nat :: EarliestGreatest(log, candidates, i) && log[i] == e
  }

  ghost predicate EntryTellsHistory(entry: Entry, log: seq<Event>, n: string) {
    && Wins(log, ServiceUpdates(log, n), UpdateService(entry.obj))
    && (forall s :: s in entry.slices <==> SliceUpdates(log, n, s) != {})
    && (forall s <- entry.slices :: Wins(log, SliceUpdates(log, n, s), UpdateSlice(entry.slices[s])))
  }

  /** The cache holds exactly the services and slices the history asks for. */
  ghost predicate TellsHistory(c: Cache, log: seq<Event>) {
    && (forall n :: n in c <==> ServiceUpdates(log, n) != {})
    && (forall n <- c :: EntryTellsHistory(c[n], log, n))
  }

  // ---------- extending a history by one event ----------

  lemma NoDeleteSnoc(log: seq<Event>, e: Event, n: string, s: string, from: nat)
    requires from <= |log|
    ensures NoServiceDelete(log + [e], n, from) <==> NoServiceDelete(log, n, from) && !DeletesService(e, n)
    ensures NoSliceDelete(log + [e], n, s, from) <==> NoSliceDelete(log, n, s, from) && !DeletesSlice(e, n, s)
  {
    var l := log + [e];
    assert l[|log|] == e;
    assert forall j :: from <= j < |log| ==> l[j] == log[j];
  }

  lemma ServiceUpdatesSnoc(log: seq<Event>, e: Event, n: string)
    ensures ServiceUpdates(log + [e], n) ==
              if UpdatesService(e, n) then ServiceUpdates(log, n) + {|log|}
              else if DeletesService(e, n) then {}
              else ServiceUpdates(log, n)
  {
    forall i: nat | i < |log|
      ensures i in ServiceUpdates(log + [e], n) <==> i in ServiceUpdates(log, n) && !DeletesService(e, n)
    {
      NoDeleteSnoc(log, e, n, "", i + 1);
      assert (log + [e])[i] == log[i];
    }
    assert (log + [e])[|log|] == e;
    assert |log| in ServiceUpdates(log + [e], n) <==> UpdatesService(e, n);
    assert forall i <- ServiceUpdates(log, n) :: i < |log|;
  }

  lemma CreatedBeforeSnoc(log: seq<Event>, e: Event, n: string, i: nat)
    requires i <= |log|
    ensures CreatedBefore(log + [e], n, i) <==> CreatedBefore(log, n, i) && !DeletesService(e, n)
    ensures CreatedBefore(log, n, |log|) <==> ServiceUpdates(log, n) != {}
  {
    ServiceUpdatesSnoc(log, e, n);
    if CreatedBefore(log, n, i) && !DeletesService(e, n) {
      var k :| k in ServiceUpdates(log, n) && k < i;
      assert k in ServiceUpdates(log + [e], n);
    }
    if k :| k in ServiceUpdates(log, n) {
      assert k < |log|;
    }
  }

  lemma SliceUpdatesSnoc(log: seq<Event>, e: Event, n: string, s: string)
    ensures SliceUpdates(log + [e], n, s) ==
              if DeletesService(e, n) || DeletesSlice(e, n, s) then {}
              else if UpdatesSlice(e, n, s) && ServiceUpdates(log, n) != {} then SliceUpdates(log, n, s) + {|log|}
              else SliceUpdates(log, n, s)
  {
    forall i: nat | i < |log|
      ensures i in SliceUpdates(log + [e], n, s) <==>
                i in SliceUpdates(log, n, s) && !DeletesService(e, n) && !DeletesSlice(e, n, s)
    {
      NoDeleteSnoc(log, e, n, s, i + 1);
      CreatedBeforeSnoc(log, e, n, i);
      assert (log + [e])[i] == log[i];
    }
    CreatedBeforeSnoc(log, e, n, |log|);
    assert |log| in SliceUpdates(log + [e], n, s) <==> UpdatesSlice(e, n, s) && ServiceUpdates(log, n) != {};
  }

  /** How the winner changes when a candidate is appended. */
  lemma WinnerSnoc(log: seq<Event>, e: Event, candidates: set<nat>, w: Event)
    requires Wins(log, candidates, w)
    ensures Wins(log + [e], candidates, w)
    ensures Wins(log + [e], candidates + {|log|}, if Less(Version(w), Version(e)) then e else w)
  {
    var l := log + [e];
    var i: nat :| EarliestGreatest(log, candidates, i) && log[i] == w;
    assert l[|log|] == e && forall j <- candidates :: l[j] == log[j];
    assert EarliestGreatest(l, candidates, i);
    LessTotal(Version(w), Version(e));
    LessTotal(Version(e), Version(e));
    if Less(Version(w), Version(e)) {
      forall j <- candidates
        ensures !Less(Version(e), Version(l[j])) && Less(Version(l[j]), Version(e))
      {
        LessTransitive(Version(log[j]), Version(w), Version(e));
        LessTotal(Version(log[j]), Version(e));
      }
      assert EarliestGreatest(l, candidates + {|log|}, |log|);
    } else {
      assert EarliestGreatest(l, candidates + {|log|}, i);
    }
  }

  lemma FirstWins(log: seq<Event>, e: Event)
    ensures Wins(log + [e], {|log|}, e)
  {
    LessTotal(Version(e), Version(e));
    assert EarliestGreatest(log + [e], {|log|}, |log|);
  }

  lemma WinnerUnique(log: seq<Event>, candidates: set<nat>, e: Event, f: Event)
    requires Wins(log, candidates, e) && Wins(log, candidates, f)
    ensures e == f
  {
  }

  // ---------- the cache tells its history ----------

  /** The stored service after one more event, by cases on the event. */
  lemma ObjectStep(c: Cache, e: Event, n: string)
    requires WellKeyed(c)
    ensures n in Apply(c, e).cache <==> UpdatesService(e, n) || (n in c && !DeletesService(e, n))
    ensures n in Apply(c, e).cache ==>
              Apply(c, e).cache[n].obj ==
              if UpdatesService(e, n) && (n in c ==> Less(c[n].obj.resourceVersion, e.svc.resourceVersion)) then e.svc
              else c[n].obj
  {
  }

  /** The stored slice after one more event, by cases on the event. */
  lemma SliceStep(c: Cache, e: Event, n: string, s: string)
    requires WellKeyed(c)
    requires n in Apply(c, e).cache
    ensures n !in c ==> Apply(c, e).cache[n].slices == map[]
    ensures n in c ==>
              (s in Apply(c, e).cache[n].slices <==>
                 UpdatesSlice(e, n, s) || (s in c[n].slices && !DeletesSlice(e, n, s)))
    ensures n in c && s in Apply(c, e).cache[n].slices ==>
              Apply(c, e).cache[n].slices[s] ==
              if UpdatesSlice(e, n, s) &&
                  (s in c[n].slices ==> Less(c[n].slices[s].resourceVersion, e.slice.resourceVersion))
              then e.slice else c[n].slices[s]
  {
  }

  lemma {:induction false} ServiceHistory(log: seq<Event>, n: string)
    ensures n in Replay(log) <==> ServiceUpdates(log, n) != {}
    ensures n in Replay(log) ==> Wins(log, ServiceUpdates(log, n), UpdateService(Replay(log)[n].obj))
  {
    if log != [] {
      hide Apply, EarliestGreatest, Wins, ServiceUpdates, WellKeyed;
      var pre, e := log[..|log| - 1], log[|log| - 1];
      assert log == pre + [e];
      ServiceHistory(pre, n);
      ServiceUpdatesSnoc(pre, e, n);
      ReplayWellKeyed(map[], pre);
      ObjectStep(Replay(pre), e, n);
      if n in Replay(pre) {
        WinnerSnoc(pre, e, ServiceUpdates(pre, n), UpdateService(Replay(pre)[n].obj));
      } else {
        FirstWins(pre, e);
        assert {} + {|pre|} == {|pre|};
      }
    }
  }

  lemma {:induction false} SliceHistory(log: seq<Event>, n: string, s: string)
    requires n in Replay(log)
    ensures s in Replay(log)[n].slices <==> SliceUpdates(log, n, s) != {}
    ensures s in Replay(log)[n].slices ==> Wins(log, SliceUpdates(log, n, s), UpdateSlice(Replay(log)[n].slices[s]))
  {
    hide Apply, EarliestGreatest, Wins, ServiceUpdates, SliceUpdates, WellKeyed;
    var pre, e := log[..|log| - 1], log[|log| - 1];
    assert log == pre + [e];
    ServiceHistory(pre, n);
    SliceUpdatesSnoc(pre, e, n, s);
    ReplayWellKeyed(map[], pre);
    ObjectStep(Replay(pre), e, n);
    SliceStep(Replay(pre), e, n, s);
    if n in Replay(pre) {
      SliceHistory(pre, n, s);
      if s in Replay(pre)[n].slices {
        WinnerSnoc(pre, e, SliceUpdates(pre, n, s), UpdateSlice(Replay(pre)[n].slices[s]));
      } else {
        FirstWins(pre, e);
        assert {} + {|pre|} == {|pre|};
      }
    } else {
      NoUpdatesWhileAbsent(pre, n, s);
    }
  }

  lemma NoUpdatesWhileAbsent(log: seq<Event>, n: string, s: string)
    requires ServiceUpdates(log, n) == {}
    ensures SliceUpdates(log, n, s) == {}
  {
    assert forall i: nat :: !CreatedBefore(log, n, i);
  }

  /** After any sequence of events the cache holds, for every name, the earliest update of greatest version since
      the last delete, and so for every slice of a live service. */
  lemma CacheTellsHistory(log: seq<Event>)
    ensures TellsHistory(Replay(log), log)
  {
    forall n {
      ServiceHistory(log, n);
    }
    forall n <- Replay(log)
      ensures EntryTellsHistory(Replay(log)[n], log, n)
    {
      ServiceHistory(log, n);
      forall s {
        SliceHistory(log, n, s);
      }
    }
  }

  lemma HistoryDeterminesEntry(c: Entry, d: Entry, log: seq<Event>, n: string)
    requires EntryTellsHistory(c, log, n) && EntryTellsHistory(d, log, n)
    ensures c == d
  {
    hide EarliestGreatest, Wins, ServiceUpdates, SliceUpdates;
    WinnerUnique(log, ServiceUpdates(log, n), UpdateService(c.obj), UpdateService(d.obj));
    assert c.slices.Keys == d.slices.Keys;
    forall s <- c.slices
      ensures c.slices[s] == d.slices[s]
    {
      WinnerUnique(log, SliceUpdates(log, n, s), UpdateSlice(c.slices[s]), UpdateSlice(d.slices[s]));
    }
    assert c.slices == d.slices;
  }

  /** The history leaves no freedom: it determines the cache. */
  lemma HistoryDeterminesCache(c: Cache, d: Cache, log: seq<Event>)
    requires TellsHistory(c, log) && TellsHistory(d, log)
    ensures c == d
  {
    hide EntryTellsHistory, ServiceUpdates;
    assert c.Keys == d.Keys;
    forall n <- c
      ensures c[n] == d[n]
    {
      HistoryDeterminesEntry(c[n], d[n], log, n);
    }
  }
}
