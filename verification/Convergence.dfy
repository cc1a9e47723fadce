/** Order-insensitivity of the cache, and where comparing versions as text goes wrong. */
module Convergence {
  import opened Kube
  import opened GoText
  import opened CacheSpec
  import opened History

  // ---------- convergence ----------

  /** The event updates an object of a service the cache already holds. */
  predicate UpdatesHeld(c: Cache, e: Event) {
    (e.UpdateService? && e.svc.name in c) || (e.UpdateSlice? && Labelled(e.slice) && Owner(e.slice) in c)
  }

  predicate SameObject(e: Event, f: Event) {
    (e.UpdateService? && f.UpdateService? && e.svc.name == f.svc.name) ||
    (e.UpdateSlice? && f.UpdateSlice? && Labelled(e.slice) && Labelled(f.slice) &&
     Owner(e.slice) == Owner(f.slice) && e.slice.name == f.slice.name)
  }

  /** The version of an object tells its content. */
  predicate VersionsIdentify(log: seq<Event>) {
    forall e <- log, f <- log :: SameObject(e, f) && Version(e) == Version(f) ==> e == f
  }

  /** `e` holds the greatest version in `log` among the updates of its own object, and beats `start` when it is
      another event than `start`. */
  predicate Latest(start: Event, log: seq<Event>, e: Event) {
    (e == start || (e in log && SameObject(start, e) && Less(Version(start), Version(e)))) &&
    !Less(Version(e), Version(start)) &&
    forall f <- log :: SameObject(start, f) ==> !Less(Version(e), Version(f))
  }

  lemma LatestSnoc(start: Event, log: seq<Event>, f: Event, e: Event)
    requires Latest(start, log, e)
    requires SameObject(start, start)
    ensures SameObject(start, f) && Less(Version(e), Version(f)) ==> Latest(start, log + [f], f)
    ensures !(SameObject(start, f) && Less(Version(e), Version(f))) ==> Latest(start, log + [f], e)
  {
    LessTotal(Version(f), Version(f));
    if SameObject(start, f) && Less(Version(e), Version(f)) {
      LessTotal(Version(e), Version(f));
      LessTransitive(Version(start), Version(e), Version(f));
      forall g <- log | SameObject(start, g)
        ensures !Less(Version(f), Version(g))
      {
        LessTransitive(Version(g), Version(e), Version(f));
      }
    }
  }

  lemma LatestUnique(start: Event, log: seq<Event>, log': seq<Event>, e: Event, e': Event)
    requires Latest(start, log, e) && Latest(start, log', e')
    requires forall f :: f in log <==> f in log'
    requires VersionsIdentify(log)
    ensures e == e'
  {
    LessTotal(Version(e), Version(e'));
    LessTotal(Version(start), Version(e));
    LessTotal(Version(start), Version(e'));
  }

  /** A log of updates neither adds nor removes a service. */
  lemma {:induction false} HeldKeys(c: Cache, log: seq<Event>)
    requires forall e <- log :: UpdatesHeld(c, e)
    ensures ReplayFrom(c, log).Keys == c.Keys
  {
    if log != [] {
      var pre, f := log[..|log| - 1], log[|log| - 1];
      assert log == pre + [f];
      assert f in log && forall e <- pre :: e in log;
      HeldKeys(c, pre);
    }
  }

  /** A log of updates leaves each service at its latest version. */
  lemma {:induction false} HeldObjects(c: Cache, log: seq<Event>, n: string)
    requires WellKeyed(c) && n in c
    requires forall e <- log :: UpdatesHeld(c, e)
    ensures n in ReplayFrom(c, log)
    ensures Latest(UpdateService(c[n].obj), log, UpdateService(ReplayFrom(c, log)[n].obj))
  {
    if log == [] {
      LessTotal(c[n].obj.resourceVersion, c[n].obj.resourceVersion);
    } else {
      var pre, f := log[..|log| - 1], log[|log| - 1];
      assert log == pre + [f];
      assert f in log && forall e <- pre :: e in log;
      HeldObjects(c, pre, n);
      ReplayWellKeyed(c, pre);
      ObjectStep(ReplayFrom(c, pre), f, n);
      LatestSnoc(UpdateService(c[n].obj), pre, f, UpdateService(ReplayFrom(c, pre)[n].obj));
    }
  }

  /** Slice `s` of service `n` after the updates `log`: the latest of what was held and what came. */
  predicate SliceTold(start: map<string, EndpointSlice>, log: seq<Event>, n: string, s: string,
                      held: map<string, EndpointSlice>) {
    && (s in held <==> s in start || exists e <- log :: UpdatesSlice(e, n, s))
    && (s in start ==> s in held && Latest(UpdateSlice(start[s]), log, UpdateSlice(held[s])))
    && (s !in start && s in held ==>
          var e := UpdateSlice(held[s]); e in log && UpdatesSlice(e, n, s) && Latest(e, log, e))
  }

  lemma SliceToldSnoc(start: map<string, EndpointSlice>, log: seq<Event>, f: Event, n: string, s: string,
                      mid: map<string, EndpointSlice>, held: map<string, EndpointSlice>)
    requires s in start ==> UpdatesSlice(UpdateSlice(start[s]), n, s)
    requires SliceTold(start, log, n, s, mid)
    requires s in held <==> UpdatesSlice(f, n, s) || s in mid
    requires s in held ==>
               held[s] ==
               if UpdatesSlice(f, n, s) && (s in mid ==> Less(mid[s].resourceVersion, f.slice.resourceVersion))
               then f.slice else mid[s]
    ensures SliceTold(start, log + [f], n, s, held)
  {
    hide Less;
    LessTotal(Version(f), Version(f));
    if s in start {
      LatestSnoc(UpdateSlice(start[s]), log, f, UpdateSlice(mid[s]));
    } else if s in mid {
      var e := UpdateSlice(mid[s]);
      LatestSnoc(e, log, f, e);
      if Latest(e, log + [f], f) && UpdatesSlice(f, n, s) {
        assert Latest(f, log + [f], f);
      }
    }
  }

  lemma {:induction false} HeldSlices(c: Cache, log: seq<Event>, n: string, s: string)
    requires WellKeyed(c) && n in c
    requires forall e <- log :: UpdatesHeld(c, e)
    ensures n in ReplayFrom(c, log) && SliceTold(c[n].slices, log, n, s, ReplayFrom(c, log)[n].slices)
  {
    if log == [] {
      if s in c[n].slices {
        LessTotal(c[n].slices[s].resourceVersion, c[n].slices[s].resourceVersion);
      }
    } else {
      hide SliceTold;
      var pre, f := log[..|log| - 1], log[|log| - 1];
      assert log == pre + [f];
      assert f in log && forall e <- pre :: e in log;
      HeldSlices(c, pre, n, s);
      HeldKeys(c, log);
      ReplayWellKeyed(c, pre);
      SliceStep(ReplayFrom(c, pre), f, n, s);
      SliceToldSnoc(c[n].slices, pre, f, n, s, ReplayFrom(c, pre)[n].slices, ReplayFrom(c, log)[n].slices);
    }
  }

  ghost predicate SameEvents(log: seq<Event>, log': seq<Event>) {
    forall e :: e in log <==> e in log'
  }

  lemma HeldSlicesConverge(c: Cache, log: seq<Event>, log': seq<Event>, n: string, s: string)
    requires WellKeyed(c) && n in c
    requires forall e <- log :: UpdatesHeld(c, e)
    requires SameEvents(log, log') && VersionsIdentify(log)
    ensures n in ReplayFrom(c, log) && n in ReplayFrom(c, log')
    ensures s in ReplayFrom(c, log)[n].slices <==> s in ReplayFrom(c, log')[n].slices
    ensures s in ReplayFrom(c, log)[n].slices ==>
              ReplayFrom(c, log)[n].slices[s] == ReplayFrom(c, log')[n].slices[s]
  {
    HeldSlices(c, log, n, s);
    HeldSlices(c, log', n, s);
    if s in ReplayFrom(c, log)[n].slices {
      var e, e' := UpdateSlice(ReplayFrom(c, log)[n].slices[s]), UpdateSlice(ReplayFrom(c, log')[n].slices[s]);
      if s in c[n].slices {
        LatestUnique(UpdateSlice(c[n].slices[s]), log, log', e, e');
      } else {
        assert SameObject(e, e');
        LessTotal(Version(e), Version(e'));
      }
    }
  }

  /** Two delete-free logs with the same set of updates, in whatever order and however often repeated, bring a
      cache that already holds the services to the same value. */
  lemma UpdatesConverge(c: Cache, log: seq<Event>, log': seq<Event>)
    requires WellKeyed(c)
    requires forall e <- log :: UpdatesHeld(c, e)
    requires SameEvents(log, log') && VersionsIdentify(log)
    ensures ReplayFrom(c, log) == ReplayFrom(c, log')
  {
    hide Latest, ReplayFrom;
    var d, d' := ReplayFrom(c, log), ReplayFrom(c, log');
    forall n <- c
      ensures n in d && n in d' && d[n] == d'[n]
    {
      HeldObjects(c, log, n);
      HeldObjects(c, log', n);
      LatestUnique(UpdateService(c[n].obj), log, log', UpdateService(d[n].obj), UpdateService(d'[n].obj));
      forall s
        ensures s in d[n].slices <==> s in d'[n].slices
        ensures s in d[n].slices ==> d[n].slices[s] == d'[n].slices[s]
      {
        HeldSlicesConverge(c, log, log', n, s);
      }
      assert d[n].slices == d'[n].slices;
    }
    HeldKeys(c, log);
    HeldKeys(c, log');
    assert d == d';
  }

  /** The condition on the services is needed: a slice that overtakes its service is lost. */
  lemma SlicesBeforeServiceAreLost(svc: Service, slice: EndpointSlice)
    requires Labelled(slice) && Owner(slice) == svc.name
    ensures Replay([UpdateService(svc), UpdateSlice(slice)]) == map[svc.name := Entry(svc, map[slice.name := slice])]
    ensures Replay([UpdateSlice(slice), UpdateService(svc)]) == map[svc.name := Entry(svc, map[])]
  {
    ReplayPair(UpdateService(svc), UpdateSlice(slice));
    ReplayPair(UpdateSlice(slice), UpdateService(svc));
  }

  lemma ReplayPair(e: Event, f: Event)
    ensures Replay([e, f]) == Apply(Apply(map[], e).cache, f).cache
  {
    assert [] + [e] == [e] && [e] + [f] == [e, f];
    ReplaySnoc(map[], [], e);
    ReplaySnoc(map[], [e], f);
  }

  // ---------- versions as text ----------

  /** An update of a held service is accepted exactly when its numeric version is newer, if and only if the two
      numerals compare as text the way they compare as numbers. */
  lemma AcceptsNewerIff(c: Cache, svc: Service)
    requires svc.name in c
    requires IsCanonical(c[svc.name].obj.resourceVersion) && IsCanonical(svc.resourceVersion)
    ensures (Apply(c, UpdateService(svc)).reported <==>
               DecimalValue(c[svc.name].obj.resourceVersion) < DecimalValue(svc.resourceVersion)) <==>
            ComparableAsText(c[svc.name].obj.resourceVersion, svc.resourceVersion)
  {
    TextOrderAgreesIff(c[svc.name].obj.resourceVersion, svc.resourceVersion);
  }

  /** The same for a slice. */
  lemma AcceptsNewerSliceIff(c: Cache, slice: EndpointSlice)
    requires WellKeyed(c) && Labelled(slice) && Owner(slice) in c && slice.name in c[Owner(slice)].slices
    requires IsCanonical(c[Owner(slice)].slices[slice.name].resourceVersion) && IsCanonical(slice.resourceVersion)
    ensures (Apply(c, UpdateSlice(slice)).reported <==>
               DecimalValue(c[Owner(slice)].slices[slice.name].resourceVersion) <
               DecimalValue(slice.resourceVersion)) <==>
            ComparableAsText(c[Owner(slice)].slices[slice.name].resourceVersion, slice.resourceVersion)
  {
    TextOrderAgreesIff(c[Owner(slice)].slices[slice.name].resourceVersion, slice.resourceVersion);
  }

  /** Revision 10 of a service is refused while revision 9 is held. */
  lemma RevisionTenIsRefused(old9: Service, new10: Service)
    requires old9.name == new10.name
    requires old9.resourceVersion == "9" && new10.resourceVersion == "10"
    ensures Replay([UpdateService(old9), UpdateService(new10)]) == map[old9.name := Entry(old9, map[])]
    ensures !ComparableAsText("9", "10")
  {
    assert Less("10", "9") && !Less("9", "10");
    ReplayPair(UpdateService(old9), UpdateService(new10));
  }

  /** Between deletes the stored service only ever changes to an update of greater version. */
  lemma {:induction false} StoredVersionGrows(c: Cache, log: seq<Event>, n: string)
    requires WellKeyed(c) && n in c && forall e <- log :: !DeletesService(e, n)
    ensures n in ReplayFrom(c, log)
    ensures ReplayFrom(c, log)[n].obj == c[n].obj ||
            (Less(c[n].obj.resourceVersion, ReplayFrom(c, log)[n].obj.resourceVersion) &&
             UpdateService(ReplayFrom(c, log)[n].obj) in log && ReplayFrom(c, log)[n].obj.name == n)
  {
    if log != [] {
      var pre, e := log[..|log| - 1], log[|log| - 1];
      assert log == pre + [e];
      StoredVersionGrows(c, pre, n);
      ReplayWellKeyed(c, pre);
      ObjectStep(ReplayFrom(c, pre), e, n);
      hide Less, WellKeyed, Apply;
      var u, v := c[n].obj.resourceVersion, ReplayFrom(c, pre)[n].obj.resourceVersion;
      LessTotal(u, v);
      if UpdatesService(e, n) && Less(v, e.svc.resourceVersion) {
        LessTotal(v, e.svc.resourceVersion);
        LessTransitive(u, v, e.svc.resourceVersion);
      }
    }
  }

  /** With numerals of one length that is growth in number. */
  lemma NumericVersionsGrow(c: Cache, log: seq<Event>, n: string)
    requires WellKeyed(c) && n in c && forall e <- log :: !DeletesService(e, n)
    requires IsDecimal(c[n].obj.resourceVersion)
    requires forall e <- log | UpdatesService(e, n) ::
               IsDecimal(e.svc.resourceVersion) && |e.svc.resourceVersion| == |c[n].obj.resourceVersion|
    ensures n in ReplayFrom(c, log) && IsDecimal(ReplayFrom(c, log)[n].obj.resourceVersion)
    ensures ReplayFrom(c, log)[n].obj != c[n].obj ==>
              DecimalValue(c[n].obj.resourceVersion) < DecimalValue(ReplayFrom(c, log)[n].obj.resourceVersion)
  {
    hide ReplayFrom, WellKeyed, Less, IsDecimal, DecimalValue;
    StoredVersionGrows(c, log, n);
    var svc := ReplayFrom(c, log)[n].obj;
    if svc != c[n].obj {
      assert UpdatesService(UpdateService(svc), n);
      EqualLengthOrder(c[n].obj.resourceVersion, svc.resourceVersion);
    }
  }

  // ---------- names without namespaces ----------

  /** Two services of one name in different namespaces share a container: the newer one replaces the other. */
  lemma NamespacesShareAContainer(a: Service, b: Service)
    requires a.name == b.name && a.namespace != b.namespace && Less(a.resourceVersion, b.resourceVersion)
    ensures Replay([UpdateService(a), UpdateService(b)]) == map[a.name := Entry(b, map[])]
    ensures Replay([UpdateService(a), UpdateService(b), DeleteService(a)]) == map[]
  {
    ReplayPair(UpdateService(a), UpdateService(b));
    assert [UpdateService(a), UpdateService(b)] + [DeleteService(a)] ==
        [UpdateService(a), UpdateService(b), DeleteService(a)];
    ReplaySnoc(map[], [UpdateService(a), UpdateService(b)], DeleteService(a));
  }
}
