/** The API server's own objects beside the cache: exactly when the cache is what they say. */
module ApiServer {
  import opened Kube
  import opened GoText
  import opened CacheSpec
  import opened Meaning
  import opened Namespaced

  /** The live objects, each under its namespace and name. */
  datatype Objects = Objects(services: map<Key, Service>, slices: map<Key, EndpointSlice>)

  function SliceKey(slice: EndpointSlice): Key { Key(slice.namespace, slice.name) }

  function Observe(o: Objects, e: Event): Objects {
    match e
    case UpdateService(svc) => o.(services := o.services[KeyOf(svc) := svc])
    case DeleteService(svc) => o.(services := o.services - {KeyOf(svc)})
    case UpdateSlice(slice) => o.(slices := o.slices[SliceKey(slice) := slice])
    case DeleteSlice(slice) => o.(slices := o.slices - {SliceKey(slice)})
    case NilService => o
    case NilSlice => o
  }

  /** The live objects after the informers have sent `log`. */
  function Observed(log: seq<Event>): Objects {
    if log == [] then Objects(map[], map[]) else Observe(Observed(log[..|log| - 1]), log[|log| - 1])
  }

  predicate OwnedBy(slice: EndpointSlice, k: Key) {
    LabelledFor(slice, k.name) && slice.namespace == k.namespace
  }

  /** The live slices of service `k`, by name. */
  function SlicesOwnedBy(o: Objects, k: Key): map<string, EndpointSlice> {
    map j <- o.slices | j.namespace == k.namespace && OwnedBy(o.slices[j], k) :: j.name := o.slices[j]
  }

  /** What the cache should hold: every live service with its live slices. */
  function Intended(o: Objects): NCache {
    map k <- o.services :: Entry(o.services[k], SlicesOwnedBy(o, k))
  }

  /** The service event is in order: a known service gets a greater version, a new one has no slices yet. */
  predicate ServiceInOrder(o: Objects, svc: Service) {
    if KeyOf(svc) in o.services then
      svc == o.services[KeyOf(svc)] || Less(o.services[KeyOf(svc)].resourceVersion, svc.resourceVersion)
    else
      forall j <- o.slices :: !OwnedBy(o.slices[j], KeyOf(svc))
  }

  /** The slice under the key is held for a live service. */
  predicate HeldLive(o: Objects, j: Key) {
    j in o.slices && Labelled(o.slices[j]) && OwnerKey(o.slices[j]) in o.services
  }

  /** A slice held for a live service is not taken away from it by the event. */
  predicate KeepsOwner(o: Objects, slice: EndpointSlice) {
    HeldLive(o, SliceKey(slice)) ==> OwnedBy(slice, OwnerKey(o.slices[SliceKey(slice)]))
  }

  /** A slice held for a live service gets a greater version. */
  predicate SliceInOrder(o: Objects, slice: EndpointSlice) {
    HeldLive(o, SliceKey(slice)) ==>
      var held := o.slices[SliceKey(slice)];
      slice == held || Less(held.resourceVersion, slice.resourceVersion)
  }

  /** What the informers must respect for a cache keyed by namespace and name to follow the API server. */
  predicate VersionsInOrder(o: Objects, e: Event) {
    match e
    case UpdateService(svc) => ServiceInOrder(o, svc)
    case UpdateSlice(slice) => KeepsOwner(o, slice) && SliceInOrder(o, slice)
    case DeleteSlice(slice) => KeepsOwner(o, slice)
    case _ => true
  }

  /** What they must respect for the bare-name cache: also, no clash with a live service of another namespace. */
  predicate InOrder(o: Objects, e: Event) {
    VersionsInOrder(o, e) && NoClash(Intended(o), e)
  }

  ghost predicate NamesMatch(o: Objects) {
    (forall k <- o.services :: KeyOf(o.services[k]) == k) && (forall j <- o.slices :: SliceKey(o.slices[j]) == j)
  }

  lemma {:induction false} ObservedNames(log: seq<Event>)
    ensures NamesMatch(Observed(log))
  {
    if log != [] {
      ObservedNames(log[..|log| - 1]);
    }
  }

  // ---------- services ----------

  lemma IntendedEntry(o: Objects, k: Key)
    ensures k in Intended(o) <==> k in o.services
    ensures k in o.services ==> Intended(o)[k] == Entry(o.services[k], SlicesOwnedBy(o, k))
  {
  }

  /** What a service update makes of the entry, beside what it should. */
  lemma EntryFollowsIff(o: Objects, svc: Service)
    requires NamesMatch(o)
    ensures var k := KeyOf(svc);
            var c := NApplyService(Intended(o), svc);
            k in c && (c[k] == Entry(svc, SlicesOwnedBy(o, k)) <==> ServiceInOrder(o, svc))
  {
    var k := KeyOf(svc);
    IntendedEntry(o, k);
    hide Intended, Less;
    if j :| j in o.slices && OwnedBy(o.slices[j], k) {
      assert j.name in SlicesOwnedBy(o, k);
    }
  }

  lemma OthersUntouched(o: Objects, svc: Service, k: Key)
    requires k != KeyOf(svc)
    ensures k in NApplyService(Intended(o), svc) <==> k in Intended(o)
    ensures k in Intended(o) ==> NApplyService(Intended(o), svc)[k] == Intended(o)[k]
  {
  }

  lemma SameSlices(o: Objects, svc: Service)
    ensures forall k :: SlicesOwnedBy(Observe(o, UpdateService(svc)), k) == SlicesOwnedBy(o, k)
  {
  }

  lemma ServiceFollowsIff(o: Objects, svc: Service)
    requires NamesMatch(o)
    ensures NApplyService(Intended(o), svc) == Intended(Observe(o, UpdateService(svc))) <==> ServiceInOrder(o, svc)
  {
    var n, p := KeyOf(svc), Observe(o, UpdateService(svc));
    EntryFollowsIff(o, svc);
    SameSlices(o, svc);
    assert p.services == o.services[n := svc];
    IntendedEntry(p, n);
    hide NApplyService, ServiceInOrder, SlicesOwnedBy, Observe, Intended, NamesMatch;
    var c, d := NApplyService(Intended(o), svc), Intended(p);
    forall k | k != n
      ensures k in c <==> k in d
      ensures k in d ==> c[k] == d[k]
    {
      OthersUntouched(o, svc, k);
      IntendedEntry(o, k);
      IntendedEntry(p, k);
    }
    EqualButAt(c, d, n);
  }

  lemma EqualButAt(c: NCache, d: NCache, n: Key)
    requires n in c && n in d && forall k | k != n :: (k in c <==> k in d) && (k in d ==> c[k] == d[k])
    ensures c == d <==> c[n] == d[n]
  {
  }

  lemma RemovalFollows(o: Objects, svc: Service)
    ensures Intended(o) - {KeyOf(svc)} == Intended(Observe(o, DeleteService(svc)))
  {
    var c, d := Intended(o) - {KeyOf(svc)}, Intended(Observe(o, DeleteService(svc)));
    assert c.Keys == d.Keys;
    assert forall k <- d :: c[k] == d[k];
  }

  // ---------- slices ----------

  /** What a slice event makes of the slices held for one live service. */
  function HeldAfter(o: Objects, k: Key, slice: EndpointSlice, delete: bool): map<string, EndpointSlice> {
    var held := SlicesOwnedBy(o, k);
    if !OwnedBy(slice, k) then held
    else if delete then held - {slice.name}
    else if slice.name in held && !Less(held[slice.name].resourceVersion, slice.resourceVersion) then held
    else held[slice.name := slice]
  }

  lemma CacheAfterSlice(o: Objects, slice: EndpointSlice, delete: bool)
    requires NamesMatch(o)
    ensures NApplySlice(Intended(o), slice, delete) ==
              map k <- o.services :: Entry(o.services[k], HeldAfter(o, k, slice, delete))
  {
    hide SlicesOwnedBy, Less;
    var c, d := NApplySlice(Intended(o), slice, delete),
                map k <- o.services :: Entry(o.services[k], HeldAfter(o, k, slice, delete));
    assert c.Keys == d.Keys;
    forall k <- d ensures c[k] == d[k] {
      if OwnedBy(slice, k) && delete && slice.name !in SlicesOwnedBy(o, k) {
        assert SlicesOwnedBy(o, k) - {slice.name} == SlicesOwnedBy(o, k);
      }
    }
  }

  function SliceEvent(slice: EndpointSlice, delete: bool): Event {
    if delete then DeleteSlice(slice) else UpdateSlice(slice)
  }

  lemma OwnedSlice(o: Objects, k: Key, s: string)
    ensures s in SlicesOwnedBy(o, k) <==>
              Key(k.namespace, s) in o.slices && OwnedBy(o.slices[Key(k.namespace, s)], k)
    ensures s in SlicesOwnedBy(o, k) ==> SlicesOwnedBy(o, k)[s] == o.slices[Key(k.namespace, s)]
  {
    if Key(k.namespace, s) in o.slices && OwnedBy(o.slices[Key(k.namespace, s)], k) {
      assert Key(k.namespace, s).name in SlicesOwnedBy(o, k);
    }
  }

  /** What the service should hold after the event. */
  lemma OwnedAfter(o: Objects, k: Key, slice: EndpointSlice, delete: bool)
    requires NamesMatch(o)
    ensures SlicesOwnedBy(Observe(o, SliceEvent(slice, delete)), k) ==
              if !delete && OwnedBy(slice, k) then SlicesOwnedBy(o, k)[slice.name := slice]
              else if slice.namespace == k.namespace then SlicesOwnedBy(o, k) - {slice.name}
              else SlicesOwnedBy(o, k)
  {
    hide SlicesOwnedBy, OwnedBy;
    var now := SlicesOwnedBy(Observe(o, SliceEvent(slice, delete)), k);
    var should := if !delete && OwnedBy(slice, k) then SlicesOwnedBy(o, k)[slice.name := slice]
                else if slice.namespace == k.namespace then SlicesOwnedBy(o, k) - {slice.name}
                else SlicesOwnedBy(o, k);
    assert OwnedBy(slice, k) ==> slice.namespace == k.namespace by { OwnersShareNamespace(slice, k); }
    forall s: string
      ensures s in now <==> s in should
      ensures s in now && s in should ==> now[s] == should[s]
    {
      OwnedSlice(o, k, s);
      OwnedSlice(Observe(o, SliceEvent(slice, delete)), k, s);
    }
    assert now == should;
  }

  lemma OwnersShareNamespace(slice: EndpointSlice, k: Key)
    ensures OwnedBy(slice, k) ==> slice.namespace == k.namespace
  {
  }

  /** Service `k` keeps up with a slice event: a slice it holds neither goes elsewhere nor comes back no newer. */
  predicate KeepsUp(o: Objects, k: Key, slice: EndpointSlice, delete: bool) {
    var held := SlicesOwnedBy(o, k);
    slice.namespace == k.namespace && slice.name in held ==>
      OwnedBy(slice, k) &&
      (delete || slice == held[slice.name] || Less(held[slice.name].resourceVersion, slice.resourceVersion))
  }

  lemma HeldIsOwnedIff(o: Objects, k: Key, slice: EndpointSlice, delete: bool)
    requires NamesMatch(o)
    ensures HeldAfter(o, k, slice, delete) == SlicesOwnedBy(Observe(o, SliceEvent(slice, delete)), k) <==>
              KeepsUp(o, k, slice, delete)
  {
    OwnedAfter(o, k, slice, delete);
    OwnersShareNamespace(slice, k);
    hide SlicesOwnedBy, Observe, Less, OwnedBy;
    MapChanges(SlicesOwnedBy(o, k), slice.name, slice);
  }

  lemma MapChanges(held: map<string, EndpointSlice>, s: string, slice: EndpointSlice)
    ensures held - {s} == held <==> s !in held
    ensures held[s := slice] == held <==> s in held && held[s] == slice
    ensures held[s := slice] != held - {s}
  {
    assert s in held[s := slice] && s !in held - {s};
    if s !in held {
      assert held - {s} == held;
    } else if held[s] == slice {
      assert held[s := slice] == held;
    }
  }

  lemma KeepsUpIff(o: Objects, slice: EndpointSlice, delete: bool)
    requires NamesMatch(o)
    ensures (forall k <- o.services :: KeepsUp(o, k, slice, delete)) <==>
              KeepsOwner(o, slice) && (delete || SliceInOrder(o, slice))
  {
    hide Less;
    var j := SliceKey(slice);
    forall k <- o.services
      ensures slice.namespace == k.namespace && slice.name in SlicesOwnedBy(o, k) <==>
                HeldLive(o, j) && k == OwnerKey(o.slices[j])
      ensures slice.namespace == k.namespace && slice.name in SlicesOwnedBy(o, k) ==>
                SlicesOwnedBy(o, k)[slice.name] == o.slices[j]
    {
      assert slice.namespace == k.namespace ==> j == Key(k.namespace, slice.name);
    }
    if HeldLive(o, j) {
      assert OwnerKey(o.slices[j]) in o.services;
    }
  }

  lemma SliceFollowsIff(o: Objects, slice: EndpointSlice, delete: bool)
    requires NamesMatch(o)
    ensures NApplySlice(Intended(o), slice, delete) == Intended(Observe(o, SliceEvent(slice, delete))) <==>
              VersionsInOrder(o, SliceEvent(slice, delete))
  {
    hide SlicesOwnedBy, KeepsUp, HeldAfter, KeepsOwner, SliceInOrder;
    var e := SliceEvent(slice, delete);
    CacheAfterSlice(o, slice, delete);
    KeepsUpIff(o, slice, delete);
    var c, d := NApplySlice(Intended(o), slice, delete), Intended(Observe(o, e));
    assert c.Keys == d.Keys == o.services.Keys;
    forall k <- o.services ensures c[k] == d[k] <==> KeepsUp(o, k, slice, delete) {
      HeldIsOwnedIff(o, k, slice, delete);
    }
    if forall k <- o.services :: KeepsUp(o, k, slice, delete) {
      assert forall k <- d :: c[k] == d[k];
    }
  }

  // ---------- one event ----------

  /** A cache keyed by namespace and name follows the API server exactly when the versions come in order. */
  lemma NamespacedFollowsIff(o: Objects, e: Event)
    requires NamesMatch(o)
    ensures NApply(Intended(o), e) == Intended(Observe(o, e)) <==> VersionsInOrder(o, e)
  {
    hide Intended, ServiceInOrder, KeepsOwner, SliceInOrder, NApplyService, NApplySlice;
    match e
    case UpdateService(svc) => ServiceFollowsIff(o, svc);
    case DeleteService(svc) => RemovalFollows(o, svc);
    case UpdateSlice(slice) => SliceFollowsIff(o, slice, false);
    case DeleteSlice(slice) => SliceFollowsIff(o, slice, true);
    case _ =>
  }

  /** A cache mirrors one keyed cache only. */
  lemma MirrorsOne(c: Cache, nc: NCache, nd: NCache)
    requires Mirrors(c, nc) && Mirrors(c, nd)
    ensures nc == nd
  {
    forall k
      ensures k in nc <==> k in nd
      ensures k in nc && k in nd ==> nc[k] == nd[k]
    {
      if k in nc || k in nd {
        assert Mirrored(c, nc, k.name) && Mirrored(c, nd, k.name);
      }
    }
  }

  lemma ServiceClashBreaks(c: Cache, o: Objects, e: Event)
    requires Mirrors(c, Intended(o)) && (e.UpdateService? || e.DeleteService?) && !NoClash(Intended(o), e)
    ensures !Mirrors(Apply(c, e).cache, Intended(Observe(o, e)))
  {
    hide Less;
    var nc, nd, d := Intended(o), Intended(Observe(o, e)), Apply(c, e).cache;
    var k :| k in nc && k.name == e.svc.name && k.namespace != e.svc.namespace;
    assert k in nd;
    assert e.UpdateService? ==> KeyOf(e.svc) in nd;
  }

  lemma SliceEventKeepsServices(o: Objects, slice: EndpointSlice, delete: bool)
    ensures Observe(o, SliceEvent(slice, delete)).services == o.services
  {
  }

  lemma SliceClashBreaks(c: Cache, o: Objects, slice: EndpointSlice, delete: bool)
    requires Mirrors(c, Intended(o)) && WellKeyed(c) && NamesMatch(o)
    requires !SliceStaysOut(Intended(o), slice, delete)
    ensures !Mirrors(ApplySlice(c, slice, delete).cache, Intended(Observe(o, SliceEvent(slice, delete))))
  {
    var e, n := SliceEvent(slice, delete), Owner(slice);
    var k :| k in Intended(o) && k.name == n && k.namespace != slice.namespace && !Idles(Intended(o)[k], slice, delete);
    assert OwnedBy(slice, k) ==> false;
    OwnedAfter(o, k, slice, delete);
    SliceEventKeepsServices(o, slice, delete);
    IntendedEntry(o, k);
    IntendedEntry(Observe(o, e), k);
    hide Intended, Observe, SlicesOwnedBy, OwnedBy, Less, Idles, SliceOperation;
    var nd, d := Intended(Observe(o, e)), ApplySlice(c, slice, delete).cache;
    assert Mirrored(c, Intended(o), n);
    OperationIdlesIff(c[n], slice, delete);
    assert nd[k] == c[n] && d[n] != c[n] && d[n].obj == c[n].obj;
    assert !Mirrored(d, nd, n);
  }

  /** One event keeps the cache equal to what the API server asks for exactly when it is in order. */
  lemma FollowsIff(c: Cache, o: Objects, e: Event)
    requires NamesMatch(o) && WellKeyed(c) && Mirrors(c, Intended(o))
    ensures Mirrors(Apply(c, e).cache, Intended(Observe(o, e))) <==> InOrder(o, e)
  {
    hide Intended, Observe, VersionsInOrder, Apply, NApply, Mirrors, WellKeyed;
    MirrorsIff(c, Intended(o), e);
    NamespacedFollowsIff(o, e);
    if NoClash(Intended(o), e) {
      if Mirrors(Apply(c, e).cache, Intended(Observe(o, e))) {
        MirrorsOne(Apply(c, e).cache, NApply(Intended(o), e), Intended(Observe(o, e)));
      }
    } else {
      ClashBreaks(c, o, e);
    }
  }

  lemma ClashBreaks(c: Cache, o: Objects, e: Event)
    requires NamesMatch(o) && WellKeyed(c) && Mirrors(c, Intended(o)) && !NoClash(Intended(o), e)
    ensures !Mirrors(Apply(c, e).cache, Intended(Observe(o, e)))
  {
    hide Intended, Observe, ApplySlice, ApplyService, RemoveService, Mirrors, WellKeyed, NameFree, SliceStaysOut;
    match e
    case UpdateSlice(slice) => SliceClashBreaks(c, o, slice, false);
    case DeleteSlice(slice) => SliceClashBreaks(c, o, slice, true);
    case _ => ServiceClashBreaks(c, o, e);
  }

  // ---------- whole histories ----------

  /** The cache is what the live objects ask for. */
  predicate Follows(log: seq<Event>) { Mirrors(Replay(log), Intended(Observed(log))) }

  predicate FollowsAt(log: seq<Event>, i: nat)
    requires i <= |log|
  {
    Follows(log[..i])
  }

  predicate InOrderAt(log: seq<Event>, i: nat)
    requires i < |log|
  {
    InOrder(Observed(log[..i]), log[i])
  }

  lemma NextFollowsIff(log: seq<Event>, i: nat)
    requires i < |log| && FollowsAt(log, i)
    ensures FollowsAt(log, i + 1) <==> InOrderAt(log, i)
  {
    hide InOrder, Apply, Observe, Intended, Mirrors, WellKeyed;
    assert log[..i + 1][..i] == log[..i];
    ObservedNames(log[..i]);
    ReplayWellKeyed(map[], log[..i]);
    FollowsIff(Replay(log[..i]), Observed(log[..i]), log[i]);
  }

  lemma StartFollows(log: seq<Event>)
    ensures FollowsAt(log, 0)
  {
  }

  /** The cache is what the API server's objects ask for at every moment of a history exactly when every event of it
      comes in order: without a stale version, a slice before its service, or a clash of namespaces. */
  lemma {:induction false} AlwaysFollowsIff(log: seq<Event>)
    ensures (forall i :: 0 <= i <= |log| ==> FollowsAt(log, i)) <==> (forall i :: 0 <= i < |log| ==> InOrderAt(log, i))
  {
    hide FollowsAt, InOrderAt;
    StartFollows(log);
    if forall i :: 0 <= i <= |log| ==> FollowsAt(log, i) {
      forall i | 0 <= i < |log| ensures InOrderAt(log, i) {
        NextFollowsIff(log, i);
      }
    }
    if forall i :: 0 <= i < |log| ==> InOrderAt(log, i) {
      for i := 0 to |log|
        invariant forall j :: 0 <= j <= i ==> FollowsAt(log, j)
      {
        NextFollowsIff(log, i);
      }
    }
  }
}
