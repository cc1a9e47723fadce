/** The cache as it lives on the heap: containers updated in place under the cache's lock, and deep copies of them. */
module StateCache {
  import opened Kube
  import opened CacheSpec
  import GoText

  /** A Kubernetes object behind a pointer. Informers share these with the cache, and nobody writes into one. */
  class ServiceObject {
    const value: Service

    constructor (value: Service)
      ensures this.value == value
    {
      this.value := value;
    }

    method DeepCopy() returns (copy: ServiceObject)
      ensures fresh(copy) && copy.value == value
    {
      copy := new ServiceObject(value);
    }
  }

  class SliceObject {
    const value: EndpointSlice

    constructor (value: EndpointSlice)
      ensures this.value == value
    {
      this.value := value;
    }

    method DeepCopy() returns (copy: SliceObject)
      ensures fresh(copy) && copy.value == value
    {
      copy := new SliceObject(value);
    }
  }

  /** Options shared between a container and its copies; the type has no fields. */
  class ServiceOpts {
    constructor ()
    {
    }
  }

  /** A service of a snapshot: pointers to the object and its slices. */
  datatype SnapshotRef = SnapshotRef(obj: ServiceObject, endpointSlices: seq<SliceObject>)

  ghost function ReadSlices(slices: seq<SliceObject>): (values: seq<EndpointSlice>)
    ensures |values| == |slices| && forall i :: 0 <= i < |slices| ==> values[i] == slices[i].value
  {
    seq(|slices|, i requires 0 <= i < |slices| => slices[i].value)
  }

  ghost function ReadService(s: SnapshotRef): SnapshotService {
    SnapshotService(s.obj.value, ReadSlices(s.endpointSlices))
  }

  ghost function RefObjects(s: SnapshotRef): set<object> {
    {s.obj} + set x <- s.endpointSlices :: x as object
  }

  /** The value a snapshot shows. */
  ghost function ReadSnapshot(snap: seq<SnapshotRef>): (values: seq<SnapshotService>)
    ensures |values| == |snap| && forall i :: 0 <= i < |snap| ==> values[i] == ReadService(snap[i])
  {
    seq(|snap|, i requires 0 <= i < |snap| => ReadService(snap[i]))
  }

  lemma ReadSnapshotSnoc(snap: seq<SnapshotRef>, s: SnapshotRef)
    ensures ReadSnapshot(snap + [s]) == ReadSnapshot(snap) + [ReadService(s)]
  {
  }

  ghost function SliceValues(slices: map<string, SliceObject>): (values: map<string, EndpointSlice>)
    ensures values.Keys == slices.Keys
  {
    map k <- slices :: slices[k].value
  }

  class ServiceContainer {
    var obj: ServiceObject
    var opts: ServiceOpts
    var endpointSlices: map<string, SliceObject>

    ghost function Value(): Entry
      reads this
    {
      Entry(obj.value, SliceValues(endpointSlices))
    }

    /** The Kubernetes objects this container points to. */
    ghost function Objects(): set<object>
      reads this
    {
      {obj} + set s <- endpointSlices.Values :: s as object
    }

    constructor (svc: ServiceObject)
      ensures obj == svc && endpointSlices == map[]
      ensures Value() == Entry(svc.value, map[])
    {
      obj := svc;
      opts := new ServiceOpts();
      endpointSlices := map[];
    }

    method Update(svc: ServiceObject?) returns (failed: bool)
      modifies this
      ensures failed <==> svc == null
      ensures Value() == if svc == null then old(Value()) else old(Value()).(obj := svc.value)
      ensures Objects() <= old(Objects()) + (if svc == null then {} else {svc as object})
    {
      if svc == null {
        return true;
      }
      obj := svc;
      failed := false;
      assert Value().slices == old(Value()).slices;
    }

    method UpdatEndpointslices(slice: SliceObject?, delete: bool) returns (status: Status)
      modifies this
      ensures slice == null ==> Value() == old(Value()) && status == Failed
      ensures slice != null ==> (Value(), status) == SliceOperation(old(Value()), slice.value, delete)
    {
      if slice == null {
        return Failed;
      }
      if SERVICE_NAME_LABEL !in slice.value.labels || slice.value.labels[SERVICE_NAME_LABEL] != obj.value.name {
        return InvalidServiceLabel;
      }
      if delete {
        status := DeleteEndpointSlice(slice);
      } else {
        status := UpdateEndpointSlice(slice);
      }
    }

    method UpdateEndpointSlice(slice: SliceObject) returns (status: Status)
      modifies this
      ensures (Value(), status) == UpdateSliceIn(old(Value()), slice.value)
    {
      var name := slice.value.name;
      if name in endpointSlices &&
          !GoText.Less(endpointSlices[name].value.resourceVersion, slice.value.resourceVersion) {
        return Noop;
      }
      endpointSlices := endpointSlices[name := slice];
      status := Updated;
      assert SliceValues(endpointSlices) == old(Value()).slices[name := slice.value];
    }

    method DeleteEndpointSlice(slice: SliceObject) returns (status: Status)
      modifies this
      ensures (Value(), status) == DeleteSliceIn(old(Value()), slice.value)
    {
      if slice.value.name in endpointSlices {
        endpointSlices := endpointSlices - {slice.value.name};
        assert SliceValues(endpointSlices) == old(Value()).slices - {slice.value.name};
        return Deleted;
      }
      status := Noop;
    }

    /** A container of its own, with objects of its own; only the stateless options are shared. */
    method DeepCopy() returns (copy: ServiceContainer)
      ensures fresh(copy) && fresh(copy.Objects())
      ensures copy.Value() == Value()
      ensures copy.opts == opts
    {
      var objCopy := obj.DeepCopy();
      copy := new ServiceContainer(objCopy);
      copy.opts := opts;
      var todo := endpointSlices.Keys;
      while todo != {}
        invariant fresh(copy) && copy.obj == objCopy && copy.opts == opts
        invariant todo <= endpointSlices.Keys
        invariant copy.endpointSlices.Keys == endpointSlices.Keys - todo
        invariant forall k <- copy.endpointSlices ::
                    fresh(copy.endpointSlices[k]) && copy.endpointSlices[k].value == endpointSlices[k].value
        decreases todo
      {
        var k :| k in todo;
        var sliceCopy := endpointSlices[k].DeepCopy();
        copy.endpointSlices := copy.endpointSlices[k := sliceCopy];
        todo := todo - {k};
      }
      assert SliceValues(copy.endpointSlices) == SliceValues(endpointSlices);
    }

    /** The object and its slices, each once, in some order. */
    method Snapshot(ghost name: string) returns (snap: SnapshotRef)
      requires KeyedAs(Value(), name)
      ensures ShowsEntry(ReadService(snap), Value())
      ensures RefObjects(snap) <= Objects()
    {
      var slices: seq<SliceObject> := [];
      var todo := endpointSlices.Keys;
      while todo != {}
        invariant todo <= endpointSlices.Keys
        invariant |slices| + |todo| == |endpointSlices|
        invariant forall s <- slices :: s.value.name in endpointSlices.Keys - todo && s == endpointSlices[s.value.name]
        invariant forall i, j :: 0 <= i < j < |slices| ==> slices[i].value.name != slices[j].value.name
        invariant forall s <- slices :: s in endpointSlices.Values
        decreases todo
      {
        var k :| k in todo;
        slices := slices + [endpointSlices[k]];
        todo := todo - {k};
      }
      snap := SnapshotRef(obj, slices);
    }
  }

  /** What the two event entry points are called with. */
  ghost function ServiceEvent(service: ServiceObject?, delete: bool): Event
  {
    if service == null then NilService
    else if delete then DeleteService(service.value)
    else UpdateService(service.value)
  }

  ghost function SliceEvent(slice: SliceObject?, delete: bool): Event
  {
    if slice == null then NilSlice
    else if delete then DeleteSlice(slice.value)
    else UpdateSlice(slice.value)
  }

  ghost function ContainerValues(services: map<string, ServiceContainer>): (c: Cache)
    reads services.Values
    ensures c.Keys == services.Keys
  {
    map k <- services :: services[k].Value()
  }

  lemma EqualContainers(a: map<string, ServiceContainer>, b: map<string, ServiceContainer>)
    requires a.Keys == b.Keys && forall k <- a :: a[k].Value() == b[k].Value()
    ensures ContainerValues(a) == ContainerValues(b)
  {
  }

  class ClusterServiceStateCache {
    var services: map<string, ServiceContainer>

    /** No two names share a container. */
    ghost predicate Valid()
      reads this
    {
      forall k <- services, l <- services :: services[k] == services[l] ==> k == l
    }

    ghost function Value(): (c: Cache)
      reads this, services.Values
      ensures c.Keys == services.Keys
    {
      ContainerValues(services)
    }

    constructor ()
      ensures Valid() && Value() == map[]
    {
      services := map[];
    }

    /** How the cache's value follows from one container's when no other container was touched. */
    twostate lemma OneContainerChanged(name: string)
      requires old(Valid()) && name in services && services.Keys == old(services.Keys) + {name}
      requires forall k <- services | k != name ::
                 services[k] == old(services[k]) && services[k].Value() == old(services[k].Value())
      ensures Value() == old(Value())[name := services[name].Value()]
    {
    }

    method UpdateServices(service: ServiceObject?, delete: bool) returns (changed: bool)
      requires Valid()
      modifies this, services.Values
      ensures Valid() && fresh(services.Values - old(services.Values))
      ensures Outcome(Value(), changed) == Apply(old(Value()), ServiceEvent(service, delete))
    {
      if service == null {
        return false;
      }
      if delete {
        changed := DeleteService(service);
      } else {
        changed := UpdateService(service);
      }
    }

    method UpdateService(svc: ServiceObject) returns (changed: bool)
      requires Valid()
      modifies this, services.Values
      ensures Valid() && fresh(services.Values - old(services.Values))
      ensures Outcome(Value(), changed) == ApplyService(old(Value()), svc.value)
    {
      hide GoText.Less;
      var name := svc.value.name;
      if name in services && !GoText.Less(services[name].obj.value.resourceVersion, svc.value.resourceVersion) {
        return false;
      }
      if name in services {
        var failed := services[name].Update(svc);
      } else {
        var container := new ServiceContainer(svc);
        services := services[name := container];
      }
      OneContainerChanged(name);
      changed := true;
    }

    method DeleteService(svc: ServiceObject) returns (changed: bool)
      requires Valid()
      modifies this
      ensures Valid() && services.Values <= old(services.Values)
      ensures Outcome(Value(), changed) == RemoveService(old(Value()), svc.value)
    {
      if svc.value.name in services {
        services := services - {svc.value.name};
        assert Value() == old(Value()) - {svc.value.name};
        return true;
      }
      changed := false;
    }

    method UpdatEndpointSlice(slice: SliceObject?, delete: bool) returns (changed: bool)
      requires Valid()
      modifies services.Values
      ensures Valid()
      ensures Outcome(Value(), changed) == Apply(old(Value()), SliceEvent(slice, delete))
    {
      if slice == null {
        return false;
      }
      if SERVICE_NAME_LABEL !in slice.value.labels {
        return false;
      }
      var name := slice.value.labels[SERVICE_NAME_LABEL];
      if name in services {
        var status := services[name].UpdatEndpointslices(slice, delete);
        OneContainerChanged(name);
        if status == Noop {
          assert Value() == old(Value());
          return false;
        }
      }
      changed := true;
    }

    method DeepCopy() returns (copy: ClusterServiceStateCache)
      ensures fresh(copy) && fresh(copy.services.Values)
      ensures forall k <- copy.services :: fresh(copy.services[k].Objects())
      ensures copy.Valid() && copy.Value() == Value()
    {
      copy := new ClusterServiceStateCache();
      var copies := CopyContainers(services);
      copy.services := copies;
      EqualContainers(copies, services);
      hide ContainerValues;
    }

    /** A snapshot shares nothing with the cache and shows the cache's value. */
    method Snapshot() returns (snap: seq<SnapshotRef>)
      requires WellKeyed(Value())
      ensures forall s <- snap :: fresh(RefObjects(s))
      ensures SnapshotOf(ReadSnapshot(snap), old(Value()))
    {
      hide SnapshotOfNames, SnapshotOf, ReadSnapshot, RefObjects, ShowsEntry, KeyedAs, ServiceContainer.Value;
      ghost var value := Value();
      var c := DeepCopy();
      assert forall k <- c.services :: c.Value()[k] == c.services[k].Value();
      ghost var objects := set k <- c.services, o <- c.services[k].Objects() :: o;
      snap := SnapshotContainers(c.services, value, objects);
    }
  }

  /** The loop of `DeepCopy` over the containers. */
  method CopyContainers(services: map<string, ServiceContainer>) returns (copies: map<string, ServiceContainer>)
    ensures copies.Keys == services.Keys
    ensures forall k <- copies :: fresh(copies[k]) && fresh(copies[k].Objects())
    ensures forall k <- copies :: copies[k].Value() == services[k].Value()
    ensures forall k <- copies, l <- copies :: copies[k] == copies[l] ==> k == l
  {
    hide *;
    copies := map[];
    var todo := services.Keys;
    while todo != {}
      invariant todo <= services.Keys && copies.Keys == services.Keys - todo
      invariant forall k <- copies :: fresh(copies[k]) && fresh(copies[k].Objects())
      invariant forall k <- copies :: copies[k].Value() == services[k].Value()
      invariant forall k <- copies, l <- copies :: copies[k] == copies[l] ==> k == l
      modifies {}
      decreases todo
    {
      var k :| k in todo;
      var container := services[k].DeepCopy();
      copies := copies[k := container];
      todo := todo - {k};
    }
  }

  /** The loop of `Snapshot` over the containers of the private copy. */
  method SnapshotContainers(services: map<string, ServiceContainer>, ghost value: Cache, ghost objects: set<object>)
      returns (snap: seq<SnapshotRef>)
    requires value.Keys == services.Keys
    requires forall k <- services :: services[k].Value() == value[k] && KeyedAs(value[k], k)
    requires forall k <- services :: services[k].Objects() <= objects
    ensures forall s <- snap :: RefObjects(s) <= objects
    ensures SnapshotOf(ReadSnapshot(snap), value)
  {
    hide *;
    snap := [];
    var todo := services.Keys;
    ghost var done: set<string> := {};
    SnapshotOfNone(value);
    while todo != {}
      invariant done <= services.Keys && todo == services.Keys - done
      invariant SnapshotOfNames(ReadSnapshot(snap), value, done)
      invariant forall s <- snap :: RefObjects(s) <= objects
      modifies {}
      decreases todo
    {
      var k :| k in todo;
      var s := services[k].Snapshot(k);
      ShownName(ReadService(s), value[k], k);
      SnapshotSnoc(ReadSnapshot(snap), value, done, ReadService(s));
      ReadSnapshotSnoc(snap, s);
      snap := snap + [s];
      done := done + {k};
      todo := todo - {k};
    }
    assert done == value.Keys;
    SnapshotOfAll(ReadSnapshot(snap), value);
  }

  lemma SnapshotOfNone(c: Cache)
    ensures SnapshotOfNames(ReadSnapshot([]), c, {})
  {
  }

  lemma SnapshotOfAll(snap: seq<SnapshotService>, c: Cache)
    requires SnapshotOfNames(snap, c, c.Keys)
    ensures SnapshotOf(snap, c)
  {
  }

  lemma ShownName(s: SnapshotService, entry: Entry, k: string)
    requires ShowsEntry(s, entry) && KeyedAs(entry, k)
    ensures s.obj.name == k
  {
  }

  // ---------- runs ----------

  datatype Call = OnService(service: ServiceObject?, delete: bool) | OnSlice(slice: SliceObject?, delete: bool)

  ghost function EventOf(call: Call): Event {
    match call
    case OnService(service, delete) => ServiceEvent(service, delete)
    case OnSlice(slice, delete) => SliceEvent(slice, delete)
  }

  ghost function EventsOf(calls: seq<Call>): seq<Event> {
    if calls == [] then [] else EventsOf(calls[..|calls| - 1]) + [EventOf(calls[|calls| - 1])]
  }

  /** Any run of handler calls leaves the cache where replaying the events leaves its value. */
  method HandleAll(cache: ClusterServiceStateCache, calls: seq<Call>)
    requires cache.Valid()
    modifies cache, cache.services.Values
    ensures cache.Valid() && fresh(cache.services.Values - old(cache.services.Values))
    ensures cache.Value() == ReplayFrom(old(cache.Value()), EventsOf(calls))
  {
    for i := 0 to |calls|
      invariant cache.Valid() && fresh(cache.services.Values - old(cache.services.Values))
      invariant cache.Value() == ReplayFrom(old(cache.Value()), EventsOf(calls[..i]))
    {
      assert calls[..i + 1][..i] == calls[..i];
      ReplaySnoc(old(cache.Value()), EventsOf(calls[..i]), EventOf(calls[i]));
      hide *;
      match calls[i]
      case OnService(service, delete) => var _ := cache.UpdateServices(service, delete);
      case OnSlice(slice, delete) => var _ := cache.UpdatEndpointSlice(slice, delete);
    }
    assert calls[..|calls|] == calls;
  }

  /** Calls on one cache leave a cache with containers of its own alone. */
  method HandleBeside(cache: ClusterServiceStateCache, other: ClusterServiceStateCache, calls: seq<Call>)
    requires cache.Valid() && cache != other && cache.services.Values !! other.services.Values
    modifies cache, cache.services.Values
    ensures cache.Value() == ReplayFrom(old(cache.Value()), EventsOf(calls))
    ensures other.services == old(other.services) && other.Value() == old(other.Value())
    ensures fresh(cache.services.Values - old(cache.services.Values))
  {
    hide *;
    HandleAll(cache, calls);
  }

  /** A deep copy and its original go separate ways: whatever calls reach one leave the other alone. */
  method CopyIsIsolated(cache: ClusterServiceStateCache, calls: seq<Call>, copyCalls: seq<Call>)
      returns (copy: ClusterServiceStateCache)
    requires cache.Valid()
    modifies cache, cache.services.Values
    ensures cache.Value() == ReplayFrom(old(cache.Value()), EventsOf(calls))
    ensures copy.Value() == ReplayFrom(old(cache.Value()), EventsOf(copyCalls))
  {
    hide *;
    ghost var value := cache.Value();
    copy := cache.DeepCopy();
    HandleBeside(copy, cache, copyCalls);
    ghost var copied := copy.Value();
    assert cache.Value() == value && copied == ReplayFrom(value, EventsOf(copyCalls));
    HandleBeside(cache, copy, calls);
    assert cache.Value() == ReplayFrom(value, EventsOf(calls)) && copy.Value() == copied;
  }

  /** A snapshot taken after any calls on a new cache shows the replay of their events. */
  method SnapshotAfter(calls: seq<Call>) returns (snap: seq<SnapshotRef>)
    ensures SnapshotOf(ReadSnapshot(snap), Replay(EventsOf(calls)))
  {
    hide *;
    var cache := new ClusterServiceStateCache();
    HandleAll(cache, calls);
    ReplayIsWellKeyed(EventsOf(calls));
    snap := cache.Snapshot();
  }

  lemma ReplayIsWellKeyed(log: seq<Event>)
    ensures Replay(log) == ReplayFrom(map[], log) && WellKeyed(Replay(log))
  {
    ReplayWellKeyed(map[], log);
  }
}
