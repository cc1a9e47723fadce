/** The value of the service cache and what each informer event does to it
    (pkg/state/cache.go, pkg/state/service.go). */
module CacheSpec {
  import opened Kube
  import opened GoText

  /** The abstract value of one service container. */
  datatype Entry = Entry(obj: Service, slices: map<string, EndpointSlice>)

  /** The cache is keyed by the bare service name: the namespace plays no part. */
  type Cache = map<string, Entry>

  datatype Status = Noop | Updated | Deleted | InvalidServiceLabel | Failed

  /** A call of `UpdateServices` or `UpdatEndpointSlice`; the `Nil` events carry a nil pointer. */
  datatype Event =
    | UpdateService(svc: Service)
    | DeleteService(svc: Service)
    | UpdateSlice(slice: EndpointSlice)
    | DeleteSlice(slice: EndpointSlice)
    | NilService
    | NilSlice

  datatype Outcome = Outcome(cache: Cache, reported: bool)

  predicate Labelled(slice: EndpointSlice) { SERVICE_NAME_LABEL in slice.labels }

  function Owner(slice: EndpointSlice): string
    requires Labelled(slice)
  {
    slice.labels[SERVICE_NAME_LABEL]
  }

  // ---------- one container ----------

  function UpdateSliceIn(entry: Entry, slice: EndpointSlice): (Entry, Status) {
    if slice.name in entry.slices && !Less(entry.slices[slice.name].resourceVersion, slice.resourceVersion) then
      (entry, Noop)
    else
      (entry.(slices := entry.slices[slice.name := slice]), Updated)
  }

  function DeleteSliceIn(entry: Entry, slice: EndpointSlice): (Entry, Status) {
    if slice.name in entry.slices then
      (entry.(slices := entry.slices - {slice.name}), Deleted)
    else
      (entry, Noop)
  }

  function SliceOperation(entry: Entry, slice: EndpointSlice, delete: bool): (Entry, Status) {
    if !Labelled(slice) || Owner(slice) != entry.obj.name then (entry, InvalidServiceLabel)
    else if delete then DeleteSliceIn(entry, slice)
    else UpdateSliceIn(entry, slice)
  }

  // ---------- the cache ----------

  function ApplyService(c: Cache, svc: Service): Outcome {
    if svc.name in c && !Less(c[svc.name].obj.resourceVersion, svc.resourceVersion) then
      Outcome(c, false)
    else if svc.name in c then
      Outcome(c[svc.name := c[svc.name].(obj := svc)], true)
    else
      Outcome(c[svc.name := Entry(svc, map[])], true)
  }

  function RemoveService(c: Cache, svc: Service): Outcome {
    if svc.name in c then Outcome(c - {svc.name}, true) else Outcome(c, false)
  }

  function ApplySlice(c: Cache, slice: EndpointSlice, delete: bool): Outcome {
    if !Labelled(slice) then Outcome(c, false)
    else if Owner(slice) !in c then Outcome(c, true)
    else
      var (entry, status) := SliceOperation(c[Owner(slice)], slice, delete);
      if status == Noop then Outcome(c, false) else Outcome(c[Owner(slice) := entry], true)
  }

  function Apply(c: Cache, e: Event): Outcome {
    match e
    case UpdateService(svc) => ApplyService(c, svc)
    case DeleteService(svc) => RemoveService(c, svc)
    case UpdateSlice(slice) => ApplySlice(c, slice, false)
    case DeleteSlice(slice) => ApplySlice(c, slice, true)
    case NilService => Outcome(c, false)
    case NilSlice => Outcome(c, false)
  }

  /** The cache after a sequence of events, starting from `c`. */
  function ReplayFrom(c: Cache, log: seq<Event>): Cache {
    if log == [] then c else Apply(ReplayFrom(c, log[..|log| - 1]), log[|log| - 1]).cache
  }

  /** The cache after a sequence of events since start-up. */
  function Replay(log: seq<Event>): Cache { ReplayFrom(map[], log) }

  lemma ReplaySnoc(c: Cache, log: seq<Event>, e: Event)
    ensures ReplayFrom(c, log + [e]) == Apply(ReplayFrom(c, log), e).cache
  {
    assert (log + [e])[..|log|] == log;
  }

  // ---------- structural invariant ----------

  /** Every key names what it maps to, and every slice sits in the container its label names. */
  predicate WellKeyed(c: Cache) {
    forall k <- c :: KeyedAs(c[k], k)
  }

  predicate KeyedAs(entry: Entry, k: string) {
    entry.obj.name == k &&
    forall s <- entry.slices ::
      entry.slices[s].name == s && Labelled(entry.slices[s]) && Owner(entry.slices[s]) == k
  }

  lemma ApplyKeepsWellKeyed(c: Cache, e: Event)
    requires WellKeyed(c)
    ensures WellKeyed(Apply(c, e).cache)
  {
  }

  lemma {:induction false} ReplayWellKeyed(c: Cache, log: seq<Event>)
    requires WellKeyed(c)
    ensures WellKeyed(ReplayFrom(c, log))
  {
    if log != [] {
      ReplayWellKeyed(c, log[..|log| - 1]);
      ApplyKeepsWellKeyed(ReplayFrom(c, log[..|log| - 1]), log[|log| - 1]);
    }
  }

  /** The container's label check can never fail when the call comes through the cache. */
  lemma InvalidLabelUnreachable(log: seq<Event>, slice: EndpointSlice, delete: bool)
    requires Labelled(slice) && Owner(slice) in Replay(log)
    ensures SliceOperation(Replay(log)[Owner(slice)], slice, delete).1 in {Noop, Updated, Deleted}
  {
    ReplayWellKeyed(map[], log);
  }

  // ---------- snapshots ----------

  /** One service of a snapshot. */
  datatype SnapshotService = SnapshotService(obj: Service, endpointSlices: seq<EndpointSlice>)

  /** `slices` holds exactly the slices of `entry`, each once, whatever the order. */
  ghost predicate ListsSlices(slices: seq<EndpointSlice>, entry: Entry) {
    && |slices| == |entry.slices|
    && (forall s <- slices :: s.name in entry.slices && s == entry.slices[s.name])
    && (forall i, j :: 0 <= i < j < |slices| ==> slices[i].name != slices[j].name)
  }

  ghost predicate ShowsEntry(s: SnapshotService, entry: Entry) {
    s.obj == entry.obj && ListsSlices(s.endpointSlices, entry)
  }

  /** `snap` holds exactly the services of `c` named in `names`, each once. */
  ghost predicate SnapshotOfNames(snap: seq<SnapshotService>, c: Cache, names: set<string>) {
    && |snap| == |names|
    && (forall s <- snap :: s.obj.name in names && s.obj.name in c && ShowsEntry(s, c[s.obj.name]))
    && (forall i, j :: 0 <= i < j < |snap| ==> snap[i].obj.name != snap[j].obj.name)
  }

  /** `snap` holds exactly the services of `c`, each once, whatever the order. */
  ghost predicate SnapshotOf(snap: seq<SnapshotService>, c: Cache) {
    SnapshotOfNames(snap, c, c.Keys)
  }

  lemma SnapshotSnoc(snap: seq<SnapshotService>, c: Cache, names: set<string>, s: SnapshotService)
    requires SnapshotOfNames(snap, c, names) && s.obj.name !in names
    requires s.obj.name in c && ShowsEntry(s, c[s.obj.name])
    ensures SnapshotOfNames(snap + [s], c, names + {s.obj.name})
  {
    forall i, j | 0 <= i < j < |snap + [s]|
      ensures (snap + [s])[i].obj.name != (snap + [s])[j].obj.name
    {
      assert snap[i] in snap;
    }
  }

  // ---------- change reports ----------

  /** The one kind of event that is reported although it is dropped. */
  predicate DroppedButReported(c: Cache, e: Event) {
    (e.UpdateSlice? || e.DeleteSlice?) && Labelled(e.slice) && Owner(e.slice) !in c
  }

  /** A call reports a change exactly when it made one, except for slices of unregistered services. */
  lemma ReportsExact(log: seq<Event>, e: Event)
    ensures Apply(Replay(log), e).reported <==>
              Apply(Replay(log), e).cache != Replay(log) || DroppedButReported(Replay(log), e)
  {
    var c := Replay(log);
    ReplayWellKeyed(map[], log);
    match e
    case UpdateService(svc) =>
      if svc.name in c {
        LessTotal(svc.resourceVersion, svc.resourceVersion);
      }
    case UpdateSlice(slice) =>
      if Labelled(slice) && Owner(slice) in c {
        LessTotal(slice.resourceVersion, slice.resourceVersion);
        var before, after := c[Owner(slice)], Apply(c, e).cache[Owner(slice)];
        assert Apply(c, e).reported ==> slice.name in after.slices && after.slices[slice.name] == slice;
        assert before.slices == after.slices ==> slice.name in before.slices;
      }
    case DeleteSlice(slice) =>
      if Labelled(slice) && Owner(slice) in c {
        assert Apply(c, e).reported ==> slice.name !in Apply(c, e).cache[Owner(slice)].slices;
      }
    case _ =>
  }
}
