/** The cache beside one keyed by namespace and name: exactly when the bare-name key does no harm. */
module Namespaced {
  import opened Kube
  import opened GoText
  import opened CacheSpec

  type NCache = map<Key, Entry>

  function OwnerKey(slice: EndpointSlice): Key
    requires Labelled(slice)
  {
    Key(slice.namespace, Owner(slice))
  }

  // ---------- a cache keyed by namespace and name ----------

  function NApplyService(c: NCache, svc: Service): NCache {
    var k := KeyOf(svc);
    if k in c && !Less(c[k].obj.resourceVersion, svc.resourceVersion) then c
    else c[k := Entry(svc, if k in c then c[k].slices else map[])]
  }

  function NApplySlice(c: NCache, slice: EndpointSlice, delete: bool): NCache {
    if Labelled(slice) && OwnerKey(slice) in c then
      c[OwnerKey(slice) := SliceOperation(c[OwnerKey(slice)], slice, delete).0]
    else c
  }

  /** The rules of the cache, with every key a namespace and a name. */
  function NApply(c: NCache, e: Event): NCache {
    match e
    case UpdateService(svc) => NApplyService(c, svc)
    case DeleteService(svc) => c - {KeyOf(svc)}
    case UpdateSlice(slice) => NApplySlice(c, slice, false)
    case DeleteSlice(slice) => NApplySlice(c, slice, true)
    case NilService => c
    case NilSlice => c
  }

  function NReplay(log: seq<Event>): NCache {
    if log == [] then map[] else NApply(NReplay(log[..|log| - 1]), log[|log| - 1])
  }

  /** Entry `n` of the bare-name cache is that of its service's key. */
  predicate Mirrored(c: Cache, nc: NCache, n: string)
    requires n in c
  {
    var k := Key(c[n].obj.namespace, n);
    k in nc && nc[k] == c[n]
  }

  /** The two caches hold the same services with the same slices. */
  predicate Mirrors(c: Cache, nc: NCache) {
    && (forall n <- c :: Mirrored(c, nc, n))
    && (forall k <- nc :: k.name in c && c[k.name].obj.namespace == k.namespace)
  }

  // ---------- clashes ----------

  /** No other namespace holds a service under the name. */
  predicate NameFree(c: NCache, svc: Service) {
    forall k <- c :: k.name == svc.name ==> k.namespace == svc.namespace
  }

  /** The operation would do nothing to the entry. */
  predicate Idles(entry: Entry, slice: EndpointSlice, delete: bool) {
    if delete then slice.name !in entry.slices
    else slice.name in entry.slices && !Less(entry.slices[slice.name].resourceVersion, slice.resourceVersion)
  }

  /** A slice labelled with the name of another namespace's service does nothing to it. */
  predicate SliceStaysOut(c: NCache, slice: EndpointSlice, delete: bool) {
    Labelled(slice) ==>
      forall k <- c :: k.name == Owner(slice) && k.namespace != slice.namespace ==> Idles(c[k], slice, delete)
  }

  /** The event names no service held under that name by another namespace, and changes none through a label. */
  predicate NoClash(c: NCache, e: Event) {
    match e
    case UpdateService(svc) => NameFree(c, svc)
    case DeleteService(svc) => NameFree(c, svc)
    case UpdateSlice(slice) => SliceStaysOut(c, slice, false)
    case DeleteSlice(slice) => SliceStaysOut(c, slice, true)
    case _ => true
  }

  // ---------- one event ----------

  lemma ServiceMirrorsIff(c: Cache, nc: NCache, svc: Service)
    requires Mirrors(c, nc)
    ensures Mirrors(ApplyService(c, svc).cache, NApplyService(nc, svc)) <==> NameFree(nc, svc)
  {
    hide Less;
    var d, nd, n := ApplyService(c, svc).cache, NApplyService(nc, svc), svc.name;
    if n in c && c[n].obj.namespace != svc.namespace {
      var k := Key(c[n].obj.namespace, n);
      assert Mirrored(c, nc, n) && k in nc && KeyOf(svc) !in nc;
      assert k in nd && KeyOf(svc) in nd;
    } else {
      assert n in c ==> Mirrored(c, nc, n);
      forall m <- d ensures Mirrored(d, nd, m) {
        assert m in c ==> Mirrored(c, nc, m);
      }
    }
  }

  lemma RemovalMirrorsIff(c: Cache, nc: NCache, svc: Service)
    requires Mirrors(c, nc)
    ensures Mirrors(RemoveService(c, svc).cache, nc - {KeyOf(svc)}) <==> NameFree(nc, svc)
  {
    var d, nd, n := RemoveService(c, svc).cache, nc - {KeyOf(svc)}, svc.name;
    if n in c && c[n].obj.namespace != svc.namespace {
      assert Mirrored(c, nc, n) && Key(c[n].obj.namespace, n) in nd;
    } else {
      forall m <- d ensures Mirrored(d, nd, m) {
        assert Mirrored(c, nc, m);
      }
    }
  }

  /** An operation leaves the entry alone exactly when it idles. */
  lemma OperationIdlesIff(entry: Entry, slice: EndpointSlice, delete: bool)
    requires Labelled(slice) && Owner(slice) == entry.obj.name
    ensures SliceOperation(entry, slice, delete).0 == entry <==> Idles(entry, slice, delete)
    ensures SliceOperation(entry, slice, delete).1 == Noop <==> Idles(entry, slice, delete)
    ensures SliceOperation(entry, slice, delete).0.obj == entry.obj
  {
    LessTotal(slice.resourceVersion, slice.resourceVersion);
    hide Less;
    var after := SliceOperation(entry, slice, delete).0;
    if !Idles(entry, slice, delete) {
      assert delete ==> slice.name !in after.slices;
      assert !delete ==> slice.name in after.slices && after.slices[slice.name] == slice;
    }
  }

  lemma SliceMirrorsIff(c: Cache, nc: NCache, slice: EndpointSlice, delete: bool)
    requires Mirrors(c, nc) && WellKeyed(c)
    ensures Mirrors(ApplySlice(c, slice, delete).cache, NApplySlice(nc, slice, delete)) <==>
              SliceStaysOut(nc, slice, delete)
  {
    hide Less, Idles, SliceOperation;
    if Labelled(slice) && Owner(slice) in c {
      var d, nd, n := ApplySlice(c, slice, delete).cache, NApplySlice(nc, slice, delete), Owner(slice);
      OperationIdlesIff(c[n], slice, delete);
      assert Mirrored(c, nc, n);
      assert d == c[n := SliceOperation(c[n], slice, delete).0];
      if c[n].obj.namespace != slice.namespace {
        assert OwnerKey(slice) !in nc && nd == nc;
        assert Mirrored(d, nd, n) <==> d[n] == c[n];
      }
      forall m <- d | m != n ensures Mirrored(d, nd, m) {
        assert Mirrored(c, nc, m);
      }
    }
  }

  /** One event keeps the two caches alike exactly when it does not clash. */
  lemma MirrorsIff(c: Cache, nc: NCache, e: Event)
    requires Mirrors(c, nc) && WellKeyed(c)
    ensures Mirrors(Apply(c, e).cache, NApply(nc, e)) <==> NoClash(nc, e)
  {
    match e
    case UpdateService(svc) => ServiceMirrorsIff(c, nc, svc);
    case DeleteService(svc) => RemovalMirrorsIff(c, nc, svc);
    case UpdateSlice(slice) => SliceMirrorsIff(c, nc, slice, false);
    case DeleteSlice(slice) => SliceMirrorsIff(c, nc, slice, true);
    case _ =>
  }

  // ---------- whole histories ----------

  predicate MirrorsAt(log: seq<Event>, i: nat)
    requires i <= |log|
  {
    Mirrors(Replay(log[..i]), NReplay(log[..i]))
  }

  predicate NoClashAt(log: seq<Event>, i: nat)
    requires i < |log|
  {
    NoClash(NReplay(log[..i]), log[i])
  }

  lemma StartMirrors(log: seq<Event>)
    ensures MirrorsAt(log, 0)
  {
  }

  lemma NextMirrorsIff(log: seq<Event>, i: nat)
    requires i < |log| && MirrorsAt(log, i)
    ensures MirrorsAt(log, i + 1) <==> NoClashAt(log, i)
  {
    hide NoClash, Apply, NApply, Mirrors, WellKeyed;
    assert log[..i + 1][..i] == log[..i];
    ReplayWellKeyed(map[], log[..i]);
    MirrorsIff(Replay(log[..i]), NReplay(log[..i]), log[i]);
  }

  /** At every moment of a history the cache is one keyed by namespace and name exactly when no event clashes. */
  lemma AlwaysMirrorsIff(log: seq<Event>)
    ensures (forall i :: 0 <= i <= |log| ==> MirrorsAt(log, i)) <==> (forall i :: 0 <= i < |log| ==> NoClashAt(log, i))
  {
    hide MirrorsAt, NoClashAt;
    StartMirrors(log);
    if forall i :: 0 <= i <= |log| ==> MirrorsAt(log, i) {
      forall i | 0 <= i < |log| ensures NoClashAt(log, i) {
        NextMirrorsIff(log, i);
      }
    }
    if forall i :: 0 <= i < |log| ==> NoClashAt(log, i) {
      for i := 0 to |log|
        invariant forall j :: 0 <= j <= i ==> MirrorsAt(log, j)
      {
        NextMirrorsIff(log, i);
      }
    }
  }

  // ---------- names used in one namespace ----------

  /** The key the event speaks of, through its object or its label. */
  function KeyOfEvent(e: Event): Option<Key> {
    match e
    case UpdateService(svc) => Some(KeyOf(svc))
    case DeleteService(svc) => Some(KeyOf(svc))
    case UpdateSlice(slice) => if Labelled(slice) then Some(OwnerKey(slice)) else None
    case DeleteSlice(slice) => if Labelled(slice) then Some(OwnerKey(slice)) else None
    case _ => None
  }

  /** Every service name is used in one namespace only, by services and by labels of slices. */
  predicate KeysGlobal(log: seq<Event>) {
    forall e <- log, f <- log | KeyOfEvent(e).Some? && KeyOfEvent(f).Some? ::
      KeyOfEvent(e).value.name == KeyOfEvent(f).value.name ==> KeyOfEvent(e) == KeyOfEvent(f)
  }

  lemma {:induction false} HeldKeysWereNamed(log: seq<Event>, k: Key)
    requires k in NReplay(log)
    ensures exists e <- log :: KeyOfEvent(e) == Some(k)
  {
    var pre, last := log[..|log| - 1], log[|log| - 1];
    assert log == pre + [last];
    if k in NReplay(pre) {
      HeldKeysWereNamed(pre, k);
    } else {
      assert KeyOfEvent(last) == Some(k);
    }
  }

  /** With names used in one namespace only, the cache is always one keyed by namespace and name. */
  lemma GlobalKeysMirror(log: seq<Event>)
    requires KeysGlobal(log)
    ensures Mirrors(Replay(log), NReplay(log))
  {
    hide NoClashAt, KeysGlobal;
    AlwaysMirrorsIff(log);
    forall i | 0 <= i < |log| ensures NoClashAt(log, i) {
      GlobalKeysNeverClash(log, i);
    }
    assert MirrorsAt(log, |log|) && log[..|log|] == log;
  }

  /** With names used in one namespace only, nothing ever clashes. */
  lemma GlobalKeysNeverClash(log: seq<Event>, i: nat)
    requires KeysGlobal(log) && i < |log|
    ensures NoClashAt(log, i)
  {
    var c, e := NReplay(log[..i]), log[i];
    forall k <- c | KeyOfEvent(e).Some? && KeyOfEvent(e).value.name == k.name
      ensures KeyOfEvent(e) == Some(k)
    {
      HeldKeysWereNamed(log[..i], k);
      var f :| f in log[..i] && KeyOfEvent(f) == Some(k);
      assert f in log && e in log;
    }
  }
}
