/** Informers re-send every live object from time to time: exactly when that brings the cache back to the API server's
    objects (cmd/controlplane/controlplane.go, RESYNC_INTERVAL). */
module Resync {
  import opened Kube
  import opened GoText
  import opened CacheSpec
  import opened Namespaced
  import opened ApiServer

  /** The event re-sends a live object as it is. */
  predicate SendsLive(o: Objects, e: Event) {
    match e
    case UpdateService(svc) => KeyOf(svc) in o.services && o.services[KeyOf(svc)] == svc
    case UpdateSlice(slice) => SliceKey(slice) in o.slices && o.slices[SliceKey(slice)] == slice
    case _ => false
  }

  /** Every live object is sent, a slice of a live service at least once after its service; the two kinds may
      interleave. */
  ghost predicate Resends(log: seq<Event>, o: Objects) {
    && (forall e <- log :: SendsLive(o, e))
    && (forall k <- o.services :: UpdateService(o.services[k]) in log)
    && (forall j <- o.slices | HeldLive(o, j) :: SentAfterOwner(log, o, j))
  }

  ghost predicate SentAfterOwner(log: seq<Event>, o: Objects, j: Key)
    requires HeldLive(o, j)
  {
    exists m: nat | m < |log| ::
      log[m] == UpdateSlice(o.slices[j]) && UpdateService(o.services[OwnerKey(o.slices[j])]) in log[..m]
  }

  /** No two live services share a name. */
  predicate NamesApart(o: Objects) {
    forall k <- o.services, l <- o.services :: k.name == l.name ==> k == l
  }

  /** No live slice is labelled with the name of another namespace's live service. */
  predicate LabelsHome(o: Objects) {
    forall j <- o.slices, k <- o.services ::
      Labelled(o.slices[j]) && Owner(o.slices[j]) == k.name ==> j.namespace == k.namespace
  }

  predicate Unambiguous(o: Objects) { NamesApart(o) && LabelsHome(o) }

  /** A held version is the live one or gives way to it. */
  predicate GivesWay<T(==)>(held: T, heldVersion: string, live: T, liveVersion: string) {
    held == live || Less(heldVersion, liveVersion)
  }

  predicate SliceBehind(held: EndpointSlice, s: string, o: Objects, k: Key) {
    && Key(k.namespace, s) in o.slices
    && var live := o.slices[Key(k.namespace, s)];
       OwnedBy(live, k) && GivesWay(held, held.resourceVersion, live, live.resourceVersion)
  }

  /** The entry holds nothing but earlier versions of what service `k` should have. */
  predicate EntryBehind(entry: Entry, o: Objects, k: Key)
    requires k in o.services
  {
    && GivesWay(entry.obj, entry.obj.resourceVersion, o.services[k], o.services[k].resourceVersion)
    && forall s <- entry.slices :: SliceBehind(entry.slices[s], s, o, k)
  }

  /** Some live service of the name is ahead of the entry. */
  predicate NameBehind(entry: Entry, o: Objects, n: string) {
    exists k <- o.services :: k.name == n && EntryBehind(entry, o, k)
  }

  /** The cache holds nothing that is not live, and nothing that refuses the live version. */
  predicate Behind(c: Cache, o: Objects) {
    forall n <- c :: NameBehind(c[n], o, n)
  }

  // ---------- one event ----------

  lemma BehindItsService(entry: Entry, o: Objects, k: Key)
    requires Unambiguous(o) && k in o.services
    ensures NameBehind(entry, o, k.name) <==> EntryBehind(entry, o, k)
  {
  }

  lemma ServiceKeepsBehind(c: Cache, o: Objects, svc: Service)
    requires Unambiguous(o) && SendsLive(o, UpdateService(svc))
    ensures Behind(c, o) <==> Behind(ApplyService(c, svc).cache, o)
  {
    var d, n, k := ApplyService(c, svc).cache, svc.name, KeyOf(svc);
    BehindItsService(d[n], o, k);
    if n in c {
      BehindItsService(c[n], o, k);
    }
    assert n in c ==> (EntryBehind(c[n], o, k) <==> EntryBehind(d[n], o, k));
    hide Less, NameBehind, EntryBehind;
    forall m <- d | m != n ensures m in c && d[m] == c[m] {}
    assert forall m <- c :: m in d;
  }

  /** A live slice goes to its own service, or finds a service that is not live. */
  lemma SliceKeepsBehind(c: Cache, o: Objects, slice: EndpointSlice)
    requires NamesMatch(o) && WellKeyed(c) && Unambiguous(o) && SendsLive(o, UpdateSlice(slice))
    ensures Behind(c, o) <==> Behind(ApplySlice(c, slice, false).cache, o)
  {
    if Labelled(slice) && Owner(slice) in c {
      var d, n := ApplySlice(c, slice, false).cache, Owner(slice);
      assert forall m <- d | m != n :: d[m] == c[m];
      assert NameBehind(c[n], o, n) <==> NameBehind(d[n], o, n) by {
        SliceKeepsEntryBehind(c[n], o, slice);
      }
    }
  }

  lemma SliceKeepsEntryBehind(entry: Entry, o: Objects, slice: EndpointSlice)
    requires NamesMatch(o) && Unambiguous(o) && SendsLive(o, UpdateSlice(slice))
    requires Labelled(slice) && Owner(slice) == entry.obj.name
    ensures NameBehind(entry, o, entry.obj.name) <==>
              NameBehind(SliceOperation(entry, slice, false).0, o, entry.obj.name)
  {
    var after := SliceOperation(entry, slice, false).0;
    if k :| k in o.services && k.name == entry.obj.name {
      BehindItsService(entry, o, k);
      BehindItsService(after, o, k);
      assert slice.namespace == k.namespace && OwnedBy(slice, k) by {
        assert o.slices[SliceKey(slice)] == slice;
      }
      SliceKeepsSlicesBehind(entry, o, slice, k);
    }
  }

  lemma SliceKeepsSlicesBehind(entry: Entry, o: Objects, slice: EndpointSlice, k: Key)
    requires k in o.services && SliceKey(slice) in o.slices && o.slices[SliceKey(slice)] == slice
    requires OwnedBy(slice, k) && Owner(slice) == entry.obj.name
    ensures EntryBehind(entry, o, k) <==> EntryBehind(SliceOperation(entry, slice, false).0, o, k)
  {
    hide Less;
    var after, s := SliceOperation(entry, slice, false).0, slice.name;
    assert SliceBehind(slice, s, o, k);
    assert forall x <- after.slices | x != s :: x in entry.slices && after.slices[x] == entry.slices[x];
    assert forall x <- entry.slices :: x in after.slices;
  }

  // ---------- settling ----------

  /** The cache has taken the version of the live service, or holds one that refuses it. */
  predicate ServiceSettled(c: Cache, svc: Service) {
    svc.name in c && !Less(c[svc.name].obj.resourceVersion, svc.resourceVersion)
  }

  predicate SliceSettled(c: Cache, slice: EndpointSlice)
    requires Labelled(slice)
  {
    && Owner(slice) in c && slice.name in c[Owner(slice)].slices
    && !Less(c[Owner(slice)].slices[slice.name].resourceVersion, slice.resourceVersion)
  }

  lemma SendingSettles(c: Cache, o: Objects, e: Event)
    requires SendsLive(o, e) && WellKeyed(c)
    ensures e.UpdateService? ==> ServiceSettled(Apply(c, e).cache, e.svc)
    ensures e.UpdateSlice? && Labelled(e.slice) && Owner(e.slice) in c ==> SliceSettled(Apply(c, e).cache, e.slice)
  {
    LessTotal(if e.UpdateService? then e.svc.resourceVersion else e.slice.resourceVersion, "");
    hide Less;
  }

  lemma ServiceStaysSettled(c: Cache, o: Objects, e: Event, k: Key)
    requires NamesMatch(o) && Unambiguous(o) && SendsLive(o, e) && k in o.services && ServiceSettled(c, o.services[k])
    ensures ServiceSettled(Apply(c, e).cache, o.services[k])
  {
    LessTotal(o.services[k].resourceVersion, o.services[k].resourceVersion);
    hide Less;
  }

  lemma SliceStaysSettled(c: Cache, o: Objects, e: Event, j: Key)
    requires NamesMatch(o) && Unambiguous(o) && WellKeyed(c) && SendsLive(o, e)
    requires HeldLive(o, j) && SliceSettled(c, o.slices[j])
    ensures SliceSettled(Apply(c, e).cache, o.slices[j])
  {
    LessTotal(o.slices[j].resourceVersion, o.slices[j].resourceVersion);
    hide Less;
  }

  // ---------- whole resyncs ----------

  lemma {:induction false} ResendKeepsBehind(c: Cache, o: Objects, log: seq<Event>)
    requires NamesMatch(o) && WellKeyed(c) && Unambiguous(o) && forall e <- log :: SendsLive(o, e)
    ensures Behind(c, o) <==> Behind(ReplayFrom(c, log), o)
  {
    if log != [] {
      var pre, e := log[..|log| - 1], log[|log| - 1];
      assert log == pre + [e];
      ResendKeepsBehind(c, o, pre);
      ReplayWellKeyed(c, pre);
      assert SendsLive(o, e);
      hide Behind, NamesMatch, Unambiguous, WellKeyed;
      if e.UpdateService? {
        ServiceKeepsBehind(ReplayFrom(c, pre), o, e.svc);
      } else {
        SliceKeepsBehind(ReplayFrom(c, pre), o, e.slice);
      }
    }
  }

  lemma {:induction false} SentServicesSettle(c: Cache, o: Objects, log: seq<Event>, k: Key)
    requires NamesMatch(o) && WellKeyed(c) && Unambiguous(o) && forall e <- log :: SendsLive(o, e)
    requires k in o.services && UpdateService(o.services[k]) in log
    ensures ServiceSettled(ReplayFrom(c, log), o.services[k])
  {
    var pre, e := log[..|log| - 1], log[|log| - 1];
    assert log == pre + [e];
    ReplayWellKeyed(c, pre);
    hide ServiceSettled, NamesMatch, Unambiguous, WellKeyed;
    if e == UpdateService(o.services[k]) {
      SendingSettles(ReplayFrom(c, pre), o, e);
    } else {
      SentServicesSettle(c, o, pre, k);
      ServiceStaysSettled(ReplayFrom(c, pre), o, e, k);
    }
  }

  lemma {:induction false} SentSlicesSettle(c: Cache, o: Objects, log: seq<Event>, j: Key, m: nat)
    requires NamesMatch(o) && WellKeyed(c) && Unambiguous(o) && forall e <- log :: SendsLive(o, e)
    requires HeldLive(o, j) && m < |log| && log[m] == UpdateSlice(o.slices[j])
    requires UpdateService(o.services[OwnerKey(o.slices[j])]) in log[..m]
    ensures SliceSettled(ReplayFrom(c, log), o.slices[j])
  {
    var pre, e := log[..|log| - 1], log[|log| - 1];
    assert log == pre + [e];
    ReplayWellKeyed(c, pre);
    if m == |pre| {
      OwnerIsThere(c, o, pre, j);
      hide SliceSettled, NamesMatch, Unambiguous, WellKeyed;
      SendingSettles(ReplayFrom(c, pre), o, e);
    } else {
      hide SliceSettled, NamesMatch, Unambiguous, WellKeyed;
      assert pre[..m] == log[..m];
      SentSlicesSettle(c, o, pre, j, m);
      SliceStaysSettled(ReplayFrom(c, pre), o, e, j);
    }
  }

  lemma OwnerIsThere(c: Cache, o: Objects, pre: seq<Event>, j: Key)
    requires NamesMatch(o) && WellKeyed(c) && Unambiguous(o) && forall e <- pre :: SendsLive(o, e)
    requires HeldLive(o, j) && UpdateService(o.services[OwnerKey(o.slices[j])]) in pre
    ensures Owner(o.slices[j]) in ReplayFrom(c, pre)
  {
    SentServicesSettle(c, o, pre, OwnerKey(o.slices[j]));
    assert KeyOf(o.services[OwnerKey(o.slices[j])]) == OwnerKey(o.slices[j]);
  }

  /** A cache that is behind and in which every live object has settled holds exactly the live objects. */
  lemma SettledMirrors(c: Cache, o: Objects)
    requires NamesMatch(o) && WellKeyed(c) && Unambiguous(o) && Behind(c, o)
    requires forall k <- o.services :: ServiceSettled(c, o.services[k])
    requires forall j <- o.slices | HeldLive(o, j) :: SliceSettled(c, o.slices[j])
    ensures Mirrors(c, Intended(o))
  {
    forall n <- c ensures Mirrored(c, Intended(o), n) {
      assert NameBehind(c[n], o, n);
      var k :| k in o.services && k.name == n && EntryBehind(c[n], o, k);
      SettledEntry(c, o, k);
      IntendedEntry(o, k);
    }
    forall k <- Intended(o) ensures k.name in c && c[k.name].obj.namespace == k.namespace {
      IntendedEntry(o, k);
      assert ServiceSettled(c, o.services[k]) && NameBehind(c[k.name], o, k.name);
      BehindItsService(c[k.name], o, k);
    }
  }

  lemma SettledEntry(c: Cache, o: Objects, k: Key)
    requires NamesMatch(o) && k in o.services && k.name in c && EntryBehind(c[k.name], o, k)
    requires forall k <- o.services :: ServiceSettled(c, o.services[k])
    requires forall j <- o.slices | HeldLive(o, j) :: SliceSettled(c, o.slices[j])
    ensures c[k.name] == Entry(o.services[k], SlicesOwnedBy(o, k))
  {
    var entry, owned := c[k.name], SlicesOwnedBy(o, k);
    assert ServiceSettled(c, o.services[k]) && entry.obj == o.services[k];
    hide Less, SlicesOwnedBy;
    forall s: string
      ensures s in entry.slices <==> s in owned
      ensures s in entry.slices && s in owned ==> entry.slices[s] == owned[s]
    {
      OwnedSlice(o, k, s);
      var j := Key(k.namespace, s);
      if s in owned {
        assert HeldLive(o, j) && SliceSettled(c, o.slices[j]);
      }
      if s in entry.slices {
        assert SliceBehind(entry.slices[s], s, o, k);
      }
    }
  }

  lemma MirrorsIsBehind(c: Cache, o: Objects)
    requires Mirrors(c, Intended(o))
    ensures Behind(c, o)
  {
    forall n <- c ensures NameBehind(c[n], o, n) {
      assert Mirrored(c, Intended(o), n);
      var k := Key(c[n].obj.namespace, n);
      IntendedEntry(o, k);
      forall s <- c[n].slices ensures SliceBehind(c[n].slices[s], s, o, k) {
        OwnedSlice(o, k, s);
      }
      assert EntryBehind(c[n], o, k);
    }
  }

  lemma MirroredNamesApart(c: Cache, o: Objects)
    requires Mirrors(c, Intended(o))
    ensures NamesApart(o)
  {
    forall k <- o.services, l <- o.services | k.name == l.name ensures k == l {
      IntendedEntry(o, k);
      IntendedEntry(o, l);
    }
  }

  lemma ResyncRestores(c: Cache, o: Objects, log: seq<Event>)
    requires NamesMatch(o) && WellKeyed(c) && Unambiguous(o) && Behind(c, o) && Resends(log, o)
    ensures Mirrors(ReplayFrom(c, log), Intended(o))
  {
    hide NamesMatch, WellKeyed, Unambiguous, Behind, Mirrors, Intended, ServiceSettled, SliceSettled, SendsLive;
    var d := ReplayFrom(c, log);
    ReplayWellKeyed(c, log);
    ResendKeepsBehind(c, o, log);
    forall k <- o.services ensures ServiceSettled(d, o.services[k]) {
      SentServicesSettle(c, o, log, k);
    }
    forall j <- o.slices | HeldLive(o, j) ensures SliceSettled(d, o.slices[j]) {
      assert SentAfterOwner(log, o, j);
      var m: nat :| m < |log| && log[m] == UpdateSlice(o.slices[j]) &&
                    UpdateService(o.services[OwnerKey(o.slices[j])]) in log[..m];
      SentSlicesSettle(c, o, log, j, m);
    }
    SettledMirrors(d, o);
  }

  /** Whatever the cache held, a resync makes it exactly the live objects if and only if no two of the live services
      share a name and the cache held nothing that is not live and nothing that refuses the live version. */
  lemma ResyncIff(c: Cache, o: Objects, log: seq<Event>)
    requires NamesMatch(o) && WellKeyed(c) && LabelsHome(o) && Resends(log, o)
    ensures Mirrors(ReplayFrom(c, log), Intended(o)) <==> NamesApart(o) && Behind(c, o)
  {
    hide NamesMatch, WellKeyed, NamesApart, LabelsHome, Behind, Mirrors, Intended, SendsLive;
    if NamesApart(o) && Behind(c, o) {
      ResyncRestores(c, o, log);
    }
    if Mirrors(ReplayFrom(c, log), Intended(o)) {
      MirroredNamesApart(ReplayFrom(c, log), o);
      MirrorsIsBehind(ReplayFrom(c, log), o);
      ResendKeepsBehind(c, o, log);
    }
  }

  // ---------- histories that end in a resync ----------

  lemma LiveUnchanged(o: Objects, e: Event)
    requires SendsLive(o, e)
    ensures Observe(o, e) == o
  {
    if e.UpdateService? {
      assert o.services[KeyOf(e.svc) := e.svc] == o.services;
    } else {
      assert o.slices[SliceKey(e.slice) := e.slice] == o.slices;
    }
  }

  lemma {:induction false} ResendObserved(pre: seq<Event>, log: seq<Event>)
    requires forall e <- log :: SendsLive(Observed(pre), e)
    ensures Observed(pre + log) == Observed(pre)
  {
    if log == [] {
      assert pre + log == pre;
    } else {
      var most, e := log[..|log| - 1], log[|log| - 1];
      assert log == most + [e] && (pre + log)[..|pre + log| - 1] == pre + most;
      ResendObserved(pre, most);
      LiveUnchanged(Observed(pre), e);
    }
  }

  lemma {:induction false} ReplayConcat(c: Cache, pre: seq<Event>, log: seq<Event>)
    ensures ReplayFrom(c, pre + log) == ReplayFrom(ReplayFrom(c, pre), log)
  {
    if log == [] {
      assert pre + log == pre;
    } else {
      assert (pre + log)[..|pre + log| - 1] == pre + log[..|log| - 1];
      ReplayConcat(c, pre, log[..|log| - 1]);
    }
  }

  /** Slices that came before their services, and any updates lost on the way, are made good by a resync. */
  lemma HistoryRepairedIff(pre: seq<Event>, log: seq<Event>)
    requires LabelsHome(Observed(pre)) && Resends(log, Observed(pre))
    ensures Follows(pre + log) <==> NamesApart(Observed(pre)) && Behind(Replay(pre), Observed(pre))
  {
    hide NamesApart, LabelsHome, Behind, Intended, SendsLive, Mirrors;
    ObservedNames(pre);
    ReplayWellKeyed(map[], pre);
    ResendObserved(pre, log);
    ReplayConcat(map[], pre, log);
    ResyncIff(Replay(pre), Observed(pre), log);
  }
}
