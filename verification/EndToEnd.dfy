/** The stages joined: what the API server holds, what the proxy does with a connection, and what is
    redirected to it. */
module EndToEnd {
  import opened Kube
  import opened Meaning
  import opened CacheSpec
  import opened Namespaced
  import opened ApiServer
  import opened Resync
  import opened Naming
  import opened Endpoints
  import opened Mapper
  import opened Routing
  import opened Kubernetes
  import opened Redirect
  import opened Netfilter
  import Subscriber
  import RedirectRun

  // ---------- a snapshot shows every object ----------

  /** Distinct members of a set, as many as it has, are all of them. */
  lemma {:induction false} DistinctCovers<T>(xs: seq<T>, all: set<T>)
    requires |xs| == |all| && (forall x <- xs :: x in all)
    requires forall i, j :: 0 <= i < j < |xs| ==> xs[i] != xs[j]
    ensures forall x <- all :: x in xs
  {
    if xs != [] {
      var rest, last := xs[..|xs| - 1], xs[|xs| - 1];
      DistinctCovers(rest, all - {last});
      assert xs == rest + [last];
    }
  }

  lemma EntryShown(s: SnapshotService, entry: Entry, k: string)
    requires ShowsEntry(s, entry) && k in entry.slices
    ensures entry.slices[k] in s.endpointSlices
  {
    var names := seq(|s.endpointSlices|, i requires 0 <= i < |s.endpointSlices| => s.endpointSlices[i].name);
    DistinctCovers(names, entry.slices.Keys);
    var i :| 0 <= i < |names| && names[i] == k;
    assert s.endpointSlices[i] in s.endpointSlices;
  }

  lemma ServiceShown(snap: seq<SnapshotService>, c: Cache, n: string) returns (s: SnapshotService)
    requires SnapshotOf(snap, c) && n in c
    ensures s in snap && s.obj.name == n && ShowsEntry(s, c[n])
  {
    var names := seq(|snap|, i requires 0 <= i < |snap| => snap[i].obj.name);
    DistinctCovers(names, c.Keys);
    var i :| 0 <= i < |names| && names[i] == n;
    s := snap[i];
  }

  /** A snapshot of a cache that holds what the objects ask for. */
  ghost predicate Shows(snap: seq<SnapshotService>, c: Cache, o: Objects) {
    SnapshotOf(snap, c) && Mirrors(c, Intended(o)) && NamesMatch(o)
  }

  lemma ShownAreObjects(snap: seq<SnapshotService>, c: Cache, o: Objects, s: SnapshotService)
    requires Shows(snap, c, o) && s in snap
    ensures KeyOf(s.obj) in o.services && s.obj == o.services[KeyOf(s.obj)]
    ensures forall slice <- s.endpointSlices ::
              SliceKey(slice) in o.slices && slice == o.slices[SliceKey(slice)] && OwnedBy(slice, KeyOf(s.obj))
  {
    var n, k := s.obj.name, KeyOf(s.obj);
    assert n in c && ShowsEntry(s, c[n]) && Mirrored(c, Intended(o), n);
    IntendedEntry(o, k);
    hide Intended, Mirrors, SnapshotOf;
    forall slice <- s.endpointSlices
      ensures SliceKey(slice) in o.slices && slice == o.slices[SliceKey(slice)] && OwnedBy(slice, k)
    {
      OwnedSlice(o, k, slice.name);
      assert SliceKey(o.slices[Key(k.namespace, slice.name)]) == Key(k.namespace, slice.name);
    }
  }

  lemma ObjectsAreShown(snap: seq<SnapshotService>, c: Cache, o: Objects, k: Key) returns (s: SnapshotService)
    requires Shows(snap, c, o) && k in o.services
    ensures s in snap && s.obj == o.services[k]
    ensures forall j <- o.slices | OwnedBy(o.slices[j], k) :: o.slices[j] in s.endpointSlices
  {
    IntendedEntry(o, k);
    assert k.name in c && Mirrored(c, Intended(o), k.name);
    hide Intended, Mirrors, SnapshotOf;
    s := ServiceShown(snap, c, k.name);
    forall j <- o.slices | OwnedBy(o.slices[j], k) ensures o.slices[j] in s.endpointSlices {
      OwnersShareNamespace(o.slices[j], k);
      assert SliceKey(o.slices[j]) == j;
      OwnedSlice(o, k, j.name);
      EntryShown(s, c[k.name], j.name);
    }
  }

  // ---------- routing over the API server's objects ----------

  /** What Kubernetes asks of (address, port), given its objects. */
  ghost predicate ObjectsRoute(o: Objects, address: string, port: nat, b: Backend, scope: Scope) {
    exists k <- o.services, p <- o.services[k].ports, f: string, j <- o.slices ::
      KubeFronts(o.services[k], p, address, port, f) && SliceAssigns(o.services[k], o.slices[j], p, f, b, scope)
  }

  /** Every live service is well formed and supported, with the slices it owns. */
  ghost predicate SupportedObjects(o: Objects, scope: Scope) {
    forall k <- o.services ::
      && WellFormedService(o.services[k]) && SupportedService(o.services[k])
      && (forall j <- o.slices | OwnedBy(o.slices[j], k) ::
            Addressed([o.slices[j]]) && SupportedSlice(o.services[k], o.slices[j]))
      && (scope == Ready ==>
            forall i <- o.slices, j <- o.slices | OwnedBy(o.slices[i], k) && OwnedBy(o.slices[j], k) ::
              Consistent([o.slices[i], o.slices[j]]))
  }

  /** Every address Kubernetes gives a live service at (address, port) is one the code builds a listener for. */
  ghost predicate BuiltFor(o: Objects, address: string, port: nat) {
    forall k <- o.services, p <- o.services[k].ports, f: string ::
      KubeFronts(o.services[k], p, address, port, f) ==> Fronts(o.services[k], p, address, port, f)
  }

  lemma PairsConsistent(slices: seq<EndpointSlice>)
    requires forall a <- slices, b <- slices :: Consistent([a, b])
    ensures Consistent(slices)
  {
    forall t: Tuple, u: Tuple | Offered(slices, t) && Offered(slices, u) && t.meta == u.meta
      ensures t == u
    {
      var a :| a in slices && exists sp <- a.ports, e <- a.endpoints :: e.addresses != [] && Describes(a, sp, e, t);
      var b :| b in slices && exists sp <- b.ports, e <- b.endpoints :: e.addresses != [] && Describes(b, sp, e, u);
      assert a in [a, b] && b in [a, b];
      assert Offered([a, b], t) && Offered([a, b], u);
    }
  }

  lemma SnapshotSupported(snap: seq<SnapshotService>, c: Cache, o: Objects, scope: Scope)
    requires Shows(snap, c, o) && SupportedObjects(o, scope)
    ensures WellFormed(snap) && forall s <- snap :: Supported(s, scope)
  {
    hide SupportedSlice, SupportedService, WellFormedService, Intended, Mirrors, OwnedBy, Consistent;
    forall s <- snap
      ensures Addressed(s.endpointSlices) && WellFormedService(s.obj) && Supported(s, scope)
    {
      ShownAreObjects(snap, c, o, s);
      forall slice <- s.endpointSlices
        ensures SupportedSlice(s.obj, slice) && Addressed([slice])
      {
      }
      if scope == Ready {
        PairsConsistent(s.endpointSlices);
      }
    }
  }

  lemma SnapshotRoutes(snap: seq<SnapshotService>, c: Cache, o: Objects, address: string, port: nat, b: Backend,
                       scope: Scope)
    requires Shows(snap, c, o)
    ensures KubeRoutes(snap, address, port, b, scope) <==> ObjectsRoute(o, address, port, b, scope)
  {
    hide Shows, KubeFronts, SliceAssigns;
    if s, p, f: string, slice :|
        s in snap && p in s.obj.ports && KubeFronts(s.obj, p, address, port, f) && slice in s.endpointSlices &&
        SliceAssigns(s.obj, slice, p, f, b, scope) {
      ShownAreObjects(snap, c, o, s);
      assert SliceKey(slice) in o.slices;
    }
    if k, p, f: string, j :|
        k in o.services && p in o.services[k].ports && j in o.slices &&
        KubeFronts(o.services[k], p, address, port, f) &&
        SliceAssigns(o.services[k], o.slices[j], p, f, b, scope) {
      var s := ObjectsAreShown(snap, c, o, k);
      AssigningIsOwned(snap, c, o, k, o.slices[j], p, f, b, scope);
      assert Assigned(s, p, f, b, scope);
    }
  }

  lemma AssigningIsOwned(snap: seq<SnapshotService>, c: Cache, o: Objects, k: Key, slice: EndpointSlice, p: ServicePort,
                         f: string, b: Backend, scope: Scope)
    requires Shows(snap, c, o) && k in o.services && SliceAssigns(o.services[k], slice, p, f, b, scope)
    ensures OwnedBy(slice, k)
  {
    assert KeyOf(o.services[k]) == k;
  }

  lemma SnapshotBuilt(snap: seq<SnapshotService>, c: Cache, o: Objects, address: string, port: nat)
    requires Shows(snap, c, o) && BuiltFor(o, address, port)
    ensures BuiltAt(snap, address, port)
  {
    hide Shows, KubeFronts, Fronts;
    forall s <- snap ensures KeyOf(s.obj) in o.services && s.obj == o.services[KeyOf(s.obj)] {
      ShownAreObjects(snap, c, o, s);
    }
  }

  // ---------- when the cache is up to date ----------

  /** The history ends in a resync of everything live, which found nothing in the cache that it could not replace. */
  ghost predicate Resynced(log: seq<Event>) {
    exists m: nat | m <= |log| ::
      var o := Observed(log[..m]);
      Unambiguous(o) && Resends(log[m..], o) && Behind(Replay(log[..m]), o)
  }

  /** Since start-up, or since a resync, every event came in order. */
  ghost predicate UpToDate(log: seq<Event>) {
    exists n: nat | n <= |log| ::
      (n == 0 || Resynced(log[..n])) && forall i: nat | n <= i < |log| :: InOrderAt(log, i)
  }

  lemma ResyncedFollows(log: seq<Event>)
    requires Resynced(log)
    ensures Follows(log)
  {
    hide Follows, NamesApart, LabelsHome, Resends, Behind;
    var m: nat :| m <= |log| && Unambiguous(Observed(log[..m])) && Resends(log[m..], Observed(log[..m])) &&
                  Behind(Replay(log[..m]), Observed(log[..m]));
    HistoryRepairedIff(log[..m], log[m..]);
    assert log[..m] + log[m..] == log;
  }

  lemma UpToDateFollows(log: seq<Event>)
    requires UpToDate(log)
    ensures Follows(log)
  {
    hide FollowsAt, InOrderAt, Resynced;
    var n: nat :| n <= |log| && (n == 0 || Resynced(log[..n])) && forall i: nat | n <= i < |log| :: InOrderAt(log, i);
    StartsFollowing(log, n);
    for i := n to |log|
      invariant FollowsAt(log, i)
    {
      NextFollowsIff(log, i);
    }
    FollowsAtEnd(log);
  }

  lemma StartsFollowing(log: seq<Event>, n: nat)
    requires n <= |log| && (n == 0 || Resynced(log[..n]))
    ensures FollowsAt(log, n)
  {
    hide Resynced;
    if n == 0 {
      StartFollows(log);
    } else {
      ResyncedFollows(log[..n]);
    }
  }

  lemma FollowsAtEnd(log: seq<Event>)
    requires FollowsAt(log, |log|)
    ensures Follows(log)
  {
    assert log[..|log|] == log;
  }

  // ---------- the proxy at every moment ----------

  lemma ShownRoutes(
      snap: seq<SnapshotService>, c: Cache, o: Objects, parts: seq<seq<LoadAssignment>>, cfg: Config,
      address: string, port: nat, b: Backend, scope: Scope)
    requires Shows(snap, c, o) && Translates(snap, parts, cfg) && SupportedObjects(o, scope)
    ensures ReachesBackend(cfg, address, port, b, scope) ==> ObjectsRoute(o, address, port, b, scope)
    ensures BuiltFor(o, address, port) ==>
              (ReachesBackend(cfg, address, port, b, scope) <==> ObjectsRoute(o, address, port, b, scope))
  {
    hide *;
    SnapshotSupported(snap, c, o, scope);
    KubernetesRoutingPreserved(snap, parts, cfg, address, port, b, scope);
    SnapshotRoutes(snap, c, o, address, port, b, scope);
    if BuiltFor(o, address, port) {
      SnapshotBuilt(snap, c, o, address, port);
    }
  }

  /** The server holds `cfg`, and its cache was up to date when the snapshot behind it was taken. */
  ghost predicate Serving(s: Subscriber.State, snap: seq<SnapshotService>, parts: seq<seq<LoadAssignment>>,
                          cfg: Config) {
    && Subscriber.Reachable(s) && s.envoyAt <= |s.log| && UpToDate(s.log[..s.envoyAt])
    && SnapshotOf(snap, s.envoy) && Translates(snap, parts, cfg)
  }

  lemma ServingShows(s: Subscriber.State, snap: seq<SnapshotService>, parts: seq<seq<LoadAssignment>>, cfg: Config)
    requires Serving(s, snap, parts, cfg)
    ensures Shows(snap, s.envoy, Observed(s.log[..s.envoyAt])) && Translates(snap, parts, cfg)
  {
    hide Subscriber.Reachable, SnapshotOf, Translates, Mirrors, Intended, UpToDate;
    Subscriber.NoLostWakeUp(s);
    UpToDateFollows(s.log[..s.envoyAt]);
    ObservedNames(s.log[..s.envoyAt]);
  }

  /** In every reachable state the proxy is at worst stale: it routes as Kubernetes asked at the moment of the history
      at which the last published snapshot was taken. */
  lemma ProxyIsOnlyStale(
      s: Subscriber.State, snap: seq<SnapshotService>, parts: seq<seq<LoadAssignment>>, cfg: Config,
      address: string, port: nat, b: Backend, scope: Scope)
    requires Serving(s, snap, parts, cfg) && SupportedObjects(Observed(s.log[..s.envoyAt]), scope)
    ensures var o := Observed(s.log[..s.envoyAt]);
            && (ReachesBackend(cfg, address, port, b, scope) ==> ObjectsRoute(o, address, port, b, scope))
            && (BuiltFor(o, address, port) ==>
                  (ReachesBackend(cfg, address, port, b, scope) <==> ObjectsRoute(o, address, port, b, scope)))
  {
    hide SupportedObjects, ReachesBackend, ObjectsRoute, BuiltFor, Shows, Translates, Observed, UpToDate, SnapshotOf,
         Subscriber.Reachable;
    ServingShows(s, snap, parts, cfg);
    ShownRoutes(snap, s.envoy, Observed(s.log[..s.envoyAt]), parts, cfg, address, port, b, scope);
  }

  // ---------- the proxy at rest ----------

  /** The control plane is at rest with its last publication accepted, its cache is up to date, and `cfg` is a
      configuration the server can hold. */
  ghost predicate AtRest(s: Subscriber.State, snap: seq<SnapshotService>, parts: seq<seq<LoadAssignment>>,
                         cfg: Config) {
    && Subscriber.Reachable(s) && Subscriber.Quiescent(s) && !s.failed && UpToDate(s.log)
    && SnapshotOf(snap, s.envoy) && Translates(snap, parts, cfg)
  }

  lemma RestShows(s: Subscriber.State, snap: seq<SnapshotService>, parts: seq<seq<LoadAssignment>>, cfg: Config)
    requires AtRest(s, snap, parts, cfg)
    ensures Shows(snap, s.envoy, Observed(s.log)) && Translates(snap, parts, cfg)
  {
    hide Subscriber.Reachable, Subscriber.Quiescent, SnapshotOf, Translates, Mirrors, Intended, UpToDate;
    Subscriber.QuiescentDelivered(s);
    UpToDateFollows(s.log);
    ObservedNames(s.log);
  }

  /** Once the control plane is at rest, a connection to any address and port reaches through the proxy only backends
      that Kubernetes assigns to it by the live objects, and all of them where the code builds what Kubernetes asks
      for; so whichever way the goroutines interleaved and in whatever order the maps were walked. */
  lemma QuietProxyRoutesAsKubernetes(
      s: Subscriber.State, snap: seq<SnapshotService>, parts: seq<seq<LoadAssignment>>, cfg: Config,
      address: string, port: nat, b: Backend, scope: Scope)
    requires AtRest(s, snap, parts, cfg) && SupportedObjects(Observed(s.log), scope)
    ensures ReachesBackend(cfg, address, port, b, scope) ==> ObjectsRoute(Observed(s.log), address, port, b, scope)
    ensures BuiltFor(Observed(s.log), address, port) ==>
              (ReachesBackend(cfg, address, port, b, scope) <==> ObjectsRoute(Observed(s.log), address, port, b, scope))
  {
    hide *;
    RestShows(s, snap, parts, cfg);
    ShownRoutes(snap, s.envoy, Observed(s.log), parts, cfg, address, port, b, scope);
  }

  /** No two live service ports are given the same address and port. */
  ghost predicate ObjectsApart(o: Objects) {
    forall k <- o.services, p <- o.services[k].ports, f: string, l <- o.services, q <- o.services[l].ports, g: string,
           address: string, port: nat ::
      KubeFronts(o.services[k], p, address, port, f) && KubeFronts(o.services[l], q, address, port, g) ==>
        k == l && p == q && f == g
  }

  /** No port with backends has an external address of its own, or a node port of a LoadBalancer service. */
  ghost predicate ObjectsCovered(o: Objects, scope: Scope) {
    forall k <- o.services, p <- o.services[k].ports, f <- {"IPv4", "IPv6"}, j <- o.slices, b: Backend ::
      IsTCPPort(p) && SliceAssigns(o.services[k], o.slices[j], p, f, b, scope) ==> Covered(o.services[k], p, f)
  }

  lemma SnapshotApart(snap: seq<SnapshotService>, c: Cache, o: Objects)
    requires Shows(snap, c, o) && ObjectsApart(o) && DistinctServices(snap)
    ensures FrontsApart(snap)
  {
    hide Shows, KubeFronts;
    forall s <- snap ensures KeyOf(s.obj) in o.services && s.obj == o.services[KeyOf(s.obj)] {
      ShownAreObjects(snap, c, o, s);
    }
    forall s <- snap, t <- snap | KeyOf(s.obj) == KeyOf(t.obj) ensures s == t {
      NameDetermines(snap, s, t);
    }
  }

  lemma SnapshotCoveredIff(snap: seq<SnapshotService>, c: Cache, o: Objects, scope: Scope)
    requires Shows(snap, c, o)
    ensures AllCovered(snap, scope) <==> ObjectsCovered(o, scope)
  {
    hide Shows, SliceAssigns, Covered;
    forall s <- snap
      ensures KeyOf(s.obj) in o.services && s.obj == o.services[KeyOf(s.obj)]
      ensures forall slice <- s.endpointSlices :: SliceKey(slice) in o.slices && slice == o.slices[SliceKey(slice)]
    {
      ShownAreObjects(snap, c, o, s);
    }
    if AllCovered(snap, scope) {
      forall k <- o.services, p <- o.services[k].ports, f <- {"IPv4", "IPv6"}, j <- o.slices, b: Backend
        | IsTCPPort(p) && SliceAssigns(o.services[k], o.slices[j], p, f, b, scope)
        ensures Covered(o.services[k], p, f)
      {
        var s := ObjectsAreShown(snap, c, o, k);
        AssigningIsOwned(snap, c, o, k, o.slices[j], p, f, b, scope);
        assert Assigned(s, p, f, b, scope);
      }
    }
  }

  /** At rest the proxy serves every address and port as Kubernetes asks if and only if no live port with backends has
      an external address of its own or a node port of a LoadBalancer service. */
  lemma QuietProxyServesEverywhereIff(
      s: Subscriber.State, snap: seq<SnapshotService>, parts: seq<seq<LoadAssignment>>, cfg: Config, scope: Scope)
    requires AtRest(s, snap, parts, cfg) && SupportedObjects(Observed(s.log), scope) && ObjectsApart(Observed(s.log))
    requires forall k <- Observed(s.log).services :: OwnAddresses(Observed(s.log).services[k])
    ensures (forall address: string, port: nat, b: Backend ::
               ReachesBackend(cfg, address, port, b, scope) <==>
               ObjectsRoute(Observed(s.log), address, port, b, scope)) <==>
            ObjectsCovered(Observed(s.log), scope)
  {
    hide *;
    var o := Observed(s.log);
    RestShows(s, snap, parts, cfg);
    SnapshotSupported(snap, s.envoy, o, scope);
    WellFormedIsDistinct(snap);
    SnapshotApart(snap, s.envoy, o);
    SnapshotCoveredIff(snap, s.envoy, o, scope);
    forall t <- snap ensures OwnAddresses(t.obj) {
      ShownAreObjects(snap, s.envoy, o, t);
    }
    ServedEverywhereIff(snap, parts, cfg, scope);
    forall address: string, port: nat, b: Backend
      ensures KubeRoutes(snap, address, port, b, scope) <==> ObjectsRoute(o, address, port, b, scope)
    {
      SnapshotRoutes(snap, s.envoy, o, address, port, b, scope);
    }
  }

  lemma WellFormedIsDistinct(snap: seq<SnapshotService>)
    requires WellFormed(snap)
    ensures DistinctServices(snap)
  {
  }

  // ---------- what is redirected has a listener ----------

  /** The packet is sent to the proxy. */
  predicate Redirected(ch: Chains, packet: Packet, envoyPort: nat) {
    Fate(RedirectRun.Chain(ch, packet.v4), packet) == Some(envoyPort)
  }

  predicate TCPTo(packet: Packet, ip: NetIP) {
    packet.protocol == "tcp" && ip == NetIP(packet.v4, packet.destination)
  }

  predicate ListeningAt(cfg: Config, t: string, port: nat) {
    exists n <- cfg.listeners :: Takes(cfg.listeners[n], t, port)
  }

  /** (t, port) is a ClusterIP and TCP port of one service. */
  predicate ClusterIPOf(snap: seq<SnapshotService>, t: string, port: nat) {
    exists s <- snap, p <- s.obj.ports ::
      IsTCPPort(p) && t in s.obj.clusterIPs && t != "None" && port == ToUint32(p.port)
  }

  lemma SomeChain(svc: Service, p: ServicePort, f: string) returns (chain: Option<FilterChain>)
    ensures ChainFor(svc, p, f, chain)
  {
    if AppliesProtocol(p, "lightpath.cloud/redis") {
      return None;
    }
    chain := Some(FilterChain(if AppliesProtocol(p, "http") then Http else Tcp, TargetCluster(svc, p, f)));
  }

  lemma ListeningAtIff(
      snap: seq<SnapshotService>, parts: seq<seq<LoadAssignment>>, cfg: Config, t: string, port: nat)
    requires WellFormed(snap) && Translates(snap, parts, cfg)
    ensures ListeningAt(cfg, t, port) <==>
              exists s <- snap, p <- s.obj.ports, f: string :: Fronts(s.obj, p, t, port, f)
  {
    hide WellFormed, Translates, Fronts, ChainFor, Takes;
    if n :| n in cfg.listeners && Takes(cfg.listeners[n], t, port) {
      ConfiguredFronts(snap, parts, cfg, t, port, cfg.listeners[n].chain);
    }
    if s, p, f: string :| s in snap && p in s.obj.ports && Fronts(s.obj, p, t, port, f) {
      var chain := SomeChain(s.obj, p, f);
      ConfiguredFronts(snap, parts, cfg, t, port, chain);
    }
  }

  /** Away from the node's own ports, a listener is there exactly for a ClusterIP and port of a service. */
  lemma ListeningAtClusterIPIff(
      snap: seq<SnapshotService>, parts: seq<seq<LoadAssignment>>, cfg: Config, t: string, port: nat)
    requires WellFormed(snap) && Translates(snap, parts, cfg) && !NodeAddress(t)
    ensures ListeningAt(cfg, t, port) <==> ClusterIPOf(snap, t, port)
  {
    ListeningAtIff(snap, parts, cfg, t, port);
    hide WellFormed, Translates, ListeningAt;
    if s, p :| s in snap && p in s.obj.ports && IsTCPPort(p) && t in s.obj.clusterIPs && t != "None" &&
               port == ToUint32(p.port)
    {
      assert Fronts(s.obj, p, t, port, if ':' in t then "IPv6" else "IPv4");
    }
  }

  /** A packet is redirected exactly when it is TCP and some live service lists its destination. */
  lemma RedirectedIff(parse: Parser, ch: Chains, live: RedirectRun.Live, envoyPort: nat, packet: Packet)
    requires RedirectRun.Exact(parse, ch, live, envoyPort)
    ensures Redirected(ch, packet, envoyPort) <==>
              exists k <- live, u: string ::
                (u in live[k].clusterIPs || u in live[k].externalIPs) && TCPTo(packet, parse(u))
  {
    hide RedirectRun.Exact, Fate;
    ExactRedirects(parse, ch, live, envoyPort, packet);
  }

  /** Service `k` lists the address written `u` and has TCP port `p`: its clients connect there. */
  predicate Listed(parse: Parser, live: RedirectRun.Live, k: Key, u: string, p: ServicePort) {
    k in live && Lists(live[k], u) && p in live[k].ports && IsTCPPort(p) && parse(u).NetIP?
  }

  /** Every packet of a connection to a listed address and a port of its service is redirected. All such connections
      find a listener exactly when each such address is a ClusterIP of a service with that very port. */
  lemma RedirectedIsListenedIff(
      parse: Parser, ch: Chains, live: RedirectRun.Live, envoyPort: nat,
      snap: seq<SnapshotService>, parts: seq<seq<LoadAssignment>>, cfg: Config)
    requires RedirectRun.Exact(parse, ch, live, envoyPort)
    requires WellFormed(snap) && Translates(snap, parts, cfg)
    requires forall k, u, p :: Listed(parse, live, k, u, p) ==> !NodeAddress(parse(u).text)
    ensures forall k, u, p, packet :: Listed(parse, live, k, u, p) && TCPTo(packet, parse(u)) ==>
              Redirected(ch, packet, envoyPort)
    ensures (forall k, u, p :: Listed(parse, live, k, u, p) ==> ListeningAt(cfg, parse(u).text, ToUint32(p.port))) <==>
            (forall k, u, p :: Listed(parse, live, k, u, p) ==> ClusterIPOf(snap, parse(u).text, ToUint32(p.port)))
  {
    hide Redirected, ListeningAt, ClusterIPOf, WellFormed, Translates, RedirectRun.Exact;
    forall k, u, p, packet | Listed(parse, live, k, u, p) && TCPTo(packet, parse(u))
      ensures Redirected(ch, packet, envoyPort)
    {
      RedirectedIff(parse, ch, live, envoyPort, packet);
    }
    forall k, u, p | Listed(parse, live, k, u, p)
      ensures ListeningAt(cfg, parse(u).text, ToUint32(p.port)) <==> ClusterIPOf(snap, parse(u).text, ToUint32(p.port))
    {
      ListeningAtClusterIPIff(snap, parts, cfg, parse(u).text, ToUint32(p.port));
    }
  }

  /** TCP packets to a service's external address of its own are redirected, and nothing listens there; so for each of
      its external addresses. */
  lemma ExternalAddressUnanswered(
      parse: Parser, ch: Chains, envoyPort: nat, s: SnapshotService, parts: seq<seq<LoadAssignment>>, cfg: Config,
      port: nat, t: string, packet: Packet)
    requires s.obj.kind == "ClusterIP" && s.obj.clusterIPs == ["10.0.0.1"]
    requires s.obj.externalIPs == ["192.0.2.1", "192.0.2.2"] && t in s.obj.externalIPs
    requires parse(t) == NetIP(true, t) && TCPTo(packet, parse(t))
    requires RedirectRun.Exact(parse, ch, map[KeyOf(s.obj) := s.obj], envoyPort)
    requires WellFormed([s]) && Translates([s], parts, cfg)
    ensures Redirected(ch, packet, envoyPort) && !ListeningAt(cfg, t, port)
  {
    hide Redirected, ListeningAt, WellFormed, Translates, RedirectRun.Exact;
    var live := map[KeyOf(s.obj) := s.obj];
    RedirectedIff(parse, ch, live, envoyPort, packet);
    assert |t| == |"192.0.2.1"| && KeyOf(s.obj) in live;
    assert |"0.0.0.0"| != |t| && |"::"| != |t|;
    ListeningAtClusterIPIff([s], parts, cfg, t, port);
    assert s.obj.clusterIPs[0] == "10.0.0.1" && |"10.0.0.1"| != |t|;
  }

  /** A service that borrows another's ClusterIP as its external address is not answered at its own port. */
  lemma BorrowedAddressUnanswered(
      parse: Parser, ch: Chains, envoyPort: nat, a: SnapshotService, b: SnapshotService,
      parts: seq<seq<LoadAssignment>>, cfg: Config, packet: Packet)
    requires KeyOf(a.obj) != KeyOf(b.obj) && a.obj.clusterIPs == ["10.0.0.1"] && a.obj.externalIPs == ["10.0.0.22"]
    requires b.obj.clusterIPs == ["10.0.0.22"] && b.obj.externalIPs == []
    requires a.obj.ports == [WEB_PORT] && b.obj.ports == [WEB_PORT.(port := 443)]
    requires parse("10.0.0.22") == NetIP(true, "10.0.0.22") && TCPTo(packet, parse("10.0.0.22"))
    requires RedirectRun.Exact(parse, ch, map[KeyOf(a.obj) := a.obj, KeyOf(b.obj) := b.obj], envoyPort)
    requires WellFormed([a, b]) && Translates([a, b], parts, cfg)
    ensures Redirected(ch, packet, envoyPort)
    ensures ListeningAt(cfg, "10.0.0.22", 443) && !ListeningAt(cfg, "10.0.0.22", 80)
  {
    hide Redirected, ListeningAt, WellFormed, Translates, RedirectRun.Exact;
    var live := map[KeyOf(a.obj) := a.obj, KeyOf(b.obj) := b.obj];
    assert a.obj.externalIPs[0] == "10.0.0.22" && KeyOf(a.obj) in live;
    RedirectedIff(parse, ch, live, envoyPort, packet);
    assert |"0.0.0.0"| != |"10.0.0.22"| && |"::"| != |"10.0.0.22"| && |"None"| != |"10.0.0.22"|;
    ListeningAtClusterIPIff([a, b], parts, cfg, "10.0.0.22", 443);
    ListeningAtClusterIPIff([a, b], parts, cfg, "10.0.0.22", 80);
    assert a.obj.clusterIPs[0] == "10.0.0.1" && |"10.0.0.1"| != |"10.0.0.22"|;
    assert b in [a, b] && b.obj.ports[0] in b.obj.ports && b.obj.clusterIPs[0] == "10.0.0.22";
  }

  // ---------- the whole path ----------

  /** The ClusterIPs are written as they are printed. */
  predicate CanonicalClusterIPs(parse: Parser, o: Objects) {
    forall k <- o.services, ip <- o.services[k].clusterIPs | ip != "None" :: parse(ip).NetIP? && parse(ip).text == ip
  }

  /** The packet is of the family its destination is parsed to. */
  predicate OfItsFamily(parse: Parser, packet: Packet) {
    parse(packet.destination).NetIP? ==> parse(packet.destination).v4 == packet.v4
  }

  lemma FrontIsClusterIP(svc: Service, p: ServicePort, t: string, port: nat, f: string)
    requires Fronts(svc, p, t, port, f) && !NodeAddress(t)
    ensures t in svc.clusterIPs && t != "None"
  {
  }

  lemma RoutedIsRedirected(
      parse: Parser, ch: Chains, envoyPort: nat, o: Objects, packet: Packet, port: nat, b: Backend, scope: Scope)
    requires RedirectRun.Exact(parse, ch, o.services, envoyPort) && CanonicalClusterIPs(parse, o)
    requires packet.protocol == "tcp" && OfItsFamily(parse, packet) && !NodeAddress(packet.destination)
    requires BuiltFor(o, packet.destination, port) && ObjectsRoute(o, packet.destination, port, b, scope)
    ensures Redirected(ch, packet, envoyPort)
  {
    hide Redirected, RedirectRun.Exact, SliceAssigns, Fronts, KubeFronts, NodeAddress;
    var t := packet.destination;
    RedirectedIff(parse, ch, o.services, envoyPort, packet);
    var k, p, f: string, j :|
        k in o.services && p in o.services[k].ports && j in o.slices && KubeFronts(o.services[k], p, t, port, f) &&
        SliceAssigns(o.services[k], o.slices[j], p, f, b, scope);
    FrontIsClusterIP(o.services[k], p, t, port, f);
    assert t in o.services[k].clusterIPs && parse(t) == NetIP(packet.v4, t) && TCPTo(packet, parse(t));
  }

  lemma OnlyTCPIsRedirected(parse: Parser, ch: Chains, live: RedirectRun.Live, envoyPort: nat, packet: Packet)
    requires RedirectRun.Exact(parse, ch, live, envoyPort) && Redirected(ch, packet, envoyPort)
    ensures packet.protocol == "tcp"
  {
    hide RedirectRun.Exact, Redirected;
    RedirectedIff(parse, ch, live, envoyPort, packet);
  }

  lemma RunIsExact(parse: Parser, envoyPort: nat, events: seq<RedirectRun.ServiceEvent>, trace: seq<Chains>)
    requires RedirectRun.InformerLike(events) && RedirectRun.Run(parse, envoyPort, events, trace)
    requires forall e <- events :: RedirectRun.Harmless(parse, e)
    ensures |trace| == |events| + 1 &&
              RedirectRun.Exact(parse, trace[|events|], RedirectRun.LiveAfter(events), envoyPort)
  {
    hide RedirectRun.Exact, RedirectRun.InformerLike, RedirectRun.Harmless;
    RedirectRun.AlwaysExactIff(parse, envoyPort, events, trace);
    assert RedirectRun.ExactAt(parse, envoyPort, events, trace, |events|);
    assert events[..|events|] == events;
  }

  /** The whole path, for a control plane at rest and any run of the redirect program that saw the same services and no
      aliased update: where the code builds what Kubernetes asks for, a packet is sent to the proxy and its connection
      reaches a backend exactly when it is TCP and Kubernetes assigns that backend to its destination by the live
      objects. */
  lemma ClusterIPsForwarded(
      s: Subscriber.State, snap: seq<SnapshotService>, parts: seq<seq<LoadAssignment>>, cfg: Config,
      parse: Parser, envoyPort: nat, events: seq<RedirectRun.ServiceEvent>, trace: seq<Chains>,
      packet: Packet, port: nat, b: Backend, scope: Scope)
    requires AtRest(s, snap, parts, cfg) && SupportedObjects(Observed(s.log), scope)
    requires RedirectRun.InformerLike(events) && RedirectRun.Run(parse, envoyPort, events, trace)
    requires forall e <- events :: RedirectRun.Harmless(parse, e)
    requires RedirectRun.LiveAfter(events) == Observed(s.log).services && CanonicalClusterIPs(parse, Observed(s.log))
    requires OfItsFamily(parse, packet) && !NodeAddress(packet.destination)
    requires BuiltFor(Observed(s.log), packet.destination, port)
    ensures |trace| == |events| + 1
    ensures Redirected(trace[|events|], packet, envoyPort) &&
              ReachesBackend(cfg, packet.destination, port, b, scope) <==>
              packet.protocol == "tcp" && ObjectsRoute(Observed(s.log), packet.destination, port, b, scope)
  {
    hide *;
    RunIsExact(parse, envoyPort, events, trace);
    QuietProxyRoutesAsKubernetes(s, snap, parts, cfg, packet.destination, port, b, scope);
    if packet.protocol == "tcp" && ObjectsRoute(Observed(s.log), packet.destination, port, b, scope) {
      RoutedIsRedirected(parse, trace[|events|], envoyPort, Observed(s.log), packet, port, b, scope);
    }
    if Redirected(trace[|events|], packet, envoyPort) {
      OnlyTCPIsRedirected(parse, trace[|events|], RedirectRun.LiveAfter(events), envoyPort, packet);
    }
  }
}
