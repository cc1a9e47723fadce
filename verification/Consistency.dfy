/** The check the server makes before it publishes a snapshot, and only warns about: clusters and load assignments
    carry the same names (pkg/server/server.go). */
module Consistency {
  import opened Kube
  import opened Meaning
  import opened Naming
  import opened Endpoints
  import opened Grouping
  import opened CacheSpec
  import opened Mapper
  import opened Routing
  import opened Kubernetes

  /** Every cluster has its load assignment and every load assignment its cluster; routes are inline. */
  predicate ConsistentNames(cfg: Config) { cfg.clusters.Keys == cfg.assignments.Keys }

  /** Some slice has an endpoint of the family under the number. */
  ghost predicate SliceHas(s: SnapshotService, f: string, n: int32) {
    exists slice <- s.endpointSlices, sp <- slice.ports, e <- slice.endpoints ::
      SliceFamily(slice, f) && PortNumber(sp, n) && e.addresses != []
  }

  /** Every TCP port and listed family has an endpoint under the target port's number. */
  ghost predicate PortsHaveEndpoints(s: SnapshotService) {
    forall p <- s.obj.ports, f <- s.obj.ipFamilies, n: int32 | IsTCPPort(p) && TargetNumber(p, n) :: SliceHas(s, f, n)
  }

  /** Every family and port with an endpoint is listed and the target of a TCP port. */
  ghost predicate EndpointsHavePorts(s: SnapshotService) {
    forall f: string, n: int32 | SliceHas(s, f, n) ::
      f in s.obj.ipFamilies && exists p <- s.obj.ports :: IsTCPPort(p) && TargetNumber(p, n)
  }

  /** The same of the extracted endpoints. */
  predicate PortsExtracted(s: SnapshotService)
    requires Addressed(s.endpointSlices)
  {
    forall p <- s.obj.ports, f <- s.obj.ipFamilies | IsTCP(p) ::
      exists m <- Extracted(s) :: m.family == f && m.port == p.targetPort.IntVal()
  }

  predicate ExtractedTargeted(s: SnapshotService)
    requires Addressed(s.endpointSlices)
  {
    forall m <- Extracted(s) ::
      m.family in s.obj.ipFamilies && exists p <- s.obj.ports :: IsTCP(p) && p.targetPort.IntVal() == m.port
  }

  lemma SliceHasIff(s: SnapshotService, f: string, n: int32)
    requires Addressed(s.endpointSlices)
    ensures SliceHas(s, f, n) <==> exists m <- Extracted(s) :: m.family == f && m.port == n
  {
    hide Written, Tuples;
    if slice, sp, e :| slice in s.endpointSlices && sp in slice.ports && e in slice.endpoints &&
                       SliceFamily(slice, f) && PortNumber(sp, n) && e.addresses != []
    {
      var t := TupleOf(slice, sp, e);
      TupleDescribed(slice, sp, e, t);
      assert Offered(s.endpointSlices, Tuple(t.meta, t.conditions));
      ExtractedIsOffered(s.endpointSlices, t.meta);
      assert t.meta in Extracted(s) && t.meta.family == f && t.meta.port == n;
    }
    if m :| m in Extracted(s) && m.family == f && m.port == n {
      ExtractedIsOffered(s.endpointSlices, m);
    }
  }

  lemma ExtractedTermsIff(s: SnapshotService)
    requires Addressed(s.endpointSlices)
    ensures PortsHaveEndpoints(s) <==> PortsExtracted(s)
    ensures EndpointsHavePorts(s) <==> ExtractedTargeted(s)
  {
    hide PortsHaveEndpoints, PortsExtracted, EndpointsHavePorts, ExtractedTargeted;
    PortTermsIff(s);
    TargetTermsIff(s);
  }

  lemma PortTermsIff(s: SnapshotService)
    requires Addressed(s.endpointSlices)
    ensures PortsHaveEndpoints(s) <==> PortsExtracted(s)
  {
    hide Extracted, SliceHas, TargetNumber;
    forall p: ServicePort, n: int32 ensures TargetNumber(p, n) <==> n == p.targetPort.IntVal() {
      TargetNumberIs(p, n);
    }
    forall f: string, n: int32
      ensures SliceHas(s, f, n) <==> exists m <- Extracted(s) :: m.family == f && m.port == n
    {
      SliceHasIff(s, f, n);
    }
    if PortsHaveEndpoints(s) {
      forall p <- s.obj.ports, f <- s.obj.ipFamilies | IsTCP(p)
        ensures exists m <- Extracted(s) :: m.family == f && m.port == p.targetPort.IntVal()
      {
        assert TargetNumber(p, p.targetPort.IntVal());
        assert SliceHas(s, f, p.targetPort.IntVal());
      }
    }
  }

  lemma TargetTermsIff(s: SnapshotService)
    requires Addressed(s.endpointSlices)
    ensures EndpointsHavePorts(s) <==> ExtractedTargeted(s)
  {
    hide Extracted, SliceHas, TargetNumber;
    forall p: ServicePort, n: int32 ensures TargetNumber(p, n) <==> n == p.targetPort.IntVal() {
      TargetNumberIs(p, n);
    }
    forall f: string, n: int32
      ensures SliceHas(s, f, n) <==> exists m <- Extracted(s) :: m.family == f && m.port == n
    {
      SliceHasIff(s, f, n);
    }
    if EndpointsHavePorts(s) {
      forall m <- Extracted(s)
        ensures m.family in s.obj.ipFamilies && exists p <- s.obj.ports :: IsTCP(p) && p.targetPort.IntVal() == m.port
      {
        assert SliceHas(s, m.family, m.port);
      }
    }
  }

  /** A cluster carries the name of a TCP port's target in a listed family. */
  ghost predicate NamesTarget(s: SnapshotService, t: string) {
    exists p <- s.obj.ports, f <- s.obj.ipFamilies :: IsTCP(p) && t == TargetCluster(s.obj, p, f)
  }

  /** A load assignment carries the name of an endpoint's family and port. */
  ghost predicate NamesEndpoint(s: SnapshotService, t: string)
    requires Addressed(s.endpointSlices)
  {
    exists m <- Extracted(s) :: t == NameFor(s.obj, m)
  }

  ghost predicate SomeTarget(snap: seq<SnapshotService>, t: string) { exists s <- snap :: NamesTarget(s, t) }

  ghost predicate SomeEndpoint(snap: seq<SnapshotService>, t: string)
    requires AllAddressed(snap)
  {
    exists s <- snap :: NamesEndpoint(s, t)
  }

  lemma ClusterNames(snap: seq<SnapshotService>, parts: seq<seq<LoadAssignment>>, cfg: Config, t: string)
    requires Translates(snap, parts, cfg)
    ensures t in cfg.clusters <==> SomeTarget(snap, t)
  {
    hide Listeners, Clusters, Flat, Parts, AllAddressed, TargetCluster;
    IndexLast(Clusters(snap), (c: Cluster) => c.name, t);
    if c :| c in Clusters(snap) && c.name == t {
      ClustersListed(snap, c);
    }
    if s, p, f :| s in snap && p in s.obj.ports && f in s.obj.ipFamilies && IsTCP(p) &&
                  t == TargetCluster(s.obj, p, f)
    {
      ClustersListed(snap, ClusterFor(s.obj, p, f));
    }
  }

  lemma AssignmentNames(snap: seq<SnapshotService>, parts: seq<seq<LoadAssignment>>, cfg: Config, t: string)
    requires Translates(snap, parts, cfg)
    ensures t in cfg.assignments <==> SomeEndpoint(snap, t)
  {
    hide Listeners, Clusters, Flat, Wanted, Tidy, NameFor, Written, Tuples;
    IndexLast(Flat(parts), (a: LoadAssignment) => a.cluster, t);
    if a :| a in Flat(parts) && a.cluster == t {
      FlatListed(parts, a);
      var part :| part in parts && a in part;
      var i :| 0 <= i < |parts| && parts[i] == part;
      var m := AssignmentNamed(snap[i].obj, Extracted(snap[i]), part, a);
      assert snap[i] in snap && NamesEndpoint(snap[i], t);
    }
    if s :| s in snap && NamesEndpoint(s, t) {
      EndpointIsAssigned(snap, parts, s, t);
    }
  }

  lemma EndpointIsAssigned(snap: seq<SnapshotService>, parts: seq<seq<LoadAssignment>>, s: SnapshotService, t: string)
    requires AllAddressed(snap) && Parts(snap, parts) && s in snap && NamesEndpoint(s, t)
    ensures exists a <- Flat(parts) :: a.cluster == t
  {
    hide Tidy, NameFor, Written, Tuples, Flat;
    var m :| m in Extracted(s) && t == NameFor(s.obj, m);
    var i :| 0 <= i < |snap| && snap[i] == s;
    var place := PlaceOf(s.obj, m, Extracted(s)[m]);
    assert Wanted(s.obj, Extracted(s), place) && Holds(parts[i], place);
    var a, g :| a in parts[i] && g in a.groups && a.cluster == place.cluster;
    assert parts[i] in parts;
    FlatListed(parts, a);
  }

  /** Names of one service mean its own ports and endpoints. */
  lemma OwnNames(snap: seq<SnapshotService>, s: SnapshotService, t: SnapshotService, p: ServicePort, f: string, m: Meta)
    requires WellFormed(snap) && s in snap && t in snap
    requires p in s.obj.ports && f in s.obj.ipFamilies && m in Extracted(t)
    requires TargetCluster(s.obj, p, f) == NameFor(t.obj, m)
    ensures s == t && m.family == f && m.port == p.targetPort.IntVal()
  {
    ExtractedFamilies(t.endpointSlices);
    ClusterNameInjective(s.obj.namespace, s.obj.name, f, p.targetPort.IntVal(), t.obj.namespace, t.obj.name, m.family,
                         m.port);
    NameDetermines(snap, s, t);
  }

  /** The published names are consistent exactly when every TCP port and listed family has an endpoint, and every
      endpoint's family is listed and its port the target of a TCP port. */
  lemma ConsistentNamesIff(snap: seq<SnapshotService>, parts: seq<seq<LoadAssignment>>, cfg: Config)
    requires WellFormed(snap) && Translates(snap, parts, cfg)
    ensures ConsistentNames(cfg) <==> forall s <- snap :: PortsHaveEndpoints(s) && EndpointsHavePorts(s)
  {
    hide Translates, WellFormedService, DistinctServices, SomeTarget, SomeEndpoint, PortsExtracted, ExtractedTargeted,
         PortsHaveEndpoints, EndpointsHavePorts;
    forall s <- snap
      ensures PortsHaveEndpoints(s) && EndpointsHavePorts(s) <==> PortsExtracted(s) && ExtractedTargeted(s)
    {
      ExtractedTermsIff(s);
    }
    forall t: string
      ensures t in cfg.clusters <==> SomeTarget(snap, t)
      ensures t in cfg.assignments <==> SomeEndpoint(snap, t)
    {
      ClusterNames(snap, parts, cfg, t);
      AssignmentNames(snap, parts, cfg, t);
    }
    if ConsistentNames(cfg) {
      forall s <- snap ensures PortsExtracted(s) && ExtractedTargeted(s) {
        ConsistentService(snap, cfg, s);
      }
    }
    if forall s <- snap :: PortsExtracted(s) && ExtractedTargeted(s) {
      forall t: string ensures SomeTarget(snap, t) <==> SomeEndpoint(snap, t) {
        AllNamesAgree(snap, t);
      }
    }
  }

  lemma AllNamesAgree(snap: seq<SnapshotService>, t: string)
    requires AllAddressed(snap) && forall s <- snap :: PortsExtracted(s) && ExtractedTargeted(s)
    ensures SomeTarget(snap, t) <==> SomeEndpoint(snap, t)
  {
    hide NamesTarget, NamesEndpoint, PortsExtracted, ExtractedTargeted;
    forall s <- snap ensures NamesTarget(s, t) <==> NamesEndpoint(s, t) {
      if NamesTarget(s, t) {
        TargetsNameEndpoints(s, t);
      }
      if NamesEndpoint(s, t) {
        EndpointsNameTargets(s, t);
      }
    }
  }

  lemma TargetsNameEndpoints(s: SnapshotService, t: string)
    requires Addressed(s.endpointSlices) && PortsExtracted(s) && NamesTarget(s, t)
    ensures NamesEndpoint(s, t)
  {
    hide Extracted, ClusterName;
    var p, f :| p in s.obj.ports && f in s.obj.ipFamilies && IsTCP(p) && t == TargetCluster(s.obj, p, f);
    var m :| m in Extracted(s) && m.family == f && m.port == p.targetPort.IntVal();
    assert t == NameFor(s.obj, m);
  }

  lemma EndpointsNameTargets(s: SnapshotService, t: string)
    requires Addressed(s.endpointSlices) && ExtractedTargeted(s) && NamesEndpoint(s, t)
    ensures NamesTarget(s, t)
  {
    hide Extracted, ClusterName;
    var m :| m in Extracted(s) && t == NameFor(s.obj, m);
    var p :| p in s.obj.ports && IsTCP(p) && p.targetPort.IntVal() == m.port;
    assert t == TargetCluster(s.obj, p, m.family);
  }

  lemma ConsistentService(snap: seq<SnapshotService>, cfg: Config, s: SnapshotService)
    requires WellFormed(snap) && s in snap && ConsistentNames(cfg)
    requires forall t: string :: t in cfg.clusters <==> SomeTarget(snap, t)
    requires forall t: string :: t in cfg.assignments <==> SomeEndpoint(snap, t)
    ensures PortsExtracted(s) && ExtractedTargeted(s)
  {
    hide Extracted, TargetCluster, NameFor, WellFormedService, DistinctServices;
    forall p <- s.obj.ports, f <- s.obj.ipFamilies | IsTCP(p)
      ensures exists m <- Extracted(s) :: m.family == f && m.port == p.targetPort.IntVal()
    {
      var name := TargetCluster(s.obj, p, f);
      assert NamesTarget(s, name) && SomeTarget(snap, name) && SomeEndpoint(snap, name);
      var t :| t in snap && NamesEndpoint(t, name);
      var m :| m in Extracted(t) && name == NameFor(t.obj, m);
      OwnNames(snap, s, t, p, f, m);
    }
    forall m <- Extracted(s)
      ensures m.family in s.obj.ipFamilies && exists p <- s.obj.ports :: IsTCP(p) && p.targetPort.IntVal() == m.port
    {
      var name := NameFor(s.obj, m);
      assert NamesEndpoint(s, name) && SomeEndpoint(snap, name) && SomeTarget(snap, name);
      var t :| t in snap && NamesTarget(t, name);
      var p, f :| p in t.obj.ports && f in t.obj.ipFamilies && IsTCP(p) && name == TargetCluster(t.obj, p, f);
      OwnNames(snap, t, s, p, f, m);
    }
  }

  const UDP_SERVICE := SnapshotService(WEB_SERVICE.(ports := [WEB_PORT.(protocol := "UDP")]), [WEB_SLICE])

  /** A named target port and a UDP port each break it: the endpoints of both have no cluster. */
  lemma NamedAndUdpPortsBreakConsistency(s: SnapshotService, parts: seq<seq<LoadAssignment>>, cfg: Config)
    requires s in {NAMED, UDP_SERVICE} && Translates([s], parts, cfg)
    ensures WellFormed([s]) && !ConsistentNames(cfg)
  {
    BreakersAreWellFormed(s);
    hide Translates, WellFormed;
    ConsistentNamesIff([s], parts, cfg);
    assert [s][0] == s;
  }

  lemma BreakersAreWellFormed(s: SnapshotService)
    requires s in {NAMED, UDP_SERVICE}
    ensures WellFormed([s]) && !EndpointsHavePorts(s)
  {
    NamedIsSupported();
    assert WEB_SLICE in s.endpointSlices && WEB_SLICE.ports[0] in WEB_SLICE.ports &&
        WEB_SLICE.endpoints[0] == WEB_ENDPOINT;
    assert PortNumber(WEB_SLICE.ports[0], 8080) && SliceFamily(WEB_SLICE, "IPv4");
    assert SliceHas(s, "IPv4", 8080);
  }
}
