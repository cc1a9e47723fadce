/** The Kubernetes meaning of a service port, and exactly when the translation keeps it. */
module Kubernetes {
  import opened Kube
  import opened Meaning
  import opened Naming
  import opened Endpoints
  import opened Grouping
  import opened CacheSpec
  import opened Namespaced
  import opened Mapper
  import opened Routing

  // ---------- where a service port answers ----------

  /** Kubernetes opens a node port: always for NodePort services, for LoadBalancer ones when one is allocated. */
  predicate HasNodePort(svc: Service, p: ServicePort) {
    svc.kind == "NodePort" || (svc.kind == "LoadBalancer" && p.nodePort != 0)
  }

  /** `address` is a ClusterIP of the service, of the family listed in its place. */
  predicate ClusterIPOfFamily(svc: Service, address: string, family: string) {
    exists i :: 0 <= i < |svc.clusterIPs| && i < |svc.ipFamilies| &&
                svc.clusterIPs[i] == address && svc.ipFamilies[i] == family
  }

  /** In Kubernetes port `p` of `svc` answers at (address, port) for traffic of `family`: on its ClusterIPs and
      external addresses under its own number, and on every address of the node under its node port. */
  predicate KubeFronts(svc: Service, p: ServicePort, address: string, port: nat, family: string) {
    IsTCPPort(p) &&
    ((ClusterIPOfFamily(svc, address, family) && address != "None" && port == ToUint32(p.port)) ||
     (address in svc.externalIPs && TextFamily(address, family) && port == ToUint32(p.port)) ||
     (HasNodePort(svc, p) && family in svc.ipFamilies && NodeAddressOf(family, address) &&
      port == ToUint32(p.nodePort)))
  }

  /** Every ClusterIP has its family listed in its place, and is written as that family's addresses are. */
  predicate Paired(svc: Service) {
    forall i :: 0 <= i < |svc.clusterIPs| && svc.clusterIPs[i] != "None" ==>
      i < |svc.ipFamilies| && TextFamily(svc.clusterIPs[i], svc.ipFamilies[i])
  }

  /** The family the code reads off an address is the one listed exactly when the IPv6 addresses, and only they, are
      written with a colon. */
  lemma FamiliesReadIff(svc: Service)
    requires |svc.clusterIPs| <= |svc.ipFamilies| && forall f <- svc.ipFamilies :: f in {"IPv4", "IPv6"}
    ensures (forall i :: 0 <= i < |svc.clusterIPs| && svc.clusterIPs[i] != "None" ==>
               FamilyOfIP(svc.clusterIPs[i]) == svc.ipFamilies[i]) <==>
            (forall i :: 0 <= i < |svc.clusterIPs| && svc.clusterIPs[i] != "None" ==>
               (svc.ipFamilies[i] == "IPv6" <==> ':' in svc.clusterIPs[i]))
  {
    assert forall i :: 0 <= i < |svc.clusterIPs| ==> svc.ipFamilies[i] in svc.ipFamilies;
  }

  /** What the code builds is asked for by Kubernetes. */
  lemma FrontsAreKubeFronts(svc: Service, p: ServicePort, address: string, port: nat, f: string)
    requires Paired(svc) && Fronts(svc, p, address, port, f)
    ensures KubeFronts(svc, p, address, port, f)
  {
    if address in svc.clusterIPs && address != "None" {
      var i :| 0 <= i < |svc.clusterIPs| && svc.clusterIPs[i] == address;
      assert TextFamily(address, f) ==> svc.ipFamilies[i] == f;
    }
  }

  /** Every address Kubernetes gives the port for the family is one the code builds a listener for: external addresses
      are ClusterIPs as well, and there is no node port of a LoadBalancer service. */
  predicate Covered(svc: Service, p: ServicePort, f: string) {
    && (forall ip <- svc.externalIPs | TextFamily(ip, f) :: ip in svc.clusterIPs && ip != "None")
    && !(svc.kind == "LoadBalancer" && p.nodePort != 0 && f in svc.ipFamilies)
  }

  /** No address of the service is the any-address of a node. */
  ghost predicate OwnAddresses(svc: Service) { forall u | Lists(svc, u) :: !NodeAddress(u) }

  lemma CoveredIff(svc: Service, p: ServicePort, f: string)
    requires IsTCPPort(p) && OwnAddresses(svc) && Paired(svc)
    ensures Covered(svc, p, f) <==>
              forall address: string, port: nat ::
                KubeFronts(svc, p, address, port, f) ==> Fronts(svc, p, address, port, f)
  {
    if ip :| ip in svc.externalIPs && TextFamily(ip, f) && !(ip in svc.clusterIPs && ip != "None") {
      assert KubeFronts(svc, p, ip, ToUint32(p.port), f) && Lists(svc, ip) && !NodeAddress(ip);
    }
    var node := if f == "IPv6" then "::" else "0.0.0.0";
    if svc.kind == "LoadBalancer" && p.nodePort != 0 && f in svc.ipFamilies {
      assert KubeFronts(svc, p, node, ToUint32(p.nodePort), f) && NodeAddress(node);
    }
    if Covered(svc, p, f) {
      forall address: string, port: nat | KubeFronts(svc, p, address, port, f)
        ensures Fronts(svc, p, address, port, f)
      {
        assert address in svc.clusterIPs || address in svc.externalIPs ==> Lists(svc, address);
      }
    }
  }

  // ---------- one slice ----------

  /** An endpoint's address and port, and the protocol connections to it are handled by. */
  datatype Backend = Backend(address: string, port: nat, protocol: Protocol)

  function BackendOf(e: Endpoint, number: int32, p: ServicePort): Backend
    requires e.addresses != []
  {
    Backend(e.addresses[0], ToUint32(number), if AppliesProtocol(p, "http") then Http else Tcp)
  }

  /** Of all endpoints, or only of those that are ready and not terminating. */
  datatype Scope = Any | Ready

  predicate InScope(e: Endpoint, scope: Scope) {
    scope == Ready ==> e.ready != Some(false) && e.terminating != Some(true)
  }

  /** In Kubernetes a slice belongs to the service that its label names in its own namespace. */
  predicate SliceOf(slice: EndpointSlice, svc: Service) {
    LabelledFor(slice, svc.name) && slice.namespace == svc.namespace
  }

  /** A slice port serves a service port by carrying its name. */
  predicate ServesByName(sp: EndpointPort, p: ServicePort) {
    && (sp.name == Some(p.name) || (sp.name == None && p.name == ""))
    && (sp.protocol == Some("TCP") || sp.protocol == None) && sp.port.Some?
  }

  /** The backends Kubernetes assigns to port `p` of `svc` and family `f` out of one slice. */
  ghost predicate SliceAssigns(svc: Service, slice: EndpointSlice, p: ServicePort, f: string, b: Backend,
                               scope: Scope) {
    SliceOf(slice, svc) && slice.addressType == f &&
    exists sp <- slice.ports, e <- slice.endpoints ::
      ServesByName(sp, p) && e.addresses != [] && InScope(e, scope) && b == BackendOf(e, sp.port.value, p)
  }

  /** The backends the translation finds in the slice: by the number of the target port. */
  ghost predicate SliceOffers(slice: EndpointSlice, p: ServicePort, f: string, b: Backend, scope: Scope) {
    SliceFamily(slice, f) &&
    exists sp <- slice.ports, e <- slice.endpoints, n: int32 ::
      PortNumber(sp, n) && TargetNumber(p, n) && e.addresses != [] && InScope(e, scope) && b == BackendOf(e, n, p)
  }

  /** The port numbers Kubernetes uses of this slice, and those the translation uses. */
  function AssignedNumbers(svc: Service, slice: EndpointSlice, p: ServicePort, f: string): set<int32> {
    set sp <- slice.ports | SliceOf(slice, svc) && slice.addressType == f && ServesByName(sp, p) :: sp.port.value
  }

  function OfferedNumbers(slice: EndpointSlice, p: ServicePort, f: string): set<int32> {
    set sp <- slice.ports, n <- (if sp.port.Some? then {sp.port.value} else {0}) |
      SliceFamily(slice, f) && TargetNumber(p, n) :: n
  }

  predicate PortsAgree(svc: Service, slice: EndpointSlice, p: ServicePort, f: string) {
    AssignedNumbers(svc, slice, p, f) == OfferedNumbers(slice, p, f)
  }

  lemma Uint32Injective(m: int32, n: int32)
    requires ToUint32(m) == ToUint32(n)
    ensures m == n
  {
  }

  /** Some endpoint in scope with one of the numbers is `b`. */
  ghost predicate Numbered(slice: EndpointSlice, numbers: set<int32>, p: ServicePort, b: Backend, scope: Scope) {
    exists n <- numbers, e <- slice.endpoints :: e.addresses != [] && InScope(e, scope) && b == BackendOf(e, n, p)
  }

  lemma BackendsByNumber(svc: Service, slice: EndpointSlice, p: ServicePort, f: string, b: Backend, scope: Scope)
    ensures SliceAssigns(svc, slice, p, f, b, scope) <==>
              Numbered(slice, AssignedNumbers(svc, slice, p, f), p, b, scope)
    ensures SliceOffers(slice, p, f, b, scope) <==> Numbered(slice, OfferedNumbers(slice, p, f), p, b, scope)
  {
    hide SliceOf;
    if sp, e :| sp in slice.ports && e in slice.endpoints && SliceOf(slice, svc) && slice.addressType == f &&
                ServesByName(sp, p) && e.addresses != [] && InScope(e, scope) && b == BackendOf(e, sp.port.value, p) {
      assert sp.port.value in AssignedNumbers(svc, slice, p, f);
    }
    if sp, e, n: int32 :| sp in slice.ports && e in slice.endpoints && SliceFamily(slice, f) && PortNumber(sp, n) &&
                          TargetNumber(p, n) && e.addresses != [] && InScope(e, scope) && b == BackendOf(e, n, p) {
      assert n in OfferedNumbers(slice, p, f);
    }
  }

  /** On a slice with endpoints the translation agrees with Kubernetes exactly when the port numbers agree. */
  lemma SliceAgreesIff(svc: Service, slice: EndpointSlice, p: ServicePort, f: string)
    requires slice.endpoints != [] && forall e <- slice.endpoints :: e.addresses != []
    ensures (forall b: Backend :: SliceAssigns(svc, slice, p, f, b, Any) <==> SliceOffers(slice, p, f, b, Any)) <==>
              PortsAgree(svc, slice, p, f)
  {
    hide SliceAssigns, SliceOffers, AssignedNumbers, OfferedNumbers, Numbered;
    forall b: Backend {
      BackendsByNumber(svc, slice, p, f, b, Any);
    }
    if forall b: Backend :: SliceAssigns(svc, slice, p, f, b, Any) <==> SliceOffers(slice, p, f, b, Any) {
      var e := slice.endpoints[0];
      forall n: int32
        ensures n in AssignedNumbers(svc, slice, p, f) <==> n in OfferedNumbers(slice, p, f)
      {
        NumberShown(slice, AssignedNumbers(svc, slice, p, f), p, n);
        NumberShown(slice, OfferedNumbers(slice, p, f), p, n);
        BackendsByNumber(svc, slice, p, f, BackendOf(e, n, p), Any);
      }
    }
  }

  /** The first endpoint shows which numbers are used. */
  lemma NumberShown(slice: EndpointSlice, numbers: set<int32>, p: ServicePort, n: int32)
    requires slice.endpoints != [] && forall e <- slice.endpoints :: e.addresses != []
    ensures n in numbers <==> Numbered(slice, numbers, p, BackendOf(slice.endpoints[0], n, p), Any)
  {
    if m, e :| m in numbers && e in slice.endpoints && BackendOf(slice.endpoints[0], n, p) == BackendOf(e, m, p)
    {
      Uint32Injective(m, n);
    }
    if n in numbers {
      assert slice.endpoints[0] in slice.endpoints;
    }
  }

  /** A named target port is looked up as number 0: it never agrees with slices that carry real numbers. */
  lemma NamedTargetPortNeverAgrees(svc: Service, slice: EndpointSlice, p: ServicePort, f: string)
    requires p.targetPort.FromString? && AssignedNumbers(svc, slice, p, f) != {}
    requires forall sp <- slice.ports :: sp.port.Some? && sp.port.value != 0
    ensures !PortsAgree(svc, slice, p, f)
  {
    assert OfferedNumbers(slice, p, f) == {};
  }

  /** A slice of another namespace that came in through its label agrees only if it offers nothing. */
  lemma ForeignSliceAgreesIff(svc: Service, slice: EndpointSlice, p: ServicePort, f: string)
    requires slice.namespace != svc.namespace
    ensures PortsAgree(svc, slice, p, f) <==> OfferedNumbers(slice, p, f) == {}
  {
    assert AssignedNumbers(svc, slice, p, f) == {};
  }

  // ---------- the whole snapshot ----------

  /** A connection can end at `b`, handled by its protocol; in the narrower scope, at `b` while it is marked healthy. */
  ghost predicate ReachesBackend(cfg: Config, address: string, port: nat, b: Backend, scope: Scope) {
    exists lb: LbEndpoint :: Reaches(cfg, address, port, b.protocol, lb) && ShownAs(lb, b, scope)
  }

  predicate ShownAs(lb: LbEndpoint, b: Backend, scope: Scope) {
    b.address == lb.address && b.port == lb.port && (scope == Ready ==> lb.health == Healthy)
  }

  /** Kubernetes assigns `b` to port `p` and family `f` of the service. */
  ghost predicate Assigned(s: SnapshotService, p: ServicePort, f: string, b: Backend, scope: Scope) {
    exists slice <- s.endpointSlices :: SliceAssigns(s.obj, slice, p, f, b, scope)
  }

  /** What Kubernetes asks of (address, port): the backends of the service port that answers there. */
  ghost predicate KubeRoutes(snap: seq<SnapshotService>, address: string, port: nat, b: Backend, scope: Scope) {
    exists s <- snap, p <- s.obj.ports, f: string ::
      KubeFronts(s.obj, p, address, port, f) && Assigned(s, p, f, b, scope)
  }

  /** The translation supports this service: no Redis port, and the families of its ClusterIPs are listed. */
  predicate SupportedService(svc: Service) {
    Paired(svc) && forall p <- svc.ports | IsTCPPort(p) :: !AppliesProtocol(p, "lightpath.cloud/redis")
  }

  /** The slice's port numbers agree for every TCP port and family of the service, or it has no endpoints. */
  predicate SupportedSlice(svc: Service, slice: EndpointSlice) {
    slice.endpoints != [] ==> forall p <- svc.ports, f <- svc.ipFamilies | IsTCPPort(p) :: PortsAgree(svc, slice, p, f)
  }

  /** Readiness is told apart only where duplicate endpoints carry equal conditions. */
  ghost predicate Supported(s: SnapshotService, scope: Scope) {
    && SupportedService(s.obj) && (forall slice <- s.endpointSlices :: SupportedSlice(s.obj, slice))
    && (scope == Ready ==> Consistent(s.endpointSlices))
  }

  lemma HealthyInScope(slice: EndpointSlice, sp: EndpointPort, e: Endpoint)
    requires e.addresses != []
    ensures forall t: Tuple | Describes(slice, sp, e, t) :: HealthOf(t.conditions) == Healthy <==> InScope(e, Ready)
  {
  }

  /** An endpoint of the family and the target port's number, in the port's protocol, is shown as `b`. */
  ghost predicate HoldsBackend(s: SnapshotService, p: ServicePort, f: string, lb: LbEndpoint, b: Backend, scope: Scope)
    requires Addressed(s.endpointSlices)
  {
    && (exists n: int32 :: TargetNumber(p, n) && HasEndpoint(s, f, n, lb))
    && ShownAs(lb, b, scope) && b.protocol == if AppliesProtocol(p, "http") then Http else Tcp
  }

  /** The endpoints a port's load assignment holds are those its slices offer; the healthy ones, the ready ones. */
  lemma EndpointsOffered(s: SnapshotService, p: ServicePort, f: string, b: Backend, scope: Scope)
    requires Addressed(s.endpointSlices) && (scope == Ready ==> Consistent(s.endpointSlices))
    ensures (exists lb: LbEndpoint :: HoldsBackend(s, p, f, lb, b, scope)) <==>
              exists slice <- s.endpointSlices :: SliceOffers(slice, p, f, b, scope)
  {
    if lb: LbEndpoint :| HoldsBackend(s, p, f, lb, b, scope) {
      HeldIsOffered(s, p, f, lb, b, scope);
    }
    if slice :| slice in s.endpointSlices && SliceOffers(slice, p, f, b, scope) {
      OfferedIsHeld(s, slice, p, f, b, scope);
    }
  }

  lemma HeldIsOffered(s: SnapshotService, p: ServicePort, f: string, lb: LbEndpoint, b: Backend, scope: Scope)
    requires Addressed(s.endpointSlices) && HoldsBackend(s, p, f, lb, b, scope)
    ensures exists slice <- s.endpointSlices :: SliceOffers(slice, p, f, b, scope)
  {
    hide Written, Tuples, TargetNumber, SliceOffers, EndpointFor, ShownAs, AppliesProtocol;
    var n: int32 :| TargetNumber(p, n) && HasEndpoint(s, f, n, lb);
    var m :| m in Extracted(s) && m.family == f && m.port == n && lb == EndpointFor(m, Extracted(s)[m]);
    ExtractedIsOffered(s.endpointSlices, m);
    var slice, sp, e :| slice in s.endpointSlices && sp in slice.ports && e in slice.endpoints && e.addresses != [] &&
                        Describes(slice, sp, e, Tuple(m, Extracted(s)[m]));
    DescribedOffers(slice, sp, e, Tuple(m, Extracted(s)[m]), p, lb, b, scope);
  }

  lemma DescribedOffers(slice: EndpointSlice, sp: EndpointPort, e: Endpoint, t: Tuple, p: ServicePort, lb: LbEndpoint,
                        b: Backend, scope: Scope)
    requires sp in slice.ports && e in slice.endpoints && e.addresses != [] && Describes(slice, sp, e, t)
    requires TargetNumber(p, t.meta.port) && lb == EndpointFor(t.meta, t.conditions) && ShownAs(lb, b, scope)
    requires b.protocol == if AppliesProtocol(p, "http") then Http else Tcp
    ensures SliceOffers(slice, p, t.meta.family, b, scope)
  {
    HealthyInScope(slice, sp, e);
    hide HealthOf, TargetNumber, AppliesProtocol;
    assert b == BackendOf(e, t.meta.port, p) && PortNumber(sp, t.meta.port);
  }

  lemma OfferedIsHeld(s: SnapshotService, slice: EndpointSlice, p: ServicePort, f: string, b: Backend, scope: Scope)
    requires Addressed(s.endpointSlices) && (scope == Ready ==> Consistent(s.endpointSlices))
    requires slice in s.endpointSlices && SliceOffers(slice, p, f, b, scope)
    ensures exists lb: LbEndpoint :: HoldsBackend(s, p, f, lb, b, scope)
  {
    hide Written, Tuples, HealthOf, TargetNumber;
    var sp, e, n: int32 :| sp in slice.ports && e in slice.endpoints && PortNumber(sp, n) && TargetNumber(p, n) &&
                           e.addresses != [] && InScope(e, scope) && b == BackendOf(e, n, p);
    var t := TupleOf(slice, sp, e);
    TupleDescribed(slice, sp, e, t);
    assert Offered(s.endpointSlices, Tuple(t.meta, t.conditions));
    ExtractedIsOffered(s.endpointSlices, t.meta);
    HealthyInScope(slice, sp, e);
    assert scope == Ready ==> Extracted(s)[t.meta] == t.conditions;
    var lb := EndpointFor(t.meta, Extracted(s)[t.meta]);
    assert HasEndpoint(s, f, n, lb) && ShownAs(lb, b, scope);
    assert HoldsBackend(s, p, f, lb, b, scope);
  }

  lemma SupportedSlices(s: SnapshotService, p: ServicePort, f: string, b: Backend, scope: Scope)
    requires Addressed(s.endpointSlices) && Supported(s, scope) && p in s.obj.ports && IsTCPPort(p) &&
               f in s.obj.ipFamilies
    ensures (exists slice <- s.endpointSlices :: SliceOffers(slice, p, f, b, scope)) <==> Assigned(s, p, f, b, scope)
  {
    hide AssignedNumbers, OfferedNumbers, SliceOffers, SliceAssigns;
    forall slice <- s.endpointSlices
      ensures SliceOffers(slice, p, f, b, scope) <==> SliceAssigns(s.obj, slice, p, f, b, scope)
    {
      BackendsByNumber(s.obj, slice, p, f, b, scope);
    }
  }

  lemma FrontIsListed(s: SnapshotService, p: ServicePort, address: string, port: nat, f: string)
    requires SupportedService(s.obj) && Fronts(s.obj, p, address, port, f)
    ensures f in s.obj.ipFamilies && IsTCPPort(p)
  {
    if address in s.obj.clusterIPs {
      var i :| 0 <= i < |s.obj.clusterIPs| && s.obj.clusterIPs[i] == address;
    }
  }

  lemma SupportedSpeaks(s: SnapshotService, p: ServicePort, protocol: Protocol)
    requires SupportedService(s.obj) && p in s.obj.ports && IsTCPPort(p)
    ensures Speaks(p, protocol) <==> protocol == if AppliesProtocol(p, "http") then Http else Tcp
  {
  }

  /** The slices of the service offer `b` under the target port's number. */
  ghost predicate OffersBackend(s: SnapshotService, p: ServicePort, f: string, b: Backend, scope: Scope) {
    exists slice <- s.endpointSlices :: SliceOffers(slice, p, f, b, scope)
  }

  /** The service itself is supported, whatever its slices; readiness is told apart as in `Supported`. */
  ghost predicate SupportedShell(s: SnapshotService, scope: Scope) {
    SupportedService(s.obj) && (scope == Ready ==> Consistent(s.endpointSlices))
  }

  /** A built front offers `b`. */
  ghost predicate OfferedRoutes(snap: seq<SnapshotService>, address: string, port: nat, b: Backend, scope: Scope) {
    exists s <- snap, p <- s.obj.ports, f: string ::
      Fronts(s.obj, p, address, port, f) && OffersBackend(s, p, f, b, scope)
  }

  /** A connection reaches exactly the backends that the fronts built at its destination offer. */
  lemma ReachesOffered(snap: seq<SnapshotService>, parts: seq<seq<LoadAssignment>>, cfg: Config,
                       address: string, port: nat, b: Backend, scope: Scope)
    requires WellFormed(snap) && Translates(snap, parts, cfg) && forall s <- snap :: SupportedShell(s, scope)
    ensures ReachesBackend(cfg, address, port, b, scope) <==> OfferedRoutes(snap, address, port, b, scope)
  {
    hide Translates, Reaches, HasEndpoint, SliceOffers, Fronts, SupportedService, WellFormedService, DistinctServices,
         ShownAs, Speaks, TargetNumber, AppliesProtocol;
    if lb: LbEndpoint :| Reaches(cfg, address, port, b.protocol, lb) && ShownAs(lb, b, scope) {
      RoutingPreserved(snap, parts, cfg, address, port, b.protocol, lb);
      var s, p, f: string :| s in snap && p in s.obj.ports && Serves(s, p, address, port, f, b.protocol, lb);
      FrontIsListed(s, p, address, port, f);
      SupportedSpeaks(s, p, b.protocol);
      EndpointsOffered(s, p, f, b, scope);
      assert HoldsBackend(s, p, f, lb, b, scope);
    }
    if s, p, f: string :| s in snap && p in s.obj.ports && Fronts(s.obj, p, address, port, f) &&
                          OffersBackend(s, p, f, b, scope) {
      FrontIsListed(s, p, address, port, f);
      EndpointsOffered(s, p, f, b, scope);
      var lb: LbEndpoint :| HoldsBackend(s, p, f, lb, b, scope);
      SupportedSpeaks(s, p, b.protocol);
      assert Serves(s, p, address, port, f, b.protocol, lb);
      RoutingPreserved(snap, parts, cfg, address, port, b.protocol, lb);
    }
  }

  /** A built front gets exactly the backends Kubernetes assigns to it. */
  ghost predicate BuiltRoutes(snap: seq<SnapshotService>, address: string, port: nat, b: Backend, scope: Scope) {
    exists s <- snap, p <- s.obj.ports, f: string :: Fronts(s.obj, p, address, port, f) && Assigned(s, p, f, b, scope)
  }

  lemma ReachesBuilt(snap: seq<SnapshotService>, parts: seq<seq<LoadAssignment>>, cfg: Config,
                     address: string, port: nat, b: Backend, scope: Scope)
    requires WellFormed(snap) && Translates(snap, parts, cfg) && forall s <- snap :: Supported(s, scope)
    ensures ReachesBackend(cfg, address, port, b, scope) <==> BuiltRoutes(snap, address, port, b, scope)
  {
    hide Translates, ReachesBackend, Fronts, SupportedService, SupportedSlice, WellFormedService, DistinctServices,
         Assigned, OffersBackend, Consistent;
    ReachesOffered(snap, parts, cfg, address, port, b, scope);
    forall s <- snap, p <- s.obj.ports, f: string | Fronts(s.obj, p, address, port, f)
      ensures OffersBackend(s, p, f, b, scope) <==> Assigned(s, p, f, b, scope)
    {
      FrontIsListed(s, p, address, port, f);
      OffersAssigned(s, p, f, b, scope);
    }
  }

  lemma OffersAssigned(s: SnapshotService, p: ServicePort, f: string, b: Backend, scope: Scope)
    requires Addressed(s.endpointSlices) && Supported(s, scope) && p in s.obj.ports && IsTCPPort(p) &&
               f in s.obj.ipFamilies
    ensures OffersBackend(s, p, f, b, scope) <==> Assigned(s, p, f, b, scope)
  {
    hide Supported, Assigned;
    SupportedSlices(s, p, f, b, scope);
  }

  /** Every front Kubernetes has at (address, port) is one the code builds. */
  ghost predicate BuiltAt(snap: seq<SnapshotService>, address: string, port: nat) {
    forall s <- snap, p <- s.obj.ports, f: string ::
      KubeFronts(s.obj, p, address, port, f) ==> Fronts(s.obj, p, address, port, f)
  }

  /** For supported services a connection reaches only backends that Kubernetes assigns to its destination, and all
      of them where every front is built. */
  lemma KubernetesRoutingPreserved(snap: seq<SnapshotService>, parts: seq<seq<LoadAssignment>>, cfg: Config,
                                   address: string, port: nat, b: Backend, scope: Scope)
    requires WellFormed(snap) && Translates(snap, parts, cfg) && forall s <- snap :: Supported(s, scope)
    ensures ReachesBackend(cfg, address, port, b, scope) ==> KubeRoutes(snap, address, port, b, scope)
    ensures BuiltAt(snap, address, port) ==>
              (ReachesBackend(cfg, address, port, b, scope) <==> KubeRoutes(snap, address, port, b, scope))
  {
    ReachesBuilt(snap, parts, cfg, address, port, b, scope);
    forall s <- snap ensures Paired(s.obj) {
      assert Supported(s, scope);
    }
    hide Translates, ReachesBackend, Fronts, KubeFronts, Assigned, Supported, WellFormed, Paired;
    if s, p, f: string :| s in snap && p in s.obj.ports && Fronts(s.obj, p, address, port, f) &&
                          Assigned(s, p, f, b, scope) {
      FrontsAreKubeFronts(s.obj, p, address, port, f);
    }
  }

  // ---------- exactly when a built front agrees ----------

  /** No two service ports are given the same address and port. */
  ghost predicate FrontsApart(snap: seq<SnapshotService>) {
    forall s <- snap, p <- s.obj.ports, f: string, t <- snap, q <- t.obj.ports, g: string, address: string, port: nat ::
      KubeFronts(s.obj, p, address, port, f) && KubeFronts(t.obj, q, address, port, g) ==> s == t && p == q && f == g
  }

  /** The backends the slices offer for the port and family are those Kubernetes assigns. */
  ghost predicate OffersAgree(s: SnapshotService, p: ServicePort, f: string, scope: Scope) {
    forall b: Backend :: OffersBackend(s, p, f, b, scope) <==> Assigned(s, p, f, b, scope)
  }

  /** The address and port reach what Kubernetes asks for. */
  ghost predicate RoutesAgree(snap: seq<SnapshotService>, cfg: Config, address: string, port: nat, scope: Scope) {
    forall b: Backend ::
      ReachesBackend(cfg, address, port, b, scope) <==> KubeRoutes(snap, address, port, b, scope)
  }

  /** Routing agrees at a built front exactly when its slices offer what they assign. */
  lemma FrontAgreesIff(snap: seq<SnapshotService>, parts: seq<seq<LoadAssignment>>, cfg: Config,
                       s: SnapshotService, p: ServicePort, address: string, port: nat, f: string, scope: Scope)
    requires WellFormed(snap) && Translates(snap, parts, cfg) && forall s <- snap :: SupportedShell(s, scope)
    requires FrontsApart(snap) && s in snap && p in s.obj.ports && Fronts(s.obj, p, address, port, f)
    ensures RoutesAgree(snap, cfg, address, port, scope) <==> OffersAgree(s, p, f, scope)
  {
    forall t <- snap ensures Paired(t.obj) {
      assert SupportedShell(t, scope);
    }
    hide Translates, ReachesBackend, Fronts, KubeFronts, Assigned, OffersBackend, SupportedShell, WellFormed, Paired;
    FrontsAreKubeFronts(s.obj, p, address, port, f);
    forall b: Backend
      ensures ReachesBackend(cfg, address, port, b, scope) <==> OffersBackend(s, p, f, b, scope)
      ensures KubeRoutes(snap, address, port, b, scope) <==> Assigned(s, p, f, b, scope)
    {
      ReachesOffered(snap, parts, cfg, address, port, b, scope);
      forall t <- snap, q <- t.obj.ports, g: string | Fronts(t.obj, q, address, port, g)
        ensures t == s && q == p && g == f
      {
        FrontsAreKubeFronts(t.obj, q, address, port, g);
      }
    }
  }

  /** The code builds a listener of the family for the service. */
  predicate HasFront(svc: Service, f: string) {
    || (exists ip <- svc.clusterIPs :: ip != "None" && !NodeAddress(ip) && TextFamily(ip, f))
    || (svc.kind == "NodePort" && f in svc.ipFamilies)
  }

  lemma HasFrontIff(svc: Service, p: ServicePort, f: string)
    requires IsTCPPort(p)
    ensures HasFront(svc, f) <==> exists address: string, port: nat :: Fronts(svc, p, address, port, f)
  {
    if ip :| ip in svc.clusterIPs && ip != "None" && !NodeAddress(ip) && TextFamily(ip, f) {
      assert Fronts(svc, p, ip, ToUint32(p.port), f);
    }
    if svc.kind == "NodePort" && f in svc.ipFamilies {
      assert Fronts(svc, p, if f == "IPv6" then "::" else "0.0.0.0", ToUint32(p.nodePort), f);
    }
  }

  /** Some service port answers at (address, port) through a listener the code builds. */
  ghost predicate BuiltSomewhere(snap: seq<SnapshotService>, address: string, port: nat) {
    exists s <- snap, p <- s.obj.ports, f: string :: Fronts(s.obj, p, address, port, f)
  }

  /** Every built front reaches what Kubernetes asks for if and only if every TCP port and family with a listener is
      offered by its slices, under the target port's number, exactly what they assign to it by the port's name. */
  lemma BuiltFrontsAgreeIff(snap: seq<SnapshotService>, parts: seq<seq<LoadAssignment>>, cfg: Config, scope: Scope)
    requires WellFormed(snap) && Translates(snap, parts, cfg) && forall s <- snap :: SupportedShell(s, scope)
    requires FrontsApart(snap)
    ensures (forall address: string, port: nat ::
               BuiltSomewhere(snap, address, port) ==> RoutesAgree(snap, cfg, address, port, scope)) <==>
            (forall s <- snap, p <- s.obj.ports, f: string ::
               IsTCPPort(p) && HasFront(s.obj, f) ==> OffersAgree(s, p, f, scope))
  {
    hide Translates, RoutesAgree, OffersAgree, Fronts, FrontsApart, HasFront, SupportedShell, WellFormed, IsTCPPort;
    if forall address: string, port: nat ::
         BuiltSomewhere(snap, address, port) ==> RoutesAgree(snap, cfg, address, port, scope)
    {
      forall s <- snap, p <- s.obj.ports, f: string | IsTCPPort(p) && HasFront(s.obj, f)
        ensures OffersAgree(s, p, f, scope)
      {
        HasFrontIff(s.obj, p, f);
        var address: string, port: nat :| Fronts(s.obj, p, address, port, f);
        assert BuiltSomewhere(snap, address, port);
        FrontAgreesIff(snap, parts, cfg, s, p, address, port, f, scope);
      }
    }
    if forall s <- snap, p <- s.obj.ports, f: string ::
         IsTCPPort(p) && HasFront(s.obj, f) ==> OffersAgree(s, p, f, scope)
    {
      forall address: string, port: nat | BuiltSomewhere(snap, address, port)
        ensures RoutesAgree(snap, cfg, address, port, scope)
      {
        var s, p, f: string :| s in snap && p in s.obj.ports && Fronts(s.obj, p, address, port, f);
        FrontIsTCPPort(s.obj, p, address, port, f);
        HasFrontIff(s.obj, p, f);
        FrontAgreesIff(snap, parts, cfg, s, p, address, port, f, scope);
      }
    }
  }

  lemma FrontIsTCPPort(svc: Service, p: ServicePort, address: string, port: nat, f: string)
    requires Fronts(svc, p, address, port, f)
    ensures IsTCPPort(p)
  {
  }

  // ---------- exactly when every address is served ----------

  /** Every port and family with backends is covered. */
  ghost predicate AllCovered(snap: seq<SnapshotService>, scope: Scope) {
    forall s <- snap, p <- s.obj.ports, f <- {"IPv4", "IPv6"}, b: Backend ::
      IsTCPPort(p) && Assigned(s, p, f, b, scope) ==> Covered(s.obj, p, f)
  }

  lemma KubeFrontFamily(svc: Service, p: ServicePort, address: string, port: nat, f: string)
    requires WellFormedService(svc) && KubeFronts(svc, p, address, port, f)
    ensures f in {"IPv4", "IPv6"} && IsTCPPort(p)
  {
    assert ClusterIPOfFamily(svc, address, f) ==> f in svc.ipFamilies;
  }

  /** A port with a backend that is not covered has an address where the backend is asked for and not reached. */
  lemma UncoveredIsMissed(snap: seq<SnapshotService>, parts: seq<seq<LoadAssignment>>, cfg: Config,
                          s: SnapshotService, p: ServicePort, f: string, b: Backend, scope: Scope)
      returns (address: string, port: nat)
    requires WellFormed(snap) && Translates(snap, parts, cfg) && forall s <- snap :: Supported(s, scope)
    requires FrontsApart(snap) && s in snap && p in s.obj.ports && IsTCPPort(p) && f in {"IPv4", "IPv6"}
    requires OwnAddresses(s.obj) && Assigned(s, p, f, b, scope) && !Covered(s.obj, p, f)
    ensures KubeRoutes(snap, address, port, b, scope) && !ReachesBackend(cfg, address, port, b, scope)
  {
    forall t <- snap ensures Paired(t.obj) {
      assert Supported(t, scope);
    }
    hide Translates, ReachesBackend, Fronts, KubeFronts, Assigned, Supported, WellFormed, Covered, OwnAddresses, Paired;
    CoveredIff(s.obj, p, f);
    address, port :| KubeFronts(s.obj, p, address, port, f) && !Fronts(s.obj, p, address, port, f);
    ReachesBuilt(snap, parts, cfg, address, port, b, scope);
    forall t <- snap, q <- t.obj.ports, g: string | Fronts(t.obj, q, address, port, g)
      ensures t == s && q == p && g == f
    {
      FrontsAreKubeFronts(t.obj, q, address, port, g);
    }
  }

  /** The proxy serves every address and port as Kubernetes asks if and only if no port with backends has an external
      address of its own or a node port of a LoadBalancer service. */
  lemma ServedEverywhereIff(snap: seq<SnapshotService>, parts: seq<seq<LoadAssignment>>, cfg: Config, scope: Scope)
    requires WellFormed(snap) && Translates(snap, parts, cfg) && forall s <- snap :: Supported(s, scope)
    requires FrontsApart(snap) && forall s <- snap :: OwnAddresses(s.obj)
    ensures (forall address: string, port: nat, b: Backend ::
               ReachesBackend(cfg, address, port, b, scope) <==> KubeRoutes(snap, address, port, b, scope)) <==>
            AllCovered(snap, scope)
  {
    hide Translates, ReachesBackend, Fronts, KubeFronts, Assigned, Supported, Covered, OwnAddresses, FrontsApart;
    if !AllCovered(snap, scope) {
      var s, p, f, b: Backend :| s in snap && p in s.obj.ports && f in {"IPv4", "IPv6"} && IsTCPPort(p) &&
                                 Assigned(s, p, f, b, scope) && !Covered(s.obj, p, f);
      var address, port := UncoveredIsMissed(snap, parts, cfg, s, p, f, b, scope);
    } else {
      forall address: string, port: nat, b: Backend
        ensures ReachesBackend(cfg, address, port, b, scope) <==> KubeRoutes(snap, address, port, b, scope)
      {
        CoveredIsReached(snap, parts, cfg, address, port, b, scope);
      }
    }
  }

  lemma CoveredIsReached(snap: seq<SnapshotService>, parts: seq<seq<LoadAssignment>>, cfg: Config,
                         address: string, port: nat, b: Backend, scope: Scope)
    requires WellFormed(snap) && Translates(snap, parts, cfg) && forall s <- snap :: Supported(s, scope)
    requires (forall s <- snap :: OwnAddresses(s.obj)) && AllCovered(snap, scope)
    ensures ReachesBackend(cfg, address, port, b, scope) <==> KubeRoutes(snap, address, port, b, scope)
  {
    forall s <- snap ensures Paired(s.obj) {
      assert Supported(s, scope);
    }
    hide Translates, ReachesBackend, Fronts, KubeFronts, Assigned, Supported, Covered, OwnAddresses, WellFormedService,
         Paired;
    KubernetesRoutingPreserved(snap, parts, cfg, address, port, b, scope);
    ReachesBuilt(snap, parts, cfg, address, port, b, scope);
    if s, p, f: string :| s in snap && p in s.obj.ports && KubeFronts(s.obj, p, address, port, f) &&
                          Assigned(s, p, f, b, scope) {
      KubeFrontFamily(s.obj, p, address, port, f);
      CoveredIff(s.obj, p, f);
    }
  }

  // ---------- a LoadBalancer service ----------

  const WEB_PORT := ServicePort("web", "TCP", None, 80, FromInt(8080), 30080)

  const WEB_SERVICE :=
    Service("default", "web", "1", "LoadBalancer", ["10.0.0.1"], ["192.0.2.1"], ["IPv4"], [WEB_PORT])

  const WEB_ENDPOINT := Endpoint(["10.1.0.1"], None, None, None, None, None)

  const WEB_SLICE :=
    EndpointSlice("default", "web-1", "1", map["kubernetes.io/service-name" := "web"], "IPv4",
                  [EndpointPort(Some("web"), None, Some(8080))], [WEB_ENDPOINT])

  const WEB := SnapshotService(WEB_SERVICE, [WEB_SLICE])

  /** Its node port and its external address are asked for by Kubernetes, and neither is reached. */
  lemma LoadBalancerUnanswered(parts: seq<seq<LoadAssignment>>, cfg: Config)
    requires Translates([WEB], parts, cfg)
    ensures WellFormed([WEB]) && Supported(WEB, Any)
    ensures KubeRoutes([WEB], "0.0.0.0", 30080, Backend("10.1.0.1", 8080, Tcp), Any)
    ensures KubeRoutes([WEB], "192.0.2.1", 80, Backend("10.1.0.1", 8080, Tcp), Any)
    ensures forall b: Backend :: !ReachesBackend(cfg, "0.0.0.0", 30080, b, Any)
    ensures forall b: Backend :: !ReachesBackend(cfg, "192.0.2.1", 80, b, Any)
  {
    WebIsSupported();
    WebIsAssigned();
    WebFronts();
    hide Translates, ReachesBackend, Fronts, KubeFronts, Assigned, Supported, WellFormed;
    assert KubeFronts(WEB.obj, WEB_PORT, "0.0.0.0", 30080, "IPv4") &&
        KubeFronts(WEB.obj, WEB_PORT, "192.0.2.1", 80, "IPv4");
    forall b: Backend
      ensures !ReachesBackend(cfg, "0.0.0.0", 30080, b, Any) && !ReachesBackend(cfg, "192.0.2.1", 80, b, Any)
    {
      ReachesBuilt([WEB], parts, cfg, "0.0.0.0", 30080, b, Any);
      ReachesBuilt([WEB], parts, cfg, "192.0.2.1", 80, b, Any);
    }
  }

  lemma WebIsSupported()
    ensures WellFormed([WEB]) && Supported(WEB, Any)
  {
    assert TextFamily("10.0.0.1", "IPv4");
    var sp := WEB_SLICE.ports[0];
    assert forall x :: x in WEB_SLICE.ports <==> x == sp;
    assert sp.port == Some(8080) && TargetNumber(WEB_PORT, 8080);
    forall n: int32
      ensures n in AssignedNumbers(WEB_SERVICE, WEB_SLICE, WEB_PORT, "IPv4") <==> n == 8080
      ensures n in OfferedNumbers(WEB_SLICE, WEB_PORT, "IPv4") <==> n == 8080
    {
    }
  }

  lemma WebIsAssigned()
    ensures Assigned(WEB, WEB_PORT, "IPv4", Backend("10.1.0.1", 8080, Tcp), Any)
  {
    assert BackendOf(WEB_ENDPOINT, 8080, WEB_PORT) == Backend("10.1.0.1", 8080, Tcp);
    assert SliceAssigns(WEB_SERVICE, WEB_SLICE, WEB_PORT, "IPv4", Backend("10.1.0.1", 8080, Tcp), Any);
  }

  lemma WebFronts()
    ensures WEB_PORT in WEB.obj.ports
    ensures KubeFronts(WEB.obj, WEB_PORT, "0.0.0.0", 30080, "IPv4") &&
              KubeFronts(WEB.obj, WEB_PORT, "192.0.2.1", 80, "IPv4")
    ensures forall p <- WEB.obj.ports, f: string ::
              !Fronts(WEB.obj, p, "0.0.0.0", 30080, f) && !Fronts(WEB.obj, p, "192.0.2.1", 80, f)
  {
    assert TextFamily("192.0.2.1", "IPv4");
    assert |"10.0.0.1"| != |"192.0.2.1"| && |"10.0.0.1"| != |"0.0.0.0"|;
  }

  // ---------- a named target port ----------

  const NAMED_PORT := WEB_PORT.(targetPort := FromString("http"))
  const NAMED :=
    SnapshotService(WEB_SERVICE.(kind := "ClusterIP", externalIPs := [], ports := [NAMED_PORT]), [WEB_SLICE])

  /** Kubernetes assigns the endpoint to the ClusterIP of a port with a named target, and a connection there reaches
      nothing: the endpoints are looked up under number 0. */
  lemma NamedTargetPortUnanswered(parts: seq<seq<LoadAssignment>>, cfg: Config)
    requires Translates([NAMED], parts, cfg)
    ensures WellFormed([NAMED]) && SupportedShell(NAMED, Any)
    ensures KubeRoutes([NAMED], "10.0.0.1", 80, Backend("10.1.0.1", 8080, Tcp), Any)
    ensures forall b: Backend :: !ReachesBackend(cfg, "10.0.0.1", 80, b, Any)
  {
    NamedIsSupported();
    NamedIsAssigned();
    NamedOffersNothing();
    hide Translates, ReachesBackend, Fronts, KubeFronts, Assigned, OffersBackend, SupportedShell, WellFormed;
    assert NAMED in [NAMED];
    forall b: Backend ensures !ReachesBackend(cfg, "10.0.0.1", 80, b, Any) {
      ReachesOffered([NAMED], parts, cfg, "10.0.0.1", 80, b, Any);
    }
  }

  lemma NamedIsSupported()
    ensures WellFormed([NAMED]) && SupportedShell(NAMED, Any)
  {
    assert TextFamily("10.0.0.1", "IPv4");
  }

  lemma NamedIsAssigned()
    ensures NAMED_PORT in NAMED.obj.ports && KubeFronts(NAMED.obj, NAMED_PORT, "10.0.0.1", 80, "IPv4")
    ensures Assigned(NAMED, NAMED_PORT, "IPv4", Backend("10.1.0.1", 8080, Tcp), Any)
  {
    assert TextFamily("10.0.0.1", "IPv4") && NAMED.obj.clusterIPs[0] == "10.0.0.1";
    assert BackendOf(WEB_ENDPOINT, 8080, WEB_PORT) == Backend("10.1.0.1", 8080, Tcp);
    assert SliceAssigns(NAMED.obj, WEB_SLICE, NAMED_PORT, "IPv4", Backend("10.1.0.1", 8080, Tcp), Any);
  }

  lemma NamedOffersNothing()
    ensures forall p <- NAMED.obj.ports, f: string, b: Backend :: !OffersBackend(NAMED, p, f, b, Any)
  {
  }

  // ---------- an IPv6 service ----------

  const SIX_PORT := ServicePort("http", "TCP", None, 80, FromInt(8080), 0)

  const SIX_SERVICE := Service("default", "six", "1", "ClusterIP", ["fd00::1"], [], ["IPv6"], [SIX_PORT])

  const SIX_ENDPOINT := Endpoint(["fd01::1"], None, None, None, None, None)

  const SIX_SLICE :=
    EndpointSlice("default", "six-1", "1", map["kubernetes.io/service-name" := "six"], "IPv6",
                  [EndpointPort(Some("http"), None, Some(8080))], [SIX_ENDPOINT])

  const SIX := SnapshotService(SIX_SERVICE, [SIX_SLICE])

  /** Its ClusterIP reaches its endpoint, by HTTP as the port's name says. */
  lemma IPv6ServiceReached(parts: seq<seq<LoadAssignment>>, cfg: Config)
    requires Translates([SIX], parts, cfg)
    ensures WellFormed([SIX]) && SupportedShell(SIX, Any)
    ensures ReachesBackend(cfg, "fd00::1", 80, Backend("fd01::1", 8080, Http), Any)
  {
    SixIsSupported();
    SixIsOffered();
    hide Translates, ReachesBackend, Fronts, OffersBackend, SupportedShell, WellFormed;
    assert SIX in [SIX];
    ReachesOffered([SIX], parts, cfg, "fd00::1", 80, Backend("fd01::1", 8080, Http), Any);
  }

  lemma SixIsSupported()
    ensures WellFormed([SIX]) && SupportedShell(SIX, Any)
  {
    assert "fd00::1"[4] == ':';
  }

  lemma SixIsOffered()
    ensures SIX_PORT in SIX.obj.ports && Fronts(SIX.obj, SIX_PORT, "fd00::1", 80, "IPv6")
    ensures OffersBackend(SIX, SIX_PORT, "IPv6", Backend("fd01::1", 8080, Http), Any)
  {
    assert "fd00::1"[4] == ':' && |"fd00::1"| != |"::"| && |"fd00::1"| != |"None"|;
    assert SIX.obj.clusterIPs[0] == "fd00::1" && "fd00::1"[0] == 'f';
    assert PortNumber(SIX_SLICE.ports[0], 8080) && TargetNumber(SIX_PORT, 8080);
    assert BackendOf(SIX_ENDPOINT, 8080, SIX_PORT) == Backend("fd01::1", 8080, Http);
    assert SIX_SLICE.ports[0] in SIX_SLICE.ports && SIX_SLICE.endpoints[0] == SIX_ENDPOINT;
    assert SliceOffers(SIX_SLICE, SIX_PORT, "IPv6", Backend("fd01::1", 8080, Http), Any);
  }
}
