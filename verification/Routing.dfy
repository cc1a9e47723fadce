/** The translation as a compiler: what a connection reaches through the Envoy configuration, and what it should
    reach. */
module Routing {
  import opened Kube
  import opened Meaning
  import opened Naming
  import opened Endpoints
  import opened Grouping
  import opened CacheSpec
  import opened Mapper

  // ---------- what Envoy does with a configuration ----------

  /** The endpoints of the load assignment of a cluster, over all localities. */
  ghost predicate ClusterReaches(cfg: Config, cluster: string, lb: LbEndpoint) {
    && cluster in cfg.clusters && cluster in cfg.assignments
    && exists g <- cfg.assignments[cluster].groups :: lb in g.endpoints
  }

  /** The listener takes connections to (address, port). Those to a node's own addresses come in directly, so the
      listener must bind; all others come in redirected, to an address the node does not have. */
  predicate Takes(l: Listener, address: string, port: nat) {
    l.address == address && l.port == port && (l.bindToPort <==> NodeAddress(address))
  }

  /** A connection to (address, port) can end at `lb`, handled as `protocol`: a listener takes it and has a filter chain
      of that protocol, whose cluster has the endpoint. */
  ghost predicate Reaches(cfg: Config, address: string, port: nat, protocol: Protocol, lb: LbEndpoint) {
    exists n <- cfg.listeners ::
      Takes(cfg.listeners[n], address, port) && cfg.listeners[n].chain.Some? &&
      cfg.listeners[n].chain.value.protocol == protocol && ClusterReaches(cfg, cfg.listeners[n].chain.value.cluster, lb)
  }

  // ---------- what the services ask for ----------

  /** Service port `p` of `svc` answers at (address, port) for traffic of `family`. */
  predicate Fronts(svc: Service, p: ServicePort, address: string, port: nat, family: string) {
    IsTCPPort(p) &&
    ((address in svc.clusterIPs && address != "None" && !NodeAddress(address) && port == ToUint32(p.port) &&
      TextFamily(address, family)) ||
     (svc.kind == "NodePort" && family in svc.ipFamilies && NodeAddressOf(family, address) &&
      port == ToUint32(p.nodePort)))
  }

  /** The port is to be handled as `protocol`; a Redis port as none. */
  predicate Speaks(p: ServicePort, protocol: Protocol) {
    !AppliesProtocol(p, "lightpath.cloud/redis") && protocol == if AppliesProtocol(p, "http") then Http else Tcp
  }

  /** `lb` stands for an extracted endpoint of the family and port. */
  ghost predicate HasEndpoint(s: SnapshotService, family: string, port: int32, lb: LbEndpoint)
    requires Addressed(s.endpointSlices)
  {
    exists m <- Extracted(s) :: m.family == family && m.port == port && lb == EndpointFor(m, Extracted(s)[m])
  }

  // ---------- well-formed snapshots ----------

  /** What the API server guarantees of one service, as far as names need it. */
  predicate WellFormedService(svc: Service) {
    && PipeFree(svc.namespace) && PipeFree(svc.name)
    && (forall ip <- svc.clusterIPs :: PipeFree(ip))
    && (forall f <- svc.ipFamilies :: f in {IPV4, IPV6})
    && (forall p <- svc.ports, q <- svc.ports | IsTCPPort(p) && IsTCPPort(q) ::
          p.port == q.port || (svc.kind == NODE_PORT && p.nodePort == q.nodePort) ==> p == q)
    && (svc.kind == NODE_PORT ==> ANY_IPV4 !in svc.clusterIPs && ANY_IPV6 !in svc.clusterIPs)
  }

  /** No (namespace, name) occurs twice. */
  predicate DistinctServices(snap: seq<SnapshotService>) {
    forall i, j :: 0 <= i < j < |snap| ==>
      snap[i].obj.namespace != snap[j].obj.namespace || snap[i].obj.name != snap[j].obj.name
  }

  predicate WellFormed(snap: seq<SnapshotService>) {
    AllAddressed(snap) && DistinctServices(snap) && forall s <- snap :: WellFormedService(s.obj)
  }

  lemma NameDetermines(snap: seq<SnapshotService>, s: SnapshotService, t: SnapshotService)
    requires DistinctServices(snap) && s in snap && t in snap
    requires s.obj.namespace == t.obj.namespace && s.obj.name == t.obj.name
    ensures s == t
  {
    var i :| 0 <= i < |snap| && snap[i] == s;
    var j :| 0 <= j < |snap| && snap[j] == t;
    assert i == j;
  }

  // ---------- listeners ----------

  /** `l` is the listener of some front of port `p`. */
  predicate IsListenerOf(svc: Service, p: ServicePort, l: Listener) {
    IsTCP(p) &&
    ((exists ip <- svc.clusterIPs :: ip != HEADLESS && l == ClusterIPListener(svc, p, ip)) ||
     (svc.kind == NODE_PORT && exists f <- svc.ipFamilies :: l == NodePortListener(svc, p, f)))
  }

  lemma {:induction false} ClusterIPListed(svc: Service, p: ServicePort, ips: seq<string>, l: Listener)
    ensures l in ClusterIPListeners(svc, p, ips) <==>
              exists ip <- ips :: ip != HEADLESS && l == ClusterIPListener(svc, p, ip)
  {
    if ips != [] {
      assert ips == ips[..|ips| - 1] + [ips[|ips| - 1]];
      ClusterIPListed(svc, p, ips[..|ips| - 1], l);
    }
  }

  lemma {:induction false} NodePortListed(svc: Service, p: ServicePort, families: seq<string>, l: Listener)
    ensures l in NodePortListeners(svc, p, families) <==> exists f <- families :: l == NodePortListener(svc, p, f)
  {
    if families != [] {
      assert families == families[..|families| - 1] + [families[|families| - 1]];
      NodePortListed(svc, p, families[..|families| - 1], l);
    }
  }

  lemma {:induction false} PortsListed(svc: Service, ports: seq<ServicePort>, l: Listener)
    ensures l in ListenersOfPorts(svc, ports) <==> exists p <- ports :: IsListenerOf(svc, p, l)
  {
    hide ListenersOf, ClusterIPListener, NodePortListener;
    if ports != [] {
      var last := ports[|ports| - 1];
      assert ports == ports[..|ports| - 1] + [last];
      PortsListed(svc, ports[..|ports| - 1], l);
      PortListed(svc, last, l);
    }
  }

  lemma PortListed(svc: Service, p: ServicePort, l: Listener)
    ensures IsTCP(p) && l in ListenersOf(svc, p) <==> IsListenerOf(svc, p, l)
  {
    ClusterIPListed(svc, p, svc.clusterIPs, l);
    NodePortListed(svc, p, svc.ipFamilies, l);
  }

  lemma {:induction false} ListenersListed(snap: seq<SnapshotService>, l: Listener)
    ensures l in Listeners(snap) <==> exists s <- snap, p <- s.obj.ports :: IsListenerOf(s.obj, p, l)
  {
    hide IsListenerOf;
    if snap != [] {
      var last := snap[|snap| - 1];
      assert snap == snap[..|snap| - 1] + [last];
      ListenersListed(snap[..|snap| - 1], l);
      PortsListed(last.obj, last.obj.ports, l);
    }
  }

  /** The filter chain of a port's listener: none for Redis, else one of the port's protocol to its cluster. */
  predicate ChainFor(svc: Service, p: ServicePort, family: string, chain: Option<FilterChain>) {
    match chain
    case None => AppliesProtocol(p, "lightpath.cloud/redis")
    case Some(c) => Speaks(p, c.protocol) && c.cluster == TargetCluster(svc, p, family)
  }

  lemma GeneratedChain(svc: Service, p: ServicePort, name: string, ip: string, n: int32, bind: bool, f: string,
                       chain: Option<FilterChain>)
    ensures ChainFor(svc, p, f, chain) <==>
              chain == GenListener(name, ip, n, bind, ProtocolOf(p), TargetCluster(svc, p, f)).chain
  {
    hide TargetCluster;
  }

  lemma ClusterIPListenerIs(svc: Service, p: ServicePort, ip: string)
    ensures var l := ClusterIPListener(svc, p, ip);
            && l.address == ip && l.port == ToUint32(p.port) && !l.bindToPort
            && forall f: string, chain: Option<FilterChain> | TextFamily(ip, f) ::
                 ChainFor(svc, p, f, chain) <==> chain == l.chain
  {
    hide ProtocolOf, TargetCluster, ListenerName;
    forall f: string, chain: Option<FilterChain> | TextFamily(ip, f)
      ensures ChainFor(svc, p, f, chain) <==> chain == ClusterIPListener(svc, p, ip).chain
    {
      GeneratedChain(svc, p, ListenerName(svc.namespace, svc.name, ip, p.port), ip, p.port, false, f, chain);
    }
  }

  lemma NodePortListenerIs(svc: Service, p: ServicePort, f: string)
    ensures var l := NodePortListener(svc, p, f);
            && NodeAddressOf(f, l.address) && NodeAddress(l.address) && l.port == ToUint32(p.nodePort) && l.bindToPort
            && forall chain: Option<FilterChain> :: ChainFor(svc, p, f, chain) <==> chain == l.chain
  {
    hide ProtocolOf, TargetCluster, ListenerName;
    forall chain: Option<FilterChain>
      ensures ChainFor(svc, p, f, chain) <==> chain == NodePortListener(svc, p, f).chain
    {
      GeneratedChain(svc, p, ListenerName(svc.namespace, svc.name, AnyAddress(f), p.nodePort), AnyAddress(f),
                     p.nodePort, true, f, chain);
    }
  }

  /** A listener takes the connections to a front of its port, with the port's protocol and its cluster. */
  lemma ListenerFronts(svc: Service, p: ServicePort, address: string, port: nat, chain: Option<FilterChain>)
    ensures (exists l: Listener :: IsListenerOf(svc, p, l) && Takes(l, address, port) && l.chain == chain) <==>
            exists f: string :: Fronts(svc, p, address, port, f) && ChainFor(svc, p, f, chain)
  {
    hide ClusterIPListener, NodePortListener, ChainFor;
    if l: Listener :| IsListenerOf(svc, p, l) && Takes(l, address, port) && l.chain == chain {
      if ip :| ip in svc.clusterIPs && ip != HEADLESS && l == ClusterIPListener(svc, p, ip) {
        ClusterIPListenerIs(svc, p, ip);
        var f := if ':' in ip then "IPv6" else "IPv4";
        assert Fronts(svc, p, address, port, f) && ChainFor(svc, p, f, chain);
      } else {
        var f :| f in svc.ipFamilies && l == NodePortListener(svc, p, f);
        NodePortListenerIs(svc, p, f);
        assert Fronts(svc, p, address, port, f) && ChainFor(svc, p, f, chain);
      }
    }
    if f: string :| Fronts(svc, p, address, port, f) && ChainFor(svc, p, f, chain) {
      ClusterIPListenerIs(svc, p, address);
      NodePortListenerIs(svc, p, f);
      if !NodeAddress(address) {
        assert IsListenerOf(svc, p, ClusterIPListener(svc, p, address));
      } else {
        assert IsListenerOf(svc, p, NodePortListener(svc, p, f));
      }
    }
  }

  /** What listens at (address, port) in the configuration: for each front there a filter chain of the port's protocol
      to the port's cluster, and nothing else. */
  lemma ConfiguredFronts(snap: seq<SnapshotService>, parts: seq<seq<LoadAssignment>>, cfg: Config,
                         address: string, port: nat, chain: Option<FilterChain>)
    requires WellFormed(snap) && Translates(snap, parts, cfg)
    ensures (exists n <- cfg.listeners ::
               Takes(cfg.listeners[n], address, port) && cfg.listeners[n].chain == chain) <==>
            exists s <- snap, p <- s.obj.ports, f: string ::
              Fronts(s.obj, p, address, port, f) && ChainFor(s.obj, p, f, chain)
  {
    hide WellFormed, Translates, Fronts, ChainFor, IsListenerOf, Takes;
    if n :| n in cfg.listeners && Takes(cfg.listeners[n], address, port) && cfg.listeners[n].chain == chain {
      var l := cfg.listeners[n];
      ConfiguredListeners(snap, parts, cfg, l);
      ListenersListed(snap, l);
      var s, p :| s in snap && p in s.obj.ports && IsListenerOf(s.obj, p, l);
      ListenerFronts(s.obj, p, address, port, chain);
    }
    if s, p, f: string :| s in snap && p in s.obj.ports && Fronts(s.obj, p, address, port, f) &&
                          ChainFor(s.obj, p, f, chain) {
      ListenerFronts(s.obj, p, address, port, chain);
      var l: Listener :| IsListenerOf(s.obj, p, l) && Takes(l, address, port) && l.chain == chain;
      ListenersListed(snap, l);
      ConfiguredListeners(snap, parts, cfg, l);
      assert l.name in cfg.listeners && cfg.listeners[l.name] == l;
    }
  }

  /** In a well-formed snapshot a listener's name determines it. */
  lemma ListenerNameDetermines(snap: seq<SnapshotService>, l: Listener, k: Listener)
    requires WellFormed(snap) && l in Listeners(snap) && k in Listeners(snap) && l.name == k.name
    ensures l == k
  {
    ListenersListed(snap, l);
    ListenersListed(snap, k);
    var s, p :| s in snap && p in s.obj.ports && IsListenerOf(s.obj, p, l);
    var t, q :| t in snap && q in t.obj.ports && IsListenerOf(t.obj, q, k);
    if s.obj.namespace == t.obj.namespace && s.obj.name == t.obj.name {
      NameDetermines(snap, s, t);
    }
    SameListener(s.obj, p, l, t.obj, q, k);
  }

  /** The address and number a listener's name carries. */
  lemma ListenerParts(svc: Service, p: ServicePort, l: Listener) returns (ip: string, n: int32)
    requires WellFormedService(svc) && IsListenerOf(svc, p, l)
    ensures PipeFree(ip) && l.name == ListenerName(svc.namespace, svc.name, ip, n)
    ensures (n == p.port && ip in svc.clusterIPs && ip != HEADLESS && l == ClusterIPListener(svc, p, ip)) ||
            (svc.kind == NODE_PORT && n == p.nodePort &&
             ((ip == ANY_IPV4 && l == NodePortListener(svc, p, IPV4)) ||
              (ip == ANY_IPV6 && l == NodePortListener(svc, p, IPV6))))
  {
    hide ListenerName, ClusterName, ProtocolOf;
    if a :| a in svc.clusterIPs && a != HEADLESS && l == ClusterIPListener(svc, p, a) {
      return a, p.port;
    }
    var f :| f in svc.ipFamilies && l == NodePortListener(svc, p, f);
    ip, n := AnyAddress(f), p.nodePort;
  }

  lemma SameListener(svc: Service, p: ServicePort, l: Listener, svc': Service, q: ServicePort, k: Listener)
    requires WellFormedService(svc) && WellFormedService(svc') && p in svc.ports && q in svc'.ports
    requires IsListenerOf(svc, p, l) && IsListenerOf(svc', q, k) && l.name == k.name
    requires svc.namespace == svc'.namespace && svc.name == svc'.name ==> svc == svc'
    ensures l == k
  {
    hide IsListenerOf, ListenerName, ClusterName, ProtocolOf, GenListener;
    var ip, m := ListenerParts(svc, p, l);
    var jp, n := ListenerParts(svc', q, k);
    ListenerNameInjective(svc.namespace, svc.name, ip, m, svc'.namespace, svc'.name, jp, n);
    assert IsTCP(p) && IsTCP(q) by {
      ListenersAreTCP(svc, p, l);
      ListenersAreTCP(svc', q, k);
    }
  }

  lemma ListenersAreTCP(svc: Service, p: ServicePort, l: Listener)
    requires IsListenerOf(svc, p, l)
    ensures IsTCP(p)
  {
  }

  /** So the configuration keeps every listener, each under its name. */
  lemma ConfiguredListeners(snap: seq<SnapshotService>, parts: seq<seq<LoadAssignment>>, cfg: Config, l: Listener)
    requires WellFormed(snap) && Translates(snap, parts, cfg)
    ensures l in Listeners(snap) <==> l.name in cfg.listeners && cfg.listeners[l.name] == l
    ensures forall n <- cfg.listeners :: cfg.listeners[n].name == n
  {
    hide Listeners, Clusters, Flat, Parts, WellFormed;
    var name := (l: Listener) => l.name;
    forall n <- cfg.listeners
      ensures cfg.listeners[n].name == n && cfg.listeners[n] in Listeners(snap)
    {
      IndexLast(Listeners(snap), name, n);
    }
    IndexLast(Listeners(snap), name, l.name);
    if l in Listeners(snap) {
      ListenerNameDetermines(snap, l, cfg.listeners[l.name]);
    }
  }

  // ---------- clusters ----------

  lemma {:induction false} ClustersOfPortsListed(svc: Service, ports: seq<ServicePort>, c: Cluster)
    ensures c in ClustersOfPorts(svc, ports) <==>
              exists p <- ports, f <- svc.ipFamilies :: IsTCP(p) && c == ClusterFor(svc, p, f)
  {
    hide ClusterFor;
    if ports != [] {
      var last := ports[|ports| - 1];
      assert ports == ports[..|ports| - 1] + [last];
      ClustersOfPortsListed(svc, ports[..|ports| - 1], c);
      var cs := ClustersOf(svc, last);
      if f :| f in svc.ipFamilies && c == ClusterFor(svc, last, f) {
        var i :| 0 <= i < |svc.ipFamilies| && svc.ipFamilies[i] == f;
        assert cs[i] == c;
      }
      if c in cs {
        var i :| 0 <= i < |cs| && cs[i] == c;
        assert svc.ipFamilies[i] in svc.ipFamilies;
      }
    }
  }

  lemma {:induction false} ClustersListed(snap: seq<SnapshotService>, c: Cluster)
    ensures c in Clusters(snap) <==>
              exists s <- snap, p <- s.obj.ports, f <- s.obj.ipFamilies :: IsTCP(p) && c == ClusterFor(s.obj, p, f)
  {
    hide ClusterFor;
    if snap != [] {
      var last := snap[|snap| - 1];
      assert snap == snap[..|snap| - 1] + [last];
      ClustersListed(snap[..|snap| - 1], c);
      ClustersOfPortsListed(last.obj, last.obj.ports, c);
    }
  }

  /** The cluster a TCP port targets exists exactly when the family is one of the service's. */
  lemma ConfiguredCluster(snap: seq<SnapshotService>, parts: seq<seq<LoadAssignment>>, cfg: Config,
                          s: SnapshotService, p: ServicePort, f: string)
    requires WellFormed(snap) && Translates(snap, parts, cfg)
    requires s in snap && p in s.obj.ports && IsTCP(p) && f in {IPV4, IPV6}
    ensures TargetCluster(s.obj, p, f) in cfg.clusters <==> f in s.obj.ipFamilies
  {
    hide Listeners, Clusters, Flat, Parts, AllAddressed;
    var t := TargetCluster(s.obj, p, f);
    IndexLast(Clusters(snap), (c: Cluster) => c.name, t);
    if t in cfg.clusters {
      var c :| c in Clusters(snap) && c.name == t;
      ClustersListed(snap, c);
      var s', p', f' :| s' in snap && p' in s'.obj.ports && f' in s'.obj.ipFamilies && IsTCP(p') &&
          c == ClusterFor(s'.obj, p', f');
      ClusterNameInjective(s.obj.namespace, s.obj.name, f, p.targetPort.IntVal(),
                           s'.obj.namespace, s'.obj.name, f', p'.targetPort.IntVal());
      NameDetermines(snap, s, s');
    }
    if f in s.obj.ipFamilies {
      ClustersListed(snap, ClusterFor(s.obj, p, f));
    }
  }

  // ---------- load assignments ----------

  lemma {:induction false} FlatListed(parts: seq<seq<LoadAssignment>>, a: LoadAssignment)
    ensures a in Flat(parts) <==> exists part <- parts :: a in part
  {
    if parts != [] {
      assert parts == parts[..|parts| - 1] + [parts[|parts| - 1]];
      FlatListed(parts[..|parts| - 1], a);
    }
  }

  /** An assignment carries the name of an extracted endpoint of its service. */
  lemma AssignmentNamed(svc: Service, extracted: map<Meta, Conditions>, part: seq<LoadAssignment>, a: LoadAssignment)
      returns (m: Meta)
    requires Partition(svc, extracted, part) && a in part
    ensures m in extracted && a.cluster == NameFor(svc, m)
  {
    assert a.groups != [];
    var g := a.groups[0];
    assert g in a.groups && g.endpoints != [];
    var p := Place(a.cluster, g.locality, g.endpoints[0]);
    assert Holds(part, p);
    m :| m in extracted && p == PlaceOf(svc, m, extracted[m]);
  }

  /** Two assignments of one name are the same: services do not share names, and a service uses each once. */
  lemma AssignmentNameDetermines(snap: seq<SnapshotService>, parts: seq<seq<LoadAssignment>>, i: nat, j: nat,
                                 a: LoadAssignment, b: LoadAssignment)
    requires WellFormed(snap) && Parts(snap, parts)
    requires i < |snap| && j < |snap| && a in parts[i] && b in parts[j] && a.cluster == b.cluster
    ensures i == j && a == b
  {
    hide Written, Tuples, Holds, Wanted;
    var s, t := snap[i], snap[j];
    assert s in snap && t in snap;
    var m := AssignmentNamed(s.obj, Extracted(s), parts[i], a);
    var n := AssignmentNamed(t.obj, Extracted(t), parts[j], b);
    ExtractedFamilies(s.endpointSlices);
    ExtractedFamilies(t.endpointSlices);
    ClusterNameInjective(s.obj.namespace, s.obj.name, m.family, m.port, t.obj.namespace, t.obj.name, n.family, n.port);
  }

  predicate InAssignment(cfg: Config, t: string, lb: LbEndpoint) {
    t in cfg.assignments && exists g <- cfg.assignments[t].groups :: lb in g.endpoints
  }

  /** Some service wants `lb` in the assignment called `t`. */
  ghost predicate WantedIn(snap: seq<SnapshotService>, t: string, lb: LbEndpoint)
    requires AllAddressed(snap)
  {
    exists l: Locality, s <- snap :: Wanted(s.obj, Extracted(s), Place(t, l, lb))
  }

  lemma ConfiguredIsWanted(snap: seq<SnapshotService>, parts: seq<seq<LoadAssignment>>, cfg: Config, t: string,
                           lb: LbEndpoint)
    requires WellFormed(snap) && Translates(snap, parts, cfg) && InAssignment(cfg, t, lb)
    ensures WantedIn(snap, t, lb)
  {
    hide Listeners, Clusters, Flat, Wanted, Tidy;
    IndexLast(Flat(parts), (a: LoadAssignment) => a.cluster, t);
    var a := cfg.assignments[t];
    var g :| g in a.groups && lb in g.endpoints;
    FlatListed(parts, a);
    var part :| part in parts && a in part;
    var i :| 0 <= i < |parts| && parts[i] == part;
    assert Holds(part, Place(t, g.locality, lb));
    assert snap[i] in snap;
    assert Wanted(snap[i].obj, Extracted(snap[i]), Place(t, g.locality, lb));
  }

  lemma WantedIsConfigured(snap: seq<SnapshotService>, parts: seq<seq<LoadAssignment>>, cfg: Config, t: string,
                           lb: LbEndpoint)
    requires WellFormed(snap) && Translates(snap, parts, cfg) && WantedIn(snap, t, lb)
    ensures InAssignment(cfg, t, lb)
  {
    hide Listeners, Clusters, Flat, Wanted, Tidy;
    var l: Locality, s :| s in snap && Wanted(s.obj, Extracted(s), Place(t, l, lb));
    var i: nat :| i < |snap| && snap[i] == s;
    assert Holds(parts[i], Place(t, l, lb));
    var a, g :| a in parts[i] && g in a.groups && a.cluster == t && g.locality == l && lb in g.endpoints;
    assert parts[i] in parts;
    FlatListed(parts, a);
    IndexLast(Flat(parts), (a: LoadAssignment) => a.cluster, t);
    var b := cfg.assignments[t];
    FlatListed(parts, b);
    var part :| part in parts && b in part;
    var j: nat :| j < |parts| && parts[j] == part;
    AssignmentNameDetermines(snap, parts, i, j, a, b);
  }

  /** What is wanted under the name of a target cluster of `s` are the endpoints of `s`. */
  lemma WantedUnderTarget(snap: seq<SnapshotService>, s: SnapshotService, p: ServicePort, f: string, lb: LbEndpoint)
    requires WellFormed(snap) && s in snap && f in {IPV4, IPV6}
    ensures WantedIn(snap, TargetCluster(s.obj, p, f), lb) <==> HasEndpoint(s, f, p.targetPort.IntVal(), lb)
  {
    hide Written, Tuples;
    var t, n := TargetCluster(s.obj, p, f), p.targetPort.IntVal();
    if HasEndpoint(s, f, n, lb) {
      var m :| m in Extracted(s) && m.family == f && m.port == n && lb == EndpointFor(m, Extracted(s)[m]);
      assert Wanted(s.obj, Extracted(s), Place(t, m.locality, lb));
    }
    if l: Locality, s' :| s' in snap && Wanted(s'.obj, Extracted(s'), Place(t, l, lb)) {
      var m :| m in Extracted(s') && Place(t, l, lb) == PlaceOf(s'.obj, m, Extracted(s')[m]);
      ExtractedFamilies(s'.endpointSlices);
      ClusterNameInjective(s.obj.namespace, s.obj.name, f, n, s'.obj.namespace, s'.obj.name, m.family, m.port);
      NameDetermines(snap, s, s');
    }
  }

  /** The cluster a TCP port of `s` targets reaches exactly the extracted endpoints of its family and port. */
  lemma TargetReaches(snap: seq<SnapshotService>, parts: seq<seq<LoadAssignment>>, cfg: Config,
                      s: SnapshotService, p: ServicePort, f: string, lb: LbEndpoint)
    requires WellFormed(snap) && Translates(snap, parts, cfg)
    requires s in snap && p in s.obj.ports && IsTCP(p) && f in {IPV4, IPV6}
    ensures ClusterReaches(cfg, TargetCluster(s.obj, p, f), lb) <==>
              f in s.obj.ipFamilies && HasEndpoint(s, f, p.targetPort.IntVal(), lb)
  {
    var t := TargetCluster(s.obj, p, f);
    ConfiguredCluster(snap, parts, cfg, s, p, f);
    WantedUnderTarget(snap, s, p, f, lb);
    hide Translates, WellFormed, WantedIn, HasEndpoint;
    if InAssignment(cfg, t, lb) {
      ConfiguredIsWanted(snap, parts, cfg, t, lb);
    }
    if HasEndpoint(s, f, p.targetPort.IntVal(), lb) {
      WantedIsConfigured(snap, parts, cfg, t, lb);
    }
  }

  // ---------- the main theorem ----------

  /** Port `p` of `s` answers at (address, port) with `protocol`, and `lb` is one of the endpoints it should reach. */
  ghost predicate Serves(s: SnapshotService, p: ServicePort, address: string, port: nat, f: string, protocol: Protocol,
                         lb: LbEndpoint)
    requires Addressed(s.endpointSlices)
  {
    && Fronts(s.obj, p, address, port, f) && Speaks(p, protocol) && f in s.obj.ipFamilies
    && exists n: int32 :: TargetNumber(p, n) && HasEndpoint(s, f, n, lb)
  }

  lemma FrontFamily(svc: Service, p: ServicePort, address: string, port: nat, f: string)
    requires WellFormedService(svc) && Fronts(svc, p, address, port, f)
    ensures f in {IPV4, IPV6} && IsTCP(p)
  {
  }

  lemma TargetNumberIs(p: ServicePort, n: int32)
    ensures TargetNumber(p, n) <==> n == p.targetPort.IntVal()
  {
  }

  /** Through every configuration the translation can produce, a connection reaches exactly the endpoints of the
      family and target port of the service ports that answer where it goes, handled by the port's protocol; Redis
      ports excepted. */
  lemma RoutingPreserved(snap: seq<SnapshotService>, parts: seq<seq<LoadAssignment>>, cfg: Config,
                         address: string, port: nat, protocol: Protocol, lb: LbEndpoint)
    requires WellFormed(snap) && Translates(snap, parts, cfg)
    ensures Reaches(cfg, address, port, protocol, lb) <==>
              exists s <- snap, p <- s.obj.ports, f: string :: Serves(s, p, address, port, f, protocol, lb)
  {
    hide Translates, ClusterReaches, Fronts, HasEndpoint, TargetCluster, WellFormedService, DistinctServices, Takes,
         Speaks, TargetNumber;
    if Reaches(cfg, address, port, protocol, lb) {
      var n :| n in cfg.listeners && Takes(cfg.listeners[n], address, port) && cfg.listeners[n].chain.Some? &&
               cfg.listeners[n].chain.value.protocol == protocol &&
               ClusterReaches(cfg, cfg.listeners[n].chain.value.cluster, lb);
      ConfiguredFronts(snap, parts, cfg, address, port, cfg.listeners[n].chain);
      var s, p, f: string :| s in snap && p in s.obj.ports && Fronts(s.obj, p, address, port, f) &&
                             ChainFor(s.obj, p, f, cfg.listeners[n].chain);
      FrontReaches(snap, parts, cfg, s, p, address, port, f, lb);
      assert Serves(s, p, address, port, f, protocol, lb);
    }
    if s, p, f: string :| s in snap && p in s.obj.ports && Serves(s, p, address, port, f, protocol, lb) {
      FrontReaches(snap, parts, cfg, s, p, address, port, f, lb);
      var chain := Some(FilterChain(protocol, TargetCluster(s.obj, p, f)));
      ConfiguredFronts(snap, parts, cfg, address, port, chain);
      assert ChainFor(s.obj, p, f, chain);
    }
  }

  lemma FrontReaches(snap: seq<SnapshotService>, parts: seq<seq<LoadAssignment>>, cfg: Config,
                     s: SnapshotService, p: ServicePort, address: string, port: nat, f: string, lb: LbEndpoint)
    requires WellFormed(snap) && Translates(snap, parts, cfg)
    requires s in snap && p in s.obj.ports && Fronts(s.obj, p, address, port, f)
    ensures ClusterReaches(cfg, TargetCluster(s.obj, p, f), lb) <==>
              f in s.obj.ipFamilies && exists n: int32 :: TargetNumber(p, n) && HasEndpoint(s, f, n, lb)
  {
    hide Translates, ClusterReaches, Fronts, HasEndpoint, TargetCluster, WellFormedService, TargetNumber;
    FrontFamily(s.obj, p, address, port, f);
    TargetReaches(snap, parts, cfg, s, p, f, lb);
    forall n: int32 ensures TargetNumber(p, n) <==> n == p.targetPort.IntVal() {
      TargetNumberIs(p, n);
    }
  }
}
