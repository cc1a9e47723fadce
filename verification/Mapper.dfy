/** From a snapshot of services to the resources an Envoy configuration consists of (pkg/translations/mapper*.go). */
module Mapper {
  import opened Kube
  import opened Naming
  import opened Endpoints
  import opened Grouping
  import opened CacheSpec

  datatype Protocol = Tcp | Http | Redis

  const APP_PROTOCOL_HTTP := "http"
  const APP_PROTOCOL_REDIS := "lightpath.cloud/redis"

  /** The application protocol, or else the port's name, decides; `tcp` and every unknown name mean TCP. */
  function ProtocolOf(port: ServicePort): Protocol {
    var name := port.appProtocol.Or(port.name);
    if name == APP_PROTOCOL_REDIS then Redis
    else if name == APP_PROTOCOL_HTTP then Http
    else Tcp
  }

  /** A filter chain, reduced to its protocol and the cluster it sends to. */
  datatype FilterChain = FilterChain(protocol: Protocol, cluster: string)

  datatype Listener = Listener(name: string, address: string, port: nat, bindToPort: bool, chain: Option<FilterChain>)

  /** An endpoint-discovery cluster; its settings are those of one service port. */
  datatype Cluster = Cluster(name: string, settings: ServicePort)

  predicate IsTCP(port: ServicePort) { port.protocol == PROTOCOL_TCP }

  // ---------- listeners ----------

  function GenListener(name: string, ip: string, port: int32, bind: bool, protocol: Protocol,
                       cluster: string): Listener {
    Listener(name, ip, ToUint32(port), bind, if protocol == Redis then None else Some(FilterChain(protocol, cluster)))
  }

  function TargetCluster(svc: Service, port: ServicePort, family: string): string {
    ClusterName(svc.namespace, svc.name, family, port.targetPort.IntVal())
  }

  function ClusterIPListener(svc: Service, port: ServicePort, ip: string): Listener {
    GenListener(ListenerName(svc.namespace, svc.name, ip, port.port), ip, port.port, false, ProtocolOf(port),
                TargetCluster(svc, port, FamilyOfIP(ip)))
  }

  const ANY_IPV4 := "0.0.0.0"
  const ANY_IPV6 := "::"

  function AnyAddress(family: string): string { if family == IPV6 then ANY_IPV6 else ANY_IPV4 }

  function NodePortListener(svc: Service, port: ServicePort, family: string): Listener {
    GenListener(ListenerName(svc.namespace, svc.name, AnyAddress(family), port.nodePort), AnyAddress(family),
                port.nodePort, true, ProtocolOf(port), TargetCluster(svc, port, family))
  }

  const HEADLESS := "None"
  const NODE_PORT := "NodePort"

  function ClusterIPListeners(svc: Service, port: ServicePort, ips: seq<string>): seq<Listener> {
    if ips == [] then []
    else ClusterIPListeners(svc, port, ips[..|ips| - 1]) +
         (if ips[|ips| - 1] == HEADLESS then [] else [ClusterIPListener(svc, port, ips[|ips| - 1])])
  }

  function NodePortListeners(svc: Service, port: ServicePort, families: seq<string>): seq<Listener> {
    if families == [] then []
    else NodePortListeners(svc, port, families[..|families| - 1]) +
         [NodePortListener(svc, port, families[|families| - 1])]
  }

  function ListenersOf(svc: Service, port: ServicePort): seq<Listener> {
    ClusterIPListeners(svc, port, svc.clusterIPs) +
    (if svc.kind == NODE_PORT then NodePortListeners(svc, port, svc.ipFamilies) else [])
  }

  method MapServicePortToListeners(svc: Service, port: ServicePort) returns (buf: seq<Listener>)
    ensures buf == ListenersOf(svc, port)
  {
    hide ListenerName, ClusterName, ProtocolOf, FamilyOfIP, GenListener;
    buf := [];
    for i := 0 to |svc.clusterIPs|
      invariant buf == ClusterIPListeners(svc, port, svc.clusterIPs[..i])
    {
      var ip := svc.clusterIPs[i];
      assert svc.clusterIPs[..i + 1][..i] == svc.clusterIPs[..i];
      if ip == HEADLESS {
        continue;
      }
      var target := ClusterName(svc.namespace, svc.name, FamilyOfIP(ip), port.targetPort.IntVal());
      var name := ListenerName(svc.namespace, svc.name, ip, port.port);
      buf := buf + [GenListener(name, ip, port.port, false, ProtocolOf(port), target)];
    }
    assert svc.clusterIPs[..|svc.clusterIPs|] == svc.clusterIPs;
    if svc.kind == NODE_PORT {
      ghost var before := buf;
      for i := 0 to |svc.ipFamilies|
        invariant buf == before + NodePortListeners(svc, port, svc.ipFamilies[..i])
      {
        var family := svc.ipFamilies[i];
        assert svc.ipFamilies[..i + 1][..i] == svc.ipFamilies[..i];
        var target := ClusterName(svc.namespace, svc.name, family, port.targetPort.IntVal());
        var ip := ANY_IPV4;
        if family == IPV6 {
          ip := ANY_IPV6;
        }
        var name := ListenerName(svc.namespace, svc.name, ip, port.nodePort);
        buf := buf + [GenListener(name, ip, port.nodePort, true, ProtocolOf(port), target)];
      }
      assert svc.ipFamilies[..|svc.ipFamilies|] == svc.ipFamilies;
    }
  }

  // ---------- clusters ----------

  function ClusterFor(svc: Service, port: ServicePort, family: string): Cluster {
    Cluster(TargetCluster(svc, port, family), port)
  }

  function ClustersOf(svc: Service, port: ServicePort): (cs: seq<Cluster>)
    ensures |cs| == |svc.ipFamilies| && forall i :: 0 <= i < |cs| ==> cs[i] == ClusterFor(svc, port, svc.ipFamilies[i])
  {
    seq(|svc.ipFamilies|, i requires 0 <= i < |svc.ipFamilies| => ClusterFor(svc, port, svc.ipFamilies[i]))
  }

  method MapServicePortToClusters(svc: Service, port: ServicePort) returns (buf: seq<Cluster>)
    ensures buf == ClustersOf(svc, port)
  {
    buf := [];
    for i := 0 to |svc.ipFamilies|
      invariant buf == ClustersOf(svc, port)[..i]
    {
      buf := buf + [Cluster(ClusterName(svc.namespace, svc.name, svc.ipFamilies[i], port.targetPort.IntVal()), port)];
    }
  }

  // ---------- the whole snapshot ----------

  function ListenersOfPorts(svc: Service, ports: seq<ServicePort>): seq<Listener> {
    if ports == [] then []
    else ListenersOfPorts(svc, ports[..|ports| - 1]) +
         (if IsTCP(ports[|ports| - 1]) then ListenersOf(svc, ports[|ports| - 1]) else [])
  }

  function ClustersOfPorts(svc: Service, ports: seq<ServicePort>): seq<Cluster> {
    if ports == [] then []
    else ClustersOfPorts(svc, ports[..|ports| - 1]) +
         (if IsTCP(ports[|ports| - 1]) then ClustersOf(svc, ports[|ports| - 1]) else [])
  }

  function Listeners(snap: seq<SnapshotService>): seq<Listener> {
    if snap == [] then []
    else Listeners(snap[..|snap| - 1]) + ListenersOfPorts(snap[|snap| - 1].obj, snap[|snap| - 1].obj.ports)
  }

  function Clusters(snap: seq<SnapshotService>): seq<Cluster> {
    if snap == [] then []
    else Clusters(snap[..|snap| - 1]) + ClustersOfPorts(snap[|snap| - 1].obj, snap[|snap| - 1].obj.ports)
  }

  function Flat(parts: seq<seq<LoadAssignment>>): seq<LoadAssignment> {
    if parts == [] then [] else Flat(parts[..|parts| - 1]) + parts[|parts| - 1]
  }

  /** The endpoints extracted from a service's slices. */
  function Extracted(s: SnapshotService): map<Meta, Conditions>
    requires Addressed(s.endpointSlices)
  {
    Written(Tuples(s.endpointSlices))
  }

  predicate AllAddressed(snap: seq<SnapshotService>) { forall s <- snap :: Addressed(s.endpointSlices) }

  /** `parts[i]` is the partition of the endpoints of service `i`. */
  ghost predicate Parts(snap: seq<SnapshotService>, parts: seq<seq<LoadAssignment>>)
    requires AllAddressed(snap)
  {
    |parts| == |snap| && forall i :: 0 <= i < |snap| ==> Partition(snap[i].obj, Extracted(snap[i]), parts[i])
  }

  method EnvoySnapshotFromKubeSnapshot(snap: seq<SnapshotService>)
      returns (clusters: seq<Cluster>, listeners: seq<Listener>, endpoints: seq<LoadAssignment>,
               ghost parts: seq<seq<LoadAssignment>>)
    requires AllAddressed(snap)
    ensures clusters == Clusters(snap) && listeners == Listeners(snap)
    ensures Parts(snap, parts) && endpoints == Flat(parts)
  {
    hide Written, Tuples, Partition, Addressed, ListenersOfPorts, ClustersOfPorts;
    clusters, listeners, endpoints, parts := [], [], [], [];
    for i := 0 to |snap|
      invariant clusters == Clusters(snap[..i]) && listeners == Listeners(snap[..i])
      invariant |parts| == i && forall k :: 0 <= k < i ==> Partition(snap[k].obj, Extracted(snap[k]), parts[k])
      invariant endpoints == Flat(parts)
    {
      var svc := snap[i];
      var cs, ls := MapPorts(svc.obj);
      clusters, listeners := clusters + cs, listeners + ls;
      var part := MapEndpointSliceToLocalityEndpoints(svc.obj, svc.endpointSlices);
      endpoints := endpoints + part;
      assert (parts + [part])[..i] == parts;
      parts := parts + [part];
      assert snap[..i + 1][..i] == snap[..i];
    }
    assert snap[..|snap|] == snap;
  }

  /** The inner loop over the ports of one service. */
  method MapPorts(svc: Service) returns (clusters: seq<Cluster>, listeners: seq<Listener>)
    ensures clusters == ClustersOfPorts(svc, svc.ports) && listeners == ListenersOfPorts(svc, svc.ports)
  {
    hide ListenersOf, ClustersOf;
    clusters, listeners := [], [];
    for j := 0 to |svc.ports|
      invariant clusters == ClustersOfPorts(svc, svc.ports[..j]) && listeners == ListenersOfPorts(svc, svc.ports[..j])
    {
      var port := svc.ports[j];
      assert svc.ports[..j + 1][..j] == svc.ports[..j];
      if port.protocol != PROTOCOL_TCP {
        continue;
      }
      var cs := MapServicePortToClusters(svc, port);
      var ls := MapServicePortToListeners(svc, port);
      clusters, listeners := clusters + cs, listeners + ls;
    }
    assert svc.ports[..|svc.ports|] == svc.ports;
  }

  // ---------- resources by name ----------

  /** A snapshot keeps resources by name; of two with one name the later stays. */
  function Index<R>(resources: seq<R>, name: R -> string): map<string, R> {
    if resources == [] then map[]
    else Index(resources[..|resources| - 1], name)[name(resources[|resources| - 1]) := resources[|resources| - 1]]
  }

  datatype Config = Config(
    listeners: map<string, Listener>,
    clusters: map<string, Cluster>,
    assignments: map<string, LoadAssignment>)

  function NewSnapshot(clusters: seq<Cluster>, listeners: seq<Listener>, endpoints: seq<LoadAssignment>): Config {
    Config(Index(listeners, (l: Listener) => l.name),
           Index(clusters, (c: Cluster) => c.name),
           Index(endpoints, (a: LoadAssignment) => a.cluster))
  }

  lemma {:induction false} IndexLast<R>(resources: seq<R>, name: R -> string, k: string)
    ensures k in Index(resources, name) <==> exists r <- resources :: name(r) == k
    ensures k in Index(resources, name) ==>
              exists i :: 0 <= i < |resources| && resources[i] == Index(resources, name)[k] &&
                          name(resources[i]) == k && forall j :: i < j < |resources| ==> name(resources[j]) != k
  {
    if resources != [] {
      var pre, last := resources[..|resources| - 1], resources[|resources| - 1];
      assert resources == pre + [last];
      IndexLast(pre, name, k);
      if name(last) == k {
        assert resources[|pre|] == last;
      } else if k in Index(pre, name) {
        var i :| 0 <= i < |pre| && pre[i] == Index(pre, name)[k] && name(pre[i]) == k &&
                 forall j :: i < j < |pre| ==> name(pre[j]) != k;
        assert resources[i] == pre[i];
      }
    }
  }

  /** `cfg` is a configuration the translation can produce for `snap`: whatever order the maps were walked in. */
  ghost predicate Translates(snap: seq<SnapshotService>, parts: seq<seq<LoadAssignment>>, cfg: Config) {
    AllAddressed(snap) && Parts(snap, parts) && cfg == NewSnapshot(Clusters(snap), Listeners(snap), Flat(parts))
  }

  method Translate(snap: seq<SnapshotService>) returns (cfg: Config)
    requires AllAddressed(snap)
    ensures exists parts :: Translates(snap, parts, cfg)
  {
    var clusters, listeners, endpoints;
    ghost var parts;
    clusters, listeners, endpoints, parts := EnvoySnapshotFromKubeSnapshot(snap);
    cfg := NewSnapshot(clusters, listeners, endpoints);
    assert Translates(snap, parts, cfg);
  }
}
