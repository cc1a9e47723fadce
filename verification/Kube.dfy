/** The Kubernetes API objects the control plane reads, reduced to the fields it looks at. */
module Kube {
  datatype Option<+T> = None | Some(value: T) {
    /** Dereference with a default, as the `pointer.*Deref` helpers do. */
    function Or(default: T): (r: T)
      ensures this == Some(r) || (this == None && r == default)
    {
      match this
      case Some(v) => v
      case None => default
    }
  }

  type int32 = x: int | -0x8000_0000 <= x < 0x8000_0000

  /** The Go conversion `uint32(x)`. */
  function ToUint32(x: int32): (r: nat)
    ensures r < 0x1_0000_0000 && (r - x) % 0x1_0000_0000 == 0
  {
    if x < 0 then x + 0x1_0000_0000 else x
  }

  const SERVICE_NAME_LABEL := "kubernetes.io/service-name"

  const PROTOCOL_TCP := "TCP"

  const IPV4 := "IPv4"
  const IPV6 := "IPv6"

  datatype IntOrString = FromInt(number: int32) | FromString(portName: string) {
    /** The `IntVal` field: a named target port leaves it 0. */
    function IntVal(): (n: int32)
      ensures this == FromInt(n) || (this.FromString? && n == 0)
    {
      match this
      case FromInt(n) => n
      case FromString(_) => 0
    }
  }

  datatype ServicePort = ServicePort(
    name: string,
    protocol: string,
    appProtocol: Option<string>,
    port: int32,
    targetPort: IntOrString,
    nodePort: int32)

  datatype Service = Service(
    namespace: string,
    name: string,
    resourceVersion: string,
    kind: string,
    clusterIPs: seq<string>,
    externalIPs: seq<string>,
    ipFamilies: seq<string>,
    ports: seq<ServicePort>)

  /** How the API server names an object. */
  datatype Key = Key(namespace: string, name: string)

  function KeyOf(svc: Service): Key { Key(svc.namespace, svc.name) }

  datatype EndpointPort = EndpointPort(name: Option<string>, protocol: Option<string>, port: Option<int32>)

  datatype Endpoint = Endpoint(
    addresses: seq<string>,
    ready: Option<bool>,
    serving: Option<bool>,
    terminating: Option<bool>,
    zone: Option<string>,
    nodeName: Option<string>)

  datatype EndpointSlice = EndpointSlice(
    namespace: string,
    name: string,
    resourceVersion: string,
    labels: map<string, string>,
    addressType: string,
    ports: seq<EndpointPort>,
    endpoints: seq<Endpoint>)
}
