/** What the fields of the Kubernetes objects mean, written out. The theorems are stated in these terms; no part of the
    code's model uses them. */
module Meaning {
  import opened Kube

  predicate IsTCPPort(p: ServicePort) { p.protocol == "TCP" }

  /** The slice's label names service `n`. */
  predicate LabelledFor(slice: EndpointSlice, n: string) {
    "kubernetes.io/service-name" in slice.labels && slice.labels["kubernetes.io/service-name"] == n
  }

  /** The service asks for traffic to the address written `u`. */
  predicate Lists(svc: Service, u: string) { u in svc.clusterIPs || u in svc.externalIPs }

  /** An address is written with a colon exactly when its family is IPv6. */
  predicate TextFamily(address: string, family: string) {
    (family == "IPv6" && ':' in address) || (family == "IPv4" && ':' !in address)
  }

  /** The any-address that stands for the addresses of a node. */
  predicate NodeAddress(address: string) { address == "0.0.0.0" || address == "::" }

  predicate NodeAddressOf(family: string, address: string) { address == if family == "IPv6" then "::" else "0.0.0.0" }

  /** The port's application protocol is called `name`; without one its own name counts. */
  predicate AppliesProtocol(p: ServicePort, name: string) {
    p.appProtocol == Some(name) || (p.appProtocol == None && p.name == name)
  }

  /** The number a target port is looked up under: 0 for a named one. */
  predicate TargetNumber(p: ServicePort, n: int32) {
    p.targetPort == FromInt(n) || (p.targetPort.FromString? && n == 0)
  }

  /** The number of a slice port: 0 for one without. */
  predicate PortNumber(sp: EndpointPort, n: int32) { sp.port == Some(n) || (sp.port == None && n == 0) }

  /** The family a slice's addresses count for: everything but IPv6 counts for IPv4. */
  predicate SliceFamily(slice: EndpointSlice, f: string) {
    f == if slice.addressType == "IPv6" then "IPv6" else "IPv4"
  }

  /** A zone or node name as it is shown, `None` where absent. */
  predicate ShownName(name: Option<string>, text: string) { name == Some(text) || (name == None && text == "None") }
}
