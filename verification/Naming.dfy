/** The printed names that tie listeners, clusters and load assignments together (pkg/translations/helper.go). */
module Naming {
  import opened Kube
  import opened GoText

  predicate PipeFree(s: string) { '|' !in s }

  function FamilyOfIP(ip: string): string {
    if ':' in ip then IPV6 else IPV4
  }

  /** `head|rest`, as one `%s|` of a format string adds it. */
  function Field(head: string, rest: string): string { head + "|" + rest }

  function ClusterName(namespace: string, name: string, family: string, port: int32): string {
    Field(family, Field(namespace, Field(name, PrintInt(port))))
  }

  function ListenerName(namespace: string, name: string, ip: string, port: int32): string {
    Field(FamilyOfIP(ip), Field(namespace, Field(name, Field(ip, PrintInt(port)))))
  }

  /** Equal cluster names mean equal family, namespace, service and port. */
  lemma ClusterNameInjective(ns: string, n: string, f: string, p: int32, ns': string, n': string, f': string, p': int32)
    requires PipeFree(ns) && PipeFree(n) && PipeFree(f) && PipeFree(ns') && PipeFree(n') && PipeFree(f')
    requires ClusterName(ns, n, f, p) == ClusterName(ns', n', f', p')
    ensures ns == ns' && n == n' && f == f' && p == p'
  {
    var y, y' := Field(n, PrintInt(p)), Field(n', PrintInt(p'));
    SplitUnique('|', f, Field(ns, y), f', Field(ns', y'));
    SplitUnique('|', ns, y, ns', y');
    SplitUnique('|', n, PrintInt(p), n', PrintInt(p'));
    PrintIntInjective(p, p');
  }

  /** Equal listener names mean equal namespace, service, address and port. */
  lemma ListenerNameInjective(ns: string, n: string, ip: string, p: int32, ns': string, n': string, ip': string,
                              p': int32)
    requires PipeFree(ns) && PipeFree(n) && PipeFree(ip) && PipeFree(ns') && PipeFree(n') && PipeFree(ip')
    requires ListenerName(ns, n, ip, p) == ListenerName(ns', n', ip', p')
    ensures ns == ns' && n == n' && ip == ip' && p == p'
  {
    var x, x' := Field(ip, PrintInt(p)), Field(ip', PrintInt(p'));
    var y, y' := Field(n, x), Field(n', x');
    SplitUnique('|', FamilyOfIP(ip), Field(ns, y), FamilyOfIP(ip'), Field(ns', y'));
    SplitUnique('|', ns, y, ns', y');
    SplitUnique('|', n, x, n', x');
    SplitUnique('|', ip, PrintInt(p), ip', PrintInt(p'));
    PrintIntInjective(p, p');
  }

  /** Within one service no condition is needed: IPv4 and IPv6 have the same length. */
  lemma OwnClusterNameInjective(ns: string, n: string, f: string, p: int32, f': string, p': int32)
    requires f in {IPV4, IPV6} && f' in {IPV4, IPV6}
    requires ClusterName(ns, n, f, p) == ClusterName(ns, n, f', p')
    ensures f == f' && p == p'
  {
    var name := ClusterName(ns, n, f, p);
    var k := 4 + 1 + |ns| + 1 + |n| + 1;
    assert |IPV4| == |IPV6| == 4;
    assert name[..4] == f && name[..4] == f';
    assert name[k..] == PrintInt(p);
    assert ClusterName(ns, n, f', p')[k..] == PrintInt(p');
    PrintIntInjective(p, p');
  }

  /** Without the condition two services can share a cluster. */
  lemma PipesCollide(p: int32)
    ensures ClusterName("a|b", "c", IPV4, p) == ClusterName("a", "b|c", IPV4, p)
  {
    assert Field("a|b", Field("c", PrintInt(p))) == Field("a", Field("b|c", PrintInt(p)));
  }
}
