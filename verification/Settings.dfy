/** Per-port settings: the annotation keys that carry them, and which port's settings a shared cluster ends up with. */
module Settings {
  import opened Kube
  import opened Naming
  import opened CacheSpec
  import opened Endpoints
  import opened Grouping
  import opened Mapper
  import opened Routing

  // ---------- annotation keys ----------

  const PREFIX := "config.lightpath.cloud/"

  datatype Setting =
    | IdleTimeout | UpstreamIdleTimeout | RequestTimeout | UpstreamRequestTimeout | UpstreamConnectTimeout
    | AccessLog | LbPolicy | RetryEnabled | RetryOn | NumRetries
    | DefaultMaxConnections | DefaultMaxPendingRequests | DefaultMaxRequests | DefaultMaxRetries | DefaultTrackRemaining
    | HighMaxConnections | HighMaxPendingRequests | HighMaxRequests | HighMaxRetries | HighTrackRemaining
    | OutlierInterval | OutlierBaseEjectionTime | OutlierMaxEjectionTime | OutlierMaxEjectionPercent
    | OutlierConsecutive5xx | OutlierConsecutiveGatewayFailure

  function Text(s: Setting): string {
    match s
    case IdleTimeout => "idle-timeout"
    case UpstreamIdleTimeout => "upstream-idle-timeout"
    case RequestTimeout => "request-timeout"
    case UpstreamRequestTimeout => "upstream-request-timeout"
    case UpstreamConnectTimeout => "upstream-connect-timeout"
    case AccessLog => "access-log"
    case LbPolicy => "lb-policy"
    case RetryEnabled => "retry-enabled"
    case RetryOn => "retry-on"
    case NumRetries => "num-retries"
    case DefaultMaxConnections => "circuit-breaker-default-max-connections"
    case DefaultMaxPendingRequests => "circuit-breaker-default-max-pending-requests"
    case DefaultMaxRequests => "circuit-breaker-default-max-requests"
    case DefaultMaxRetries => "circuit-breaker-default-max-retries"
    case DefaultTrackRemaining => "circuit-breaker-default-track-remaining"
    case HighMaxConnections => "circuit-breaker-high-max-connections"
    case HighMaxPendingRequests => "circuit-breaker-high-max-pending-requests"
    case HighMaxRequests => "circuit-breaker-high-max-requests"
    case HighMaxRetries => "circuit-breaker-high-max-retries"
    case HighTrackRemaining => "circuit-breaker-high-track-remaining"
    case OutlierInterval => "outlier-detection-interval"
    case OutlierBaseEjectionTime => "outlier-detection-base-ejection-time"
    case OutlierMaxEjectionTime => "outlier-detection-max-ejection-time"
    case OutlierMaxEjectionPercent => "outlier-detection-max-ejection-percent"
    case OutlierConsecutive5xx => "outlier-detection-consecutive-5xx"
    case OutlierConsecutiveGatewayFailure => "outlier-detection-consecutive-gateway-failure"
  }

  function AnnotationKey(portName: string, s: Setting): string { PREFIX + portName + "-" + Text(s) }

  /** The settings that come with and without the `upstream-` prefix. */
  predicate UpstreamPair(s: Setting, t: Setting) {
    (s == IdleTimeout && t == UpstreamIdleTimeout) || (s == RequestTimeout && t == UpstreamRequestTimeout)
  }

  function FromEnd(text: string, k: nat): char
    requires k < |text|
  {
    text[|text| - 1 - k]
  }

  /** The two texts differ at the same distance from their ends, so neither ends the other. */
  ghost predicate Apart(s: Setting, t: Setting) {
    exists k: nat | k < |Text(s)| && k < |Text(t)| :: FromEnd(Text(s), k) != FromEnd(Text(t), k)
  }

  lemma ApartAt(s: Setting, t: Setting, k: nat)
    requires k < |Text(s)| && k < |Text(t)|
    requires Text(s)[|Text(s)| - 1 - k] != Text(t)[|Text(t)| - 1 - k]
    ensures Apart(s, t)
  {
    hide Text;
    assert FromEnd(Text(s), k) != FromEnd(Text(t), k);
  }

  lemma KeyFromEnd(p: string, s: Setting, k: nat)
    requires k < |Text(s)|
    ensures k < |AnnotationKey(p, s)| && FromEnd(AnnotationKey(p, s), k) == FromEnd(Text(s), k)
  {
    hide Text;
  }

  lemma SharedKeysNotApart(p: string, s: Setting, q: string, t: Setting)
    requires AnnotationKey(p, s) == AnnotationKey(q, t)
    ensures !Apart(s, t)
  {
    hide Text, AnnotationKey, FromEnd;
    forall k: nat | k < |Text(s)| && k < |Text(t)|
      ensures FromEnd(Text(s), k) == FromEnd(Text(t), k)
    {
      KeyFromEnd(p, s, k);
      KeyFromEnd(q, t, k);
    }
  }

  lemma SamePort(p: string, q: string, s: Setting)
    requires AnnotationKey(p, s) == AnnotationKey(q, s)
    ensures p == q
  {
    hide Text;
    var key := AnnotationKey(p, s);
    assert key[|PREFIX|..|key| - |Text(s)| - 1] == p;
    assert AnnotationKey(q, s)[|PREFIX|..|key| - |Text(s)| - 1] == q;
  }

  /** The last three letters of a setting, which sort the table into small groups. */
  function Ending(s: Setting): string {
    match s
    case IdleTimeout | UpstreamIdleTimeout | RequestTimeout | UpstreamRequestTimeout | UpstreamConnectTimeout => "out"
    case AccessLog => "log"
    case LbPolicy => "icy"
    case RetryEnabled => "led"
    case RetryOn => "-on"
    case NumRetries | DefaultMaxRetries | HighMaxRetries => "ies"
    case DefaultMaxConnections | HighMaxConnections => "ons"
    case DefaultMaxPendingRequests | DefaultMaxRequests | HighMaxPendingRequests | HighMaxRequests => "sts"
    case DefaultTrackRemaining | HighTrackRemaining => "ing"
    case OutlierInterval => "val"
    case OutlierBaseEjectionTime | OutlierMaxEjectionTime => "ime"
    case OutlierMaxEjectionPercent => "ent"
    case OutlierConsecutive5xx => "5xx"
    case OutlierConsecutiveGatewayFailure => "ure"
  }

  predicate EndingRight(s: Setting) {
    && |Text(s)| >= 3 && |Ending(s)| == 3
    && FromEnd(Text(s), 0) == Ending(s)[2] && FromEnd(Text(s), 1) == Ending(s)[1] && FromEnd(Text(s), 2) == Ending(s)[0]
  }

  lemma EndingsOfBreakers()
    ensures EndingRight(DefaultMaxConnections) && EndingRight(DefaultMaxPendingRequests) &&
              EndingRight(DefaultMaxRequests)
    ensures EndingRight(DefaultMaxRetries) && EndingRight(DefaultTrackRemaining)
  {
  }

  lemma EndingsOfHighBreakers()
    ensures EndingRight(HighMaxConnections) && EndingRight(HighMaxPendingRequests) && EndingRight(HighMaxRequests)
    ensures EndingRight(HighMaxRetries) && EndingRight(HighTrackRemaining)
  {
  }

  lemma EndingsOfOutliers()
    ensures EndingRight(OutlierInterval) && EndingRight(OutlierBaseEjectionTime) && EndingRight(OutlierMaxEjectionTime)
    ensures EndingRight(OutlierMaxEjectionPercent) && EndingRight(OutlierConsecutive5xx)
    ensures EndingRight(OutlierConsecutiveGatewayFailure)
  {
  }

  lemma EndingsOfOthers()
    ensures EndingRight(IdleTimeout) && EndingRight(UpstreamIdleTimeout) && EndingRight(RequestTimeout)
    ensures EndingRight(UpstreamRequestTimeout) && EndingRight(UpstreamConnectTimeout)
    ensures EndingRight(AccessLog) && EndingRight(LbPolicy) && EndingRight(RetryEnabled) && EndingRight(RetryOn)
    ensures EndingRight(NumRetries)
  {
  }

  lemma EndingIsLast(s: Setting)
    ensures EndingRight(s)
  {
    hide EndingRight;
    EndingsOfBreakers();
    EndingsOfHighBreakers();
    EndingsOfOutliers();
    EndingsOfOthers();
  }

  lemma TimeoutsApart()
    ensures Apart(IdleTimeout, RequestTimeout) && Apart(IdleTimeout, UpstreamRequestTimeout)
    ensures Apart(IdleTimeout, UpstreamConnectTimeout) && Apart(UpstreamIdleTimeout, RequestTimeout)
    ensures Apart(UpstreamIdleTimeout, UpstreamRequestTimeout) && Apart(UpstreamIdleTimeout, UpstreamConnectTimeout)
    ensures Apart(RequestTimeout, UpstreamConnectTimeout) && Apart(UpstreamRequestTimeout, UpstreamConnectTimeout)
  {
    hide Apart;
    ApartAt(IdleTimeout, RequestTimeout, 8);
    ApartAt(IdleTimeout, UpstreamRequestTimeout, 8);
    ApartAt(IdleTimeout, UpstreamConnectTimeout, 8);
    ApartAt(UpstreamIdleTimeout, RequestTimeout, 8);
    ApartAt(UpstreamIdleTimeout, UpstreamRequestTimeout, 8);
    ApartAt(UpstreamIdleTimeout, UpstreamConnectTimeout, 8);
    ApartAt(RequestTimeout, UpstreamConnectTimeout, 9);
    ApartAt(UpstreamRequestTimeout, UpstreamConnectTimeout, 9);
  }

  lemma RetriesApart()
    ensures Apart(NumRetries, DefaultMaxRetries) && Apart(NumRetries, HighMaxRetries) &&
              Apart(DefaultMaxRetries, HighMaxRetries)
  {
    hide Apart;
    ApartAt(NumRetries, DefaultMaxRetries, 8);
    ApartAt(NumRetries, HighMaxRetries, 8);
    ApartAt(DefaultMaxRetries, HighMaxRetries, 12);
  }

  lemma EjectionsApart()
    ensures Apart(OutlierBaseEjectionTime, OutlierMaxEjectionTime)
  {
    ApartAt(OutlierBaseEjectionTime, OutlierMaxEjectionTime, 14);
  }

  lemma BreakersApart()
    ensures Apart(DefaultMaxConnections, HighMaxConnections) && Apart(DefaultTrackRemaining, HighTrackRemaining)
  {
    hide Apart;
    ApartAt(DefaultMaxConnections, HighMaxConnections, 16);
    ApartAt(DefaultTrackRemaining, HighTrackRemaining, 16);
  }

  lemma PrioritiesApart()
    ensures Apart(DefaultMaxRequests, HighMaxRequests) && Apart(DefaultMaxPendingRequests, HighMaxPendingRequests)
  {
    hide Apart;
    ApartAt(DefaultMaxRequests, HighMaxRequests, 13);
    ApartAt(DefaultMaxPendingRequests, HighMaxPendingRequests, 21);
  }

  lemma RequestsApart()
    ensures Apart(DefaultMaxRequests, DefaultMaxPendingRequests) && Apart(DefaultMaxRequests, HighMaxPendingRequests)
    ensures Apart(HighMaxRequests, DefaultMaxPendingRequests) && Apart(HighMaxRequests, HighMaxPendingRequests)
  {
    hide Apart;
    ApartAt(DefaultMaxRequests, DefaultMaxPendingRequests, 9);
    ApartAt(DefaultMaxRequests, HighMaxPendingRequests, 9);
    ApartAt(HighMaxRequests, DefaultMaxPendingRequests, 9);
    ApartAt(HighMaxRequests, HighMaxPendingRequests, 9);
  }

  /** Two settings are apart unless they are the same or an upstream pair. */
  lemma SettingsApart(s: Setting, t: Setting)
    ensures s == t || UpstreamPair(s, t) || UpstreamPair(t, s) || Apart(s, t) || Apart(t, s)
  {
    if Ending(s) != Ending(t) {
      EndingsApart(s, t);
    } else {
      SameEndingApart(s, t);
    }
  }

  lemma SameEndingApart(s: Setting, t: Setting)
    requires Ending(s) == Ending(t)
    ensures s == t || UpstreamPair(s, t) || UpstreamPair(t, s) || Apart(s, t) || Apart(t, s)
  {
    hide Apart;
    TimeoutsApart();
    RetriesApart();
    EjectionsApart();
    BreakersApart();
    PrioritiesApart();
    RequestsApart();
  }

  lemma EndingsApart(s: Setting, t: Setting)
    requires Ending(s) != Ending(t)
    ensures Apart(s, t)
  {
    EndingIsLast(s);
    EndingIsLast(t);
    hide Text, Ending;
    if Ending(s)[2] != Ending(t)[2] {
      ApartAt(s, t, 0);
    } else if Ending(s)[1] != Ending(t)[1] {
      ApartAt(s, t, 1);
    } else {
      assert Ending(s)[0] != Ending(t)[0];
      ApartAt(s, t, 2);
    }
  }

  /** Two (port, setting) pairs share an annotation exactly when they are the same, or one port is named like the other
      with `-upstream` added and the settings are an upstream pair. */
  lemma KeysCollideIff(p: string, s: Setting, q: string, t: Setting)
    ensures AnnotationKey(p, s) == AnnotationKey(q, t) <==>
              (p == q && s == t) ||
              (p == q + "-upstream" && UpstreamPair(s, t)) ||
              (q == p + "-upstream" && UpstreamPair(t, s))
  {
    if AnnotationKey(p, s) == AnnotationKey(q, t) {
      CollisionsArePairs(p, s, q, t);
    }
    if p == q + "-upstream" && UpstreamPair(s, t) {
      PairsCollide(q, s, t);
    }
    if q == p + "-upstream" && UpstreamPair(t, s) {
      PairsCollide(p, t, s);
    }
  }

  /** The idle timeout of port `http-upstream` is the upstream idle timeout of port `http`. */
  lemma UpstreamPortCollides()
    ensures AnnotationKey("http-upstream", IdleTimeout) == "config.lightpath.cloud/http-upstream-idle-timeout"
    ensures AnnotationKey("http", UpstreamIdleTimeout) == "config.lightpath.cloud/http-upstream-idle-timeout"
  {
    KeysCollideIff("http-upstream", IdleTimeout, "http", UpstreamIdleTimeout);
  }

  lemma PairTexts(s: Setting, t: Setting)
    requires UpstreamPair(s, t)
    ensures Text(t) == "upstream-" + Text(s)
  {
    if s == IdleTimeout {
      assert Text(t) == "upstream-idle-timeout";
    }
  }

  lemma PairsCollide(q: string, s: Setting, t: Setting)
    requires UpstreamPair(s, t)
    ensures AnnotationKey(q + "-upstream", s) == AnnotationKey(q, t)
  {
    PairTexts(s, t);
    hide Text;
    JoinAssociates(q, Text(s));
  }

  lemma JoinAssociates(q: string, text: string)
    ensures PREFIX + (q + "-upstream") + "-" + text == PREFIX + q + "-" + ("upstream-" + text)
  {
  }

  lemma CollisionsArePairs(p: string, s: Setting, q: string, t: Setting)
    requires AnnotationKey(p, s) == AnnotationKey(q, t)
    ensures (p == q && s == t) ||
            (p == q + "-upstream" && UpstreamPair(s, t)) ||
            (q == p + "-upstream" && UpstreamPair(t, s))
  {
    hide Text, AnnotationKey, UpstreamPair, Apart;
    SharedKeysNotApart(p, s, q, t);
    SharedKeysNotApart(q, t, p, s);
    SettingsApart(s, t);
    if s == t {
      SamePort(p, q, s);
    } else if UpstreamPair(s, t) {
      PairsCollide(q, s, t);
      SamePort(p, q + "-upstream", s);
    } else {
      PairsCollide(p, t, s);
      SamePort(q, p + "-upstream", t);
    }
  }

  // ---------- shared clusters ----------

  /** `j` is the last TCP port with the target number `n`. */
  predicate LastWith(ports: seq<ServicePort>, n: int32, j: nat) {
    && j < |ports| && IsTCP(ports[j]) && ports[j].targetPort.IntVal() == n
    && forall k :: j < k < |ports| && IsTCP(ports[k]) ==> ports[k].targetPort.IntVal() != n
  }

  lemma {:induction false} IndexConcat<R>(a: seq<R>, b: seq<R>, name: R -> string, k: string)
    ensures k in Index(a + b, name) <==> k in Index(a, name) || k in Index(b, name)
    ensures k in Index(a + b, name) ==>
              Index(a + b, name)[k] == if k in Index(b, name) then Index(b, name)[k] else Index(a, name)[k]
  {
    if b == [] {
      assert a + b == a;
    } else {
      IndexConcat(a, b[..|b| - 1], name, k);
      assert (a + b)[..|a + b| - 1] == a + b[..|b| - 1];
    }
  }

  function ClusterKey(c: Cluster): string { c.name }

  /** The clusters of one port, by name. */
  lemma PortClusters(svc: Service, p: ServicePort, f: string, n: int32)
    requires WellFormedService(svc) && f in svc.ipFamilies
    ensures var t, i := ClusterName(svc.namespace, svc.name, f, n), Index(ClustersOf(svc, p), ClusterKey);
            (t in i <==> p.targetPort.IntVal() == n) && (t in i ==> i[t].settings == p)
  {
    hide ClusterName, WellFormedService;
    var t, cs := ClusterName(svc.namespace, svc.name, f, n), ClustersOf(svc, p);
    IndexLast(cs, ClusterKey, t);
    if c :| c in cs && c.name == t {
      var k :| 0 <= k < |cs| && cs[k] == c;
      FamiliesKnown(svc, svc.ipFamilies[k]);
      FamiliesKnown(svc, f);
      OwnClusterNameInjective(svc.namespace, svc.name, f, n, svc.ipFamilies[k], p.targetPort.IntVal());
    }
    if p.targetPort.IntVal() == n {
      var k :| 0 <= k < |svc.ipFamilies| && svc.ipFamilies[k] == f;
      assert cs[k] in cs && ClusterKey(cs[k]) == t;
    }
  }

  lemma FamiliesKnown(svc: Service, f: string)
    requires WellFormedService(svc) && f in svc.ipFamilies
    ensures f in {IPV4, IPV6}
  {
  }

  lemma {:induction false} PortsClusters(svc: Service, ports: seq<ServicePort>, f: string, n: int32, j: nat)
    requires WellFormedService(svc) && f in svc.ipFamilies && LastWith(ports, n, j)
    ensures var t, i := ClusterName(svc.namespace, svc.name, f, n), Index(ClustersOfPorts(svc, ports), ClusterKey);
            t in i && i[t].settings == ports[j]
    decreases |ports|
  {
    hide ClusterName, WellFormedService, ClustersOf;
    var pre, last := ports[..|ports| - 1], ports[|ports| - 1];
    var t := ClusterName(svc.namespace, svc.name, f, n);
    if j < |pre| {
      PortsClusters(svc, pre, f, n, j);
      assert t in Index(ClustersOfPorts(svc, pre), ClusterKey);
    }
    if IsTCP(last) {
      PortClusters(svc, last, f, n);
      assert t in Index(ClustersOf(svc, last), ClusterKey) <==> j == |pre|;
      IndexConcat(ClustersOfPorts(svc, pre), ClustersOf(svc, last), ClusterKey, t);
    } else {
      assert ClustersOfPorts(svc, ports) == ClustersOfPorts(svc, pre);
    }
  }

  /** A service has no cluster under the name of another's. */
  lemma OthersClusters(a: Service, b: Service, f: string, n: int32)
    requires WellFormedService(a) && WellFormedService(b) && f in {IPV4, IPV6}
    requires a.namespace != b.namespace || a.name != b.name
    ensures ClusterName(a.namespace, a.name, f, n) !in Index(ClustersOfPorts(b, b.ports), ClusterKey)
  {
    var t := ClusterName(a.namespace, a.name, f, n);
    hide ClusterName;
    IndexLast(ClustersOfPorts(b, b.ports), ClusterKey, t);
    if c :| c in ClustersOfPorts(b, b.ports) && ClusterKey(c) == t {
      ClustersOfPortsListed(b, b.ports, c);
      var p, g :| p in b.ports && g in b.ipFamilies && IsTCP(p) && c == ClusterFor(b, p, g);
      ClusterNameInjective(a.namespace, a.name, f, n, b.namespace, b.name, g, p.targetPort.IntVal());
    }
  }

  lemma {:induction false} SnapshotClusters(snap: seq<SnapshotService>, i: nat, f: string, n: int32, j: nat)
    requires WellFormed(snap) && i < |snap| && f in snap[i].obj.ipFamilies && LastWith(snap[i].obj.ports, n, j)
    ensures var t, x := ClusterName(snap[i].obj.namespace, snap[i].obj.name, f, n), Index(Clusters(snap), ClusterKey);
            t in x && x[t].settings == snap[i].obj.ports[j]
    decreases |snap|
  {
    hide ClusterName, WellFormedService, ClustersOfPorts, Addressed;
    var pre, last, s := snap[..|snap| - 1], snap[|snap| - 1].obj, snap[i].obj;
    var t := ClusterName(s.namespace, s.name, f, n);
    IndexConcat(Clusters(pre), ClustersOfPorts(last, last.ports), ClusterKey, t);
    if i < |pre| {
      assert WellFormed(pre);
      SnapshotClusters(pre, i, f, n, j);
      FamiliesKnown(s, f);
      OthersClusters(s, last, f, n);
    } else {
      PortsClusters(s, s.ports, f, n, j);
    }
  }

  /** The cluster a port targets carries the settings of the last TCP port of the service with that target number. */
  lemma SharedClusterSettings(snap: seq<SnapshotService>, parts: seq<seq<LoadAssignment>>, cfg: Config,
                              s: SnapshotService, p: ServicePort, f: string, j: nat)
    requires WellFormed(snap) && Translates(snap, parts, cfg)
    requires s in snap && p in s.obj.ports && IsTCP(p) && f in s.obj.ipFamilies
    requires LastWith(s.obj.ports, p.targetPort.IntVal(), j)
    ensures var t := TargetCluster(s.obj, p, f);
            t in cfg.clusters && cfg.clusters[t].settings == s.obj.ports[j]
  {
    hide WellFormed, Clusters, LastWith, ClusterName;
    var i: nat :| i < |snap| && snap[i] == s;
    SnapshotClusters(snap, i, f, p.targetPort.IntVal(), j);
    SameIndex(Clusters(snap), (c: Cluster) => c.name, ClusterKey);
  }

  const HTTP := ServicePort("http", PROTOCOL_TCP, None, 80, FromInt(8080), 0)
  const HTTPS := ServicePort("https", PROTOCOL_TCP, None, 443, FromInt(8080), 0)
  const SHOP := Service("default", "shop", "1", "ClusterIP", ["10.0.0.1"], [], [IPV4], [HTTP, HTTPS])

  /** Two ports with one target: the cluster both use carries the settings of the second, those of the first are
      lost. */
  lemma EarlierPortLosesItsSettings(parts: seq<seq<LoadAssignment>>, cfg: Config)
    requires Translates([SnapshotService(SHOP, [])], parts, cfg)
    ensures var t := TargetCluster(SHOP, HTTP, IPV4);
            && t == TargetCluster(SHOP, HTTPS, IPV4) && t in cfg.clusters
            && cfg.clusters[t].settings == HTTPS && HTTP != HTTPS
  {
    var s := SnapshotService(SHOP, []);
    ShopIsWellFormed(s);
    hide Translates, WellFormed, LastWith;
    SharedClusterSettings([s], parts, cfg, s, HTTP, IPV4, 1);
  }

  lemma ShopIsWellFormed(s: SnapshotService)
    requires s == SnapshotService(SHOP, [])
    ensures WellFormed([s]) && LastWith(SHOP.ports, 8080, 1)
    ensures HTTP in SHOP.ports && IPV4 in SHOP.ipFamilies && HTTP != HTTPS
  {
    assert FamilyOfIP("10.0.0.1") == IPV4 && HTTP.port != HTTPS.port;
    assert SHOP.ports[0] == HTTP && SHOP.ipFamilies[0] == IPV4;
  }

  /** The index depends on the names only. */
  lemma {:induction false} SameIndex<R>(resources: seq<R>, name: R -> string, key: R -> string)
    requires forall r :: name(r) == key(r)
    ensures Index(resources, name) == Index(resources, key)
  {
    if resources != [] {
      SameIndex(resources[..|resources| - 1], name, key);
    }
  }
}
