/** Grouping extracted endpoints into load assignments, by cluster and locality
    (pkg/translations/mapper_endpoints.go). */
module Grouping {
  import opened Kube
  import opened Meaning
  import GoText
  import opened Naming
  import opened Endpoints

  ghost predicate Distinct<T(!new)>(s: seq<T>) {
    forall i, j :: 0 <= i < j < |s| ==> s[i] != s[j]
  }

  function NameFor(svc: Service, m: Meta): string {
    ClusterName(svc.namespace, svc.name, m.family, m.port)
  }

  /** Where an endpoint belongs: the assignment's name, the locality, and the endpoint itself. */
  datatype Place = Place(cluster: string, locality: Locality, lb: LbEndpoint)

  function PlaceOf(svc: Service, m: Meta, c: Conditions): Place {
    Place(NameFor(svc, m), m.locality, EndpointFor(m, c))
  }

  /** Some assignment of `res` holds the endpoint at `p`. */
  ghost predicate Holds(res: seq<LoadAssignment>, p: Place) {
    exists a <- res, g <- a.groups :: a.cluster == p.cluster && g.locality == p.locality && p.lb in g.endpoints
  }

  ghost predicate TidyGroups(groups: seq<LocalityEndpoints>) {
    && (forall i, j :: 0 <= i < j < |groups| ==> groups[i].locality != groups[j].locality)
    && (forall g <- groups :: g.endpoints != [] && Distinct(g.endpoints))
  }

  /** Names do not repeat, localities do not repeat within a name, endpoints do not repeat within a locality, and
      nothing is empty. */
  ghost predicate Tidy(res: seq<LoadAssignment>) {
    && (forall i, j :: 0 <= i < j < |res| ==> res[i].cluster != res[j].cluster)
    && (forall a <- res :: a.groups != [] && TidyGroups(a.groups))
  }

  ghost predicate Wanted(svc: Service, extracted: map<Meta, Conditions>, p: Place) {
    exists m <- extracted :: p == PlaceOf(svc, m, extracted[m])
  }

  /** Every extracted endpoint has exactly its own place in `res`, and nothing else has one. */
  ghost predicate Partition(svc: Service, extracted: map<Meta, Conditions>, res: seq<LoadAssignment>) {
    Tidy(res) && forall p: Place :: Holds(res, p) <==> Wanted(svc, extracted, p)
  }

  /** The families extraction yields. */
  predicate ProperFamilies(metas: set<Meta>) { forall m <- metas :: m.family in {IPV4, IPV6} }

  lemma PlaceInjective(svc: Service, m: Meta, c: Conditions, n: Meta, d: Conditions)
    requires m.family in {IPV4, IPV6} && n.family in {IPV4, IPV6}
    requires PlaceOf(svc, m, c) == PlaceOf(svc, n, d)
    ensures m == n
  {
    OwnClusterNameInjective(svc.namespace, svc.name, m.family, m.port, n.family, n.port);
  }

  // ---------- the nested maps ----------

  type Nested = map<string, map<Locality, seq<LbEndpoint>>>

  predicate NestedHolds(eps: Nested, p: Place) {
    p.cluster in eps && p.locality in eps[p.cluster] && p.lb in eps[p.cluster][p.locality]
  }

  ghost predicate NestedTidy(eps: Nested) {
    forall c <- eps :: eps[c] != map[] && forall l <- eps[c] :: eps[c][l] != [] && Distinct(eps[c][l])
  }

  /** The nested maps hold the places of the endpoints in `done`. */
  ghost predicate Nests(svc: Service, extracted: map<Meta, Conditions>, done: set<Meta>, eps: Nested) {
    && NestedTidy(eps)
    && forall p: Place ::
         NestedHolds(eps, p) <==> exists m <- done :: m in extracted && p == PlaceOf(svc, m, extracted[m])
  }

  /** Creating the inner map and list when they are missing, then appending. */
  function Insert(eps: Nested, p: Place): Nested {
    var groups := if p.cluster in eps then eps[p.cluster] else map[];
    var list := if p.locality in groups then groups[p.locality] else [];
    eps[p.cluster := groups[p.locality := list + [p.lb]]]
  }

  lemma InsertHolds(eps: Nested, p: Place, q: Place)
    ensures NestedHolds(Insert(eps, p), q) <==> NestedHolds(eps, q) || q == p
  {
  }

  lemma InsertTidy(eps: Nested, p: Place)
    requires NestedTidy(eps) && !NestedHolds(eps, p)
    ensures NestedTidy(Insert(eps, p))
  {
    var eps' := Insert(eps, p);
    forall c <- eps'
      ensures eps'[c] != map[] && forall l <- eps'[c] :: eps'[c][l] != [] && Distinct(eps'[c][l])
    {
      assert p.locality in eps'[p.cluster];
    }
  }

  lemma InsertNests(svc: Service, extracted: map<Meta, Conditions>, done: set<Meta>, eps: Nested, m: Meta)
    requires Nests(svc, extracted, done, eps) && m in extracted && m !in done && ProperFamilies(done + {m})
    ensures Nests(svc, extracted, done + {m}, Insert(eps, PlaceOf(svc, m, extracted[m])))
  {
    var p := PlaceOf(svc, m, extracted[m]);
    if NestedHolds(eps, p) {
      var n :| n in done && n in extracted && p == PlaceOf(svc, n, extracted[n]);
      PlaceInjective(svc, m, extracted[m], n, extracted[n]);
    }
    InsertTidy(eps, p);
    forall q: Place
      ensures NestedHolds(Insert(eps, p), q) <==>
                exists n <- done + {m} :: n in extracted && q == PlaceOf(svc, n, extracted[n])
    {
      InsertHolds(eps, p, q);
      assert m in done + {m};
    }
  }

  // ---------- from nested maps to assignments ----------

  /** `groups` lists the localities of `wanted`, each once. */
  ghost predicate ListsGroups(groups: seq<LocalityEndpoints>, wanted: map<Locality, seq<LbEndpoint>>,
                              done: set<Locality>) {
    && (forall g <- groups :: g.locality in done && g.locality in wanted && g.endpoints == wanted[g.locality])
    && (forall l <- done :: exists g <- groups :: g.locality == l)
    && (forall i, j :: 0 <= i < j < |groups| ==> groups[i].locality != groups[j].locality)
  }

  ghost predicate Filled(a: LoadAssignment, c: string, wanted: map<Locality, seq<LbEndpoint>>) {
    a.cluster == c && ListsGroups(a.groups, wanted, wanted.Keys)
  }

  /** `res` lists the filled assignments, each once. */
  ghost predicate ListsAssignments(res: seq<LoadAssignment>, eps: Nested, done: set<string>) {
    && (forall a <- res :: a.cluster in done && a.cluster in eps && Filled(a, a.cluster, eps[a.cluster]))
    && (forall c <- done :: exists a <- res :: a.cluster == c)
    && (forall i, j :: 0 <= i < j < |res| ==> res[i].cluster != res[j].cluster)
  }

  lemma ListedHolds(res: seq<LoadAssignment>, eps: Nested, p: Place)
    requires ListsAssignments(res, eps, eps.Keys)
    ensures Holds(res, p) <==> NestedHolds(eps, p)
  {
    if NestedHolds(eps, p) {
      var a :| a in res && a.cluster == p.cluster;
      var g :| g in a.groups && g.locality == p.locality;
    }
  }

  lemma ListedTidy(res: seq<LoadAssignment>, eps: Nested)
    requires ListsAssignments(res, eps, eps.Keys) && NestedTidy(eps)
    ensures Tidy(res)
  {
    forall a <- res
      ensures a.groups != [] && TidyGroups(a.groups)
    {
      var l :| l in eps[a.cluster];
      assert exists g <- a.groups :: g.locality == l;
    }
  }

  // ---------- the code ----------

  method MapEndpointSliceToLocalityEndpoints(svc: Service, slices: seq<EndpointSlice>)
      returns (resources: seq<LoadAssignment>)
    requires Addressed(slices)
    ensures Partition(svc, Written(Tuples(slices)), resources)
    ensures AllPlaced(svc, slices, resources) && OnlyTheirs(svc, slices, resources)
  {
    hide *;
    var extracted := ExtractEndpointMetaAndState(slices);
    ExtractedFamilies(slices);
    var loadAssignments, eps := GroupEndpoints(svc, extracted);
    loadAssignments := FillAssignments(loadAssignments, eps);
    resources := ListAssignments(loadAssignments, eps);
    Assembled(svc, extracted, eps, resources);
    EndpointsArePlaced(svc, slices, resources);
    PlacedAreTheirs(svc, slices, resources);
  }

  // ---------- what the assignments say of the slices ----------

  /** Group `g` of assignment `a` holds `lb` for endpoint `e` under port `sp` of the slice: the assignment is the one
      named for the slice's family and the port's number, and the locality is the endpoint's zone and node. */
  ghost predicate StandsFor(svc: Service, slice: EndpointSlice, sp: EndpointPort, e: Endpoint,
                            a: LoadAssignment, g: LocalityEndpoints, lb: LbEndpoint)
  {
    && e.addresses != [] && lb.address == e.addresses[0]
    && ShownName(e.zone, g.locality.zone) && ShownName(e.nodeName, g.locality.subZone)
    && exists f: string, n: int32 ::
         && SliceFamily(slice, f) && PortNumber(sp, n) && a.cluster == ClusterName(svc.namespace, svc.name, f, n)
         && lb.port == ToUint32(n) && lb.hostname == e.addresses[0] + "-" + GoText.PrintInt(n)
  }

  /** Its health is what the endpoint's conditions mean. */
  predicate HealthFits(e: Endpoint, health: Health) {
    && (health == Unhealthy <==> e.ready == Some(false))
    && (health == Healthy <==> e.ready != Some(false) && e.terminating != Some(true))
  }

  /** Every endpoint of a slice stands in a group of its zone and node. */
  ghost predicate AllPlaced(svc: Service, slices: seq<EndpointSlice>, res: seq<LoadAssignment>) {
    forall slice <- slices, sp <- slice.ports, e <- slice.endpoints | e.addresses != [] ::
      exists a <- res, g <- a.groups, lb <- g.endpoints :: StandsFor(svc, slice, sp, e, a, g, lb)
  }

  /** Every endpoint of every group stands there for one of a slice, with its health. */
  ghost predicate OnlyTheirs(svc: Service, slices: seq<EndpointSlice>, res: seq<LoadAssignment>) {
    forall a <- res, g <- a.groups, lb <- g.endpoints :: Theirs(svc, slices, a, g, lb)
  }

  ghost predicate Theirs(svc: Service, slices: seq<EndpointSlice>, a: LoadAssignment, g: LocalityEndpoints,
                         lb: LbEndpoint) {
    exists slice <- slices, sp <- slice.ports, e <- slice.endpoints ::
      StandsFor(svc, slice, sp, e, a, g, lb) && HealthFits(e, lb.health)
  }

  lemma EndpointsArePlaced(svc: Service, slices: seq<EndpointSlice>, res: seq<LoadAssignment>)
    requires Addressed(slices) && Partition(svc, Written(Tuples(slices)), res)
    ensures AllPlaced(svc, slices, res)
  {
    hide Written, Tuples, Tidy, ClusterName;
    forall slice <- slices, sp <- slice.ports, e <- slice.endpoints | e.addresses != []
      ensures exists a <- res, g <- a.groups, lb <- g.endpoints :: StandsFor(svc, slice, sp, e, a, g, lb)
    {
      var t := TupleOf(slice, sp, e);
      TupleDescribed(slice, sp, e, t);
      assert Offered(slices, Tuple(t.meta, t.conditions));
      ExtractedIsOffered(slices, t.meta);
      var extracted := Written(Tuples(slices));
      var p := PlaceOf(svc, t.meta, extracted[t.meta]);
      assert Wanted(svc, extracted, p) && Holds(res, p);
      var a, g :| a in res && g in a.groups && a.cluster == p.cluster && g.locality == p.locality &&
                  p.lb in g.endpoints;
      assert StandsFor(svc, slice, sp, e, a, g, p.lb);
    }
  }

  lemma PlacedAreTheirs(svc: Service, slices: seq<EndpointSlice>, res: seq<LoadAssignment>)
    requires Addressed(slices) && Partition(svc, Written(Tuples(slices)), res)
    ensures OnlyTheirs(svc, slices, res)
  {
    hide Written, Tuples, Tidy, ClusterName;
    forall a <- res, g <- a.groups, lb <- g.endpoints ensures Theirs(svc, slices, a, g, lb) {
      var extracted, p := Written(Tuples(slices)), Place(a.cluster, g.locality, lb);
      assert Holds(res, p) && Wanted(svc, extracted, p);
      var m :| m in extracted && p == PlaceOf(svc, m, extracted[m]);
      ExtractedIsOffered(slices, m);
      var slice, sp, e :| slice in slices && sp in slice.ports && e in slice.endpoints && e.addresses != [] &&
                          Describes(slice, sp, e, Tuple(m, extracted[m]));
      assert StandsFor(svc, slice, sp, e, a, g, lb) && HealthFits(e, lb.health);
    }
  }

  /** The last loop: the assignments in whatever order. */
  method ListAssignments(loadAssignments: map<string, LoadAssignment>, ghost eps: Nested)
      returns (resources: seq<LoadAssignment>)
    requires loadAssignments.Keys == eps.Keys
    requires forall c <- eps :: loadAssignments[c].cluster == c && Filled(loadAssignments[c], c, eps[c])
    ensures ListsAssignments(resources, eps, eps.Keys)
  {
    hide *;
    resources := [];
    ghost var done: set<string> := {};
    NothingListed(eps);
    var todo := loadAssignments.Keys;
    while todo != {}
      invariant done + todo == eps.Keys && done !! todo
      invariant ListsAssignments(resources, eps, done)
      decreases todo
    {
      var c :| c in todo;
      AppendAssignment(resources, eps, done, loadAssignments[c]);
      resources := resources + [loadAssignments[c]];
      done := done + {c};
      todo := todo - {c};
    }
    assert done == eps.Keys;
  }

  lemma NothingListed(eps: Nested)
    ensures ListsAssignments([], eps, {})
  {
  }

  lemma Assembled(svc: Service, extracted: map<Meta, Conditions>, eps: Nested, res: seq<LoadAssignment>)
    requires Nests(svc, extracted, extracted.Keys, eps) && ListsAssignments(res, eps, eps.Keys)
    ensures Partition(svc, extracted, res)
  {
    ListedTidy(res, eps);
    forall p: Place
      ensures Holds(res, p) <==> Wanted(svc, extracted, p)
    {
      ListedHolds(res, eps, p);
    }
  }

  lemma ExtractedFamilies(slices: seq<EndpointSlice>)
    requires Addressed(slices)
    ensures ProperFamilies(Written(Tuples(slices)).Keys)
  {
    hide Written, Tuples;
    forall m <- Written(Tuples(slices))
      ensures m.family in {IPV4, IPV6}
    {
      ExtractedIsOffered(slices, m);
    }
  }

  /** The first loop: over the extracted endpoints in whatever order. */
  method GroupEndpoints(svc: Service, extracted: map<Meta, Conditions>)
      returns (loadAssignments: map<string, LoadAssignment>, eps: Nested)
    requires ProperFamilies(extracted.Keys)
    ensures Nests(svc, extracted, extracted.Keys, eps)
    ensures loadAssignments.Keys == eps.Keys
    ensures forall c <- loadAssignments :: loadAssignments[c] == LoadAssignment(c, [])
  {
    loadAssignments, eps := map[], map[];
    ghost var done: set<Meta> := {};
    var todo := extracted.Keys;
    while todo != {}
      invariant done + todo == extracted.Keys && done !! todo
      invariant Nests(svc, extracted, done, eps)
      invariant loadAssignments.Keys == eps.Keys
      invariant forall c <- loadAssignments :: loadAssignments[c] == LoadAssignment(c, [])
      decreases todo
    {
      hide Nests;
      var m :| m in todo;
      var c := NameFor(svc, m);
      InsertNests(svc, extracted, done, eps, m);
      if c !in loadAssignments {
        loadAssignments := loadAssignments[c := LoadAssignment(c, [])];
      }
      ghost var before := eps;
      if c !in eps {
        eps := eps[c := map[]];
      }
      if m.locality !in eps[c] {
        eps := eps[c := eps[c][m.locality := []]];
      }
      var lb := MapEndpointMetaAndStateToEndpoint(m, extracted[m]);
      eps := eps[c := eps[c][m.locality := eps[c][m.locality] + [lb]]];
      assert eps[c] == (if c in before then before[c] else map[])[m.locality := eps[c][m.locality]];
      assert eps == before[c := eps[c]] == Insert(before, PlaceOf(svc, m, extracted[m]));
      done := done + {m};
      todo := todo - {m};
    }
  }

  /** The second loop: every assignment gets the localities of its name, in whatever order. */
  method FillAssignments(loadAssignments: map<string, LoadAssignment>, eps: Nested)
      returns (filled: map<string, LoadAssignment>)
    requires loadAssignments.Keys == eps.Keys
    requires forall c <- loadAssignments :: loadAssignments[c] == LoadAssignment(c, [])
    ensures filled.Keys == eps.Keys
    ensures forall c <- filled :: filled[c].cluster == c && Filled(filled[c], c, eps[c])
  {
    filled := loadAssignments;
    var todo := filled.Keys;
    while todo != {}
      invariant filled.Keys == eps.Keys && todo <= eps.Keys
      invariant forall c <- eps.Keys - todo :: Filled(filled[c], c, eps[c])
      invariant forall c <- todo :: filled[c] == LoadAssignment(c, [])
      decreases todo
    {
      var c :| c in todo;
      var groups: seq<LocalityEndpoints> := filled[c].groups;
      ghost var done: set<Locality> := {};
      var localities := eps[c].Keys;
      while localities != {}
        invariant done + localities == eps[c].Keys && done !! localities
        invariant ListsGroups(groups, eps[c], done)
        decreases localities
      {
        var l :| l in localities;
        AppendGroup(groups, eps[c], done, l);
        groups := groups + [LocalityEndpoints(l, eps[c][l])];
        done := done + {l};
        localities := localities - {l};
      }
      assert done == eps[c].Keys;
      filled := filled[c := LoadAssignment(c, groups)];
      todo := todo - {c};
    }
  }

  lemma AppendGroup(groups: seq<LocalityEndpoints>, wanted: map<Locality, seq<LbEndpoint>>, done: set<Locality>,
                    l: Locality)
    requires ListsGroups(groups, wanted, done) && l in wanted && l !in done
    ensures ListsGroups(groups + [LocalityEndpoints(l, wanted[l])], wanted, done + {l})
  {
    var g := LocalityEndpoints(l, wanted[l]);
    assert g in groups + [g];
    forall k <- done + {l}
      ensures exists h <- groups + [g] :: h.locality == k
    {
      if k in done {
        var h :| h in groups && h.locality == k;
        assert h in groups + [g];
      }
    }
    assert forall i :: 0 <= i < |groups| ==> groups[i] in groups;
  }

  lemma AppendAssignment(res: seq<LoadAssignment>, eps: Nested, done: set<string>, a: LoadAssignment)
    requires ListsAssignments(res, eps, done) && a.cluster in eps && a.cluster !in done
    requires Filled(a, a.cluster, eps[a.cluster])
    ensures ListsAssignments(res + [a], eps, done + {a.cluster})
  {
    hide Filled;
    assert a in res + [a];
    forall c <- done + {a.cluster}
      ensures exists b <- res + [a] :: b.cluster == c
    {
      if c in done {
        var b :| b in res && b.cluster == c;
        assert b in res + [a];
      }
    }
    assert forall i :: 0 <= i < |res| ==> res[i] in res;
  }

  // ---------- conservation ----------

  function PlacesOfGroup(c: string, l: Locality, endpoints: seq<LbEndpoint>): (ps: seq<Place>)
    ensures |ps| == |endpoints| && forall i :: 0 <= i < |ps| ==> ps[i] == Place(c, l, endpoints[i])
  {
    seq(|endpoints|, i requires 0 <= i < |endpoints| => Place(c, l, endpoints[i]))
  }

  function PlacesOfGroups(c: string, groups: seq<LocalityEndpoints>): seq<Place> {
    if groups == [] then []
    else PlacesOfGroup(c, groups[0].locality, groups[0].endpoints) + PlacesOfGroups(c, groups[1..])
  }

  /** All endpoints of all assignments, each with its place. */
  function AllPlaces(res: seq<LoadAssignment>): seq<Place> {
    if res == [] then [] else PlacesOfGroups(res[0].cluster, res[0].groups) + AllPlaces(res[1..])
  }

  function EndpointCountOfGroups(groups: seq<LocalityEndpoints>): nat {
    if groups == [] then 0 else |groups[0].endpoints| + EndpointCountOfGroups(groups[1..])
  }

  /** How many endpoints the assignments hold in all. */
  function EndpointCount(res: seq<LoadAssignment>): nat {
    if res == [] then 0 else EndpointCountOfGroups(res[0].groups) + EndpointCount(res[1..])
  }

  lemma DistinctConcat(s: seq<Place>, t: seq<Place>)
    requires Distinct(s) && Distinct(t) && forall x <- s :: x !in t
    ensures Distinct(s + t)
  {
    forall i, j | 0 <= i < j < |s + t|
      ensures (s + t)[i] != (s + t)[j]
    {
      if i < |s| <= j {
        assert s[i] in s && t[j - |s|] in t;
      }
    }
  }

  lemma {:induction false} GroupPlaces(c: string, groups: seq<LocalityEndpoints>)
    requires TidyGroups(groups)
    ensures Distinct(PlacesOfGroups(c, groups))
    ensures |PlacesOfGroups(c, groups)| == EndpointCountOfGroups(groups)
    ensures forall p: Place :: p in PlacesOfGroups(c, groups) <==>
              p.cluster == c && exists g <- groups :: g.locality == p.locality && p.lb in g.endpoints
  {
    if groups != [] {
      var g, rest := groups[0], groups[1..];
      assert groups == [g] + rest;
      GroupPlaces(c, rest);
      var ps := PlacesOfGroup(c, g.locality, g.endpoints);
      assert forall p: Place :: p in ps <==> p.cluster == c && p.locality == g.locality && p.lb in g.endpoints by {
        forall e <- g.endpoints
          ensures Place(c, g.locality, e) in ps
        {
          var i :| 0 <= i < |g.endpoints| && g.endpoints[i] == e;
          assert ps[i] == Place(c, g.locality, e);
        }
      }
      assert forall h <- rest :: h.locality != g.locality;
      DistinctConcat(ps, PlacesOfGroups(c, rest));
    }
  }

  lemma {:induction false} AssignmentPlaces(res: seq<LoadAssignment>)
    requires Tidy(res)
    ensures Distinct(AllPlaces(res))
    ensures |AllPlaces(res)| == EndpointCount(res)
    ensures forall p: Place :: p in AllPlaces(res) <==> Holds(res, p)
  {
    if res != [] {
      var a, rest := res[0], res[1..];
      assert res == [a] + rest;
      AssignmentPlaces(rest);
      GroupPlaces(a.cluster, a.groups);
      assert forall b <- rest :: b.cluster != a.cluster;
      DistinctConcat(PlacesOfGroups(a.cluster, a.groups), AllPlaces(rest));
    }
  }

  lemma {:induction false} DistinctSize(s: seq<Place>, elements: set<Place>)
    requires Distinct(s) && forall x :: x in s <==> x in elements
    ensures |s| == |elements|
  {
    if s == [] {
      assert elements == {};
    } else {
      var x, rest := s[0], s[1..];
      assert s == [x] + rest;
      DistinctSize(rest, elements - {x});
    }
  }

  /** The places of all extracted endpoints; as many as endpoints. */
  lemma {:induction false} WantedSize(svc: Service, extracted: map<Meta, Conditions>, metas: set<Meta>)
    requires ProperFamilies(metas) && metas <= extracted.Keys
    ensures |set m <- metas :: PlaceOf(svc, m, extracted[m])| == |metas|
  {
    if m :| m in metas {
      var rest := metas - {m};
      WantedSize(svc, extracted, rest);
      var ps := set n <- rest :: PlaceOf(svc, n, extracted[n]);
      var p := PlaceOf(svc, m, extracted[m]);
      if p in ps {
        var n :| n in rest && p == PlaceOf(svc, n, extracted[n]);
        PlaceInjective(svc, m, extracted[m], n, extracted[n]);
      }
      assert (set n <- metas :: PlaceOf(svc, n, extracted[n])) == ps + {p};
    }
  }

  /** No endpoint is lost or doubled: the assignments hold as many endpoints as were extracted. */
  lemma EndpointsConserved(svc: Service, extracted: map<Meta, Conditions>, res: seq<LoadAssignment>)
    requires ProperFamilies(extracted.Keys) && Partition(svc, extracted, res)
    ensures EndpointCount(res) == |extracted|
    ensures Distinct(AllPlaces(res))
  {
    AssignmentPlaces(res);
    var ps := set m <- extracted.Keys :: PlaceOf(svc, m, extracted[m]);
    WantedSize(svc, extracted, extracted.Keys);
    assert forall p: Place :: p in AllPlaces(res) <==> p in ps by {
      assert forall p: Place :: Wanted(svc, extracted, p) <==> p in ps;
    }
    DistinctSize(AllPlaces(res), ps);
  }
}
