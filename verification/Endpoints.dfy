/** From endpoint slices to load assignments: extraction and grouping (pkg/translations/mapper_endpoints.go). */
module Endpoints {
  import opened Kube
  import opened Meaning
  import opened Naming
  import GoText

  datatype Locality = Locality(zone: string, subZone: string)

  datatype Meta = Meta(family: string, ip: string, port: int32, locality: Locality)

  datatype Conditions = Conditions(ready: bool, serving: bool, terminating: bool)

  datatype Health = Healthy | Draining | Unhealthy

  datatype LbEndpoint = LbEndpoint(health: Health, hostname: string, address: string, port: nat)

  datatype LocalityEndpoints = LocalityEndpoints(locality: Locality, endpoints: seq<LbEndpoint>)

  datatype LoadAssignment = LoadAssignment(cluster: string, groups: seq<LocalityEndpoints>)

  // ---------- extraction ----------

  datatype Tuple = Tuple(meta: Meta, conditions: Conditions)

  /** The code reads the first address of every endpoint it visits. */
  predicate Addressed(slices: seq<EndpointSlice>) {
    forall slice <- slices | slice.ports != [] :: forall e <- slice.endpoints :: e.addresses != []
  }

  function FamilyOfSlice(slice: EndpointSlice): string {
    if slice.addressType == IPV6 then IPV6 else IPV4
  }

  function TupleOf(slice: EndpointSlice, port: EndpointPort, e: Endpoint): Tuple
    requires e.addresses != []
  {
    Tuple(Meta(FamilyOfSlice(slice), e.addresses[0], port.port.Or(0),
               Locality(e.zone.Or("None"), e.nodeName.Or("None"))),
          Conditions(e.ready.Or(true), e.serving.Or(true), e.terminating.Or(false)))
  }

  /** What the loops visit, in their order: slices, then ports, then endpoints. */
  function TuplesOfPort(slice: EndpointSlice, port: EndpointPort, endpoints: seq<Endpoint>): (ts: seq<Tuple>)
    requires forall e <- endpoints :: e.addresses != []
    ensures |ts| == |endpoints| && forall i :: 0 <= i < |ts| ==> ts[i] == TupleOf(slice, port, endpoints[i])
  {
    if endpoints == [] then []
    else TuplesOfPort(slice, port, endpoints[..|endpoints| - 1]) + [TupleOf(slice, port, endpoints[|endpoints| - 1])]
  }

  function TuplesOfSlice(slice: EndpointSlice, ports: seq<EndpointPort>): seq<Tuple>
    requires ports != [] ==> forall e <- slice.endpoints :: e.addresses != []
  {
    if ports == [] then []
    else TuplesOfSlice(slice, ports[..|ports| - 1]) + TuplesOfPort(slice, ports[|ports| - 1], slice.endpoints)
  }

  function Tuples(slices: seq<EndpointSlice>): seq<Tuple>
    requires Addressed(slices)
  {
    if slices == [] then []
    else
      var last := slices[|slices| - 1];
      Tuples(slices[..|slices| - 1]) + TuplesOfSlice(last, last.ports)
  }

  /** Writing the tuples into a map one after the other. */
  function Written(ts: seq<Tuple>): map<Meta, Conditions> {
    if ts == [] then map[] else Written(ts[..|ts| - 1])[ts[|ts| - 1].meta := ts[|ts| - 1].conditions]
  }

  lemma WrittenSnoc(ts: seq<Tuple>, t: Tuple)
    ensures Written(ts + [t]) == Written(ts)[t.meta := t.conditions]
  {
    assert (ts + [t])[..|ts|] == ts;
  }

  lemma PortPrefix(slice: EndpointSlice, port: EndpointPort, endpoints: seq<Endpoint>, k: nat, before: seq<Tuple>)
    requires forall e <- endpoints :: e.addresses != []
    requires k < |endpoints|
    ensures Written(before + TuplesOfPort(slice, port, endpoints[..k + 1])) ==
              Written(before + TuplesOfPort(slice, port, endpoints[..k]))
                [TupleOf(slice, port, endpoints[k]).meta := TupleOf(slice, port, endpoints[k]).conditions]
  {
    var t := TupleOf(slice, port, endpoints[k]);
    assert endpoints[..k + 1][..k] == endpoints[..k];
    assert before + TuplesOfPort(slice, port, endpoints[..k + 1]) ==
        (before + TuplesOfPort(slice, port, endpoints[..k])) + [t];
    WrittenSnoc(before + TuplesOfPort(slice, port, endpoints[..k]), t);
  }

  lemma SlicePrefix(slice: EndpointSlice, j: nat, before: seq<Tuple>)
    requires j < |slice.ports| && forall e <- slice.endpoints :: e.addresses != []
    ensures before + TuplesOfSlice(slice, slice.ports[..j + 1]) ==
              (before + TuplesOfSlice(slice, slice.ports[..j])) + TuplesOfPort(slice, slice.ports[j], slice.endpoints)
  {
    assert slice.ports[..j + 1][..j] == slice.ports[..j];
  }

  lemma SlicesPrefix(slices: seq<EndpointSlice>, i: nat)
    requires Addressed(slices) && i < |slices|
    ensures Tuples(slices[..i + 1]) == Tuples(slices[..i]) + TuplesOfSlice(slices[i], slices[i].ports)
  {
    assert slices[..i + 1][..i] == slices[..i];
  }

  lemma NothingVisited(slice: EndpointSlice, port: EndpointPort, before: seq<Tuple>)
    ensures before + TuplesOfPort(slice, port, []) == before == before + TuplesOfSlice(slice, [])
  {
  }

  method ExtractEndpointMetaAndState(slices: seq<EndpointSlice>) returns (res: map<Meta, Conditions>)
    requires Addressed(slices)
    ensures res == Written(Tuples(slices))
    ensures forall m :: m in res <==> exists c: Conditions :: Offered(slices, Tuple(m, c))
    ensures forall m <- res :: Offered(slices, Tuple(m, res[m]))
  {
    forall m
      ensures m in Written(Tuples(slices)) <==> exists c: Conditions :: Offered(slices, Tuple(m, c))
      ensures m in Written(Tuples(slices)) ==> Offered(slices, Tuple(m, Written(Tuples(slices))[m]))
    {
      ExtractedIsOffered(slices, m);
    }
    hide Offered;
    res := map[];
    for i := 0 to |slices|
      invariant res == Written(Tuples(slices[..i]))
    {
      hide Written, Tuples, TuplesOfSlice, TuplesOfPort;
      var slice := slices[i];
      ghost var before := Tuples(slices[..i]);
      NothingVisited(slice, EndpointPort(None, None, None), before);
      assert slice.ports[..0] == [];
      for j := 0 to |slice.ports|
        invariant res == Written(before + TuplesOfSlice(slice, slice.ports[..j]))
      {
        var port := slice.ports[j];
        ghost var before' := before + TuplesOfSlice(slice, slice.ports[..j]);
        NothingVisited(slice, port, before');
        assert slice.endpoints[..0] == [];
        for k := 0 to |slice.endpoints|
          invariant res == Written(before' + TuplesOfPort(slice, port, slice.endpoints[..k]))
        {
          var t := TupleOf(slice, port, slice.endpoints[k]);
          PortPrefix(slice, port, slice.endpoints, k, before');
          res := res[t.meta := t.conditions];
        }
        assert slice.endpoints[..|slice.endpoints|] == slice.endpoints;
        SlicePrefix(slice, j, before);
      }
      assert slice.ports[..|slice.ports|] == slice.ports;
      SlicesPrefix(slices, i);
    }
    assert slices[..|slices|] == slices;
  }

  /** Each key carries the conditions of the last tuple that has it. */
  lemma {:induction false} LastWriterWins(ts: seq<Tuple>, m: Meta)
    ensures m in Written(ts) <==> exists i :: 0 <= i < |ts| && ts[i].meta == m
    ensures m in Written(ts) ==>
              exists i :: 0 <= i < |ts| && ts[i] == Tuple(m, Written(ts)[m]) &&
                          forall j :: i < j < |ts| ==> ts[j].meta != m
  {
    if ts != [] {
      var pre, last := ts[..|ts| - 1], ts[|ts| - 1];
      LastWriterWins(pre, m);
      assert ts == pre + [last];
      WrittenSnoc(pre, last);
      hide Written;
      if last.meta == m {
        assert ts[|ts| - 1] == Tuple(m, Written(ts)[m]);
      } else if m in Written(pre) {
        var i :| 0 <= i < |pre| && pre[i] == Tuple(m, Written(pre)[m]) &&
                 forall j :: i < j < |pre| ==> pre[j].meta != m;
        assert ts[i] == Tuple(m, Written(ts)[m]);
      }
    }
  }

  /** What a slice says of one of its endpoints under one of its ports. */
  predicate Describes(slice: EndpointSlice, sp: EndpointPort, e: Endpoint, t: Tuple)
    requires e.addresses != []
  {
    && t.meta.ip == e.addresses[0] && SliceFamily(slice, t.meta.family) && PortNumber(sp, t.meta.port)
    && ShownName(e.zone, t.meta.locality.zone) && ShownName(e.nodeName, t.meta.locality.subZone)
    && t.conditions.ready == (e.ready != Some(false)) && t.conditions.serving == (e.serving != Some(false))
    && t.conditions.terminating == (e.terminating == Some(true))
  }

  /** The tuple the code builds is the one the slice describes. */
  lemma TupleDescribed(slice: EndpointSlice, sp: EndpointPort, e: Endpoint, t: Tuple)
    requires e.addresses != []
    ensures Describes(slice, sp, e, t) <==> t == TupleOf(slice, sp, e)
  {
  }

  /** Some slice of the list offers `t`. */
  ghost predicate Offered(slices: seq<EndpointSlice>, t: Tuple) {
    exists slice <- slices, sp <- slice.ports, e <- slice.endpoints :: e.addresses != [] && Describes(slice, sp, e, t)
  }

  lemma OfferedIff(slices: seq<EndpointSlice>, t: Tuple)
    ensures Offered(slices, t) <==>
              exists slice <- slices, sp <- slice.ports, e <- slice.endpoints ::
                e.addresses != [] && t == TupleOf(slice, sp, e)
  {
    hide Describes, TupleOf;
    forall slice: EndpointSlice, sp: EndpointPort, e: Endpoint | e.addresses != []
      ensures Describes(slice, sp, e, t) <==> t == TupleOf(slice, sp, e)
    {
      TupleDescribed(slice, sp, e, t);
    }
  }

  lemma {:induction false} SliceTuples(slice: EndpointSlice, ports: seq<EndpointPort>, t: Tuple)
    requires ports != [] ==> forall e <- slice.endpoints :: e.addresses != []
    ensures t in TuplesOfSlice(slice, ports) <==>
              exists port <- ports, e <- slice.endpoints :: e.addresses != [] && t == TupleOf(slice, port, e)
  {
    if ports != [] {
      var pre, last := ports[..|ports| - 1], ports[|ports| - 1];
      assert ports == pre + [last];
      SliceTuples(slice, pre, t);
      var ts := TuplesOfPort(slice, last, slice.endpoints);
      assert t in ts <==> exists e <- slice.endpoints :: e.addresses != [] && t == TupleOf(slice, last, e) by {
        if e :| e in slice.endpoints && t == TupleOf(slice, last, e) {
          var i :| 0 <= i < |slice.endpoints| && slice.endpoints[i] == e;
          assert ts[i] == t;
        }
        if t in ts {
          var i :| 0 <= i < |ts| && ts[i] == t;
          assert slice.endpoints[i] in slice.endpoints;
        }
      }
    }
  }

  /** The visited tuples are the offered ones. */
  lemma {:induction false} TuplesAreOffered(slices: seq<EndpointSlice>, t: Tuple)
    requires Addressed(slices)
    ensures t in Tuples(slices) <==> Offered(slices, t)
  {
    OfferedIff(slices, t);
    if slices != [] {
      var pre, last := slices[..|slices| - 1], slices[|slices| - 1];
      assert slices == pre + [last];
      TuplesAreOffered(pre, t);
      OfferedIff(pre, t);
      SliceTuples(last, last.ports, t);
    }
  }

  /** Duplicate tuples carry equal conditions. */
  ghost predicate Consistent(slices: seq<EndpointSlice>) {
    forall t: Tuple, u: Tuple :: Offered(slices, t) && Offered(slices, u) && t.meta == u.meta ==> t == u
  }

  /** What extraction yields, told by what is offered: every offered key, and conditions that were offered with it. */
  lemma ExtractedIsOffered(slices: seq<EndpointSlice>, m: Meta)
    requires Addressed(slices)
    ensures m in Written(Tuples(slices)) <==> exists c: Conditions :: Offered(slices, Tuple(m, c))
    ensures m in Written(Tuples(slices)) ==> Offered(slices, Tuple(m, Written(Tuples(slices))[m]))
  {
    var ts := Tuples(slices);
    LastWriterWins(ts, m);
    if m in Written(ts) {
      TuplesAreOffered(slices, Tuple(m, Written(ts)[m]));
    }
    if c: Conditions :| Offered(slices, Tuple(m, c)) {
      TuplesAreOffered(slices, Tuple(m, c));
    }
  }

  // ---------- the order of the slices ----------

  /** What one slice writes: for every key the last of its own tuples. */
  function SliceMap(slice: EndpointSlice): map<Meta, Conditions>
    requires Addressed([slice])
  {
    assert slice in [slice];
    Written(TuplesOfSlice(slice, slice.ports))
  }

  lemma {:induction false} WrittenConcat(ts: seq<Tuple>, us: seq<Tuple>)
    ensures Written(ts + us) == Written(ts) + Written(us)
  {
    if us == [] {
      assert ts + us == ts;
    } else {
      var pre, last := us[..|us| - 1], us[|us| - 1];
      assert us == pre + [last] && ts + us == (ts + pre) + [last];
      WrittenConcat(ts, pre);
      WrittenSnoc(ts + pre, last);
      WrittenSnoc(pre, last);
    }
  }

  lemma LastSliceWrites(slices: seq<EndpointSlice>, last: EndpointSlice)
    requires Addressed(slices) && Addressed([last]) && Addressed(slices + [last])
    ensures Written(Tuples(slices + [last])) == Written(Tuples(slices)) + SliceMap(last)
  {
    assert last in [last];
    assert (slices + [last])[..|slices|] == slices;
    WrittenConcat(Tuples(slices), TuplesOfSlice(last, last.ports));
  }

  lemma AddressedOne(slices: seq<EndpointSlice>, slice: EndpointSlice)
    requires Addressed(slices) && slice in slices
    ensures Addressed([slice])
  {
  }

  /** The extracted keys are those of the slices, each with the conditions one of them writes. */
  lemma {:induction false} SomeSliceWrites(slices: seq<EndpointSlice>, m: Meta)
    requires Addressed(slices)
    ensures m in Written(Tuples(slices)) <==> exists slice <- slices :: Addressed([slice]) && m in SliceMap(slice)
    ensures m in Written(Tuples(slices)) ==>
              exists slice <- slices ::
                Addressed([slice]) && m in SliceMap(slice) && Written(Tuples(slices))[m] == SliceMap(slice)[m]
  {
    if slices != [] {
      var pre, last := slices[..|slices| - 1], slices[|slices| - 1];
      assert slices == pre + [last];
      AddressedParts(pre, last);
      SomeSliceWrites(pre, m);
      LastSliceWrites(pre, last);
      hide Written, Tuples, SliceMap, Addressed;
      assert forall slice <- pre :: slice in slices;
    }
  }

  lemma AddressedParts(pre: seq<EndpointSlice>, last: EndpointSlice)
    requires Addressed(pre + [last])
    ensures Addressed(pre) && Addressed([last])
  {
    assert forall slice <- pre :: slice in pre + [last];
    assert last in pre + [last];
  }

  /** The slices agree on what each of them writes last. */
  predicate SlicesAgree(slices: seq<EndpointSlice>)
    requires Addressed(slices)
  {
    forall a <- slices, b <- slices ::
      Addressed([a]) && Addressed([b]) && forall m <- SliceMap(a) | m in SliceMap(b) :: SliceMap(a)[m] == SliceMap(b)[m]
  }

  /** Slices that agree may come in any order, and repeated: the extracted map is the same. */
  lemma ExtractionOrderFree(slices: seq<EndpointSlice>, slices': seq<EndpointSlice>)
    requires Addressed(slices) && Addressed(slices')
    requires forall slice :: slice in slices <==> slice in slices'
    requires SlicesAgree(slices)
    ensures Written(Tuples(slices)) == Written(Tuples(slices'))
  {
    hide Written, Tuples, SliceMap, Addressed;
    var w, w' := Written(Tuples(slices)), Written(Tuples(slices'));
    forall m
      ensures m in w <==> m in w'
      ensures m in w && m in w' ==> w[m] == w'[m]
    {
      SomeSliceWrites(slices, m);
      SomeSliceWrites(slices', m);
    }
  }

  /** The extracted map is the same for every order of the slices. */
  ghost predicate OrderFree(slices: seq<EndpointSlice>)
    requires Addressed(slices)
  {
    forall perm: seq<EndpointSlice> ::
      multiset(perm) == multiset(slices) && Addressed(perm) ==> Written(Tuples(perm)) == Written(Tuples(slices))
  }

  lemma MoveToEnd(slices: seq<EndpointSlice>, a: EndpointSlice) returns (pre: seq<EndpointSlice>)
    requires Addressed(slices) && a in slices
    ensures multiset(pre + [a]) == multiset(slices) && Addressed(pre) && Addressed(pre + [a])
  {
    var i :| 0 <= i < |slices| && slices[i] == a;
    pre := slices[..i] + slices[i + 1..];
    assert slices == slices[..i] + [a] + slices[i + 1..];
  }

  lemma PermutationsAgree(slices: seq<EndpointSlice>, perm: seq<EndpointSlice>)
    requires Addressed(slices) && Addressed(perm) && SlicesAgree(slices) && multiset(perm) == multiset(slices)
    ensures Written(Tuples(perm)) == Written(Tuples(slices))
  {
    hide Written, Tuples, SlicesAgree, Addressed;
    assert forall slice :: slice in slices <==> slice in multiset(slices);
    assert forall slice :: slice in perm <==> slice in multiset(perm);
    ExtractionOrderFree(slices, perm);
  }

  /** If every order gives the same map, what slice `a` writes last is what the map holds. */
  lemma OrderFreeShows(slices: seq<EndpointSlice>, a: EndpointSlice)
    requires Addressed(slices) && OrderFree(slices) && a in slices && Addressed([a])
    ensures forall m <- SliceMap(a) :: m in Written(Tuples(slices)) && Written(Tuples(slices))[m] == SliceMap(a)[m]
  {
    hide Written, Tuples, SliceMap, Addressed;
    var pre := MoveToEnd(slices, a);
    LastSliceWrites(pre, a);
  }

  /** The order of the slices, which comes from a map, does not matter exactly when they agree. */
  lemma ExtractionOrderFreeIff(slices: seq<EndpointSlice>)
    requires Addressed(slices)
    ensures OrderFree(slices) <==> SlicesAgree(slices)
  {
    if SlicesAgree(slices) {
      hide Written, Tuples, SlicesAgree, Addressed;
      forall perm: seq<EndpointSlice> | multiset(perm) == multiset(slices) && Addressed(perm)
        ensures Written(Tuples(perm)) == Written(Tuples(slices))
      {
        PermutationsAgree(slices, perm);
      }
    }
    if OrderFree(slices) {
      hide OrderFree, Written, Tuples, SliceMap, Addressed;
      forall a <- slices
        ensures Addressed([a])
        ensures forall m <- SliceMap(a) :: m in Written(Tuples(slices)) && Written(Tuples(slices))[m] == SliceMap(a)[m]
      {
        AddressedOne(slices, a);
        OrderFreeShows(slices, a);
      }
    }
  }

  /** Consistent duplicates make the slices agree. */
  lemma ConsistentSlicesAgree(slices: seq<EndpointSlice>)
    requires Addressed(slices) && Consistent(slices)
    ensures SlicesAgree(slices)
  {
    hide Written, TuplesOfSlice;
    forall a <- slices, b <- slices
      ensures Addressed([a]) && Addressed([b])
      ensures forall m <- SliceMap(a) | m in SliceMap(b) :: SliceMap(a)[m] == SliceMap(b)[m]
    {
      forall m | m in SliceMap(a) && m in SliceMap(b)
        ensures SliceMap(a)[m] == SliceMap(b)[m]
      {
        SliceMapIsOffered(slices, a, m);
        SliceMapIsOffered(slices, b, m);
        assert Tuple(m, SliceMap(a)[m]).meta == Tuple(m, SliceMap(b)[m]).meta;
      }
    }
  }

  /** With consistent duplicates the order of the slices does not matter. */
  lemma ConsistentIsOrderFree(slices: seq<EndpointSlice>)
    requires Addressed(slices) && Consistent(slices)
    ensures OrderFree(slices)
  {
    hide SlicesAgree, Consistent, OrderFree;
    ConsistentSlicesAgree(slices);
    ExtractionOrderFreeIff(slices);
  }

  lemma SliceMapIsOffered(slices: seq<EndpointSlice>, slice: EndpointSlice, m: Meta)
    requires slice in slices && Addressed([slice]) && m in SliceMap(slice)
    ensures Offered(slices, Tuple(m, SliceMap(slice)[m]))
  {
    assert slice in [slice];
    var ts := TuplesOfSlice(slice, slice.ports);
    LastWriterWins(ts, m);
    SliceTuples(slice, slice.ports, Tuple(m, SliceMap(slice)[m]));
    OfferedIff(slices, Tuple(m, SliceMap(slice)[m]));
  }

  /** A slice with one endpoint, whose readiness is given. */
  function OneEndpoint(name: string, ready: bool): EndpointSlice {
    EndpointSlice("default", name, "1", map[SERVICE_NAME_LABEL := "web"], IPV4, [EndpointPort(None, None, Some(8080))],
                  [Endpoint(["10.1.0.1"], Some(ready), None, None, None, None)])
  }

  /** Two slices of one service that disagree about an endpoint: the order decides whether it is ready. */
  lemma OrderDecidesConditions()
    ensures var a, b := OneEndpoint("web-1", true), OneEndpoint("web-2", false);
            && Addressed([a, b]) && Addressed([b, a])
            && var m := Meta(IPV4, "10.1.0.1", 8080, Locality("None", "None"));
               && Written(Tuples([a, b])) == map[m := Conditions(false, true, false)]
               && Written(Tuples([b, a])) == map[m := Conditions(true, true, false)]
  {
    var a, b := OneEndpoint("web-1", true), OneEndpoint("web-2", false);
    OneEndpointWrites("web-1", true);
    OneEndpointWrites("web-2", false);
    hide Written, SliceMap, Tuples, OneEndpoint;
    assert [] + [a] == [a] && [a] + [b] == [a, b] && [] + [b] == [b] && [b] + [a] == [b, a];
    LastSliceWrites([], a);
    LastSliceWrites([a], b);
    LastSliceWrites([], b);
    LastSliceWrites([b], a);
  }

  lemma OneEndpointWrites(name: string, ready: bool)
    ensures Addressed([OneEndpoint(name, ready)])
    ensures SliceMap(OneEndpoint(name, ready)) ==
              map[Meta(IPV4, "10.1.0.1", 8080, Locality("None", "None")) := Conditions(ready, true, false)]
    ensures Written(Tuples([])) == map[]
  {
    var slice := OneEndpoint(name, ready);
    OneTupleWrites(slice, slice.ports[0], slice.endpoints[0]);
  }

  lemma OneTupleWrites(slice: EndpointSlice, port: EndpointPort, e: Endpoint)
    requires slice.ports == [port] && slice.endpoints == [e] && e.addresses != []
    ensures Addressed([slice])
    ensures SliceMap(slice) == map[TupleOf(slice, port, e).meta := TupleOf(slice, port, e).conditions]
  {
    hide TupleOf;
    assert slice.ports[..0] == [];
    assert TuplesOfPort(slice, port, slice.endpoints) == [TupleOf(slice, port, e)];
    assert TuplesOfSlice(slice, slice.ports) == [] + [TupleOf(slice, port, e)];
    WrittenSnoc([], TupleOf(slice, port, e));
  }

  // ---------- one endpoint ----------

  function HealthOf(c: Conditions): (h: Health)
    ensures h == Healthy <==> c.ready && !c.terminating
    ensures h == Unhealthy <==> !c.ready
  {
    if !c.ready then Unhealthy else if c.terminating then Draining else Healthy
  }

  function EndpointFor(m: Meta, c: Conditions): LbEndpoint {
    LbEndpoint(HealthOf(c), m.ip + "-" + GoText.PrintInt(m.port), m.ip, ToUint32(m.port))
  }

  method MapEndpointMetaAndStateToEndpoint(m: Meta, c: Conditions) returns (lb: LbEndpoint)
    ensures lb == EndpointFor(m, c)
  {
    var health := Healthy;
    if c.terminating {
      health := Draining;
    }
    if !c.ready {
      health := Unhealthy;
    }
    lb := LbEndpoint(health, m.ip + "-" + GoText.PrintInt(m.port), m.ip, ToUint32(m.port));
  }
}
