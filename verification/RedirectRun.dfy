/** Whole runs of the redirect program: when the rule chains are exactly what the live services ask for. */
module RedirectRun {
  import opened Kube
  import opened Meaning
  import opened Redirect
  import GoText

  /** A call of the informer's event handlers. */
  datatype ServiceEvent = Added(svc: Service) | Changed(before: Service, svc: Service) | Removed(svc: Service)

  type Live = map<Key, Service>

  /** The live services after a sequence of events. */
  function LiveAfter(events: seq<ServiceEvent>): Live {
    if events == [] then map[]
    else
      var live, e := LiveAfter(events[..|events| - 1]), events[|events| - 1];
      if e.Removed? then live - {KeyOf(e.svc)} else live[KeyOf(e.svc) := e.svc]
  }

  /** The event is one an informer sends when `live` is what it has sent so far; namespaces have no `/`. */
  predicate Fits(live: Live, e: ServiceEvent) {
    && '/' !in e.svc.namespace
    && match e
       case Added(svc) => KeyOf(svc) !in live
       case Changed(before, svc) => KeyOf(before) == KeyOf(svc) && KeyOf(svc) in live && live[KeyOf(svc)] == before
       case Removed(svc) => KeyOf(svc) in live && live[KeyOf(svc)] == svc
  }

  ghost predicate InformerLike(events: seq<ServiceEvent>) {
    forall i :: 0 <= i < |events| ==> Fits(LiveAfter(events[..i]), events[i])
  }

  /** What the handlers make of the chains; the order of the removals is left open. */
  ghost predicate Handled(parse: Parser, port: int, was: Chains, e: ServiceEvent, now: Chains) {
    match e
    case Added(svc) => now == AddAll(was, Comment(svc), Parsed(parse, Texts(svc)), port)
    case Changed(before, svc) => exists dropped :: Replaced(parse, port, was, before, svc, dropped, now)
    case Removed(svc) => now == RemoveAll(was, Comment(svc), Parsed(parse, Texts(svc)), port)
  }

  ghost predicate Replaced(parse: Parser, port: int, was: Chains, before: Service, svc: Service, dropped: seq<string>,
                           now: Chains) {
    && ListsDropped(dropped, before, svc)
    && now == RemoveAll(AddAll(was, Comment(svc), Parsed(parse, Without(Texts(svc), Texts(before))), port),
                        Comment(svc), Parsed(parse, dropped), port)
  }

  // ---------- what the services ask for ----------

  function Chain(ch: Chains, v4: bool): seq<Rule> { if v4 then ch.v4 else ch.v6 }

  function Held(ch: Chains, v4: bool): set<Rule> { set r <- Chain(ch, v4) }

  /** The rules of one family for a list of addresses. */
  function RulesFor(comment: string, ips: seq<NetIP>, v4: bool, port: int): set<Rule> {
    set ip <- ips | ip.NetIP? && ip.v4 == v4 :: RedirArgs(comment, ip.text, port)
  }

  /** The rules of one family that a service asks for. */
  function RulesOf(parse: Parser, svc: Service, v4: bool, port: int): set<Rule> {
    set u <- svc.clusterIPs + svc.externalIPs | parse(u).NetIP? && parse(u).v4 == v4 ::
      RedirArgs(Comment(svc), parse(u).text, port)
  }

  function Wanted(parse: Parser, live: Live, v4: bool, port: int): set<Rule> {
    set k, r | k in live.Keys && r in RulesOf(parse, live[k], v4, port) :: r
  }

  ghost predicate Duplicates(chain: seq<Rule>) { exists i, j :: 0 <= i < j < |chain| && chain[i] == chain[j] }

  ghost predicate Tidy(ch: Chains) { !Duplicates(ch.v4) && !Duplicates(ch.v6) }

  /** Both chains are free of duplicates and hold exactly what the live services ask for. */
  ghost predicate Exact(parse: Parser, ch: Chains, live: Live, port: int) {
    Tidy(ch) && forall v4: bool :: Held(ch, v4) == Wanted(parse, live, v4, port)
  }

  // ---------- adding and removing ----------

  lemma {:induction false} DeleteRuleRemoves(chain: seq<Rule>, rule: Rule)
    requires !Duplicates(chain)
    ensures !Duplicates(DeleteRule(chain, rule))
    ensures forall r :: r in DeleteRule(chain, rule) <==> r in chain && r != rule
  {
    if chain != [] {
      var rest := chain[1..];
      assert forall r :: r in chain <==> r == chain[0] || r in rest;
      assert chain[0] !in rest;
      forall i, j | 0 <= i < j < |rest| ensures rest[i] != rest[j] { assert chain[i + 1] != chain[j + 1]; }
      if chain[0] != rule {
        DeleteRuleRemoves(rest, rule);
      }
    }
  }

  /** The rule of one address in one family, if it has one. */
  function RuleFor(comment: string, ip: NetIP, v4: bool, port: int): set<Rule> {
    if ip.NetIP? && ip.v4 == v4 then {RedirArgs(comment, ip.text, port)} else {}
  }

  lemma RulesForSnoc(comment: string, ips: seq<NetIP>, v4: bool, port: int)
    requires ips != []
    ensures RulesFor(comment, ips, v4, port) ==
              RulesFor(comment, ips[..|ips| - 1], v4, port) + RuleFor(comment, ips[|ips| - 1], v4, port)
  {
    hide RedirArgs;
    assert ips == ips[..|ips| - 1] + [ips[|ips| - 1]];
  }

  lemma AddAdds(ch: Chains, comment: string, ip: NetIP, port: int)
    requires Tidy(ch)
    ensures Tidy(Add(ch, comment, ip, port))
    ensures forall v4: bool :: Held(Add(ch, comment, ip, port), v4) == Held(ch, v4) + RuleFor(comment, ip, v4, port)
    ensures forall v4: bool :: Chain(ch, v4) <= Chain(Add(ch, comment, ip, port), v4)
  {
    hide RedirArgs;
  }

  lemma RemoveRemoves(ch: Chains, comment: string, ip: NetIP, port: int)
    requires Tidy(ch)
    ensures Tidy(Remove(ch, comment, ip, port))
    ensures forall v4: bool :: Held(Remove(ch, comment, ip, port), v4) == Held(ch, v4) - RuleFor(comment, ip, v4, port)
  {
    hide RedirArgs;
    if ip.NetIP? {
      DeleteRuleRemoves(Chain(ch, ip.v4), RedirArgs(comment, ip.text, port));
    }
  }

  lemma {:induction false} AddAllAdds(ch: Chains, comment: string, ips: seq<NetIP>, port: int)
    requires Tidy(ch)
    ensures Tidy(AddAll(ch, comment, ips, port))
    ensures forall v4: bool ::
              Held(AddAll(ch, comment, ips, port), v4) == Held(ch, v4) + RulesFor(comment, ips, v4, port)
  {
    if ips != [] {
      hide Add, Held, Tidy, RuleFor, RulesFor;
      AddAllAdds(ch, comment, ips[..|ips| - 1], port);
      AddAdds(AddAll(ch, comment, ips[..|ips| - 1], port), comment, ips[|ips| - 1], port);
      forall v4: bool
        ensures RulesFor(comment, ips, v4, port) ==
                  RulesFor(comment, ips[..|ips| - 1], v4, port) + RuleFor(comment, ips[|ips| - 1], v4, port)
      {
        RulesForSnoc(comment, ips, v4, port);
      }
    }
  }

  lemma {:induction false} RemoveAllRemoves(ch: Chains, comment: string, ips: seq<NetIP>, port: int)
    requires Tidy(ch)
    ensures Tidy(RemoveAll(ch, comment, ips, port))
    ensures forall v4: bool ::
              Held(RemoveAll(ch, comment, ips, port), v4) == Held(ch, v4) - RulesFor(comment, ips, v4, port)
  {
    if ips != [] {
      hide Remove, Held, Tidy, RuleFor, RulesFor;
      RemoveAllRemoves(ch, comment, ips[..|ips| - 1], port);
      RemoveRemoves(RemoveAll(ch, comment, ips[..|ips| - 1], port), comment, ips[|ips| - 1], port);
      forall v4: bool
        ensures RulesFor(comment, ips, v4, port) ==
                  RulesFor(comment, ips[..|ips| - 1], v4, port) + RuleFor(comment, ips[|ips| - 1], v4, port)
      {
        RulesForSnoc(comment, ips, v4, port);
      }
    }
  }

  // ---------- the diff ----------

  /** The diff is exact: nothing is both added and removed, and adding then removing turns the old texts into
      the new. */
  lemma DiffTurnsOldIntoNew(before: Service, after: Service, dropped: seq<string>)
    requires ListsDropped(dropped, before, after)
    ensures var added := Without(Texts(after), Texts(before));
            && (forall t :: t in added <==> Lists(after, t) && !Lists(before, t))
            && (forall t :: t in dropped ==> t !in added)
            && (forall t :: Lists(after, t) <==> (Lists(before, t) || t in added) && t !in dropped)
  {
  }

  // ---------- one event ----------

  lemma CommentInjective(a: Service, b: Service)
    requires '/' !in a.namespace && '/' !in b.namespace
    requires Comment(a) == Comment(b)
    ensures KeyOf(a) == KeyOf(b)
  {
    assert Comment(a)[|"lightpath:"|..] == a.namespace + "/" + a.name;
    assert Comment(b)[|"lightpath:"|..] == b.namespace + "/" + b.name;
    GoText.SplitUnique('/', a.namespace, a.name, b.namespace, b.name);
  }

  /** `r` is the rule of the address written `t`. */
  predicate IsRuleOf(parse: Parser, t: string, comment: string, v4: bool, port: int, r: Rule) {
    parse(t).NetIP? && parse(t).v4 == v4 && r == RedirArgs(comment, parse(t).text, port)
  }

  lemma RulesForTexts(parse: Parser, texts: seq<string>, comment: string, v4: bool, port: int, r: Rule)
    ensures r in RulesFor(comment, Parsed(parse, texts), v4, port) <==>
              exists t :: t in texts && IsRuleOf(parse, t, comment, v4, port, r)
  {
    hide RedirArgs;
    var ips := Parsed(parse, texts);
    if ip :| ip in ips && ip.NetIP? && ip.v4 == v4 && r == RedirArgs(comment, ip.text, port) {
      var i :| 0 <= i < |ips| && ips[i] == ip;
      assert texts[i] in texts && IsRuleOf(parse, texts[i], comment, v4, port, r);
    }
    if t :| t in texts && IsRuleOf(parse, t, comment, v4, port, r) {
      var i :| 0 <= i < |texts| && texts[i] == t;
      assert ips[i] in ips;
    }
  }

  /** The handlers' rules for a service are those it asks for. */
  lemma RulesOfTexts(parse: Parser, svc: Service, v4: bool, port: int)
    ensures RulesFor(Comment(svc), Parsed(parse, Texts(svc)), v4, port) == RulesOf(parse, svc, v4, port)
  {
    hide RedirArgs, Comment, RulesFor, Parsed;
    forall r: Rule
      ensures r in RulesFor(Comment(svc), Parsed(parse, Texts(svc)), v4, port) <==> r in RulesOf(parse, svc, v4, port)
    {
      RulesForTexts(parse, Texts(svc), Comment(svc), v4, port, r);
      if u :| u in Texts(svc) && IsRuleOf(parse, u, Comment(svc), v4, port, r) {
        assert Lists(svc, u) && u in svc.clusterIPs + svc.externalIPs;
      }
    }
  }

  lemma RedirArgsInjective(c: string, t: string, d: string, u: string, port: int)
    requires RedirArgs(c, t, port) == RedirArgs(d, u, port)
    ensures c == d && t == u
  {
    assert RedirArgs(c, t, port)[3] == c && RedirArgs(c, t, port)[5] == t;
    assert RedirArgs(d, u, port)[3] == d && RedirArgs(d, u, port)[5] == u;
  }

  ghost predicate Keyed(live: Live) { forall k <- live :: KeyOf(live[k]) == k && '/' !in live[k].namespace }

  /** No other live service asks for a rule of `svc`. */
  lemma OthersAskElsewhere(parse: Parser, live: Live, svc: Service, v4: bool, port: int)
    requires Keyed(live) && '/' !in svc.namespace
    ensures Wanted(parse, live - {KeyOf(svc)}, v4, port) !! RulesOf(parse, svc, v4, port)
  {
    var rest := live - {KeyOf(svc)};
    forall r | r in RulesOf(parse, svc, v4, port) ensures r !in Wanted(parse, rest, v4, port) {
      forall k | k in rest.Keys ensures r !in RulesOf(parse, rest[k], v4, port) {
        hide RedirArgs, Comment;
        forall ip: NetIP, jp: NetIP | ip.NetIP? && jp.NetIP?
          ensures RedirArgs(Comment(svc), ip.text, port) != RedirArgs(Comment(rest[k]), jp.text, port)
        {
          if RedirArgs(Comment(svc), ip.text, port) == RedirArgs(Comment(rest[k]), jp.text, port) {
            RedirArgsInjective(Comment(svc), ip.text, Comment(rest[k]), jp.text, port);
            CommentInjective(svc, rest[k]);
          }
        }
      }
    }
  }

  lemma WantedWith(parse: Parser, live: Live, svc: Service, v4: bool, port: int)
    ensures Wanted(parse, live[KeyOf(svc) := svc], v4, port) ==
              Wanted(parse, live - {KeyOf(svc)}, v4, port) + RulesOf(parse, svc, v4, port)
  {
    hide RulesOf;
    var k, more, rest := KeyOf(svc), live[KeyOf(svc) := svc], live - {KeyOf(svc)};
    assert more.Keys == rest.Keys + {k} && more[k] == svc;
    assert forall j <- rest :: more[j] == rest[j];
  }

  /** Two texts of an update that name one address, the first dropped and the second asked for. */
  predicate Aliased(parse: Parser, before: Service, after: Service, t: string, u: string) {
    && Lists(before, t) && !Lists(after, t) && Lists(after, u)
    && parse(t) == parse(u) && parse(t).NetIP?
  }

  /** No dropped text names an address that is still asked for under another text. */
  ghost predicate AliasFree(parse: Parser, before: Service, after: Service) {
    forall t, u :: !Aliased(parse, before, after, t, u)
  }

  /** The rules of the lists a diff works with. */
  lemma DiffRules(parse: Parser, before: Service, after: Service, dropped: seq<string>, c: string, v4: bool, port: int)
    requires ListsDropped(dropped, before, after)
    ensures var rules := (texts: seq<string>) => RulesFor(c, Parsed(parse, texts), v4, port);
            var added := Without(Texts(after), Texts(before));
            && rules(added) <= rules(Texts(after)) <= rules(Texts(before)) + rules(added)
            && rules(dropped) <= rules(Texts(before)) <= rules(Texts(after)) + rules(dropped)
  {
    hide RulesFor, Parsed, IsRuleOf;
    forall r: Rule, texts: seq<string>
      ensures r in RulesFor(c, Parsed(parse, texts), v4, port) <==>
                exists t :: t in texts && IsRuleOf(parse, t, c, v4, port, r)
    {
      RulesForTexts(parse, texts, c, v4, port, r);
    }
  }

  /** A rule is dropped that is still asked for exactly when two texts of the update are aliases. */
  lemma ClashIffAliased(parse: Parser, before: Service, after: Service, dropped: seq<string>, c: string, port: int)
    requires ListsDropped(dropped, before, after)
    ensures AliasFree(parse, before, after) <==>
              forall v4: bool :: RulesFor(c, Parsed(parse, dropped), v4, port) !!
                                 RulesFor(c, Parsed(parse, Texts(after)), v4, port)
  {
    hide RulesFor, Parsed, RedirArgs;
    forall r: Rule, v4: bool, texts: seq<string>
      ensures r in RulesFor(c, Parsed(parse, texts), v4, port) <==>
                exists t :: t in texts && IsRuleOf(parse, t, c, v4, port, r)
    {
      RulesForTexts(parse, texts, c, v4, port, r);
    }
    if t, u :| Aliased(parse, before, after, t, u) {
      var v4, r := parse(t).v4, RedirArgs(c, parse(t).text, port);
      assert IsRuleOf(parse, t, c, v4, port, r) && IsRuleOf(parse, u, c, v4, port, r) && t in dropped;
      assert r in RulesFor(c, Parsed(parse, dropped), v4, port) &&
          r in RulesFor(c, Parsed(parse, Texts(after)), v4, port);
    }
    forall v4: bool, r | AliasFree(parse, before, after) && r in RulesFor(c, Parsed(parse, dropped), v4, port)
      ensures r !in RulesFor(c, Parsed(parse, Texts(after)), v4, port)
    {
      var t :| t in dropped && IsRuleOf(parse, t, c, v4, port, r);
      forall u | u in Texts(after) ensures !IsRuleOf(parse, u, c, v4, port, r) {
        assert !Aliased(parse, before, after, t, u);
        if IsRuleOf(parse, u, c, v4, port, r) {
          RedirArgsInjective(c, parse(t).text, c, parse(u).text, port);
        }
      }
    }
  }

  lemma AddedStaysExact(parse: Parser, ch: Chains, live: Live, svc: Service, port: int)
    requires Exact(parse, ch, live, port) && KeyOf(svc) !in live
    ensures Exact(parse, AddAll(ch, Comment(svc), Parsed(parse, Texts(svc)), port), live[KeyOf(svc) := svc], port)
  {
    hide Tidy, Held, Wanted, RulesFor, AddAll;
    AddAllAdds(ch, Comment(svc), Parsed(parse, Texts(svc)), port);
    assert live - {KeyOf(svc)} == live;
    forall v4: bool
      ensures Wanted(parse, live[KeyOf(svc) := svc], v4, port) ==
                Wanted(parse, live, v4, port) + RulesOf(parse, svc, v4, port)
      ensures RulesFor(Comment(svc), Parsed(parse, Texts(svc)), v4, port) == RulesOf(parse, svc, v4, port)
    {
      RulesOfTexts(parse, svc, v4, port);
      WantedWith(parse, live, svc, v4, port);
    }
  }

  lemma RemovedStaysExact(parse: Parser, ch: Chains, live: Live, svc: Service, port: int)
    requires Exact(parse, ch, live, port) && Keyed(live) && KeyOf(svc) in live && live[KeyOf(svc)] == svc
    ensures Exact(parse, RemoveAll(ch, Comment(svc), Parsed(parse, Texts(svc)), port), live - {KeyOf(svc)}, port)
  {
    hide Tidy, Held, Wanted, RulesFor, RemoveAll;
    RemoveAllRemoves(ch, Comment(svc), Parsed(parse, Texts(svc)), port);
    assert live[KeyOf(svc) := svc] == live;
    forall v4: bool
      ensures Wanted(parse, live - {KeyOf(svc)}, v4, port) ==
                Wanted(parse, live, v4, port) - RulesOf(parse, svc, v4, port)
      ensures RulesFor(Comment(svc), Parsed(parse, Texts(svc)), v4, port) == RulesOf(parse, svc, v4, port)
    {
      RulesOfTexts(parse, svc, v4, port);
      WantedWith(parse, live, svc, v4, port);
      OthersAskElsewhere(parse, live, svc, v4, port);
    }
  }

  /** Adding what is new and removing what is dropped is right exactly when no dropped rule is still asked for. */
  lemma SetAlgebra<T>(others: set<T>, was: set<T>, wants: set<T>, added: set<T>, dropped: set<T>)
    requires added <= wants <= was + added && dropped <= was <= wants + dropped
    requires others !! was
    ensures others + was + added - dropped == others + wants <==> dropped !! wants
  {
    if r :| r in dropped && r in wants {
      assert r !in others + was + added - dropped && r in others + wants;
    }
  }

  /** An update leaves the chains exact exactly when it is free of aliases. */
  lemma UpdateExactIff(parse: Parser, ch: Chains, live: Live, before: Service, svc: Service, dropped: seq<string>,
                       now: Chains, port: int)
    requires Exact(parse, ch, live, port) && Keyed(live) && Fits(live, Changed(before, svc))
    requires Replaced(parse, port, ch, before, svc, dropped, now)
    ensures Exact(parse, now, live[KeyOf(svc) := svc], port) <==> AliasFree(parse, before, svc)
  {
    hide Tidy, Held, Wanted, RulesFor, AddAll, RemoveAll, ListsDropped, AliasFree, Without, Parsed;
    var c, added := Comment(svc), Parsed(parse, Without(Texts(svc), Texts(before)));
    AddAllAdds(ch, c, added, port);
    RemoveAllRemoves(AddAll(ch, c, added, port), c, Parsed(parse, dropped), port);
    ClashIffAliased(parse, before, svc, dropped, c, port);
    assert live[KeyOf(before) := before] == live;
    forall v4: bool
      ensures Held(now, v4) == Wanted(parse, live[KeyOf(svc) := svc], v4, port) <==>
                RulesFor(c, Parsed(parse, dropped), v4, port) !! RulesOf(parse, svc, v4, port)
      ensures RulesFor(c, Parsed(parse, Texts(svc)), v4, port) == RulesOf(parse, svc, v4, port)
    {
      RulesOfTexts(parse, svc, v4, port);
      RulesOfTexts(parse, before, v4, port);
      WantedWith(parse, live, svc, v4, port);
      WantedWith(parse, live, before, v4, port);
      OthersAskElsewhere(parse, live, before, v4, port);
      DiffRules(parse, before, svc, dropped, c, v4, port);
      SetAlgebra(Wanted(parse, live - {KeyOf(svc)}, v4, port), RulesOf(parse, before, v4, port),
                 RulesOf(parse, svc, v4, port), RulesFor(c, added, v4, port),
                 RulesFor(c, Parsed(parse, dropped), v4, port));
    }
  }

  // ---------- whole runs ----------

  lemma {:induction false} LiveIsKeyed(events: seq<ServiceEvent>)
    requires InformerLike(events)
    ensures Keyed(LiveAfter(events))
  {
    if events != [] {
      var rest := events[..|events| - 1];
      assert forall i :: 0 <= i < |rest| ==> rest[..i] == events[..i];
      LiveIsKeyed(rest);
      assert Fits(LiveAfter(rest), events[|events| - 1]);
    }
  }

  /** A run of the handlers from empty chains: `trace[i]` are the chains before event `i`. */
  ghost predicate Run(parse: Parser, port: int, events: seq<ServiceEvent>, trace: seq<Chains>) {
    && |trace| == |events| + 1 && trace[0] == Chains([], [])
    && forall i :: 0 <= i < |events| ==> Handled(parse, port, trace[i], events[i], trace[i + 1])
  }

  ghost predicate Harmless(parse: Parser, e: ServiceEvent) { e.Changed? ==> AliasFree(parse, e.before, e.svc) }

  ghost predicate ExactAt(parse: Parser, port: int, events: seq<ServiceEvent>, trace: seq<Chains>, i: nat)
    requires i <= |events| && |trace| == |events| + 1
  {
    Exact(parse, trace[i], LiveAfter(events[..i]), port)
  }

  lemma EventExactIff(parse: Parser, port: int, ch: Chains, live: Live, e: ServiceEvent, now: Chains)
    requires Keyed(live) && Fits(live, e) && Exact(parse, ch, live, port) && Handled(parse, port, ch, e, now)
    ensures Exact(parse, now, if e.Removed? then live - {KeyOf(e.svc)} else live[KeyOf(e.svc) := e.svc], port) <==>
              Harmless(parse, e)
  {
    hide Exact, Replaced, AliasFree, Keyed, AddAll, RemoveAll, Parsed, Texts;
    match e
    case Added(svc) => AddedStaysExact(parse, ch, live, svc, port);
    case Removed(svc) => RemovedStaysExact(parse, ch, live, svc, port);
    case Changed(before, svc) =>
      var dropped :| Replaced(parse, port, ch, before, svc, dropped, now);
      UpdateExactIff(parse, ch, live, before, svc, dropped, now, port);
  }

  lemma NextExactIff(parse: Parser, port: int, events: seq<ServiceEvent>, trace: seq<Chains>, i: nat)
    requires InformerLike(events) && Run(parse, port, events, trace) && i < |events|
    requires ExactAt(parse, port, events, trace, i)
    ensures ExactAt(parse, port, events, trace, i + 1) <==> Harmless(parse, events[i])
  {
    hide Exact, Handled, Harmless, Keyed, Fits;
    assert events[..i + 1][..i] == events[..i];
    assert InformerLike(events[..i]) by {
      assert forall j :: 0 <= j < i ==> events[..i][..j] == events[..j];
    }
    LiveIsKeyed(events[..i]);
    EventExactIff(parse, port, trace[i], LiveAfter(events[..i]), events[i], trace[i + 1]);
  }

  /** Along every run the chains are exact at every moment exactly when every update is free of aliases. */
  lemma {:induction false} AlwaysExactIff(parse: Parser, port: int, events: seq<ServiceEvent>, trace: seq<Chains>)
    requires InformerLike(events) && Run(parse, port, events, trace)
    ensures (forall i :: 0 <= i <= |events| ==> ExactAt(parse, port, events, trace, i)) <==>
            (forall e <- events :: Harmless(parse, e))
  {
    hide ExactAt, Harmless, Run, InformerLike;
    StartIsExact(parse, port, events, trace);
    if forall i :: 0 <= i <= |events| ==> ExactAt(parse, port, events, trace, i) {
      forall i | 0 <= i < |events| ensures Harmless(parse, events[i]) {
        NextExactIff(parse, port, events, trace, i);
      }
    }
    if forall e <- events :: Harmless(parse, e) {
      for i := 0 to |events|
        invariant forall j :: 0 <= j <= i ==> ExactAt(parse, port, events, trace, j)
      {
        NextExactIff(parse, port, events, trace, i);
      }
    }
  }

  lemma StartIsExact(parse: Parser, port: int, events: seq<ServiceEvent>, trace: seq<Chains>)
    requires Run(parse, port, events, trace)
    ensures |trace| == |events| + 1 && ExactAt(parse, port, events, trace, 0)
  {
  }

  /** Texts that are the printed form of what they are parsed to. */
  ghost predicate Canonical(parse: Parser, svc: Service) {
    forall t | Lists(svc, t) && parse(t).NetIP? :: parse(t).text == t
  }

  /** With canonical texts every update is free of aliases, so the chains are exact at every moment. */
  lemma CanonicalRunsAreExact(parse: Parser, port: int, events: seq<ServiceEvent>, trace: seq<Chains>, i: nat)
    requires InformerLike(events) && Run(parse, port, events, trace) && i <= |events|
    requires forall e <- events :: Canonical(parse, e.svc) && (e.Changed? ==> Canonical(parse, e.before))
    ensures ExactAt(parse, port, events, trace, i)
  {
    hide ExactAt, Run, InformerLike;
    AlwaysExactIff(parse, port, events, trace);
  }

  // ---------- the handlers ----------

  method Handle(handler: EventHandler, e: ServiceEvent)
    modifies handler.impl
    ensures Handled(handler.parse, handler.impl.envoyPort, old(handler.impl.chains), e, handler.impl.chains)
  {
    match e
    case Added(svc) => handler.AddFunc(svc);
    case Changed(before, svc) =>
      ghost var dropped := handler.UpdateFunc(before, svc);
      assert Replaced(handler.parse, handler.impl.envoyPort, old(handler.impl.chains), before, svc, dropped,
                      handler.impl.chains);
    case Removed(svc) => handler.DeleteFunc(svc);
  }

  /** Every sequence of calls of the handlers is a run. */
  method HandleAll(handler: EventHandler, events: seq<ServiceEvent>) returns (ghost trace: seq<Chains>)
    requires handler.impl.chains == Chains([], [])
    modifies handler.impl
    ensures Run(handler.parse, handler.impl.envoyPort, events, trace) && trace[|events|] == handler.impl.chains
  {
    hide Handled;
    trace := [handler.impl.chains];
    for i := 0 to |events|
      invariant |trace| == i + 1 && trace[0] == Chains([], []) && trace[i] == handler.impl.chains
      invariant forall j :: 0 <= j < i ==>
                  Handled(handler.parse, handler.impl.envoyPort, trace[j], events[j], trace[j + 1])
    {
      Handle(handler, events[i]);
      trace := trace + [handler.impl.chains];
    }
  }

  // ---------- aliases ----------

  /** The rule of an aliased text is gone after the update although the service still asks for it. */
  lemma AliasedUpdateLosesTheRule(
      parse: Parser, ch: Chains, live: Live, before: Service, svc: Service, dropped: seq<string>, now: Chains,
      port: int,
      t: string, u: string)
    requires Tidy(ch) && Replaced(parse, port, ch, before, svc, dropped, now) && Aliased(parse, before, svc, t, u)
    ensures var rule := RedirArgs(Comment(svc), parse(u).text, port);
            rule !in Chain(now, parse(u).v4) && rule in Wanted(parse, live[KeyOf(svc) := svc], parse(u).v4, port)
  {
    hide AddAll, RemoveAll, RulesFor, RedirArgs, Parsed, Texts, Tidy, Wanted;
    var c, added, v4 := Comment(svc), Parsed(parse, Without(Texts(svc), Texts(before))), parse(u).v4;
    var rule := RedirArgs(c, parse(u).text, port);
    AddAllAdds(ch, c, added, port);
    RemoveAllRemoves(AddAll(ch, c, added, port), c, Parsed(parse, dropped), port);
    assert IsRuleOf(parse, t, c, v4, port, rule) && IsRuleOf(parse, u, c, v4, port, rule) && t in dropped;
    RulesForTexts(parse, dropped, c, v4, port, rule);
    RulesForTexts(parse, Texts(svc), c, v4, port, rule);
    WantedWith(parse, live, svc, v4, port);
    assert rule !in Held(now, v4);
  }

  function Loopback(t: string): NetIP {
    if t == "::1" || t == "0:0:0:0:0:0:0:1" then NetIP(false, "::1") else NilIP
  }

  /** Respelling an external address in an update loses its rule. */
  lemma RespellingLosesTheRule(svc: Service, port: int, trace: seq<Chains>)
    requires '/' !in svc.namespace && svc.clusterIPs == ["None"] && svc.externalIPs == ["0:0:0:0:0:0:0:1"]
    requires Run(Loopback, port, [Added(svc), Changed(svc, svc.(externalIPs := ["::1"]))], trace)
    ensures ExactAt(Loopback, port, [Added(svc), Changed(svc, svc.(externalIPs := ["::1"]))], trace, 1)
    ensures !ExactAt(Loopback, port, [Added(svc), Changed(svc, svc.(externalIPs := ["::1"]))], trace, 2)
  {
    hide ExactAt, Run;
    var after := svc.(externalIPs := ["::1"]);
    var events := [Added(svc), Changed(svc, after)];
    assert events[..0] == [] && events[..1] == [Added(svc)] && events[..1][..0] == [];
    assert Texts(svc)[1] == "0:0:0:0:0:0:0:1" && Texts(after)[1] == "::1";
    assert Aliased(Loopback, svc, after, "0:0:0:0:0:0:0:1", "::1");
    assert InformerLike(events);
    StartIsExact(Loopback, port, events, trace);
    NextExactIff(Loopback, port, events, trace, 0);
    NextExactIff(Loopback, port, events, trace, 1);
  }
}
