/** What iptables makes of the rules: which packets a chain sends to the proxy. */
module Netfilter {
  import opened Kube
  import opened Meaning
  import opened GoText
  import opened Redirect
  import opened RedirectRun

  /** A packet, its addresses as they are printed. */
  datatype Packet = Packet(v4: bool, source: string, destination: string, protocol: string)

  // ---------- one rule ----------

  /** One argument of a rule: a condition on the packet, a remark, or part of the target. */
  predicate Accepts(flag: string, value: string, packet: Packet) {
    if flag == "-s" then packet.source == value
    else if flag == "-d" then packet.destination == value
    else if flag == "-p" then packet.protocol == value
    else if flag == "-m" then value == "comment"
    else flag in {"--comment", "-j", "--to-port"}
  }

  /** Arguments come in pairs of a flag and a value, and all of them must accept the packet. */
  predicate Matches(rule: Rule, packet: Packet) {
    rule == [] || (|rule| >= 2 && Accepts(rule[0], rule[1], packet) && Matches(rule[2..], packet))
  }

  function ValueOf(rule: Rule, flag: string): Option<string> {
    if |rule| < 2 then None else if rule[0] == flag then Some(rule[1]) else ValueOf(rule[2..], flag)
  }

  /** The local port a rule redirects what it matches to. */
  function RedirectsTo(rule: Rule): Option<int> {
    if ValueOf(rule, "-j") == Some("REDIRECT") && ValueOf(rule, "--to-port").Some? &&
       IsDecimal(ValueOf(rule, "--to-port").value)
    then Some(DecimalValue(ValueOf(rule, "--to-port").value))
    else None
  }

  /** The first rule that matches and redirects decides. */
  function Fate(chain: seq<Rule>, packet: Packet): Option<int> {
    if chain == [] then None
    else if Matches(chain[0], packet) && RedirectsTo(chain[0]).Some? then RedirectsTo(chain[0])
    else Fate(chain[1..], packet)
  }

  lemma PairFirst(flag: string, value: string, rest: Rule, packet: Packet)
    ensures Matches([flag, value] + rest, packet) <==> Accepts(flag, value, packet) && Matches(rest, packet)
    ensures forall f: string :: ValueOf([flag, value] + rest, f) == if f == flag then Some(value) else ValueOf(rest, f)
  {
    assert ([flag, value] + rest)[2..] == rest;
  }

  /** A rule redirects to its port exactly the TCP packets to its address. */
  lemma RuleMeans(comment: string, text: string, port: nat, packet: Packet)
    ensures Matches(RedirArgs(comment, text, port), packet) <==> packet.destination == text && packet.protocol == "tcp"
    ensures RedirectsTo(RedirArgs(comment, text, port)) == Some(port)
    ensures ValueOf(RedirArgs(comment, text, port), "--comment") == Some(comment)
    ensures ValueOf(RedirArgs(comment, text, port), "-d") == Some(text)
  {
    var number := PrintInt(port);
    PrintNatRoundTrip(port);
    var to: Rule := ["--to-port", number];
    var jump := ["-j", "REDIRECT"] + to;
    var proto := ["-p", "tcp"] + jump;
    var dest := ["-d", text] + proto;
    var remark := ["--comment", comment] + dest;
    assert RedirArgs(comment, text, port) == ["-m", "comment"] + remark;
    assert to == ["--to-port", number] + [];
    PairFirst("--to-port", number, [], packet);
    PairFirst("-j", "REDIRECT", to, packet);
    PairFirst("-p", "tcp", jump, packet);
    PairFirst("-d", text, proto, packet);
    PairFirst("--comment", comment, dest, packet);
    PairFirst("-m", "comment", remark, packet);
  }

  // ---------- a chain ----------

  lemma {:induction false} FateOfRedirects(chain: seq<Rule>, packet: Packet, port: nat)
    requires forall r <- chain :: RedirectsTo(r) == Some(port)
    ensures Fate(chain, packet) == if exists r <- chain :: Matches(r, packet) then Some(port) else None
  {
    if chain != [] {
      assert chain[0] in chain && forall r :: r in chain <==> r == chain[0] || r in chain[1..];
      FateOfRedirects(chain[1..], packet, port);
    }
  }

  /** Some live service lists the packet's destination. */
  ghost predicate AskedFor(parse: Parser, live: Live, packet: Packet) {
    exists k <- live, u: string :: Lists(live[k], u) && parse(u) == NetIP(packet.v4, packet.destination)
  }

  lemma RuleOfService(parse: Parser, ch: Chains, live: Live, port: int, v4: bool, r: Rule) returns (k: Key, u: string)
    requires Exact(parse, ch, live, port) && r in Chain(ch, v4)
    ensures k in live && Lists(live[k], u) && IsRuleOf(parse, u, Comment(live[k]), v4, port, r)
  {
    hide RedirArgs, Tidy;
    assert r in Held(ch, v4);
    k :| k in live && r in RulesOf(parse, live[k], v4, port);
    u :| u in live[k].clusterIPs + live[k].externalIPs && IsRuleOf(parse, u, Comment(live[k]), v4, port, r);
  }

  lemma ServiceHasRule(parse: Parser, ch: Chains, live: Live, port: int, k: Key, u: string)
    requires Exact(parse, ch, live, port) && k in live && Lists(live[k], u) && parse(u).NetIP?
    ensures RedirArgs(Comment(live[k]), parse(u).text, port) in Chain(ch, parse(u).v4)
  {
    hide RedirArgs, Tidy;
    var v4, r := parse(u).v4, RedirArgs(Comment(live[k]), parse(u).text, port);
    assert u in live[k].clusterIPs + live[k].externalIPs && r in RulesOf(parse, live[k], v4, port);
    assert k in live.Keys && r in Wanted(parse, live, v4, port) && r in Held(ch, v4);
  }

  /** Exact chains send to the proxy exactly the TCP packets to the addresses that live services list. */
  lemma ExactRedirects(parse: Parser, ch: Chains, live: Live, port: nat, packet: Packet)
    requires Exact(parse, ch, live, port)
    ensures Fate(Chain(ch, packet.v4), packet) ==
              if packet.protocol == "tcp" && AskedFor(parse, live, packet) then Some(port) else None
  {
    hide RedirArgs, Exact, Matches, RedirectsTo, Fate;
    var chain := Chain(ch, packet.v4);
    forall r <- chain
      ensures RedirectsTo(r) == Some(port)
      ensures Matches(r, packet) ==> packet.protocol == "tcp" && AskedFor(parse, live, packet)
    {
      var k, u := RuleOfService(parse, ch, live, port, packet.v4, r);
      RuleMeans(Comment(live[k]), parse(u).text, port, packet);
      assert Matches(r, packet) ==> parse(u) == NetIP(packet.v4, packet.destination);
    }
    if packet.protocol == "tcp" && AskedFor(parse, live, packet) {
      var k, u: string :| k in live && Lists(live[k], u) && parse(u) == NetIP(packet.v4, packet.destination);
      ServiceHasRule(parse, ch, live, port, k, u);
      RuleMeans(Comment(live[k]), parse(u).text, port, packet);
    }
    FateOfRedirects(chain, packet, port);
  }

  /** Every rule carries the name of a service that lists its address. */
  lemma RulesNameTheirService(parse: Parser, ch: Chains, live: Live, port: nat, v4: bool, r: Rule)
    requires Exact(parse, ch, live, port) && Keyed(live) && r in Chain(ch, v4)
    ensures exists k <- live, u: string ::
              && Lists(live[k], u) && parse(u).NetIP? && ValueOf(r, "-d") == Some(parse(u).text)
              && ValueOf(r, "--comment") == Some("lightpath:" + k.namespace + "/" + k.name)
  {
    hide RedirArgs, Exact, ValueOf;
    var k, u := RuleOfService(parse, ch, live, port, v4, r);
    RuleMeans(Comment(live[k]), parse(u).text, port, Packet(v4, "", "", ""));
    assert KeyOf(live[k]) == k;
  }

  // ---------- whole runs ----------

  /** At every moment of a run without aliased updates exactly the TCP packets to the addresses that live services list
      go to the proxy. */
  lemma RunRedirects(parse: Parser, port: nat, events: seq<ServiceEvent>, trace: seq<Chains>, i: nat, packet: Packet)
    requires InformerLike(events) && Run(parse, port, events, trace) && i <= |events|
    requires forall e <- events :: Harmless(parse, e)
    ensures |trace| == |events| + 1
    ensures Fate(Chain(trace[i], packet.v4), packet) ==
              if packet.protocol == "tcp" && AskedFor(parse, LiveAfter(events[..i]), packet) then Some(port) else None
  {
    hide InformerLike, Harmless, Exact, Fate, AskedFor, Handled;
    AlwaysExactIff(parse, port, events, trace);
    assert ExactAt(parse, port, events, trace, i);
    ExactRedirects(parse, trace[i], LiveAfter(events[..i]), port, packet);
  }
}
