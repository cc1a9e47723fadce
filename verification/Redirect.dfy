/** The redirect rules of live services (pkg/redirect/kube.go, pkg/redirect/iptables.go). */
module Redirect {
  import opened Kube
  import opened Meaning
  import GoText

  /** What the code observes of a parsed address: nothing was parsed, or its family and its printed form. */
  datatype NetIP = NilIP | NetIP(v4: bool, text: string)

  /** `net.ParseIP`, whose inner workings do not matter here. */
  type Parser = string -> NetIP

  /** The argument list of one iptables rule. */
  type Rule = seq<string>

  function RedirArgs(comment: string, text: string, envoyPort: int): Rule {
    ["-m", "comment", "--comment", comment, "-d", text, "-p", "tcp", "-j", "REDIRECT", "--to-port",
     GoText.PrintInt(envoyPort)]
  }

  /** The chain of each address family. */
  datatype Chains = Chains(v4: seq<Rule>, v6: seq<Rule>)

  function EnsureRule(chain: seq<Rule>, rule: Rule): seq<Rule> {
    if rule in chain then chain else chain + [rule]
  }

  /** Removes the first occurrence. */
  function DeleteRule(chain: seq<Rule>, rule: Rule): seq<Rule> {
    if chain == [] then [] else if chain[0] == rule then chain[1..] else [chain[0]] + DeleteRule(chain[1..], rule)
  }

  function Add(ch: Chains, comment: string, ip: NetIP, envoyPort: int): Chains {
    match ip
    case NilIP => ch
    case NetIP(true, text) => ch.(v4 := EnsureRule(ch.v4, RedirArgs(comment, text, envoyPort)))
    case NetIP(false, text) => ch.(v6 := EnsureRule(ch.v6, RedirArgs(comment, text, envoyPort)))
  }

  function Remove(ch: Chains, comment: string, ip: NetIP, envoyPort: int): Chains {
    match ip
    case NilIP => ch
    case NetIP(true, text) => ch.(v4 := DeleteRule(ch.v4, RedirArgs(comment, text, envoyPort)))
    case NetIP(false, text) => ch.(v6 := DeleteRule(ch.v6, RedirArgs(comment, text, envoyPort)))
  }

  function AddAll(ch: Chains, comment: string, ips: seq<NetIP>, envoyPort: int): Chains {
    if ips == [] then ch
    else Add(AddAll(ch, comment, ips[..|ips| - 1], envoyPort), comment, ips[|ips| - 1], envoyPort)
  }

  function RemoveAll(ch: Chains, comment: string, ips: seq<NetIP>, envoyPort: int): Chains {
    if ips == [] then ch
    else Remove(RemoveAll(ch, comment, ips[..|ips| - 1], envoyPort), comment, ips[|ips| - 1], envoyPort)
  }

  /** The rules in the kernel, as the redirect program sees and changes them. A rule for no address is refused. */
  class IptablesRedirect {
    var chains: Chains
    const envoyPort: int

    constructor (envoyPort: int)
      ensures chains == Chains([], []) && this.envoyPort == envoyPort
    {
      chains := Chains([], []);
      this.envoyPort := envoyPort;
    }

    method AddIP(comment: string, ip: NetIP) returns (failed: bool)
      modifies this
      ensures chains == Add(old(chains), comment, ip, envoyPort)
      ensures failed <==> ip == NilIP
    {
      if ip == NilIP {
        return true;
      }
      var args := RedirArgs(comment, ip.text, envoyPort);
      if ip.v4 {
        chains := chains.(v4 := EnsureRule(chains.v4, args));
      } else {
        chains := chains.(v6 := EnsureRule(chains.v6, args));
      }
      failed := false;
    }

    method RemoveIP(comment: string, ip: NetIP) returns (failed: bool)
      modifies this
      ensures chains == Remove(old(chains), comment, ip, envoyPort)
      ensures failed <==> ip == NilIP
    {
      if ip == NilIP {
        return true;
      }
      var args := RedirArgs(comment, ip.text, envoyPort);
      if ip.v4 {
        chains := chains.(v4 := DeleteRule(chains.v4, args));
      } else {
        chains := chains.(v6 := DeleteRule(chains.v6, args));
      }
      failed := false;
    }
  }

  // ---------- events ----------

  function Comment(svc: Service): string { "lightpath:" + svc.namespace + "/" + svc.name }

  function Texts(svc: Service): (texts: seq<string>)
    ensures forall t :: t in texts <==> Lists(svc, t)
  {
    svc.clusterIPs + svc.externalIPs
  }

  function Parsed(parse: Parser, texts: seq<string>): (ips: seq<NetIP>)
    ensures |ips| == |texts| && forall i :: 0 <= i < |ips| ==> ips[i] == parse(texts[i])
  {
    seq(|texts|, i requires 0 <= i < |texts| => parse(texts[i]))
  }

  /** The texts of `texts` that are not in `skip`, in order and with their repeats. */
  function Without(texts: seq<string>, skip: seq<string>): (kept: seq<string>)
    ensures forall t :: t in kept <==> t in texts && t !in skip
  {
    if texts == [] then []
    else Without(texts[..|texts| - 1], skip) + (if texts[|texts| - 1] in skip then [] else [texts[|texts| - 1]])
  }

  lemma WithoutSnoc(texts: seq<string>, t: string, skip: seq<string>)
    ensures Without(texts + [t], skip) == Without(texts, skip) + if t in skip then [] else [t]
  {
    assert (texts + [t])[..|texts|] == texts;
  }

  ghost predicate NoRepeats(texts: seq<string>) { forall i, j :: 0 <= i < j < |texts| ==> texts[i] != texts[j] }

  /** `texts` holds, without repeats and in some order, what `before` lists and `after` does not. */
  ghost predicate ListsDropped(texts: seq<string>, before: Service, after: Service) {
    NoRepeats(texts) && forall t :: t in texts <==> Lists(before, t) && !Lists(after, t)
  }

  /** `texts` holds what `after` lists and `before` does not. */
  ghost predicate ListsAdded(texts: seq<string>, before: Service, after: Service) {
    forall t :: t in texts <==> Lists(after, t) && !Lists(before, t)
  }

  /** The addresses to add and to remove, and as a ghost the texts the removed ones were parsed from. */
  method SvcIPDiff(parse: Parser, before: Service, after: Service)
      returns (add: seq<NetIP>, remove: seq<NetIP>, ghost dropped: seq<string>)
    ensures add == Parsed(parse, Without(Texts(after), Texts(before)))
    ensures ListsAdded(Without(Texts(after), Texts(before)), before, after)
    ensures remove == Parsed(parse, dropped) && ListsDropped(dropped, before, after)
  {
    var oldTexts, newTexts := Texts(before), Texts(after);
    var oldIPs := SetOf(oldTexts);
    var newIPs;
    newIPs, add := Additions(parse, newTexts, oldTexts, oldIPs);
    remove, dropped := Removals(parse, oldIPs, newIPs);
  }

  /** The first loop of the diff: the old texts as a set. */
  method SetOf(texts: seq<string>) returns (seen: set<string>)
    ensures forall t :: t in seen <==> t in texts
  {
    seen := {};
    for i := 0 to |texts|
      invariant forall t :: t in seen <==> t in texts[..i]
    {
      seen := seen + {texts[i]};
    }
  }

  /** The second loop: the new texts as a set, and those that are not in `oldIPs`. */
  method Additions(parse: Parser, texts: seq<string>, ghost oldTexts: seq<string>, oldIPs: set<string>)
      returns (seen: set<string>, add: seq<NetIP>)
    requires forall t :: t in oldIPs <==> t in oldTexts
    ensures forall t :: t in seen <==> t in texts
    ensures add == Parsed(parse, Without(texts, oldTexts))
  {
    seen, add := {}, [];
    for i := 0 to |texts|
      invariant forall t :: t in seen <==> t in texts[..i]
      invariant add == Parsed(parse, Without(texts[..i], oldTexts))
    {
      seen := seen + {texts[i]};
      assert texts[..i + 1] == texts[..i] + [texts[i]];
      WithoutSnoc(texts[..i], texts[i], oldTexts);
      if texts[i] !in oldIPs {
        add := add + [parse(texts[i])];
      }
    }
    assert texts[..|texts|] == texts;
  }

  /** The third loop: the old texts that are gone, in any order. */
  method Removals(parse: Parser, oldIPs: set<string>, newIPs: set<string>)
      returns (remove: seq<NetIP>, ghost dropped: seq<string>)
    ensures remove == Parsed(parse, dropped) && NoRepeats(dropped)
    ensures forall t :: t in dropped <==> t in oldIPs && t !in newIPs
  {
    remove, dropped := [], [];
    var todo := oldIPs;
    while todo != {}
      invariant todo <= oldIPs
      invariant remove == Parsed(parse, dropped) && NoRepeats(dropped)
      invariant forall t :: t in dropped <==> t in oldIPs - todo && t !in newIPs
    {
      var ip :| ip in todo;
      if ip !in newIPs {
        remove, dropped := remove + [parse(ip)], dropped + [ip];
      }
      todo := todo - {ip};
    }
  }

  /** The informer's event handlers over one redirect. */
  class EventHandler {
    const impl: IptablesRedirect
    const parse: Parser

    constructor (impl: IptablesRedirect, parse: Parser)
      ensures this.impl == impl && this.parse == parse
    {
      this.impl := impl;
      this.parse := parse;
    }

    method AddFunc(svc: Service)
      modifies impl
      ensures impl.chains == AddAll(old(impl.chains), Comment(svc), Parsed(parse, Texts(svc)), impl.envoyPort)
    {
      var texts := Texts(svc);
      ghost var ips := Parsed(parse, texts);
      for i := 0 to |texts|
        invariant impl.chains == AddAll(old(impl.chains), Comment(svc), ips[..i], impl.envoyPort)
      {
        assert ips[..i + 1][..i] == ips[..i];
        var _ := impl.AddIP(Comment(svc), parse(texts[i]));
      }
      assert ips[..|ips|] == ips;
    }

    method UpdateFunc(before: Service, after: Service) returns (ghost dropped: seq<string>)
      modifies impl
      ensures ListsDropped(dropped, before, after)
      ensures impl.chains ==
                RemoveAll(AddAll(old(impl.chains), Comment(after),
                                 Parsed(parse, Without(Texts(after), Texts(before))), impl.envoyPort),
                          Comment(after), Parsed(parse, dropped), impl.envoyPort)
    {
      var add, remove;
      add, remove, dropped := SvcIPDiff(parse, before, after);
      for i := 0 to |add|
        invariant impl.chains == AddAll(old(impl.chains), Comment(after), add[..i], impl.envoyPort)
      {
        assert add[..i + 1][..i] == add[..i];
        var _ := impl.AddIP(Comment(after), add[i]);
      }
      assert add[..|add|] == add;
      ghost var middle := impl.chains;
      for i := 0 to |remove|
        invariant impl.chains == RemoveAll(middle, Comment(after), remove[..i], impl.envoyPort)
      {
        assert remove[..i + 1][..i] == remove[..i];
        var _ := impl.RemoveIP(Comment(after), remove[i]);
      }
      assert remove[..|remove|] == remove;
    }

    method DeleteFunc(svc: Service)
      modifies impl
      ensures impl.chains == RemoveAll(old(impl.chains), Comment(svc), Parsed(parse, Texts(svc)), impl.envoyPort)
    {
      var texts := Texts(svc);
      ghost var ips := Parsed(parse, texts);
      for i := 0 to |texts|
        invariant impl.chains == RemoveAll(old(impl.chains), Comment(svc), ips[..i], impl.envoyPort)
      {
        assert ips[..i + 1][..i] == ips[..i];
        var _ := impl.RemoveIP(Comment(svc), parse(texts[i]));
      }
      assert ips[..|ips|] == ips;
    }
  }
}
