/** What the two tables do to packets.

    A canonical table is evaluated as nftables does: every base chain on a hook must
    let the packet pass; it does if one of its rules accepts it or its policy is not
    to drop; a rule accepts if all its matches hold before its verdict.  A match on a
    header the packet does not have fails. */
module FirewallPackets {
  import opened FirewallTable
  import opened JsonValue
  import opened Wrappers

  datatype Network = V4(source: string, destination: string) | V6
  datatype Transport =
    | Tcp(sport: nat, dport: nat) | Udp(sport: nat, dport: nat)
    | Icmp4(kind: string) | Icmp6(kind: string) | Other(protocol: string)

  /** A packet at a hook: the interfaces, the connection state, the sender's link
      address and the headers. */
  datatype Packet = Packet(inward: string, outward: string, state: string, ether: string,
                           network: Network, transport: Transport)

  // ------------------------------------------------------------- evaluation

  function Protocol(t: Transport): string {
    match t
    case Tcp(_, _) => "tcp"
    case Udp(_, _) => "udp"
    case Icmp4(_) => "icmp"
    case Icmp6(_) => "ipv6-icmp"
    case Other(protocol) => protocol
  }

  function Header(p: Packet, protocol: string, field: string): Option<Json> {
    if p.transport.Tcp? && protocol == "tcp" && field == "sport" then Some(Number(p.transport.sport))
    else if p.transport.Tcp? && protocol == "tcp" && field == "dport" then Some(Number(p.transport.dport))
    else if p.transport.Udp? && protocol == "udp" && field == "sport" then Some(Number(p.transport.sport))
    else if p.transport.Udp? && protocol == "udp" && field == "dport" then Some(Number(p.transport.dport))
    else if p.transport.Icmp4? && protocol == "icmp" && field == "type" then Some(Text(p.transport.kind))
    else if p.transport.Icmp6? && protocol == "icmpv6" && field == "type" then Some(Text(p.transport.kind))
    else if p.network.V4? && protocol == "ip" && field == "saddr" then Some(Text(p.network.source))
    else if p.network.V4? && protocol == "ip" && field == "daddr" then Some(Text(p.network.destination))
    else if protocol == "ether" && field == "saddr" then Some(Text(p.ether))
    else None
  }

  /** The left side of a match. */
  function Selected(p: Packet, left: Json): Option<Json> {
    var meta, ct, payload := Field(left, "meta"), Field(left, "ct"), Field(left, "payload");
    if meta.Some? then
      match Field(meta.value, "key")
      case Some(Text(key)) =>
        if key == "iifname" then Some(Text(p.inward))
        else if key == "oifname" then Some(Text(p.outward))
        else if key == "l4proto" then Some(Text(Protocol(p.transport)))
        else None
      case _ => None
    else if ct.Some? then
      if Field(ct.value, "key") == Some(Text("state")) then Some(Text(p.state)) else None
    else if payload.Some? then
      match (Field(payload.value, "protocol"), Field(payload.value, "field"))
      case (Some(Text(protocol)), Some(Text(field))) => Header(p, protocol, field)
      case _ => None
    else None
  }

  function Field(j: Json, key: string): Option<Json> {
    if j.Object? && key in j.fields then Some(j.fields[key]) else None
  }

  predicate Holds(p: Packet, expression: Json) {
    var body := Field(expression, "match");
    && body.Some?
    && Field(body.value, "left").Some? && Field(body.value, "right").Some?
    && var value, right := Selected(p, Field(body.value, "left").value), Field(body.value, "right").value;
       && value.Some?
       && if Field(body.value, "op") == Some(Text("==")) then value.value == right
          else
            && Field(body.value, "op") == Some(Text("in"))
            && Field(right, "set").Some? && Field(right, "set").value.Array?
            && value.value in Field(right, "set").value.items
  }

  /** The expressions in order, up to the verdict. */
  predicate Passes(p: Packet, expressions: seq<Json>) {
    expressions != []
    && (Field(expressions[0], "accept").Some? || (Holds(p, expressions[0]) && Passes(p, expressions[1..])))
  }

  predicate RuleAccepts(o: Json, chain: Json, p: Packet) {
    && Field(o, "rule").Some? && Field(o, "rule").value.Object?
    && Field(Field(o, "rule").value, "chain") == Some(chain)
    && Field(Field(o, "rule").value, "expr").Some? && Field(Field(o, "rule").value, "expr").value.Array?
    && Passes(p, Field(Field(o, "rule").value, "expr").value.items)
  }

  /** A filter chain at the usual priority of a hook. */
  predicate BaseChain(o: Json, hook: string) {
    && Field(o, "chain").Some?
    && var chain := Field(o, "chain").value;
       Has(chain, "type", Text("filter")) && Has(chain, "hook", Text(hook)) && Has(chain, "prio", Number(0))
  }

  ghost predicate ChainLets(objects: seq<Json>, chain: Json, p: Packet) {
    || Field(chain, "policy") != Some(Text("drop"))
    || exists k :: 0 <= k < |objects| && Field(chain, "name").Some?
                   && RuleAccepts(objects[k], Field(chain, "name").value, p)
  }

  /** The table lets the packet pass at the hook. */
  ghost predicate Lets(objects: seq<Json>, hook: string, p: Packet) {
    forall k :: 0 <= k < |objects| && BaseChain(objects[k], hook) ==>
      ChainLets(objects, Field(objects[k], "chain").value, p)
  }

  // -------------------------------------------------- scripts without counters

  /** Nothing in the value is volatile. */
  predicate Steady(v: Json) {
    match v
    case Object(fields) =>
      forall key :: key in fields ==> key !in {"handle", "index", "counter"} && Steady(fields[key])
    case Array(items) => forall i :: 0 <= i < |items| ==> Steady(items[i])
    case _ => true
  }

  lemma {:induction false} SteadyIsKept(v: Json)
    requires Steady(v)
    ensures WithoutVolatile(v, false) == v
  {
    match v
    case Object(fields) =>
      forall key | key in fields ensures WithoutVolatile(fields[key], key == "counter") == fields[key] {
        SteadyIsKept(fields[key]);
      }
    case Array(items) =>
      forall i | 0 <= i < |items| ensures WithoutVolatile(items[i], false) == items[i] { SteadyIsKept(items[i]); }
      assert WithoutVolatile(v, false).items == items;
    case _ =>
  }

  predicate SteadyRule(r: Rule) { forall i :: 0 <= i < |r.expr| ==> Steady(r.expr[i]) }

  lemma RuleObject(r: Rule, chain: string, p: Packet)
    requires SteadyRule(r)
    ensures var o := EntryObject(Entry("rule", RuleItem(r)));
            && Field(o, "chain").None?
            && (RuleAccepts(o, Text(chain), p) <==> r.chain == chain && Passes(p, r.expr))
  {
    var item := RuleItem(r);
    assert Steady(item) by { assert Steady(Array(r.expr)); }
    SteadyIsKept(item);
    hide Passes, WithoutVolatile;
  }

  lemma ChainObject(name: string)
    ensures var o := EntryObject(Entry("chain", Chain(name)));
            && Field(o, "rule").None? && Field(o, "chain") == Some(Chain(name))
            && forall hook :: BaseChain(o, hook) <==> hook == name
    ensures Field(Chain(name), "policy") == Some(Text("drop")) && Field(Chain(name), "name") == Some(Text(name))
  {
    SteadyIsKept(Chain(name));
    hide WithoutVolatile;
  }

  /** With a single chain on the hook, and one that drops, a packet needs a rule. */
  lemma OneChainLets(objects: seq<Json>, at: nat, hook: string, p: Packet)
    requires at < |objects| && Field(objects[at], "chain").Some?
    requires forall k :: 0 <= k < |objects| ==> (BaseChain(objects[k], hook) <==> k == at)
    requires Field(Field(objects[at], "chain").value, "policy") == Some(Text("drop"))
    requires Field(Field(objects[at], "chain").value, "name") == Some(Text(hook))
    ensures Lets(objects, hook, p) <==> exists k :: 0 <= k < |objects| && RuleAccepts(objects[k], Text(hook), p)
  {
    hide RuleAccepts, BaseChain;
  }

  function Position(hook: string): nat { if hook == "input" then 1 else if hook == "forward" then 2 else 3 }

  function ObjectNo(rules: seq<Rule>, k: nat): Json
    requires k < 4 + |rules|
  {
    EntryObject(if k < 4 then BaseEntries()[k] else Entry("rule", RuleItem(rules[k - 4])))
  }

  lemma ObjectsOf(rules: seq<Rule>)
    ensures |EntryObjects(BaseEntries() + RuleEntries(rules))| == 4 + |rules|
    ensures forall k :: 0 <= k < 4 + |rules| ==>
              EntryObjects(BaseEntries() + RuleEntries(rules))[k] == ObjectNo(rules, k)
  {
    assert |BaseEntries()| == 4;
    hide BaseEntries, EntryObject, RuleItem;
  }

  lemma ObjectAt(rules: seq<Rule>, k: nat, hook: string, p: Packet)
    requires k < 4 + |rules| && hook in {"input", "forward", "output"}
    requires k >= 4 ==> SteadyRule(rules[k - 4])
    ensures BaseChain(ObjectNo(rules, k), hook) <==> k == Position(hook)
    ensures k == Position(hook) ==> Field(ObjectNo(rules, k), "chain") == Some(Chain(hook))
    ensures RuleAccepts(ObjectNo(rules, k), Text(hook), p) <==>
              k >= 4 && rules[k - 4].chain == hook && Passes(p, rules[k - 4].expr)
  {
    hide Chain, Passes, SteadyRule, RuleItem;
    if k >= 4 {
      RuleObject(rules[k - 4], hook, p);
    } else if k > 0 {
      ChainObject(if k == 1 then "input" else if k == 2 then "forward" else "output");
    }
  }

  /** A table of ours drops whatever no rule of the hook's own chain accepts. */
  lemma TableLets(rules: seq<Rule>, hook: string, p: Packet)
    requires hook in {"input", "forward", "output"}
    requires forall k :: 0 <= k < |rules| ==> SteadyRule(rules[k])
    ensures Lets(EntryObjects(BaseEntries() + RuleEntries(rules)), hook, p) <==>
              exists k :: 0 <= k < |rules| && rules[k].chain == hook && Passes(p, rules[k].expr)
  {
    var objects := EntryObjects(BaseEntries() + RuleEntries(rules));
    ObjectsOf(rules);
    ChainObject(hook);
    hide EntryObject, EntryObjects, Chain, Passes, SteadyRule, RuleItem, BaseEntries;
    hide RuleAccepts, BaseChain, ObjectNo, Lets;
    forall k | 0 <= k < |objects|
      ensures BaseChain(objects[k], hook) <==> k == Position(hook)
      ensures k == Position(hook) ==> Field(objects[k], "chain") == Some(Chain(hook))
      ensures RuleAccepts(objects[k], Text(hook), p) <==>
                k >= 4 && rules[k - 4].chain == hook && Passes(p, rules[k - 4].expr)
    {
      ObjectAt(rules, k, hook, p);
    }
    OneChainLets(objects, Position(hook), hook, p);
    if k :| 0 <= k < |rules| && rules[k].chain == hook && Passes(p, rules[k].expr) {
      assert RuleAccepts(objects[4 + k], Text(hook), p);
    }
  }

  // ----------------------------------------------------------- single rules

  lemma {:induction false} PassesIfAllHold(p: Packet, matches: seq<Json>)
    requires forall i :: 0 <= i < |matches| ==> Field(matches[i], "accept").None?
    ensures Passes(p, matches + [Accept()]) <==> forall i :: 0 <= i < |matches| ==> Holds(p, matches[i])
  {
    hide Holds;
    var all := matches + [Accept()];
    if matches != [] {
      assert all[0] == matches[0] && all[1..] == matches[1..] + [Accept()];
      PassesIfAllHold(p, matches[1..]);
    }
  }

  lemma EqHolds(p: Packet, left: Json, right: Json)
    ensures Field(Eq(left, right), "accept").None?
    ensures Holds(p, Eq(left, right)) <==> Selected(p, left) == Some(right)
  {
    hide Selected;
  }

  lemma InHolds(p: Packet, left: Json, items: seq<Json>)
    ensures var m := Match(left, Object(map["set" := Array(items)]), "in");
            && Field(m, "accept").None?
            && (Holds(p, m) <==> Selected(p, left).Some? && Selected(p, left).value in items)
  {
    hide Selected;
  }

  lemma Selections(p: Packet, protocol: string, field: string)
    ensures Selected(p, Meta("iifname")) == Some(Text(p.inward))
    ensures Selected(p, Meta("oifname")) == Some(Text(p.outward))
    ensures Selected(p, Meta("l4proto")) == Some(Text(Protocol(p.transport)))
    ensures Selected(p, Ct("state")) == Some(Text(p.state))
    ensures Selected(p, Payload(protocol, field)) == Header(p, protocol, field)
  {
    hide Header;
  }

  lemma LoopbackPasses(p: Packet, key: string)
    requires key in {"iifname", "oifname"}
    ensures Passes(p, [Eq(Meta(key), Text("lo")), Accept()]) <==>
              (if key == "iifname" then p.inward else p.outward) == "lo"
  {
    var m := Eq(Meta(key), Text("lo"));
    EqHolds(p, Meta(key), Text("lo"));
    Selections(p, "", "");
    PassesIfAllHold(p, [m]);
    assert [m] + [Accept()] == [m, Accept()] && [m][0] == m;
    hide Eq, Meta, Accept, Holds, Selected, Passes;
  }

  lemma PortsPass(p: Packet, source: nat, destination: nat)
    ensures Passes(p, Ports("udp", source, destination)) <==> p.transport == Udp(source, destination)
  {
    hide Holds, Selected, Passes;
    var a, b := Eq(Payload("udp", "sport"), Number(source)), Eq(Payload("udp", "dport"), Number(destination));
    EqHolds(p, Payload("udp", "sport"), Number(source));
    EqHolds(p, Payload("udp", "dport"), Number(destination));
    Selections(p, "udp", "sport");
    Selections(p, "udp", "dport");
    PassesIfAllHold(p, [a, b]);
    assert [a, b] + [Accept()] == Ports("udp", source, destination) && [a, b][0] == a && [a, b][1] == b;
    hide Eq, Payload, Accept, Ports;
  }

  predicate IsIcmp(p: Packet, protocol: string, types: seq<string>) {
    || (p.transport.Icmp4? && protocol == "icmp" && p.transport.kind in types)
    || (p.transport.Icmp6? && protocol == "ipv6-icmp" && p.transport.kind in types)
  }

  function Texts(types: seq<string>): seq<Json> { seq(|types|, i requires 0 <= i < |types| => Text(types[i])) }

  lemma TextsHold(types: seq<string>, kind: string)
    ensures Text(kind) in Texts(types) <==> kind in types
  {
    if kind in types {
      var i :| 0 <= i < |types| && types[i] == kind;
      assert Texts(types)[i] == Text(kind);
    }
  }

  lemma IcmpExpressions(protocol: string, family: string, types: seq<string>)
    ensures Icmp(protocol, family, types) ==
            [Eq(Meta("l4proto"), Text(protocol)),
             Match(Payload(family, "type"), Object(map["set" := Array(Texts(types))]), "in")] + [Accept()]
  {
  }

  lemma IcmpPasses(p: Packet, protocol: string, family: string, types: seq<string>)
    requires (protocol, family) in {("icmp", "icmp"), ("ipv6-icmp", "icmpv6")}
    ensures Passes(p, Icmp(protocol, family, types)) <==> IsIcmp(p, protocol, types)
  {
    hide Eq, Match, Meta, Payload, Accept, Holds, Selected, Passes, Icmp, Texts;
    var a := Eq(Meta("l4proto"), Text(protocol));
    var b := Match(Payload(family, "type"), Object(map["set" := Array(Texts(types))]), "in");
    EqHolds(p, Meta("l4proto"), Text(protocol));
    InHolds(p, Payload(family, "type"), Texts(types));
    Selections(p, family, "type");
    IcmpExpressions(protocol, family, types);
    PassesIfAllHold(p, [a, b]);
    assert [a, b][0] == a && [a, b][1] == b;
    if p.transport.Icmp4? || p.transport.Icmp6? { TextsHold(types, p.transport.kind); }
  }

  // ------------------------------------------------------------ both tables

  /** What a machine without a core may do: loopback, DHCP for both families, and the
      ICMP messages that report errors or find neighbours and routers. */
  predicate Recovery(hook: string, p: Packet) {
    if hook == "input" then
      || p.inward == "lo" || p.transport == Udp(67, 68) || p.transport == Udp(547, 546)
      || Message(p.transport, "nd-router-advert")
    else
      && hook == "output"
      && (p.outward == "lo" || p.transport == Udp(68, 67) || p.transport == Udp(546, 547)
          || Message(p.transport, "nd-router-solicit"))
  }

  /** An ICMP message that may pass; `router` is the one about routers. */
  predicate Message(t: Transport, router: string) {
    || (t.Icmp4? && t.kind in {"destination-unreachable", "time-exceeded", "parameter-problem"})
    || (t.Icmp6? && t.kind in {"destination-unreachable", "packet-too-big", "time-exceeded", "parameter-problem",
                               router, "nd-neighbor-solicit", "nd-neighbor-advert"})
  }

  /** The core's traffic: it connects to port 22 here, and this machine to its port. */
  predicate Core(peer: Peer, hook: string, p: Packet) {
    && p.transport.Tcp? && p.network.V4?
    && if hook == "input" then
         && p.inward == peer.interface && p.network.source == peer.ipv4
         && ((p.state == "established" && p.transport.sport == peer.port)
             || (p.ether == peer.mac && p.transport.dport == 22))
       else
         && hook == "output" && p.outward == peer.interface && p.network.destination == peer.ipv4
         && ((p.state == "established" && p.transport.sport == 22) || p.transport.dport == peer.port)
  }

  ghost predicate Fires(rules: seq<Rule>, k: nat, hook: string, p: Packet) {
    k < |rules| && rules[k].chain == hook && Passes(p, rules[k].expr)
  }

  lemma RecoveryList()
    ensures |RecoveryRules()| == 10
    ensures RecoveryRules()[0] == Rule("input", [Eq(Meta("iifname"), Text("lo")), Accept()])
    ensures RecoveryRules()[1] == Rule("output", [Eq(Meta("oifname"), Text("lo")), Accept()])
    ensures RecoveryRules()[2] == Rule("input", Ports("udp", 67, 68))
    ensures RecoveryRules()[3] == Rule("output", Ports("udp", 68, 67))
    ensures RecoveryRules()[4] == Rule("input", Ports("udp", 547, 546))
    ensures RecoveryRules()[5] == Rule("output", Ports("udp", 546, 547))
    ensures RecoveryRules()[6] == Rule("input", Icmp("icmp", "icmp", ERRORS))
    ensures RecoveryRules()[7] == Rule("output", Icmp("icmp", "icmp", ERRORS))
    ensures RecoveryRules()[8] ==
            Rule("input", Icmp("ipv6-icmp", "icmpv6", ERRORS6 + ["nd-router-advert"] + NEIGHBOURS))
    ensures RecoveryRules()[9] ==
            Rule("output", Icmp("ipv6-icmp", "icmpv6", ERRORS6 + ["nd-router-solicit"] + NEIGHBOURS))
  {
    hide Eq, Meta, Accept, Ports, Icmp;
  }

  lemma SteadyEq(left: Json, right: Json)
    requires Steady(left) && Steady(right)
    ensures Steady(Eq(left, right)) && Steady(Match(left, right, "in"))
  {
    assert Steady(Text("==")) && Steady(Text("in"));
    assert Steady(Eq(left, right).fields["match"]);
    assert Steady(Match(left, right, "in").fields["match"]);
  }

  lemma SteadyParts(key: string, protocol: string, field: string, types: seq<string>)
    ensures Steady(Meta(key)) && Steady(Ct(key)) && Steady(Payload(protocol, field)) && Steady(Accept())
    ensures Steady(Object(map["set" := Array(Texts(types))]))
  {
    assert Steady(Text(key)) && Steady(Text(protocol)) && Steady(Text(field));
    assert Steady(Meta(key).fields["meta"]) && Steady(Ct(key).fields["ct"]);
    assert Steady(Payload(protocol, field).fields["payload"]);
    assert Steady(Array(Texts(types)));
  }

  lemma SteadyIcmp(chain: string, protocol: string, family: string, types: seq<string>)
    ensures SteadyRule(Rule(chain, Icmp(protocol, family, types)))
  {
    hide Eq, Match, Meta, Payload, Accept, Texts, Steady, Icmp;
    IcmpExpressions(protocol, family, types);
    SteadyParts("l4proto", family, "type", types);
    assert Steady(Text(protocol)) by { hide *; SteadyText(protocol); }
    SteadyEq(Meta("l4proto"), Text(protocol));
    SteadyEq(Payload(family, "type"), Object(map["set" := Array(Texts(types))]));
  }

  lemma SteadyText(s: string)
    ensures Steady(Text(s))
  {
  }

  lemma SteadyPorts(chain: string, source: nat, destination: nat)
    ensures SteadyRule(Rule(chain, Ports("udp", source, destination)))
  {
    SteadyParts("", "udp", "sport", []);
    SteadyParts("", "udp", "dport", []);
    assert Steady(Number(source)) && Steady(Number(destination));
    SteadyEq(Payload("udp", "sport"), Number(source));
    SteadyEq(Payload("udp", "dport"), Number(destination));
    hide Eq, Payload, Accept, Steady;
  }

  lemma SteadyLoopback(chain: string, key: string)
    ensures SteadyRule(Rule(chain, [Eq(Meta(key), Text("lo")), Accept()]))
  {
    SteadyParts(key, "", "", []);
    SteadyText("lo");
    SteadyEq(Meta(key), Text("lo"));
    hide Eq, Meta, Accept, Steady;
  }

  lemma SteadyRecovery()
    ensures forall k :: 0 <= k < |RecoveryRules()| ==> SteadyRule(RecoveryRules()[k])
  {
    hide *;
    RecoveryList();
    SteadyLoopback("input", "iifname");
    SteadyLoopback("output", "oifname");
    SteadyPorts("input", 67, 68);
    SteadyPorts("output", 68, 67);
    SteadyPorts("input", 547, 546);
    SteadyPorts("output", 546, 547);
    SteadyIcmp("input", "icmp", "icmp", ERRORS);
    SteadyIcmp("output", "icmp", "icmp", ERRORS);
    SteadyIcmp("input", "ipv6-icmp", "icmpv6", ERRORS6 + ["nd-router-advert"] + NEIGHBOURS);
    SteadyIcmp("output", "ipv6-icmp", "icmpv6", ERRORS6 + ["nd-router-solicit"] + NEIGHBOURS);
  }

  lemma Messages(kind: string)
    ensures kind in ERRORS <==> kind in {"destination-unreachable", "time-exceeded", "parameter-problem"}
    ensures kind in ERRORS6 + ["nd-router-advert"] + NEIGHBOURS <==>
              kind in {"destination-unreachable", "packet-too-big", "time-exceeded", "parameter-problem",
                       "nd-router-advert", "nd-neighbor-solicit", "nd-neighbor-advert"}
    ensures kind in ERRORS6 + ["nd-router-solicit"] + NEIGHBOURS <==>
              kind in {"destination-unreachable", "packet-too-big", "time-exceeded", "parameter-problem",
                       "nd-router-solicit", "nd-neighbor-solicit", "nd-neighbor-advert"}
  {
  }

  lemma AnyOfTen(rules: seq<Rule>, hook: string, p: Packet)
    requires |rules| == 10
    ensures (exists k: nat :: Fires(rules, k, hook, p)) <==>
              || Fires(rules, 0, hook, p) || Fires(rules, 1, hook, p) || Fires(rules, 2, hook, p)
              || Fires(rules, 3, hook, p) || Fires(rules, 4, hook, p) || Fires(rules, 5, hook, p)
              || Fires(rules, 6, hook, p) || Fires(rules, 7, hook, p) || Fires(rules, 8, hook, p)
              || Fires(rules, 9, hook, p)
  {
    hide Passes;
  }

  lemma RecoveryFires(p: Packet, hook: string)
    ensures (exists k: nat :: Fires(RecoveryRules(), k, hook, p)) <==> Recovery(hook, p)
  {
    hide Eq, Meta, Accept, Ports, Icmp, Passes, ERRORS, ERRORS6, NEIGHBOURS, RecoveryRules;
    RecoveryList();
    AnyOfTen(RecoveryRules(), hook, p);
    LoopbackPasses(p, "iifname");
    LoopbackPasses(p, "oifname");
    PortsPass(p, 67, 68);
    PortsPass(p, 68, 67);
    PortsPass(p, 547, 546);
    PortsPass(p, 546, 547);
    IcmpPasses(p, "icmp", "icmp", ERRORS);
    IcmpPasses(p, "ipv6-icmp", "icmpv6", ERRORS6 + ["nd-router-advert"] + NEIGHBOURS);
    IcmpPasses(p, "ipv6-icmp", "icmpv6", ERRORS6 + ["nd-router-solicit"] + NEIGHBOURS);
    if p.transport.Icmp4? || p.transport.Icmp6? { Messages(p.transport.kind); }
  }

  /** A match of a header field with a value. */
  datatype Test = Test(left: Json, right: Json)

  function Tests(tests: seq<Test>): seq<Json> {
    seq(|tests|, i requires 0 <= i < |tests| => Eq(tests[i].left, tests[i].right))
  }

  lemma TestsPass(p: Packet, chain: string, tests: seq<Test>)
    requires forall i :: 0 <= i < |tests| ==> Steady(tests[i].left) && Steady(tests[i].right)
    ensures SteadyRule(Rule(chain, Tests(tests) + [Accept()]))
    ensures Passes(p, Tests(tests) + [Accept()]) <==>
              forall i :: 0 <= i < |tests| ==> Selected(p, tests[i].left) == Some(tests[i].right)
  {
    hide Eq, Holds, Selected, Passes, Steady, Accept;
    forall i | 0 <= i < |tests|
      ensures Field(Tests(tests)[i], "accept").None? && Steady(Tests(tests)[i])
      ensures Holds(p, Tests(tests)[i]) <==> Selected(p, tests[i].left) == Some(tests[i].right)
    {
      EqHolds(p, tests[i].left, tests[i].right);
      SteadyEq(tests[i].left, tests[i].right);
    }
    SteadyParts("", "", "", []);
    PassesIfAllHold(p, Tests(tests));
  }

  function PeerTests(peer: Peer): seq<seq<Test>> {
    var interface, ipv4 := Text(peer.interface), Text(peer.ipv4);
    [[Test(Ct("state"), Text("established")), Test(Meta("iifname"), interface),
      Test(Payload("ip", "saddr"), ipv4), Test(Payload("tcp", "sport"), Number(peer.port))],
     [Test(Ct("state"), Text("established")), Test(Meta("oifname"), interface),
      Test(Payload("ip", "daddr"), ipv4), Test(Payload("tcp", "sport"), Number(22))],
     [Test(Meta("iifname"), interface), Test(Payload("ether", "saddr"), Text(peer.mac)),
      Test(Payload("ip", "saddr"), ipv4), Test(Payload("tcp", "dport"), Number(22))],
     [Test(Meta("oifname"), interface), Test(Payload("ip", "daddr"), ipv4),
      Test(Payload("tcp", "dport"), Number(peer.port))]]
  }

  lemma PeerList(peer: Peer)
    ensures |PeerRules(peer)| == 4 && |PeerTests(peer)| == 4
    ensures forall k :: 0 <= k < 4 ==>
              PeerRules(peer)[k]
              == Rule(if k % 2 == 0 then "input" else "output", Tests(PeerTests(peer)[k]) + [Accept()])
  {
    hide Eq, Meta, Ct, Payload, Accept;
    var rules, tests := PeerRules(peer), PeerTests(peer);
    assert rules[0].expr == Tests(tests[0]) + [Accept()];
    assert rules[1].expr == Tests(tests[1]) + [Accept()];
    assert rules[2].expr == Tests(tests[2]) + [Accept()];
    assert rules[3].expr == Tests(tests[3]) + [Accept()];
  }

  lemma PeerTestsSteady(peer: Peer, k: nat)
    requires k < 4
    ensures forall i :: 0 <= i < |PeerTests(peer)[k]| ==>
              Steady(PeerTests(peer)[k][i].left) && Steady(PeerTests(peer)[k][i].right)
  {
    SteadyParts("state", "ip", "saddr", []);
    SteadyParts("iifname", "ip", "daddr", []);
    SteadyParts("oifname", "ether", "saddr", []);
    SteadyParts("", "tcp", "sport", []);
    SteadyParts("", "tcp", "dport", []);
    SteadyText("established");
    SteadyText(peer.interface);
    SteadyText(peer.ipv4);
    SteadyText(peer.mac);
    assert Steady(Number(22)) && Steady(Number(peer.port));
    hide Meta, Ct, Payload, Steady;
  }

  lemma PeerTestsHold(peer: Peer, p: Packet, k: nat)
    requires k < 4
    ensures (forall i :: 0 <= i < |PeerTests(peer)[k]| ==>
               Selected(p, PeerTests(peer)[k][i].left) == Some(PeerTests(peer)[k][i].right)) <==>
              && p.transport.Tcp? && p.network.V4?
              && match k
                 case 0 => p.state == "established" && p.inward == peer.interface && p.network.source == peer.ipv4
                           && p.transport.sport == peer.port
                 case 1 => p.state == "established" && p.outward == peer.interface && p.network.destination == peer.ipv4
                           && p.transport.sport == 22
                 case 2 => p.inward == peer.interface && p.ether == peer.mac && p.network.source == peer.ipv4
                           && p.transport.dport == 22
                 case _ => p.outward == peer.interface && p.network.destination == peer.ipv4
                           && p.transport.dport == peer.port
  {
    Selections(p, "ip", "saddr");
    Selections(p, "ip", "daddr");
    Selections(p, "ether", "saddr");
    Selections(p, "tcp", "sport");
    Selections(p, "tcp", "dport");
    hide Meta, Ct, Payload, Selected;
    var tests := PeerTests(peer)[k];
    assert tests[0] == tests[0] && tests[1] == tests[1] && tests[2] == tests[2] && |tests| == if k == 3 then 3 else 4;
    if k != 3 { assert tests[3] == tests[3]; }
  }

  lemma PeerFires(peer: Peer, p: Packet, hook: string)
    ensures forall k :: 0 <= k < |PeerRules(peer)| ==> SteadyRule(PeerRules(peer)[k])
    ensures (exists k: nat :: Fires(PeerRules(peer), k, hook, p)) <==> Core(peer, hook, p)
  {
    hide Accept, Tests, Passes, Selected, Steady, SteadyRule, PeerRules, PeerTests;
    PeerList(peer);
    forall k | 0 <= k < 4
      ensures SteadyRule(PeerRules(peer)[k])
      ensures Passes(p, PeerRules(peer)[k].expr) <==>
                forall i :: 0 <= i < |PeerTests(peer)[k]| ==>
                  Selected(p, PeerTests(peer)[k][i].left) == Some(PeerTests(peer)[k][i].right)
    {
      PeerTestsSteady(peer, k);
      TestsPass(p, PeerRules(peer)[k].chain, PeerTests(peer)[k]);
    }
    PeerTestsHold(peer, p, 0);
    PeerTestsHold(peer, p, 1);
    PeerTestsHold(peer, p, 2);
    PeerTestsHold(peer, p, 3);
    var rules := PeerRules(peer);
    assert (exists k: nat :: Fires(rules, k, hook, p)) <==>
           || Fires(rules, 0, hook, p) || Fires(rules, 1, hook, p)
           || Fires(rules, 2, hook, p) || Fires(rules, 3, hook, p);
  }

  /** The emergency table forwards nothing and lets through exactly what a machine
      without a core may do. */
  lemma EmergencyLets(hook: string, p: Packet)
    requires hook in {"input", "forward", "output"}
    ensures Semantics(EmergencyRuleset()).Some?
    ensures Lets(Semantics(EmergencyRuleset()).value, hook, p) <==> Recovery(hook, p)
  {
    hide Passes, RecoveryRules, BaseEntries, EntryObjects, SteadyRule, Lets, Semantics, EmergencyRuleset, Recovery;
    EmergencyMeans();
    SteadyRecovery();
    TableLets(RecoveryRules(), hook, p);
    RecoveryFires(p, hook);
    FiresIsExists(RecoveryRules(), hook, p);
  }

  lemma FiresIsExists(rules: seq<Rule>, hook: string, p: Packet)
    ensures (exists k: nat :: Fires(rules, k, hook, p)) <==>
              exists k :: 0 <= k < |rules| && rules[k].chain == hook && Passes(p, rules[k].expr)
  {
    hide Passes;
    if k :| 0 <= k < |rules| && rules[k].chain == hook && Passes(p, rules[k].expr) { assert Fires(rules, k, hook, p); }
  }

  lemma FiresInEither(a: seq<Rule>, b: seq<Rule>, hook: string, p: Packet)
    ensures (exists k: nat :: Fires(a + b, k, hook, p)) <==>
              (exists k: nat :: Fires(a, k, hook, p)) || (exists k: nat :: Fires(b, k, hook, p))
  {
    hide Passes;
    if k: nat :| Fires(a, k, hook, p) { assert Fires(a + b, k, hook, p); }
    if k: nat :| Fires(b, k, hook, p) { assert Fires(a + b, |a| + k, hook, p); }
    if k: nat :| Fires(a + b, k, hook, p) {
      assert if k < |a| then Fires(a, k, hook, p) else Fires(b, k - |a|, hook, p);
    }
  }

  lemma FullEntries(peer: Peer)
    ensures Semantics(FullRuleset(peer)) ==
            Some(EntryObjects(BaseEntries() + RuleEntries(RecoveryRules() + PeerRules(peer))))
  {
    FullIsEmergencyAndMore(peer);
    hide Semantics, FullRuleset, EmergencyRuleset, RecoveryRules, PeerRules, BaseEntries, EntryObject, RuleItem;
    var a, b := RecoveryRules(), PeerRules(peer);
    assert RuleEntries(a + b) == RuleEntries(a) + RuleEntries(b);
    assert BaseEntries() + RuleEntries(a + b) == EmergencyEntries() + RuleEntries(b);
    assert EntryObjects(EmergencyEntries() + RuleEntries(b))
           == EntryObjects(EmergencyEntries()) + EntryObjects(RuleEntries(b));
  }

  /** The full table lets through that and the core's traffic, and nothing else. */
  lemma FullLets(peer: Peer, hook: string, p: Packet)
    requires hook in {"input", "forward", "output"}
    ensures Semantics(FullRuleset(peer)).Some?
    ensures Lets(Semantics(FullRuleset(peer)).value, hook, p) <==> Recovery(hook, p) || Core(peer, hook, p)
  {
    hide Passes, RecoveryRules, PeerRules, BaseEntries, EntryObjects, SteadyRule, Lets, Semantics, FullRuleset;
    hide Recovery, Core;
    FullEntries(peer);
    SteadyRecovery();
    PeerFires(peer, p, hook);
    TableLets(RecoveryRules() + PeerRules(peer), hook, p);
    RecoveryFires(p, hook);
    FiresInEither(RecoveryRules(), PeerRules(peer), hook, p);
    FiresIsExists(RecoveryRules() + PeerRules(peer), hook, p);
  }

  /** What a table lets through that is the emergency table's meaning ... */
  ghost predicate RecoveryOnly(objects: seq<Json>) {
    forall hook, p :: hook in {"input", "forward", "output"} ==> (Lets(objects, hook, p) <==> Recovery(hook, p))
  }

  /** ... or the full table's. */
  ghost predicate RecoveryAndCore(objects: seq<Json>, peer: Peer) {
    forall hook, p :: hook in {"input", "forward", "output"} ==>
      (Lets(objects, hook, p) <==> Recovery(hook, p) || Core(peer, hook, p))
  }

  lemma EmergencyIsRecovery()
    ensures Semantics(EmergencyRuleset()).Some? && RecoveryOnly(Semantics(EmergencyRuleset()).value)
  {
    hide Semantics, EmergencyRuleset, Lets, Recovery;
    EmergencyMeans();
    forall hook, p | hook in {"input", "forward", "output"}
      ensures Lets(Semantics(EmergencyRuleset()).value, hook, p) <==> Recovery(hook, p)
    {
      EmergencyLets(hook, p);
    }
  }

  lemma FullIsCore(peer: Peer)
    ensures Semantics(FullRuleset(peer)).Some? && RecoveryAndCore(Semantics(FullRuleset(peer)).value, peer)
  {
    hide Semantics, FullRuleset, Lets, Recovery, Core;
    FullIsEmergencyAndMore(peer);
    forall hook, p | hook in {"input", "forward", "output"}
      ensures Lets(Semantics(FullRuleset(peer)).value, hook, p) <==> Recovery(hook, p) || Core(peer, hook, p)
    {
      FullLets(peer, hook, p);
    }
  }
}
