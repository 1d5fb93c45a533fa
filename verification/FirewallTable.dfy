/** The canonical meaning of a `tuntun` nftables table, and the two rulesets that
    are compared through it (deploy/reachy/apply_firewall.py and
    deploy/reachy/render_firewall.py). */
module FirewallTable {
  import opened JsonValue
  import opened Wrappers

  // --------------------------------------------------------- canonical form

  /** Handles, positions and counter readings change without a rule changing. */
  function WithoutVolatile(v: Json, counter: bool): Json {
    match v
    case Object(fields) =>
      Object(map key | key in fields && !Volatile(key, counter) :: WithoutVolatile(fields[key], key == "counter"))
    case Array(items) =>
      Array(seq(|items|, i requires 0 <= i < |items| => WithoutVolatile(items[i], counter)))
    case _ => v
  }

  predicate Volatile(key: string, counter: bool) {
    key in {"handle", "index"} || (counter && key in {"packets", "bytes"})
  }

  predicate Ours(kind: string, item: Json) {
    && Has(item, "family", Text("inet"))
    && if kind == "table" then Has(item, "name", Text("tuntun"))
       else
         && Has(item, "table", Text("tuntun"))
         && kind in {"chain", "rule"}
         && exists hook :: hook in HOOKS && Has(item, if kind == "chain" then "name" else "chain", Text(hook))
  }

  const HOOKS := {"input", "forward", "output"}
  const KINDS := {"table", "chain", "rule"}

  /** The objects one command contributes: none for bookkeeping, one for a table,
      chain or rule; no value where the command is refused. */
  function Command(c: Json): Option<seq<Json>> {
    if !c.Object? then None
    else if c.fields.Keys == {"metainfo"} then
      if c.fields["metainfo"].Object? then Some([]) else None
    else if c.fields.Keys == {"destroy"} then
      var body := c.fields["destroy"];
      if body.Object? && body.fields.Keys == {"table"} && Ours("table", body.fields["table"]) then Some([]) else None
    else if c.fields.Keys == {"add"} then Named(c.fields["add"])
    else Named(c)
  }

  function Named(body: Json): Option<seq<Json>> {
    if !body.Object? then None
    else if body.fields.Keys == {"table"} then Kept("table", body.fields["table"])
    else if body.fields.Keys == {"chain"} then Kept("chain", body.fields["chain"])
    else if body.fields.Keys == {"rule"} then Kept("rule", body.fields["rule"])
    else None
  }

  function Kept(kind: string, item: Json): Option<seq<Json>> {
    if Ours(kind, item) then Some([Object(map[kind := WithoutVolatile(item, false)])]) else None
  }

  function Objects(commands: seq<Json>): Option<seq<Json>> {
    if commands == [] then Some([])
    else
      var last := |commands| - 1;
      var before, one := Objects(commands[..last]), Command(commands[last]);
      if before.None? || one.None? then None else Some(before.value + one.value)
  }

  function Tables(objects: seq<Json>): nat {
    if objects == [] then 0
    else
      var last := |objects| - 1;
      Tables(objects[..last]) + if objects[last].Object? && "table" in objects[last].fields then 1 else 0
  }

  /** The value whose serialisation is compared and hashed. */
  function Semantics(document: Json): Option<seq<Json>> {
    if !document.Object? || document.fields.Keys != {"nftables"} then None
    else
      var commands := document.fields["nftables"];
      if !commands.Array? then None
      else
        var objects := Objects(commands.items);
        if objects.None? || Tables(objects.value) != 1 then None else objects
  }

  method CanonicalSemantics(document: Json) returns (r: Option<seq<Json>>)
    ensures r == Semantics(document)
  {
    hide Command;
    if !document.Object? || document.fields.Keys != {"nftables"} { return None; }
    var commands := document.fields["nftables"];
    if !commands.Array? { return None; }
    var objects, tables := [], 0;
    for k := 0 to |commands.items|
      invariant Objects(commands.items[..k]) == Some(objects) && Tables(objects) == tables
    {
      ghost var upTo := commands.items[..k + 1];
      assert upTo[..k] == commands.items[..k] && upTo[k] == commands.items[k];
      var one := Command(commands.items[k]);
      if one.None? {
        ObjectsPrefix(commands.items, k + 1);
        return None;
      }
      if one.value != [] {
        var kept := one.value[0];
        OneAtMost(commands.items[k]);
        assert one.value == [kept] && Objects(upTo) == Some(objects + [kept]);
        assert (objects + [kept])[..|objects|] == objects;
        if "table" in kept.fields { tables := tables + 1; }
        objects := objects + [kept];
      } else {
        assert objects + [] == objects;
      }
    }
    assert commands.items[..|commands.items|] == commands.items;
    r := if tables != 1 then None else Some(objects);
  }

  lemma OneAtMost(c: Json)
    ensures Command(c).Some? ==> |Command(c).value| <= 1 && (Command(c).value != [] ==> Command(c).value[0].Object?)
  {
  }

  lemma {:induction false} ObjectsPrefix(commands: seq<Json>, k: nat)
    requires k <= |commands| && Objects(commands[..k]).None?
    ensures Objects(commands).None?
    decreases |commands|
  {
    if k == |commands| {
      assert commands[..k] == commands;
    } else {
      assert commands[..|commands| - 1][..k] == commands[..k];
      ObjectsPrefix(commands[..|commands| - 1], k);
    }
  }

  /** An object that belongs to the table: of the inet family, the table `tuntun` itself, or
      a chain or rule of it at one of the three hooks. */
  predicate Belongs(kind: string, item: Json) {
    && item.Object? && Value(item, "family") == Some(Text("inet"))
    && if kind == "table" then Value(item, "name") == Some(Text("tuntun"))
       else
         && Value(item, "table") == Some(Text("tuntun"))
         && ((kind == "chain" && IsHook(Value(item, "name"))) || (kind == "rule" && IsHook(Value(item, "chain"))))
  }

  predicate IsHook(name: Option<Json>) {
    name == Some(Text("input")) || name == Some(Text("forward")) || name == Some(Text("output"))
  }

  function Value(j: Json, key: string): Option<Json> {
    if j.Object? && key in j.fields then Some(j.fields[key]) else None
  }

  /** What a command stands for: bookkeeping, or one object, added or listed. */
  datatype Meaning = Nothing | Something(kind: string, item: Json)

  ghost predicate Means(c: Json, m: Meaning) {
    match m
    case Nothing =>
      || (exists body: map<string, Json> :: c == Object(map["metainfo" := Object(body)]))
      || (exists table :: c == Object(map["destroy" := Object(map["table" := table])]) && Belongs("table", table))
    case Something(kind, item) =>
      && Belongs(kind, item)
      && (c == Object(map[kind := item]) || c == Object(map["add" := Object(map[kind := item])]))
  }

  lemma BelongsIsOurs(kind: string, item: Json)
    ensures Belongs(kind, item) <==> kind in KINDS && Ours(kind, item)
  {
    if kind in KINDS && Ours(kind, item) && kind != "table" {
      var hook :| hook in HOOKS && Has(item, if kind == "chain" then "name" else "chain", Text(hook));
    }
    if Belongs(kind, item) && kind != "table" {
      var name := item.fields[if kind == "chain" then "name" else "chain"];
      assert name.text in HOOKS;
    }
  }

  /** A command is accepted if and only if it has such a meaning, and then contributes
      the object it stands for, without its volatile fields. */
  lemma CommandMeans(c: Json)
    ensures Command(c).Some? <==> HasMeaning(c)
    ensures forall m :: Means(c, m) ==>
              Command(c) == Some(if m.Nothing? then [] else [Object(map[m.kind := WithoutVolatile(m.item, false)])])
  {
    hide WithoutVolatile, Belongs, Ours, KINDS, HOOKS;
    forall m | Means(c, m)
      ensures Command(c) == Some(if m.Nothing? then [] else [Object(map[m.kind := WithoutVolatile(m.item, false)])])
    {
      MeaningIsKept(c, m);
    }
    if Command(c).Some? { var m := KeptHasMeaning(c); }
  }

  lemma MeaningIsKept(c: Json, m: Meaning)
    requires Means(c, m)
    ensures Command(c) == Some(if m.Nothing? then [] else [Object(map[m.kind := WithoutVolatile(m.item, false)])])
  {
    hide WithoutVolatile, Belongs, Ours;
    match m
    case Nothing =>
      if table :| c == Object(map["destroy" := Object(map["table" := table])]) && Belongs("table", table) {
        BelongsIsOurs("table", table);
        assert map["table" := table].Keys == {"table"};
      }
      assert c.fields.Keys == {"metainfo"} || c.fields.Keys == {"destroy"};
    case Something(kind, item) =>
      BelongsIsOurs(kind, item);
      assert map[kind := item].Keys == {kind};
      assert c.fields.Keys == {kind} || c.fields.Keys == {"add"};
  }

  lemma KeptHasMeaning(c: Json) returns (m: Meaning)
    requires Command(c).Some?
    ensures Means(c, m)
  {
    hide WithoutVolatile, Belongs, Ours;
    m := Nothing;
    if c.fields.Keys == {"metainfo"} {
      assert c.fields == map["metainfo" := Object(c.fields["metainfo"].fields)];
    } else if c.fields.Keys == {"destroy"} {
      var table := c.fields["destroy"].fields["table"];
      BelongsIsOurs("table", table);
      assert c.fields["destroy"].fields == map["table" := table];
      assert c.fields == map["destroy" := Object(map["table" := table])];
    } else {
      var body := if c.fields.Keys == {"add"} then c.fields["add"] else c;
      var kind := if body.fields.Keys == {"table"} then "table"
                  else if body.fields.Keys == {"chain"} then "chain" else "rule";
      m := Something(kind, body.fields[kind]);
      BelongsIsOurs(kind, body.fields[kind]);
      assert body.fields == map[kind := body.fields[kind]];
      if c.fields.Keys == {"add"} { assert c.fields == map["add" := body]; }
    }
  }

  ghost predicate HasMeaning(c: Json) { exists m :: Means(c, m) }

  ghost predicate IsTable(c: Json) { exists item :: Means(c, Something("table", item)) }

  ghost function TableCommands(commands: seq<Json>): set<nat> {
    set k: nat | k < |commands| && IsTable(commands[k])
  }

  /** A document has a meaning if and only if it is a list of such commands, one of which
      stands for the table. */
  lemma SemanticsExact(document: Json)
    ensures Semantics(document).Some? <==>
              && document.Object? && document.fields.Keys == {"nftables"} && document.fields["nftables"].Array?
              && var commands := document.fields["nftables"].items;
                 && (forall k :: 0 <= k < |commands| ==> HasMeaning(commands[k]))
                 && |TableCommands(commands)| == 1
  {
    hide HasMeaning, Objects, Tables, TableCommands;
    if document.Object? && document.fields.Keys == {"nftables"} && document.fields["nftables"].Array? {
      ObjectsExact(document.fields["nftables"].items);
    }
  }

  lemma OneMoreTable(commands: seq<Json>)
    requires commands != []
    ensures var n := |commands| - 1;
            TableCommands(commands) == TableCommands(commands[..n]) + if IsTable(commands[n]) then {n} else {}
  {
    hide IsTable;
    var n := |commands| - 1;
    assert forall k :: 0 <= k < n ==> commands[..n][k] == commands[k];
  }

  lemma {:induction false} ObjectsExact(commands: seq<Json>)
    ensures Objects(commands).Some? <==> forall k :: 0 <= k < |commands| ==> HasMeaning(commands[k])
    ensures Objects(commands).Some? ==> Tables(Objects(commands).value) == |TableCommands(commands)|
  {
    hide Command, Means, IsTable, HasMeaning;
    if commands != [] {
      var n := |commands| - 1;
      var before := commands[..n];
      ObjectsExact(before);
      CommandMeans(commands[n]);
      OneMoreTable(commands);
      if Objects(commands).Some? { OneMoreObject(Objects(before).value, commands[n]); }
    }
  }

  lemma OneMoreObject(objects: seq<Json>, c: Json)
    requires Command(c).Some?
    ensures Tables(objects + Command(c).value) == Tables(objects) + if IsTable(c) then 1 else 0
  {
    hide Command, Means, WithoutVolatile;
    CommandMeans(c);
    var m :| Means(c, m);
    if m.Nothing? {
      assert objects + [] == objects;
      assert forall item :: !Means(c, Something("table", item));
    } else {
      var o := Object(map[m.kind := WithoutVolatile(m.item, false)]);
      assert (objects + [o])[..|objects|] == objects;
      forall item | Means(c, Something("table", item)) ensures m.kind == "table" {
        assert "table" in Object(map["table" := WithoutVolatile(item, false)]).fields;
        assert [Object(map["table" := WithoutVolatile(item, false)])] == [o];
      }
    }
  }

  lemma {:induction false} WithoutVolatileTwice(v: Json, counter: bool)
    ensures WithoutVolatile(WithoutVolatile(v, counter), counter) == WithoutVolatile(v, counter)
  {
    match v
    case Object(fields) =>
      forall key | key in fields
        ensures WithoutVolatile(WithoutVolatile(fields[key], key == "counter"), key == "counter")
                == WithoutVolatile(fields[key], key == "counter")
      {
        WithoutVolatileTwice(fields[key], key == "counter");
      }
    case Array(items) =>
      forall i | 0 <= i < |items|
        ensures WithoutVolatile(WithoutVolatile(items[i], counter), counter) == WithoutVolatile(items[i], counter)
      {
        WithoutVolatileTwice(items[i], counter);
      }
    case _ =>
  }

  predicate Lasting(key: string, counter: bool) {
    key != "handle" && key != "index" && (counter ==> key != "packets" && key != "bytes")
  }

  /** Equal except for handles and positions anywhere and for the readings of counters. */
  ghost predicate SameButVolatile(v: Json, w: Json, counter: bool)
    decreases v
  {
    match v
    case Object(fields) =>
      && w.Object?
      && (forall key :: key in fields && Lasting(key, counter) ==>
            key in w.fields && SameButVolatile(fields[key], w.fields[key], key == "counter"))
      && (forall key :: key in w.fields && Lasting(key, counter) ==> key in fields)
    case Array(items) =>
      && w.Array? && |items| == |w.items|
      && forall i :: 0 <= i < |items| ==> SameButVolatile(items[i], w.items[i], counter)
    case _ => v == w
  }

  /** The canonical form forgets exactly that. */
  lemma {:induction false} CanonicalForgetsVolatile(v: Json, w: Json, counter: bool)
    ensures WithoutVolatile(v, counter) == WithoutVolatile(w, counter) <==> SameButVolatile(v, w, counter)
    decreases v
  {
    match v
    case Object(fields) =>
      if w.Object? {
        forall key | key in fields && key in w.fields
          ensures WithoutVolatile(fields[key], key == "counter")
                  == WithoutVolatile(w.fields[key], key == "counter") <==>
                    SameButVolatile(fields[key], w.fields[key], key == "counter")
        {
          CanonicalForgetsVolatile(fields[key], w.fields[key], key == "counter");
        }
        KeptKeys(v, w, counter);
      }
    case Array(items) =>
      if w.Array? && |items| == |w.items| {
        forall i | 0 <= i < |items|
          ensures WithoutVolatile(items[i], counter) == WithoutVolatile(w.items[i], counter) <==>
                    SameButVolatile(items[i], w.items[i], counter)
        {
          CanonicalForgetsVolatile(items[i], w.items[i], counter);
        }
        KeptItems(items, w.items, counter);
      } else if w.Array? {
        assert |WithoutVolatile(v, counter).items| == |items| && |WithoutVolatile(w, counter).items| == |w.items|;
      }
    case _ =>
  }

  lemma KeptItems(items: seq<Json>, others: seq<Json>, counter: bool)
    requires |items| == |others|
    ensures WithoutVolatile(Array(items), counter) == WithoutVolatile(Array(others), counter) <==>
              forall i :: 0 <= i < |items| ==>
                WithoutVolatile(items[i], counter) == WithoutVolatile(others[i], counter)
  {
    var a, b := WithoutVolatile(Array(items), counter).items, WithoutVolatile(Array(others), counter).items;
    assert forall i :: 0 <= i < |items| ==>
        a[i] == WithoutVolatile(items[i], counter) && b[i] == WithoutVolatile(others[i], counter);
  }

  lemma KeptKeys(v: Json, w: Json, counter: bool)
    requires v.Object? && w.Object?
    ensures WithoutVolatile(v, counter) == WithoutVolatile(w, counter) <==>
              && (forall key :: key in v.fields && !Volatile(key, counter) ==>
                    && key in w.fields
                    && WithoutVolatile(v.fields[key], key == "counter")
                       == WithoutVolatile(w.fields[key], key == "counter"))
              && (forall key :: key in w.fields && !Volatile(key, counter) ==> key in v.fields)
  {
    var a, b := WithoutVolatile(v, counter).fields, WithoutVolatile(w, counter).fields;
    assert forall key :: key in a <==> key in v.fields && !Volatile(key, counter);
    assert forall key :: key in b <==> key in w.fields && !Volatile(key, counter);
    assert a == b <==> a.Keys == b.Keys && forall key :: key in a && key in b ==> a[key] == b[key];
  }

  lemma {:induction false} ObjectsOfBoth(a: seq<Json>, b: seq<Json>)
    requires Objects(a).Some? && Objects(b).Some?
    ensures Objects(a + b) == Some(Objects(a).value + Objects(b).value)
  {
    hide Command;
    if b == [] {
      assert a + b == a && Objects(a).value + [] == Objects(a).value;
    } else {
      var n := |b| - 1;
      assert (a + b)[..|a| + n] == a + b[..n] && (a + b)[|a| + n] == b[n];
      ObjectsOfBoth(a, b[..n]);
      assert Objects(a).value + (Objects(b[..n]).value + Command(b[n]).value)
             == (Objects(a).value + Objects(b[..n]).value) + Command(b[n]).value;
    }
  }

  // --------------------------------------------------------------- rulesets

  datatype Rule = Rule(chain: string, expr: seq<Json>)

  /** What the rendered rules depend on. */
  datatype Peer = Peer(interface: string, ipv4: string, mac: string, port: nat)

  function Match(left: Json, right: Json, op: string): Json {
    Object(map["match" := Object(map["op" := Text(op), "left" := left, "right" := right])])
  }

  function Eq(left: Json, right: Json): Json { Match(left, right, "==") }

  function Payload(protocol: string, field: string): Json {
    Object(map["payload" := Object(map["protocol" := Text(protocol), "field" := Text(field)])])
  }

  function Meta(key: string): Json { Object(map["meta" := Object(map["key" := Text(key)])]) }

  function Ct(key: string): Json { Object(map["ct" := Object(map["key" := Text(key)])]) }

  function Accept(): Json { Object(map["accept" := Null]) }

  function Ports(protocol: string, source: nat, destination: nat): seq<Json> {
    [Eq(Payload(protocol, "sport"), Number(source)), Eq(Payload(protocol, "dport"), Number(destination)), Accept()]
  }

  function Icmp(protocol: string, family: string, types: seq<string>): seq<Json> {
    [Eq(Meta("l4proto"), Text(protocol)),
     Match(Payload(family, "type"),
           Object(map["set" := Array(seq(|types|, i requires 0 <= i < |types| => Text(types[i])))]), "in"),
     Accept()]
  }

  const ERRORS := ["destination-unreachable", "time-exceeded", "parameter-problem"]
  const ERRORS6 := ["destination-unreachable", "packet-too-big", "time-exceeded", "parameter-problem"]
  const NEIGHBOURS := ["nd-neighbor-solicit", "nd-neighbor-advert"]

  function RecoveryRules(): seq<Rule> {
    [Rule("input", [Eq(Meta("iifname"), Text("lo")), Accept()]),
     Rule("output", [Eq(Meta("oifname"), Text("lo")), Accept()]),
     Rule("input", Ports("udp", 67, 68)),
     Rule("output", Ports("udp", 68, 67)),
     Rule("input", Ports("udp", 547, 546)),
     Rule("output", Ports("udp", 546, 547)),
     Rule("input", Icmp("icmp", "icmp", ERRORS)),
     Rule("output", Icmp("icmp", "icmp", ERRORS)),
     Rule("input", Icmp("ipv6-icmp", "icmpv6", ERRORS6 + ["nd-router-advert"] + NEIGHBOURS)),
     Rule("output", Icmp("ipv6-icmp", "icmpv6", ERRORS6 + ["nd-router-solicit"] + NEIGHBOURS))]
  }

  /** The four rules that let the core in. */
  function PeerRules(p: Peer): seq<Rule> {
    [Rule("input", [Eq(Ct("state"), Text("established")), Eq(Meta("iifname"), Text(p.interface)),
                    Eq(Payload("ip", "saddr"), Text(p.ipv4)), Eq(Payload("tcp", "sport"), Number(p.port)), Accept()]),
     Rule("output", [Eq(Ct("state"), Text("established")), Eq(Meta("oifname"), Text(p.interface)),
                     Eq(Payload("ip", "daddr"), Text(p.ipv4)), Eq(Payload("tcp", "sport"), Number(22)), Accept()]),
     Rule("input", [Eq(Meta("iifname"), Text(p.interface)), Eq(Payload("ether", "saddr"), Text(p.mac)),
                    Eq(Payload("ip", "saddr"), Text(p.ipv4)), Eq(Payload("tcp", "dport"), Number(22)), Accept()]),
     Rule("output", [Eq(Meta("oifname"), Text(p.interface)), Eq(Payload("ip", "daddr"), Text(p.ipv4)),
                     Eq(Payload("tcp", "dport"), Number(p.port)), Accept()])]
  }

  function Table(): Json { Object(map["family" := Text("inet"), "name" := Text("tuntun")]) }

  function Chain(name: string): Json {
    Object(map["family" := Text("inet"), "table" := Text("tuntun"), "name" := Text(name), "type" := Text("filter"),
               "hook" := Text(name), "prio" := Number(0), "policy" := Text("drop")])
  }

  function RuleItem(r: Rule): Json {
    Object(map["family" := Text("inet"), "table" := Text("tuntun"), "chain" := Text(r.chain), "expr" := Array(r.expr)])
  }

  /** Something a script adds to the table. */
  datatype Entry = Entry(kind: string, item: Json)

  function Add(e: Entry): Json { Object(map["add" := Object(map[e.kind := e.item])]) }

  function AddAll(entries: seq<Entry>): seq<Json> {
    seq(|entries|, i requires 0 <= i < |entries| => Add(entries[i]))
  }

  function Header(): seq<Json> {
    [Object(map["metainfo" := Object(map["json_schema_version" := Number(1)])]),
     Object(map["destroy" := Object(map["table" := Table()])])]
  }

  function BaseEntries(): seq<Entry> {
    [Entry("table", Table()),
     Entry("chain", Chain("input")), Entry("chain", Chain("forward")), Entry("chain", Chain("output"))]
  }

  function RuleEntries(rules: seq<Rule>): seq<Entry> {
    seq(|rules|, i requires 0 <= i < |rules| => Entry("rule", RuleItem(rules[i])))
  }

  function Script(entries: seq<Entry>): Json {
    Object(map["nftables" := Array(Header() + AddAll(entries))])
  }

  function EmergencyEntries(): seq<Entry> { BaseEntries() + RuleEntries(RecoveryRules()) }

  function EmergencyRuleset(): Json { Script(EmergencyEntries()) }

  function FullRuleset(p: Peer): Json { Script(EmergencyEntries() + RuleEntries(PeerRules(p))) }

  function EntryObject(e: Entry): Json { Object(map[e.kind := WithoutVolatile(e.item, false)]) }

  function EntryObjects(entries: seq<Entry>): seq<Json> {
    seq(|entries|, i requires 0 <= i < |entries| => EntryObject(entries[i]))
  }

  predicate OurEntry(e: Entry) { e.kind in KINDS && Ours(e.kind, e.item) }

  lemma CommandOfEntry(e: Entry)
    requires OurEntry(e)
    ensures Command(Add(e)) == Some([EntryObject(e)])
  {
    AddIsNamed(e);
    hide Ours, Add, Command;
    assert map[e.kind := e.item].Keys == {e.kind};
  }

  lemma AddIsNamed(e: Entry)
    ensures Command(Add(e)) == Named(Object(map[e.kind := e.item]))
  {
    hide Named;
    assert Add(e).fields.Keys == {"add"};
  }

  /** Adding entries adds exactly those entries, in order. */
  lemma {:induction false} ObjectsOfEntries(entries: seq<Entry>)
    requires forall k :: 0 <= k < |entries| ==> OurEntry(entries[k])
    ensures Objects(AddAll(entries)) == Some(EntryObjects(entries))
  {
    hide Command, EntryObject, Add, OurEntry;
    if entries != [] {
      var n := |entries| - 1;
      assert AddAll(entries)[..n] == AddAll(entries[..n]);
      assert EntryObjects(entries) == EntryObjects(entries[..n]) + [EntryObject(entries[n])];
      ObjectsOfEntries(entries[..n]);
      CommandOfEntry(entries[n]);
    }
  }

  lemma {:induction false} TablesOfEntries(entries: seq<Entry>)
    requires entries != [] && entries[0].kind == "table"
    requires forall k :: 0 < k < |entries| ==> entries[k].kind != "table"
    ensures Tables(EntryObjects(entries)) == 1
  {
    var n := |entries| - 1;
    var objects, last := EntryObjects(entries), EntryObject(entries[n]);
    assert last.Object? && ("table" in last.fields <==> n == 0);
    hide EntryObject;
    assert objects[n] == last && objects[..n] == EntryObjects(entries[..n]);
    if n == 0 {
      assert objects[..n] == [];
    } else {
      TablesOfEntries(entries[..n]);
    }
  }

  lemma HeaderAddsNothing()
    ensures Objects(Header()) == Some([])
  {
    var h := Header();
    assert h[0].fields.Keys == {"metainfo"};
    assert h[1].fields.Keys == {"destroy"} && h[1].fields["destroy"].fields.Keys == {"table"};
    assert Command(h[0]) == Some([]) && Command(h[1]) == Some([]);
    var none: seq<Json> := [];
    assert h == none + [h[0]] + [h[1]] && none + none == none;
    hide Command, Header;
    PushObjects(none, h[0]);
    PushObjects(none + [h[0]], h[1]);
  }

  lemma PushObjects(commands: seq<Json>, c: Json)
    requires Objects(commands).Some? && Command(c).Some?
    ensures Objects(commands + [c]) == Some(Objects(commands).value + Command(c).value)
  {
    assert (commands + [c])[..|commands|] == commands;
  }

  /** What a script makes of a table: a `destroy` empties it, an `add` puts an object at
      its end. */
  function Executed(table: seq<Json>, commands: seq<Json>): seq<Json> {
    if commands == [] then table
    else
      var last := |commands| - 1;
      Effect(Executed(table, commands[..last]), commands[last])
  }

  function Effect(table: seq<Json>, c: Json): seq<Json> {
    if !c.Object? then table
    else if "destroy" in c.fields then []
    else if "add" in c.fields && Command(c).Some? then table + Command(c).value
    else table
  }

  lemma ExecutedPush(table: seq<Json>, commands: seq<Json>, c: Json)
    ensures Executed(table, commands + [c]) == Effect(Executed(table, commands), c)
  {
    assert (commands + [c])[..|commands|] == commands;
  }

  /** Whatever table was there, after a script of ours it is the script's entries. */
  lemma {:induction false} ScriptReplaces(table: seq<Json>, entries: seq<Entry>)
    requires forall k :: 0 <= k < |entries| ==> OurEntry(entries[k])
    ensures Executed(table, Header() + AddAll(entries)) == EntryObjects(entries)
  {
    hide Command, EntryObject, OurEntry;
    if entries == [] {
      var h := Header();
      assert h + AddAll([]) == ([] + [h[0]]) + [h[1]];
      ExecutedPush(table, [] + [h[0]], h[1]);
      assert Executed(table, h + AddAll([])) == [];
    } else {
      var n := |entries| - 1;
      ScriptReplaces(table, entries[..n]);
      assert Header() + AddAll(entries) == Header() + AddAll(entries[..n]) + [Add(entries[n])];
      ExecutedPush(table, Header() + AddAll(entries[..n]), Add(entries[n]));
      CommandOfEntry(entries[n]);
      assert EntryObjects(entries) == EntryObjects(entries[..n]) + [EntryObject(entries[n])];
    }
  }

  /** Entries of ours, of which only the first is the table. */
  ghost predicate OneTable(entries: seq<Entry>) {
    && entries != [] && entries[0].kind == "table"
    && (forall k :: 0 <= k < |entries| ==> OurEntry(entries[k]))
    && forall k :: 0 < k < |entries| ==> entries[k].kind != "table"
  }

  /** What a script of ours means: its entries, without their volatile fields. */
  lemma SemanticsOfScript(entries: seq<Entry>)
    requires OneTable(entries)
    ensures Semantics(Script(entries)) == Some(EntryObjects(entries))
  {
    HeaderAddsNothing();
    ObjectsOfEntries(entries);
    TablesOfEntries(entries);
    ObjectsOfBoth(Header(), AddAll(entries));
    assert [] + EntryObjects(entries) == EntryObjects(entries);
    hide *;
    ScriptMeans(entries);
  }

  lemma ScriptMeans(entries: seq<Entry>)
    requires Objects(Header() + AddAll(entries)) == Some(EntryObjects(entries)) && Tables(EntryObjects(entries)) == 1
    ensures Semantics(Script(entries)) == Some(EntryObjects(entries))
  {
    hide Header, AddAll, EntryObjects, Objects, Tables;
    assert Script(entries).fields.Keys == {"nftables"};
  }

  /** How a listing shows an entry: bare, with whatever volatile fields it has. */
  predicate Shows(c: Json, e: Entry) {
    && c.Object? && c.fields.Keys == {e.kind}
    && OurEntry(Entry(e.kind, c.fields[e.kind]))
    && WithoutVolatile(c.fields[e.kind], false) == WithoutVolatile(e.item, false)
  }

  lemma CommandOfShown(c: Json, e: Entry)
    requires Shows(c, e)
    ensures Command(c) == Some([EntryObject(e)])
  {
    assert e.kind in KINDS;
    hide Ours, WithoutVolatile;
  }

  lemma {:induction false} ObjectsOfShown(shown: seq<Json>, entries: seq<Entry>)
    requires |shown| == |entries| && forall k :: 0 <= k < |shown| ==> Shows(shown[k], entries[k])
    ensures Objects(shown) == Some(EntryObjects(entries))
  {
    hide Command, EntryObject, Shows;
    if entries != [] {
      var n := |entries| - 1;
      assert EntryObjects(entries) == EntryObjects(entries[..n]) + [EntryObject(entries[n])];
      ObjectsOfShown(shown[..n], entries[..n]);
      CommandOfShown(shown[n], entries[n]);
    }
  }

  function Listing(metainfo: Json, shown: seq<Json>): Json {
    Object(map["nftables" := Array([Object(map["metainfo" := metainfo])] + shown)])
  }

  /** A listing that shows, in order, the entries a script adds has the script's
      meaning, whatever its handles, positions and counters. */
  lemma ListingMeansScript(metainfo: Json, shown: seq<Json>, entries: seq<Entry>)
    requires metainfo.Object? && OneTable(entries)
    requires |shown| == |entries| && forall k :: 0 <= k < |shown| ==> Shows(shown[k], entries[k])
    ensures Semantics(Listing(metainfo, shown)) == Semantics(Script(entries))
  {
    SemanticsOfScript(entries);
    ObjectsOfShown(shown, entries);
    TablesOfEntries(entries);
    MetainfoAddsNothing(metainfo);
    var first := [Object(map["metainfo" := metainfo])];
    hide *;
    ObjectsOfBoth(first, shown);
    assert [] + EntryObjects(entries) == EntryObjects(entries);
    ListingMeans(metainfo, shown);
  }

  lemma MetainfoAddsNothing(metainfo: Json)
    requires metainfo.Object?
    ensures Objects([Object(map["metainfo" := metainfo])]) == Some([])
  {
    var first, none: seq<Json> := Object(map["metainfo" := metainfo]), [];
    assert first.fields.Keys == {"metainfo"};
    assert none + [first] == [first] && none + none == none;
    PushObjects(none, first);
  }

  lemma ListingMeans(metainfo: Json, shown: seq<Json>)
    requires var objects := Objects([Object(map["metainfo" := metainfo])] + shown);
             objects.Some? && Tables(objects.value) == 1
    ensures Semantics(Listing(metainfo, shown)) == Objects([Object(map["metainfo" := metainfo])] + shown)
  {
    hide Objects, Tables;
    assert Listing(metainfo, shown).fields.Keys == {"nftables"};
  }

  lemma BaseIsOurs()
    ensures OneTable(BaseEntries()) && |BaseEntries()| == 4
  {
    ChainIsOurs("input");
    ChainIsOurs("forward");
    ChainIsOurs("output");
    assert OurEntry(Entry("table", Table()));
    hide OurEntry, Chain, Table;
  }

  lemma ChainIsOurs(name: string)
    requires name in HOOKS
    ensures OurEntry(Entry("chain", Chain(name)))
  {
    assert Has(Chain(name), "name", Text(name));
  }

  lemma RulesFollow(entries: seq<Entry>, rules: seq<Rule>)
    requires OneTable(entries)
    requires forall k :: 0 <= k < |rules| ==> rules[k].chain in HOOKS
    ensures OneTable(entries + RuleEntries(rules))
  {
    forall k | 0 <= k < |rules| ensures OurEntry(RuleEntries(rules)[k]) { RuleIsOurs(rules[k]); }
    hide OurEntry, RuleItem, HOOKS;
  }

  lemma RuleIsOurs(r: Rule)
    requires r.chain in HOOKS
    ensures OurEntry(Entry("rule", RuleItem(r)))
  {
    assert Has(RuleItem(r), "chain", Text(r.chain));
  }

  lemma RecoveryRulesHook()
    ensures |RecoveryRules()| == 10 && forall k :: 0 <= k < 10 ==> RecoveryRules()[k].chain in HOOKS
  {
    hide Ports, Icmp, Eq;
  }

  lemma PeerRulesHook(p: Peer)
    ensures |PeerRules(p)| == 4 && forall k :: 0 <= k < 4 ==> PeerRules(p)[k].chain in HOOKS
  {
    hide Eq;
  }

  lemma EmergencyMeans()
    ensures OneTable(EmergencyEntries()) && |EmergencyEntries()| == EMERGENCY_OBJECTS
    ensures Semantics(EmergencyRuleset()) == Some(EntryObjects(EmergencyEntries()))
  {
    RecoveryRulesHook();
    BaseIsOurs();
    hide BaseEntries, RecoveryRules, OneTable, Script, Semantics, EntryObjects;
    RulesFollow(BaseEntries(), RecoveryRules());
    SemanticsOfScript(EmergencyEntries());
  }

  /** A chain on a hook that drops what no rule accepts. */
  function Dropping(hook: string): Json {
    Object(map["chain" := Object(map["family" := Text("inet"), "table" := Text("tuntun"), "name" := Text(hook),
                                     "type" := Text("filter"), "hook" := Text(hook), "prio" := Number(0),
                                     "policy" := Text("drop")])])
  }

  lemma ChainsDrop(hook: string)
    ensures EntryObject(Entry("chain", Chain(hook))) == Dropping(hook)
  {
    var chain := Chain(hook);
    assert chain.fields.Keys == {"family", "table", "name", "type", "hook", "prio", "policy"};
    assert forall key :: key in chain.fields ==> chain.fields[key].Text? || chain.fields[key].Number?;
    hide Chain;
    assert WithoutVolatile(chain, false).fields == chain.fields;
    assert EntryObject(Entry("chain", chain)) == Object(map["chain" := chain]);
  }

  lemma BaseDrops()
    ensures |EntryObjects(EmergencyEntries())| > 4
    ensures EntryObjects(EmergencyEntries())[1..4] == [Dropping("input"), Dropping("forward"), Dropping("output")]
  {
    RecoveryRulesHook();
    ChainsDrop("input");
    ChainsDrop("forward");
    ChainsDrop("output");
    hide Chain, Dropping, RecoveryRules, EntryObject, RuleItem, Table;
    var objects := EntryObjects(EmergencyEntries());
    assert objects[1] == Dropping("input") && objects[2] == Dropping("forward") && objects[3] == Dropping("output");
  }

  /** The meaning of both rulesets: three chains that drop, the rules of the emergency
      and, in the full one, four more; so no inputs make the two agree. */
  lemma FullIsEmergencyAndMore(p: Peer)
    ensures Semantics(EmergencyRuleset()) == Some(EntryObjects(EmergencyEntries()))
    ensures Semantics(FullRuleset(p))
            == Some(EntryObjects(EmergencyEntries()) + EntryObjects(RuleEntries(PeerRules(p))))
    ensures |EntryObjects(EmergencyEntries())| == EMERGENCY_OBJECTS
    ensures |EntryObjects(RuleEntries(PeerRules(p)))| == 4
    ensures EntryObjects(EmergencyEntries())[1..4] == [Dropping("input"), Dropping("forward"), Dropping("output")]
  {
    BaseDrops();
    hide Dropping;
    hide OneTable, RecoveryRules, BaseEntries, EmergencyEntries, Script, Semantics, EntryObject, OurEntry;
    EmergencyMeans();
    PeerRulesHook(p);
    hide PeerRules;
    var first, more := EmergencyEntries(), RuleEntries(PeerRules(p));
    RulesFollow(first, PeerRules(p));
    SemanticsOfScript(first + more);
    assert EntryObjects(first + more) == EntryObjects(first) + EntryObjects(more);
  }

  const EMERGENCY_OBJECTS: nat := 14

  /** What a rule compares against in its `k`th expression. */
  function Compared(entry: Json, k: nat): Option<Json> {
    if Fields(entry, "rule").None? then None
    else
      var expr := Fields(entry.fields["rule"], "expr");
      if expr.None? || !expr.value.Array? || k >= |expr.value.items| then None
      else
        var body := Fields(expr.value.items[k], "match");
        if body.None? then None else Fields(body.value, "right")
  }

  function Fields(j: Json, key: string): Option<Json> {
    if j.Object? && key in j.fields then Some(j.fields[key]) else None
  }

  lemma ComparedIsRight(r: Rule, k: nat, left: Json, right: Json)
    requires k < |r.expr| && r.expr[k] == Eq(left, right)
    ensures Compared(EntryObject(Entry("rule", RuleItem(r))), k) == Some(WithoutVolatile(right, false))
  {
    KeptExpression(r, k);
    KeptRight(left, right);
    hide WithoutVolatile, RuleItem, Eq, KINDS, HOOKS;
    assert EntryObject(Entry("rule", RuleItem(r))).fields["rule"] == WithoutVolatile(RuleItem(r), false);
  }

  lemma KeptExpression(r: Rule, k: nat)
    requires k < |r.expr|
    ensures Fields(WithoutVolatile(RuleItem(r), false), "expr").Some?
    ensures var expr := Fields(WithoutVolatile(RuleItem(r), false), "expr").value;
            expr.Array? && k < |expr.items| && expr.items[k] == WithoutVolatile(r.expr[k], false)
  {
    var item := WithoutVolatile(RuleItem(r), false);
    assert item.fields["expr"] == WithoutVolatile(Array(r.expr), false);
  }

  lemma KeptRight(left: Json, right: Json)
    ensures var body := Fields(WithoutVolatile(Eq(left, right), false), "match");
            body.Some? && Fields(body.value, "right") == Some(WithoutVolatile(right, false))
  {
    var inner := Eq(left, right).fields["match"];
    assert WithoutVolatile(Eq(left, right), false).fields["match"] == WithoutVolatile(inner, false);
    assert WithoutVolatile(inner, false).fields["right"] == WithoutVolatile(right, false);
  }

  /** The rules pin down the peer they let in. */
  lemma RulesDeterminePeer(p: Peer, q: Peer)
    requires Semantics(FullRuleset(p)) == Semantics(FullRuleset(q))
    ensures p == q
  {
    hide *;
    FullIsEmergencyAndMore(p);
    FullIsEmergencyAndMore(q);
    var common := EntryObjects(EmergencyEntries());
    var a, b := PeerRules(p), PeerRules(q);
    var x, y := EntryObjects(RuleEntries(a)), EntryObjects(RuleEntries(b));
    assert (common + x)[|common|..] == x && (common + y)[|common|..] == y;
    PeerExpressions(p);
    PeerExpressions(q);
    SameCompared(a, b, 3, 0, Meta("oifname"), Text(p.interface), Text(q.interface));
    SameCompared(a, b, 3, 1, Payload("ip", "daddr"), Text(p.ipv4), Text(q.ipv4));
    SameCompared(a, b, 3, 2, Payload("tcp", "dport"), Number(p.port), Number(q.port));
    SameCompared(a, b, 2, 1, Payload("ether", "saddr"), Text(p.mac), Text(q.mac));
  }

  lemma PeerExpressions(p: Peer)
    ensures |PeerRules(p)| == 4 && |PeerRules(p)[3].expr| == 4 && |PeerRules(p)[2].expr| == 5
    ensures PeerRules(p)[3].expr[0] == Eq(Meta("oifname"), Text(p.interface))
    ensures PeerRules(p)[3].expr[1] == Eq(Payload("ip", "daddr"), Text(p.ipv4))
    ensures PeerRules(p)[3].expr[2] == Eq(Payload("tcp", "dport"), Number(p.port))
    ensures PeerRules(p)[2].expr[1] == Eq(Payload("ether", "saddr"), Text(p.mac))
  {
    hide Eq, Meta, Payload, Ct, Accept;
  }

  lemma SameCompared(a: seq<Rule>, b: seq<Rule>, i: nat, k: nat, left: Json, x: Json, y: Json)
    requires i < |a| == |b| && EntryObjects(RuleEntries(a)) == EntryObjects(RuleEntries(b))
    requires k < |a[i].expr| && k < |b[i].expr| && a[i].expr[k] == Eq(left, x) && b[i].expr[k] == Eq(left, y)
    requires !x.Object? && !x.Array? && !y.Object? && !y.Array?
    ensures x == y
  {
    assert EntryObjects(RuleEntries(a))[i] == EntryObjects(RuleEntries(b))[i];
    hide EntryObject, RuleItem, Eq, Compared;
    ComparedIsRight(a[i], k, left, x);
    ComparedIsRight(b[i], k, left, y);
  }
}
