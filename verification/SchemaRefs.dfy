/** Embedding model schemas in one document (scripts/contract_generator_common.py).

    A model's schema refers to its own definitions as `#/$defs/...`.  In the
    document it sits under a container pointer and its escaped name, so every
    reference is rewritten.  Pointers are resolved as sections 3 and 4 of RFC 6901
    say; the percent-encoding of section 6 does not arise. */
module SchemaRefs {
  import opened JsonValue
  import opened Wrappers

  // ------------------------------------------------------------- JSON Pointer

  function Replace(s: string, c: char, with: string): string {
    if s == [] then [] else (if s[0] == c then with else [s[0]]) + Replace(s[1..], c, with)
  }

  function Escape(name: string): string { Replace(Replace(name, '~', "~0"), '/', "~1") }

  function Unescape(token: string): Option<string> {
    if token == [] then Some([])
    else if token[0] != '~' then
      var rest := Unescape(token[1..]);
      if rest.None? then None else Some([token[0]] + rest.value)
    else if |token| < 2 || token[1] !in "01" then None
    else
      var rest := Unescape(token[2..]);
      if rest.None? then None else Some((if token[1] == '0' then "~" else "/") + rest.value)
  }

  function Split(s: string): (tokens: seq<string>)
    ensures tokens != []
  {
    if s == [] then [[]]
    else
      var rest := Split(s[1..]);
      if s[0] == '/' then [[]] + rest else [[s[0]] + rest[0]] + rest[1..]
  }

  function Digits(s: string): Option<nat> {
    if s == [] then Some(0)
    else
      var last := |s| - 1;
      var before := Digits(s[..last]);
      if before.None? || !('0' <= s[last] <= '9') then None
      else Some(10 * before.value + (s[last] as int - '0' as int))
  }

  function Index(token: string): Option<nat> {
    if token == [] || (token[0] == '0' && |token| > 1) then None else Digits(token)
  }

  /** One step into a value. */
  function Child(v: Json, token: string): Option<Json> {
    var key := Unescape(token);
    if key.None? then None
    else
      match v
      case Object(fields) => if key.value in fields then Some(fields[key.value]) else None
      case Array(items) =>
        var i := Index(key.value);
        if i.Some? && i.value < |items| then Some(items[i.value]) else None
      case _ => None
  }

  function Numeral(n: nat): string {
    if n < 10 then [('0' as int + n) as char] else Numeral(n / 10) + [('0' as int + n % 10) as char]
  }

  lemma {:induction false} NumeralIsIndex(n: nat)
    ensures Digits(Numeral(n)) == Some(n) && Numeral(n) != [] && (n > 0 ==> Numeral(n)[0] != '0')
    ensures Index(Numeral(n)) == Some(n) && forall c :: c in Numeral(n) ==> '0' <= c <= '9'
  {
    if n >= 10 {
      NumeralIsIndex(n / 10);
      var t := Numeral(n);
      assert t[..|t| - 1] == Numeral(n / 10) && t[0] == Numeral(n / 10)[0];
    } else {
      assert Digits([]) == Some(0) && Numeral(n)[..0] == [];
    }
  }

  lemma {:induction false} IndexIsNumeral(t: string)
    requires Index(t).Some?
    ensures t == Numeral(Index(t).value) && (t[0] != '0' ==> Index(t).value > 0)
  {
    var n := |t| - 1;
    if n == 0 {
      assert t[..0] == [] && t == [t[0]] && Digits([]) == Some(0);
      assert Index(t) == Some(t[0] as int - '0' as int);
    } else {
      assert Digits(t[..n]).Some? && Index(t[..n]) == Digits(t[..n]);
      IndexIsNumeral(t[..n]);
      assert t == t[..n] + [t[n]];
    }
  }

  lemma {:induction false} PlainToken(t: string)
    requires '~' !in t
    ensures Unescape(t) == Some(t)
  {
    if t != [] {
      PlainToken(t[1..]);
      assert t[0] in t && [t[0]] + t[1..] == t;
    }
  }

  /** A step into an object is by an escaped key, a step into an array by the numeral of an
      index; and there is no other. */
  lemma ChildExact(v: Json, token: string)
    ensures v.Object? ==> forall key :: key in v.fields ==> Child(v, Escape(key)) == Some(v.fields[key])
    ensures v.Array? ==> forall i: nat :: i < |v.items| ==> Child(v, Numeral(i)) == Some(v.items[i])
    ensures Child(v, token).Some? && '/' !in token && v.Object? ==>
              exists key :: key in v.fields && token == Escape(key) && Child(v, token) == Some(v.fields[key])
    ensures Child(v, token).Some? && v.Array? ==>
              exists i: nat ::
                i < |v.items| && Unescape(token) == Some(Numeral(i)) && Child(v, token) == Some(v.items[i])
    ensures Child(v, token).Some? ==> v.Object? || v.Array?
  {
    hide Escape, Unescape, Numeral, Digits;
    if v.Object? {
      forall key | key in v.fields ensures Child(v, Escape(key)) == Some(v.fields[key]) { EscapeIsUndone(key); }
      if Child(v, token).Some? && '/' !in token { UnescapeIsUndone(token, Unescape(token).value); }
    }
    if v.Array? {
      forall i: nat | i < |v.items| ensures Child(v, Numeral(i)) == Some(v.items[i]) {
        NumeralIsIndex(i);
        PlainToken(Numeral(i));
      }
      if Child(v, token).Some? { IndexIsNumeral(Unescape(token).value); }
    }
  }

  function Walk(v: Json, tokens: seq<string>): Option<Json> {
    if tokens == [] then Some(v)
    else
      var child := Child(v, tokens[0]);
      if child.None? then None else Walk(child.value, tokens[1..])
  }

  function Resolve(document: Json, pointer: string): Option<Json> {
    if pointer == [] then Some(document)
    else if pointer[0] != '/' then None
    else Walk(document, Split(pointer[1..]))
  }

  /** A reference within the document: `#` and a pointer. */
  function Refers(document: Json, reference: string): Option<Json> {
    if reference == [] || reference[0] != '#' then None else Resolve(document, reference[1..])
  }

  /** A reference is `#` and nothing, or `#/` and tokens between slashes. */
  lemma ReferenceShape(document: Json, reference: string)
    ensures Refers(document, "#") == Some(document)
    ensures Refers(document, reference).Some? ==> reference == "#" || "#/" <= reference
    ensures "#/" <= reference ==> Refers(document, reference) == Walk(document, Split(reference[2..]))
  {
    hide Walk, Split;
    if "#/" <= reference { assert reference[1..][1..] == reference[2..]; }
  }

  lemma {:induction false} SplitAtSlash(a: string, b: string)
    ensures Split(a + "/" + b) == Split(a) + Split(b)
  {
    if a == [] {
      assert a + "/" + b == "/" + b && ("/" + b)[1..] == b;
    } else {
      assert (a + "/" + b)[1..] == a[1..] + "/" + b;
      SplitAtSlash(a[1..], b);
    }
  }

  lemma {:induction false} SplitWhole(s: string)
    requires '/' !in s
    ensures Split(s) == [s]
  {
    if s != [] {
      SplitWhole(s[1..]);
      assert [s[0]] + s[1..] == s;
    }
  }

  lemma {:induction false} WalkTwice(v: Json, a: seq<string>, b: seq<string>)
    ensures Walk(v, a + b) == if Walk(v, a).None? then None else Walk(Walk(v, a).value, b)
    decreases |a|
  {
    if a == [] {
      assert a + b == b;
    } else {
      assert (a + b)[1..] == a[1..] + b;
      var child := Child(v, a[0]);
      if child.Some? { WalkTwice(child.value, a[1..], b); }
    }
  }

  /** Escaping undoes, so distinct names stay distinct, and leaves no slash. */
  lemma {:induction false} EscapeIsUndone(name: string)
    ensures Unescape(Escape(name)) == Some(name)
    ensures '/' !in Escape(name)
  {
    if name != [] {
      EscapeIsUndone(name[1..]);
      EscapeFirst(name);
      var c, rest := name[0], Escape(name[1..]);
      assert name == [c] + name[1..];
      var text := (if c == '~' then "~0" else if c == '/' then "~1" else [c]) + rest;
      if c == '~' || c == '/' { assert text[2..] == rest; } else { assert text[1..] == rest; }
    }
  }

  /** And a token without a slash is the escape of what it unescapes to. */
  lemma {:induction false} UnescapeIsUndone(token: string, name: string)
    requires '/' !in token && Unescape(token) == Some(name)
    ensures Escape(name) == token
  {
    if token != [] {
      var n := if token[0] == '~' then 2 else 1;
      UnescapeIsUndone(token[n..], name[1..]);
      EscapeFirst(name);
      assert token == token[..n] + token[n..];
    }
  }

  lemma EscapeFirst(name: string)
    requires name != []
    ensures Escape(name)
            == (if name[0] == '~' then "~0" else if name[0] == '/' then "~1" else [name[0]]) + Escape(name[1..])
  {
    var rest := Replace(name[1..], '~', "~0");
    if name[0] == '~' {
      assert ("~0" + rest)[1..] == "0" + rest && ("0" + rest)[1..] == rest;
      assert Replace("~0" + rest, '/', "~1") == "~" + ("0" + Replace(rest, '/', "~1"));
      assert "~" + ("0" + Replace(rest, '/', "~1")) == "~0" + Replace(rest, '/', "~1");
    } else {
      assert ([name[0]] + rest)[1..] == rest;
    }
  }

  lemma EscapeIsInjective(a: string, b: string)
    requires Escape(a) == Escape(b)
    ensures a == b
  {
    EscapeIsUndone(a);
    EscapeIsUndone(b);
  }

  // ---------------------------------------------------------------- rewriting

  const DEFS := "#/$defs/"

  predicate Local(reference: string) { DEFS <= reference }

  function RewriteRef(reference: string, base: string): string
    requires Local(reference)
  {
    base + "/$defs/" + reference[|DEFS|..]
  }

  /** How a value stands in a schema: as a schema, as the mapping of a
      discriminator, or as a reference. */
  datatype Role = Schema | Mapping | Reference

  predicate IsDiscriminator(fields: map<string, Json>) { "propertyName" in fields && "mapping" in fields }

  function FieldRole(role: Role, fields: map<string, Json>, key: string): Role {
    if role == Mapping || key == "$ref" then Reference
    else if IsDiscriminator(fields) && key == "mapping" then Mapping
    else Schema
  }

  /** What the rewriter accepts. */
  predicate Supported(role: Role, v: Json)
    decreases v
  {
    match role
    case Reference => v.Text? && Local(v.text)
    case Mapping => v.Object? && forall key :: key in v.fields ==> Supported(Reference, v.fields[key])
    case Schema =>
      match v
      case Object(fields) =>
        && (IsDiscriminator(fields) ==> fields["propertyName"].Text? && fields["mapping"].Object?)
        && forall key :: key in fields ==> Supported(FieldRole(Schema, fields, key), fields[key])
      case Array(items) => forall i :: 0 <= i < |items| ==> Supported(Schema, items[i])
      case _ => true
  }

  function Rewritten(role: Role, v: Json, base: string): Json
    decreases v
  {
    match v
    case Text(s) => if role == Reference && Local(s) then Text(RewriteRef(s, base)) else v
    case Object(fields) =>
      if role == Reference then v
      else Object(map key | key in fields :: Rewritten(FieldRole(role, fields, key), fields[key], base))
    case Array(items) =>
      if role == Schema then
        Array(seq(|items|, i requires 0 <= i < |items| => Rewritten(Schema, items[i], base)))
      else v
    case _ => v
  }

  /** `_rewrite_local_refs`: no value where it raises. */
  function Rewrite(v: Json, base: string): Option<Json> {
    if Supported(Schema, v) then Some(Rewritten(Schema, v, base)) else None
  }

  function ChildRole(role: Role, v: Json, token: string): Role {
    if v.Object? && Unescape(token).Some? then FieldRole(role, v.fields, Unescape(token).value) else role
  }

  function RoleAt(role: Role, v: Json, tokens: seq<string>): Role
    decreases |tokens|
  {
    if tokens == [] || Child(v, tokens[0]).None? then role
    else RoleAt(ChildRole(role, v, tokens[0]), Child(v, tokens[0]).value, tokens[1..])
  }

  function Mapped(found: Option<Json>, role: Role, base: string): Option<Json> {
    if found.None? then None else Some(Rewritten(role, found.value, base))
  }

  lemma ChildOfRewritten(role: Role, v: Json, base: string, token: string)
    requires Supported(role, v)
    ensures Child(Rewritten(role, v, base), token) == Mapped(Child(v, token), ChildRole(role, v, token), base)
    ensures Child(v, token).Some? ==> Supported(ChildRole(role, v, token), Child(v, token).value)
  {
  }

  /** Walking commutes with rewriting, at every pointer into the schema. */
  lemma {:induction false} WalkOfRewritten(role: Role, v: Json, base: string, tokens: seq<string>)
    requires Supported(role, v)
    ensures Walk(Rewritten(role, v, base), tokens) == Mapped(Walk(v, tokens), RoleAt(role, v, tokens), base)
    ensures Walk(v, tokens).Some? ==> Supported(RoleAt(role, v, tokens), Walk(v, tokens).value)
    decreases |tokens|
  {
    hide Rewritten, Supported, Child;
    if tokens != [] {
      ChildOfRewritten(role, v, base, tokens[0]);
      var child := Child(v, tokens[0]);
      if child.Some? { WalkOfRewritten(ChildRole(role, v, tokens[0]), child.value, base, tokens[1..]); }
    }
  }

  // ------------------------------------------------- which schemas, which places

  ghost predicate LocalText(v: Json) { v.Text? && "#/$defs/" <= v.text }

  /** A schema all of whose references are local: each `$ref`, and each member of the
      `mapping` of an object that has a `propertyName` beside it. */
  ghost predicate LocalThroughout(v: Json)
    decreases v
  {
    match v
    case Object(fields) =>
      && ("$ref" in fields ==> LocalText(fields["$ref"]))
      && ("propertyName" in fields && "mapping" in fields ==>
            && fields["propertyName"].Text? && fields["mapping"].Object?
            && forall tag :: tag in fields["mapping"].fields ==> LocalText(fields["mapping"].fields[tag]))
      && forall key :: key in fields && key != "$ref" && (key == "mapping" ==> "propertyName" !in fields) ==>
           LocalThroughout(fields[key])
    case Array(items) => forall i :: 0 <= i < |items| ==> LocalThroughout(items[i])
    case _ => true
  }

  /** The rewriter accepts exactly those schemas. */
  lemma {:induction false} SupportedExact(v: Json)
    ensures Supported(Schema, v) <==> LocalThroughout(v)
    decreases v
  {
    match v
    case Object(fields) =>
      forall key | key in fields ensures Supported(Schema, fields[key]) <==> LocalThroughout(fields[key]) {
        SupportedExact(fields[key]);
      }
      forall key | key in fields ensures Supported(Reference, fields[key]) <==> LocalText(fields[key]) {}
      if "mapping" in fields {
        assert Supported(Mapping, fields["mapping"]) <==>
               && fields["mapping"].Object?
               && forall tag :: tag in fields["mapping"].fields ==> LocalText(fields["mapping"].fields[tag]);
      }
      hide LocalText;
    case Array(items) =>
      forall i | 0 <= i < |items| ensures Supported(Schema, items[i]) <==> LocalThroughout(items[i]) {
        SupportedExact(items[i]);
      }
    case _ =>
  }

  function Parent(place: seq<string>): seq<string>
    requires place != []
  {
    place[..|place| - 1]
  }

  function LastKey(place: seq<string>): Option<string>
    requires place != []
  {
    Unescape(place[|place| - 1])
  }

  ghost function FieldsAt(raw: Json, place: seq<string>): Option<map<string, Json>> {
    var found := Walk(raw, place);
    if found.Some? && found.value.Object? then Some(found.value.fields) else None
  }

  /** The place is the `mapping` of an object that has a `propertyName` beside it. */
  ghost predicate IsMapping(raw: Json, place: seq<string>)
    decreases |place|
  {
    && place != [] && LastKey(place) == Some("mapping")
    && FieldsAt(raw, Parent(place)).Some?
    && "propertyName" in FieldsAt(raw, Parent(place)).value && "mapping" in FieldsAt(raw, Parent(place)).value
    && !IsMapping(raw, Parent(place))
  }

  /** The place is a `$ref`, or a member of such a mapping. */
  ghost predicate IsReference(raw: Json, place: seq<string>) {
    && place != [] && FieldsAt(raw, Parent(place)).Some?
    && (LastKey(place) == Some("$ref") || IsMapping(raw, Parent(place)))
  }

  lemma {:induction false} RoleAtPush(role: Role, v: Json, tokens: seq<string>, t: string)
    requires Walk(v, tokens + [t]).Some?
    ensures Walk(v, tokens).Some?
    ensures RoleAt(role, v, tokens + [t]) == ChildRole(RoleAt(role, v, tokens), Walk(v, tokens).value, t)
    decreases |tokens|
  {
    var all := tokens + [t];
    if tokens == [] {
      assert all[0] == t && all[1..] == [];
    } else {
      assert all[0] == tokens[0] && all[1..] == tokens[1..] + [t];
      RoleAtPush(ChildRole(role, v, tokens[0]), Child(v, tokens[0]).value, tokens[1..], t);
    }
  }

  lemma {:induction false} RoleIsPlace(raw: Json, place: seq<string>)
    requires Supported(Schema, raw) && Walk(raw, place).Some?
    ensures RoleAt(Schema, raw, place) == Mapping <==> IsMapping(raw, place)
    ensures RoleAt(Schema, raw, place) == Reference <==> IsReference(raw, place)
    decreases |place|
  {
    if place != [] {
      var up, t := Parent(place), place[|place| - 1];
      assert place == up + [t];
      RoleAtPush(Schema, raw, up, t);
      WalkTwice(raw, up, [t]);
      assert Child(Walk(raw, up).value, t).Some?;
      RoleIsPlace(raw, up);
      WalkOfRewritten(Schema, raw, "", up);
      hide Walk, RoleAt, Supported, Rewritten;
      ParentRole(RoleAt(Schema, raw, up), Walk(raw, up).value, t);
    }
  }

  /** What stands below a supported value of each role. */
  lemma ParentRole(role: Role, v: Json, t: string)
    requires Supported(role, v) && Child(v, t).Some?
    ensures role != Reference && (v.Array? ==> role == Schema) && (v.Object? || v.Array?)
    ensures v.Object? ==> Unescape(t).Some?
    ensures v.Object? && (role == Mapping || Unescape(t) == Some("$ref")) ==> ChildRole(role, v, t) == Reference
    ensures v.Object? && role == Schema && Unescape(t) != Some("$ref") ==>
              if "propertyName" in v.fields && "mapping" in v.fields && Unescape(t) == Some("mapping")
              then ChildRole(role, v, t) == Mapping else ChildRole(role, v, t) == Schema
    ensures v.Array? ==> ChildRole(role, v, t) == role
  {
  }

  /** Rewriting keeps every key, and no two schemas become one. */
  lemma {:induction false} RewritingIsInjective(role: Role, a: Json, b: Json, base: string)
    requires Supported(role, a) && Supported(role, b) && Rewritten(role, a, base) == Rewritten(role, b, base)
    ensures a == b
    decreases a
  {
    match a
    case Text(s) =>
      if role == Reference {
        var head, n := base + "/$defs/", |DEFS|;
        assert RewriteRef(s, base)[|head|..] == s[n..] && RewriteRef(b.text, base)[|head|..] == b.text[n..];
        assert s == DEFS + s[n..] && b.text == DEFS + b.text[n..];
      }
    case Object(fields) =>
      assert Rewritten(role, a, base).fields.Keys == fields.Keys == b.fields.Keys;
      assert IsDiscriminator(fields) <==> IsDiscriminator(b.fields);
      forall key | key in fields ensures fields[key] == b.fields[key] {
        var child := FieldRole(role, fields, key);
        assert Rewritten(role, a, base).fields[key] == Rewritten(child, fields[key], base);
        assert Rewritten(role, b, base).fields[key] == Rewritten(child, b.fields[key], base);
        RewritingIsInjective(child, fields[key], b.fields[key], base);
      }
      assert fields == b.fields;
    case Array(items) =>
      assert |items| == |b.items|;
      forall i | 0 <= i < |items| ensures items[i] == b.items[i] {
        assert Rewritten(role, a, base).items[i] == Rewritten(role, b, base).items[i];
        RewritingIsInjective(Schema, items[i], b.items[i], base);
      }
    case _ =>
  }

  // ---------------------------------------------------------------- embedding

  predicate ContainerOk(container: string) {
    container != [] && container[0] == '/' && container[|container| - 1] != '/'
  }

  function Base(container: string, name: string): string { "#" + container + "/" + Escape(name) }

  lemma PointerSplits(container: string, rest: string)
    requires ContainerOk(container)
    ensures Split((container + "/" + rest)[1..]) == Split(container[1..]) + Split(rest)
  {
    assert (container + "/" + rest)[1..] == container[1..] + "/" + rest;
    SplitAtSlash(container[1..], rest);
  }

  function ModelTokens(container: string, name: string): seq<string>
    requires ContainerOk(container)
  {
    Split(container[1..]) + [Escape(name)]
  }

  lemma BaseTokens(document: Json, container: string, name: string)
    requires ContainerOk(container)
    ensures Refers(document, Base(container, name)) == Walk(document, ModelTokens(container, name))
  {
    hide Escape, Unescape, Split, Walk;
    EscapeIsUndone(name);
    SplitWhole(Escape(name));
    PointerSplits(container, Escape(name));
    assert Base(container, name)[1..] == container + "/" + Escape(name);
  }

  lemma RewrittenTokens(document: Json, container: string, name: string, reference: string)
    requires ContainerOk(container) && Local(reference)
    ensures Refers(document, RewriteRef(reference, Base(container, name)))
            == Walk(document, ModelTokens(container, name) + Split(reference[2..]))
  {
    hide Escape, Unescape, Split, Walk;
    var tail := Escape(name) + "/" + reference[2..];
    EscapeIsUndone(name);
    SplitWhole(Escape(name));
    SplitAtSlash(Escape(name), reference[2..]);
    PointerSplits(container, tail);
    assert Split(container[1..]) + ([Escape(name)] + Split(reference[2..]))
           == ModelTokens(container, name) + Split(reference[2..]);
    Prefixed(container, Escape(name), reference);
  }

  lemma Prefixed(container: string, escaped: string, reference: string)
    requires Local(reference)
    ensures RewriteRef(reference, "#" + container + "/" + escaped)
            == "#" + (container + "/" + (escaped + "/" + reference[2..]))
  {
    var rest := reference[|DEFS|..];
    assert reference == DEFS + rest;
    assert reference[2..] == "$defs/" + rest;
    assert "/$defs/" + rest == "/" + ("$defs/" + rest);
    assert "#" + container + "/" + escaped + ("/$defs/" + rest) == "#" + container + "/" + escaped + "/$defs/" + rest;
    assert "#" + container + "/" + escaped + ("/" + reference[2..])
           == "#" + (container + "/" + (escaped + "/" + reference[2..]));
  }

  lemma LocalTokens(raw: Json, reference: string)
    requires Local(reference)
    ensures Refers(raw, reference) == Walk(raw, Split(reference[2..]))
  {
    hide Walk, Split;
    assert reference == DEFS + reference[|DEFS|..];
    assert reference[1..][1..] == reference[2..];
  }

  /** There are such documents: one for every container whose tokens are escapes. */
  lemma {:induction false} DocumentExists(tokens: seq<string>, inner: Json) returns (document: Json)
    requires forall k :: 0 <= k < |tokens| ==> Unescape(tokens[k]).Some?
    ensures Walk(document, tokens) == Some(inner)
    decreases |tokens|
  {
    if tokens == [] {
      document := inner;
    } else {
      var below := DocumentExists(tokens[1..], inner);
      document := Object(map[Unescape(tokens[0]).value := below]);
    }
  }

  lemma ContainerExists(container: string, models: map<string, Json>) returns (document: Json)
    requires ContainerOk(container)
    requires forall k :: 0 <= k < |Split(container[1..])| ==> Unescape(Split(container[1..])[k]).Some?
    ensures Resolve(document, container) == Some(Object(models))
  {
    document := DocumentExists(Split(container[1..]), Object(models));
  }

  /** A model is found under its escaped name. */
  lemma ModelIsFound(document: Json, container: string, models: map<string, Json>, name: string)
    requires ContainerOk(container) && name in models && Resolve(document, container) == Some(Object(models))
    ensures Walk(document, ModelTokens(container, name)) == Some(models[name])
    ensures Refers(document, Base(container, name)) == Some(models[name])
  {
    BaseTokens(document, container, name);
    EscapeIsUndone(name);
    assert Child(Object(models), Escape(name)) == Some(models[name]);
    hide Escape, Unescape, Split, Child, Refers;
    WalkTwice(document, Split(container[1..]), [Escape(name)]);
    assert Walk(models[name], [Escape(name)][1..]) == Some(models[name]);
  }

  /** Whatever a reference meant in the model's own schema, its rewriting means the
      rewriting of that in the document; and what it did not find, it does not find. */
  lemma ReferencesKeepMeaning(document: Json, container: string, models: map<string, Json>, name: string,
                              raw: Json, reference: string)
    requires ContainerOk(container) && name in models && Resolve(document, container) == Some(Object(models))
    requires Rewrite(raw, Base(container, name)) == Some(models[name])
    requires Local(reference)
    ensures Refers(document, RewriteRef(reference, Base(container, name)))
            == Mapped(Refers(raw, reference), RoleAt(Schema, raw, Split(reference[2..])), Base(container, name))
  {
    assert Supported(Schema, raw) && models[name] == Rewritten(Schema, raw, Base(container, name));
    RewrittenTokens(document, container, name, reference);
    LocalTokens(raw, reference);
    hide *;
    ModelIsFound(document, container, models, name);
    var tokens := Split(reference[2..]);
    WalkTwice(document, ModelTokens(container, name), tokens);
    WalkOfRewritten(Schema, raw, Base(container, name), tokens);
  }

  /** Every place of the schema that holds a reference holds, in the document, a
      reference to the rewriting of what the original referred to. */
  lemma EmbeddingPreservesMeaning(document: Json, container: string, models: map<string, Json>, name: string,
                                  raw: Json, place: seq<string>)
    requires ContainerOk(container) && name in models && Resolve(document, container) == Some(Object(models))
    requires Rewrite(raw, Base(container, name)) == Some(models[name])
    requires Walk(raw, place).Some? && IsReference(raw, place)
    ensures var reference, base := Walk(raw, place).value, Base(container, name);
            && reference.Text? && Local(reference.text)
            && Walk(document, ModelTokens(container, name) + place) == Some(Text(RewriteRef(reference.text, base)))
            && Refers(document, RewriteRef(reference.text, base))
               == Mapped(Refers(raw, reference.text), RoleAt(Schema, raw, Split(reference.text[2..])), base)
  {
    hide Escape, Unescape, Split, Child, Walk, RoleAt, Resolve, IsReference, IsMapping;
    RoleIsPlace(raw, place);
    WalkOfRewritten(Schema, raw, Base(container, name), place);
    ModelIsFound(document, container, models, name);
    WalkTwice(document, ModelTokens(container, name), place);
    ReferencesKeepMeaning(document, container, models, name, raw, Walk(raw, place).value.text);
  }

  /** The same shape: equal, or two arrays of one length, or two objects with the same
      keys. */
  predicate SameShape(v: Json, w: Json) {
    match v
    case Object(fields) => w.Object? && w.fields.Keys == fields.Keys
    case Array(items) => w.Array? && |w.items| == |items|
    case _ => w == v
  }

  /** Place by place, the model in the document is its schema: the same shape and the same
      texts everywhere but at the references, and those now point to the same place of
      the model, wherever they pointed in the schema. */
  lemma EmbeddingPlaceByPlace(document: Json, container: string, models: map<string, Json>, name: string,
                              raw: Json, place: seq<string>)
    requires ContainerOk(container) && name in models && Resolve(document, container) == Some(Object(models))
    requires Rewrite(raw, Base(container, name)) == Some(models[name])
    ensures var model := ModelTokens(container, name);
            var before, after := Walk(raw, place), Walk(document, model + place);
            && (before.Some? <==> after.Some?)
            && (before.Some? && !IsReference(raw, place) ==> SameShape(before.value, after.value))
            && (before.Some? && IsReference(raw, place) ==>
                  && LocalText(before.value) && after.value.Text?
                  && var was, now := before.value.text, after.value.text;
                     && now == "#" + container + "/" + Escape(name) + "/$defs/" + was[8..]
                     && Refers(raw, was) == Walk(raw, Split(was[2..]))
                     && Refers(document, now) == Walk(document, model + Split(was[2..])))
  {
    hide Escape, Unescape, Split, Child, Walk, RoleAt, Resolve, IsReference, IsMapping;
    WalkOfRewritten(Schema, raw, Base(container, name), place);
    ModelIsFound(document, container, models, name);
    WalkTwice(document, ModelTokens(container, name), place);
    var found := Walk(raw, place);
    if found.Some? {
      RoleIsPlace(raw, place);
      if IsReference(raw, place) {
        RewrittenTokens(document, container, name, found.value.text);
        LocalTokens(raw, found.value.text);
      } else {
        RewrittenShape(RoleAt(Schema, raw, place), found.value, Base(container, name));
      }
    }
  }

  lemma RewrittenShape(role: Role, v: Json, base: string)
    requires role != Reference && Supported(role, v)
    ensures SameShape(v, Rewritten(role, v, base))
  {
  }

  // ------------------------------------------------------------ all the models

  datatype Refusal = BadContainer | DuplicateModel | EmptyRegistry | UnsupportedSchema

  /** A registered model: its fully qualified name and generated schema. */
  datatype Model = Model(name: string, raw: Json)

  ghost predicate DistinctNames(models: seq<Model>) {
    forall i, j :: 0 <= i < j < |models| ==> models[i].name != models[j].name
  }

  ghost predicate Embedded(models: seq<Model>, container: string, out: map<string, Json>) {
    && out.Keys == (set k | 0 <= k < |models| :: models[k].name)
    && forall k :: 0 <= k < |models| ==>
         models[k].name in out && Rewrite(models[k].raw, Base(container, models[k].name)) == Some(out[models[k].name])
  }

  method BuildModelSchemas(models: seq<Model>, container: string) returns (r: Result<map<string, Json>, Refusal>)
    ensures r == Err(BadContainer) <==> container == [] || container[0] != '/' || container[|container| - 1] == '/'
    ensures r.Ok? <==> r != Err(BadContainer) && models != [] && DistinctNames(models)
                       && forall k :: 0 <= k < |models| ==> LocalThroughout(models[k].raw)
    ensures r.Ok? ==> Embedded(models, container, r.value)
  {
    if !ContainerOk(container) { return Err(BadContainer); }
    var names: set<string> := {};
    for k := 0 to |models|
      invariant names == set i | 0 <= i < k :: models[i].name
      invariant DistinctNames(models[..k])
    {
      if models[k].name in names { return Err(DuplicateModel); }
      names := names + {models[k].name};
    }
    assert models[..|models|] == models;
    if models == [] { return Err(EmptyRegistry); }
    var out: map<string, Json> := map[];
    for k := 0 to |models|
      invariant Embedded(models[..k], container, out)
      invariant forall i :: 0 <= i < k ==> LocalThroughout(models[i].raw)
    {
      SupportedExact(models[k].raw);
      var schema := Rewrite(models[k].raw, Base(container, models[k].name));
      if schema.None? { return Err(UnsupportedSchema); }
      EmbedOneMore(models, container, out, k, schema.value);
      out := out[models[k].name := schema.value];
    }
    r := Ok(out);
  }

  lemma EmbedOneMore(models: seq<Model>, container: string, out: map<string, Json>, k: nat, schema: Json)
    requires k < |models| && DistinctNames(models) && Embedded(models[..k], container, out)
    requires Rewrite(models[k].raw, Base(container, models[k].name)) == Some(schema)
    ensures Embedded(models[..k + 1], container, out[models[k].name := schema])
  {
    hide Rewrite, Base;
    var more, some := models[..k + 1], models[..k];
    assert forall i :: 0 <= i < k ==> more[i] == some[i] == models[i];
  }
}
