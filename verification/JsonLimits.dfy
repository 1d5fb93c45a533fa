/**
 Two guards against oversized JSON documents: a lexical pass over the text before
 it is parsed, and a walk over the parsed tree.  They accept the same documents.
 */
module JsonLimits {
  import opened Wrappers

  datatype Limits = Limits(depth: nat, containers: nat, tokens: nat)
  datatype Reason = InvalidJson | TokenLimit | ContainerLimit | DepthLimit

  /** How much a document uses of each limit. */
  datatype Usage = Usage(tokens: nat, containers: nat, depth: nat)

  predicate Within(u: Usage, limits: Limits) {
    u.tokens <= limits.tokens && u.containers <= limits.containers && u.depth <= limits.depth
  }

  /** The reason given for a refusal is true of the document. */
  predicate Justified(reason: Reason, u: Usage, limits: Limits) {
    match reason
    case TokenLimit => u.tokens > limits.tokens
    case ContainerLimit => u.containers > limits.containers
    case DepthLimit => u.depth > limits.depth
    case InvalidJson => false
  }

  function Max(a: nat, b: nat): nat { if a >= b then a else b }

  // ------------------------------------------------------------ parsed trees

  /** Arrays and objects are both a container of items; an object's items have a key. */
  datatype Value = Leaf | Container(items: Items)
  datatype Items = NoItems | Items(key: Option<string>, value: Value, tail: Items)

  function Plus(a: Usage, b: Usage): Usage {
    Usage(a.tokens + b.tokens, a.containers + b.containers, Max(a.depth, b.depth))
  }

  function Wrap(inside: Usage): Usage {
    Usage(1 + inside.tokens, 1 + inside.containers, 1 + inside.depth)
  }

  function KeyUse(key: Option<string>): Usage {
    Usage(if key.Some? then 1 else 0, 0, 0)
  }

  function Uses(v: Value): Usage {
    if v.Leaf? then Usage(1, 0, 0) else Wrap(UsesItems(v.items))
  }

  function UsesItems(items: Items): Usage {
    if items.NoItems? then Usage(0, 0, 0)
    else Plus(Plus(KeyUse(items.key), Uses(items.value)), UsesItems(items.tail))
  }

  // --------------------------------------------------------------- tree walk

  /** No container of `v`, found inside `above` others, is nested too deeply. */
  predicate Fits(v: Value, above: nat, limit: nat) {
    v.Leaf? || (above < limit && ItemsFit(v.items, above + 1, limit))
  }

  predicate ItemsFit(items: Items, above: nat, limit: nat) {
    items.NoItems? || (Fits(items.value, above, limit) && ItemsFit(items.tail, above, limit))
  }

  lemma {:induction false} FitsIsDepth(v: Value, above: nat, limit: nat)
    ensures Fits(v, above, limit) <==> Uses(v).depth == 0 || above + Uses(v).depth <= limit
    decreases v
  {
    if v.Container? { ItemsFitIsDepth(v.items, above + 1, limit); }
  }

  lemma {:induction false} ItemsFitIsDepth(items: Items, above: nat, limit: nat)
    ensures ItemsFit(items, above, limit) <==> UsesItems(items).depth == 0 || above + UsesItems(items).depth <= limit
    decreases items
  {
    if items.Items? {
      FitsIsDepth(items.value, above, limit);
      ItemsFitIsDepth(items.tail, above, limit);
    }
  }

  datatype Pending = Pending(value: Value, above: nat)

  function StackTokens(stack: seq<Pending>): nat {
    if stack == [] then 0 else Uses(stack[|stack| - 1].value).tokens + StackTokens(stack[..|stack| - 1])
  }

  function StackContainers(stack: seq<Pending>): nat {
    if stack == [] then 0 else Uses(stack[|stack| - 1].value).containers + StackContainers(stack[..|stack| - 1])
  }

  predicate StackFits(stack: seq<Pending>, limit: nat) {
    forall p :: p in stack ==> Fits(p.value, p.above, limit)
  }

  lemma {:induction false} Push(stack: seq<Pending>, value: Value, above: nat, limit: nat)
    ensures var more := stack + [Pending(value, above)];
            && StackTokens(more) == StackTokens(stack) + Uses(value).tokens
            && StackContainers(more) == StackContainers(stack) + Uses(value).containers
            && (StackFits(more, limit) <==> StackFits(stack, limit) && Fits(value, above, limit))
  {
    var more := stack + [Pending(value, above)];
    assert more[..|more| - 1] == stack && more[|more| - 1] == Pending(value, above);
  }

  lemma {:induction false} Pop(stack: seq<Pending>, limit: nat)
    requires stack != []
    ensures var n := |stack| - 1;
            && StackTokens(stack) == Uses(stack[n].value).tokens + StackTokens(stack[..n])
            && StackContainers(stack) == Uses(stack[n].value).containers + StackContainers(stack[..n])
            && (StackFits(stack, limit) <==>
                  StackFits(stack[..n], limit) && Fits(stack[n].value, stack[n].above, limit))
  {
    var n := |stack| - 1;
    Push(stack[..n], stack[n].value, stack[n].above, limit);
    assert stack[..n] + [stack[n]] == stack;
  }

  /** What was counted and what is still stacked make up the document. */
  ghost predicate Accounted(tokens: nat, containers: nat, stack: seq<Pending>, root: Value, limits: Limits) {
    && tokens + StackTokens(stack) == Uses(root).tokens
    && containers + StackContainers(stack) == Uses(root).containers
    && (StackFits(stack, limits.depth) <==> Fits(root, 0, limits.depth))
  }

  /** Stacks the items of one container; an object's keys count as they pass. */
  method PushItems(items: Items, above: nat, before: seq<Pending>, counted: nat, limits: Limits)
    returns (stack: seq<Pending>, tokens: nat)
    requires counted <= limits.tokens
    ensures tokens <= limits.tokens ==>
              && tokens + StackTokens(stack) == counted + UsesItems(items).tokens + StackTokens(before)
              && StackContainers(stack) == UsesItems(items).containers + StackContainers(before)
              && (StackFits(stack, limits.depth) <==>
                    StackFits(before, limits.depth) && ItemsFit(items, above, limits.depth))
    ensures counted <= tokens <= counted + UsesItems(items).tokens
  {
    stack, tokens := before, counted;
    var rest := items;
    while rest.Items?
      invariant counted <= tokens <= limits.tokens
      invariant tokens + UsesItems(rest).tokens <= counted + UsesItems(items).tokens
      invariant tokens + UsesItems(rest).tokens + StackTokens(stack)
                == counted + UsesItems(items).tokens + StackTokens(before)
      invariant UsesItems(rest).containers + StackContainers(stack)
                == UsesItems(items).containers + StackContainers(before)
      invariant (StackFits(stack, limits.depth) && ItemsFit(rest, above, limits.depth)) <==>
                (StackFits(before, limits.depth) && ItemsFit(items, above, limits.depth))
      decreases rest
    {
      if rest.key.Some? {
        tokens := tokens + 1;
        if tokens > limits.tokens { return; }
      }
      Push(stack, rest.value, above, limits.depth);
      stack := stack + [Pending(rest.value, above)];
      rest := rest.tail;
    }
  }

  /** One round of the walk: the popped value is counted and its items stacked. */
  method Visit(top: Pending, before: seq<Pending>, counted: nat, entered: nat, limits: Limits)
    returns (stack: seq<Pending>, tokens: nat, containers: nat, reason: Option<Reason>)
    requires counted <= limits.tokens && entered <= limits.containers
    ensures counted < tokens <= counted + Uses(top.value).tokens
    ensures entered <= containers <= entered + Uses(top.value).containers
    ensures reason.None? ==>
              && tokens <= limits.tokens && containers <= limits.containers
              && tokens + StackTokens(stack) == counted + Uses(top.value).tokens + StackTokens(before)
              && containers + StackContainers(stack) == entered + Uses(top.value).containers + StackContainers(before)
              && (StackFits(stack, limits.depth) <==>
                    StackFits(before, limits.depth) && Fits(top.value, top.above, limits.depth))
    ensures reason == Some(TokenLimit) ==> tokens > limits.tokens
    ensures reason == Some(ContainerLimit) ==> containers > limits.containers
    ensures reason == Some(DepthLimit) ==> !Fits(top.value, top.above, limits.depth)
    ensures reason != Some(InvalidJson)
  {
    stack, tokens, containers, reason := before, counted + 1, entered, None;
    if top.value.Container? { containers := containers + 1; }
    if tokens > limits.tokens { return stack, tokens, containers, Some(TokenLimit); }
    if top.value.Container? {
      if top.above + 1 > limits.depth { return stack, tokens, containers, Some(DepthLimit); }
      stack, tokens := PushItems(top.value.items, top.above + 1, stack, tokens, limits);
      if tokens > limits.tokens { return stack, tokens, containers, Some(TokenLimit); }
    }
    if containers > limits.containers { return stack, tokens, containers, Some(ContainerLimit); }
  }

  /** The walk over the parsed tree, with its explicit stack. */
  method Walk(root: Value, limits: Limits) returns (r: Result<(), Reason>)
    ensures r.Ok? <==> Within(Uses(root), limits)
    ensures r.Err? ==> Justified(r.error, Uses(root), limits)
  {
    var containers, tokens := 0, 0;
    var stack := [Pending(root, 0)];
    Push([], root, 0, limits.depth);
    assert [] + stack == stack;
    while stack != []
      invariant Accounted(tokens, containers, stack, root, limits)
      invariant tokens <= limits.tokens && containers <= limits.containers
      decreases Uses(root).tokens - tokens
    {
      Pop(stack, limits.depth);
      var top := stack[|stack| - 1];
      var reason;
      stack, tokens, containers, reason := Visit(top, stack[..|stack| - 1], tokens, containers, limits);
      if reason.Some? {
        FitsIsDepth(root, 0, limits.depth);
        assert Justified(reason.value, Uses(root), limits);
        return Err(reason.value);
      }
    }
    FitsIsDepth(root, 0, limits.depth);
    r := Ok(());
  }

  // ------------------------------------------------------------ lexical pass

  /** Python's `str.isspace`. */
  predicate IsSpace(c: char) {
    var u := c as int;
    || 0x09 <= u <= 0x0D || 0x1C <= u <= 0x20 || u == 0x85 || u == 0xA0 || u == 0x1680
    || 0x2000 <= u <= 0x200A || u == 0x2028 || u == 0x2029 || u == 0x202F || u == 0x205F || u == 0x3000
  }

  predicate IsDelimiter(c: char) {
    IsSpace(c) || c in "{}[],:\""
  }

  /** Text after a string literal whose opening quote has been read. */
  function AfterString(t: string): (rest: Option<string>)
    ensures rest.Some? ==> |rest.value| < |t|
  {
    if t == [] then None
    else if t[0] == '\\' then (if |t| == 1 then None else AfterString(t[2..]))
    else if t[0] == '"' then Some(t[1..])
    else AfterString(t[1..])
  }

  /** Text after a number or a literal name whose first character has been read. */
  function AfterScalar(t: string): (rest: string)
    ensures |rest| <= |t|
  {
    if t == [] || IsDelimiter(t[0]) then t else AfterScalar(t[1..])
  }

  datatype Lexer = Lexer(tokens: nat, containers: nat, stack: string, depth: nat)

  function Open(s: Lexer, c: char): Lexer {
    Lexer(s.tokens + 1, s.containers + 1, s.stack + [c], Max(s.depth, |s.stack| + 1))
  }

  /** The pass without its limits; `None` where it finds the text malformed. */
  function Scan(t: string, s: Lexer): Option<Lexer>
    decreases |t|
  {
    if t == [] then (if s.stack == [] then Some(s) else None)
    else if IsSpace(t[0]) || t[0] == ',' || t[0] == ':' then Scan(t[1..], s)
    else if t[0] == '"' then
      var rest := AfterString(t[1..]);
      if rest.None? then None else Scan(rest.value, s.(tokens := s.tokens + 1))
    else if t[0] == '{' || t[0] == '[' then Scan(t[1..], Open(s, t[0]))
    else if t[0] == '}' || t[0] == ']' then
      if s.stack == [] || s.stack[|s.stack| - 1] != (if t[0] == '}' then '{' else '[') then None
      else Scan(t[1..], s.(stack := s.stack[..|s.stack| - 1]))
    else Scan(AfterScalar(t[1..]), s.(tokens := s.tokens + 1))
  }

  const START := Lexer(0, 0, [], 0)

  function Lexical(t: string): Option<Usage> {
    var s := Scan(t, START);
    if s.None? then None else Some(Usage(s.value.tokens, s.value.containers, s.value.depth))
  }

  lemma {:induction false} ScanGrows(t: string, s: Lexer)
    ensures Scan(t, s).Some? ==>
              var e := Scan(t, s).value;
              e.tokens >= s.tokens && e.containers >= s.containers && e.depth >= s.depth
    decreases |t|
  {
    if t != [] {
      if IsSpace(t[0]) || t[0] == ',' || t[0] == ':' {
        ScanGrows(t[1..], s);
      } else if t[0] == '"' {
        var rest := AfterString(t[1..]);
        if rest.Some? { ScanGrows(rest.value, s.(tokens := s.tokens + 1)); }
      } else if t[0] == '{' || t[0] == '[' {
        ScanGrows(t[1..], Open(s, t[0]));
      } else if t[0] == '}' || t[0] == ']' {
        if s.stack != [] { ScanGrows(t[1..], s.(stack := s.stack[..|s.stack| - 1])); }
      } else {
        ScanGrows(AfterScalar(t[1..]), s.(tokens := s.tokens + 1));
      }
    }
  }

  method SkipString(text: string, from: nat) returns (index: nat, closed: bool)
    requires from <= |text|
    ensures closed <==> AfterString(text[from..]).Some?
    ensures closed ==> from < index <= |text| && AfterString(text[from..]) == Some(text[index..])
  {
    index := from;
    while index < |text|
      invariant from <= index
      invariant AfterString(text[from..]) == if index <= |text| then AfterString(text[index..]) else None
    {
      assert text[index..][1..] == text[index + 1..];
      if text[index] == '\\' {
        if index + 1 < |text| { assert text[index..][2..] == text[index + 2..]; }
        index := index + 2;
      } else if text[index] == '"' {
        return index + 1, true;
      } else {
        index := index + 1;
      }
    }
    closed := false;
  }

  method SkipScalar(text: string, from: nat) returns (index: nat)
    requires from <= |text|
    ensures from <= index <= |text| && AfterScalar(text[from..]) == text[index..]
  {
    index := from;
    while index < |text| && !IsDelimiter(text[index])
      invariant from <= index <= |text|
      invariant AfterScalar(text[from..]) == AfterScalar(text[index..])
    {
      assert text[index..][1..] == text[index + 1..];
      index := index + 1;
    }
  }

  /** The pass over `text` has come to `index` with the counts in `s`. */
  ghost predicate Reached(text: string, index: nat, s: Lexer)
    requires index <= |text|
  {
    Scan(text, START) == Scan(text[index..], s)
  }

  /** Counts once reached stay reached. */
  lemma {:induction false} ReachedGrows(text: string, index: nat, s: Lexer)
    requires index <= |text| && Reached(text, index, s)
    ensures Lexical(text).Some? ==>
              var u := Lexical(text).value;
              u.tokens >= s.tokens && u.containers >= s.containers && u.depth >= s.depth
  {
    ScanGrows(text[index..], s);
  }

  predicate Proceeding(s: Lexer, limits: Limits) {
    s.tokens <= limits.tokens && s.containers <= limits.containers && |s.stack| <= s.depth <= limits.depth
  }

  /** One character that opens or closes a container. */
  method Bracket(text: string, index: nat, s: Lexer, limits: Limits) returns (next: Lexer, reason: Option<Reason>)
    requires index < |text| && Reached(text, index, s) && Proceeding(s, limits) && text[index] in "{}[]"
    ensures reason.None? ==> Reached(text, index + 1, next) && Proceeding(next, limits)
    ensures reason.Some? ==> Refuses(text, reason.value, limits)
  {
    var c := text[index];
    assert text[index..][1..] == text[index + 1..];
    if c == '{' || c == '[' {
      next := Open(s, c);
      ReachedGrows(text, index + 1, next);
      if next.tokens > limits.tokens { return next, Some(TokenLimit); }
      if next.containers > limits.containers { return next, Some(ContainerLimit); }
      if |next.stack| > limits.depth { return next, Some(DepthLimit); }
    } else {
      next := s;
      var expected := if c == '}' then '{' else '[';
      if s.stack == [] || s.stack[|s.stack| - 1] != expected { return next, Some(InvalidJson); }
      next := s.(stack := s.stack[..|s.stack| - 1]);
    }
    reason := None;
  }

  /** One string literal, number or literal name. */
  method Atom(text: string, index: nat, s: Lexer, limits: Limits)
    returns (end: nat, next: Lexer, reason: Option<Reason>)
    requires index < |text| && Reached(text, index, s) && Proceeding(s, limits)
    requires text[index] == '"' || !IsDelimiter(text[index])
    ensures reason.None? ==> index < end <= |text| && Reached(text, end, next) && Proceeding(next, limits)
    ensures reason.Some? ==> Refuses(text, reason.value, limits)
  {
    assert text[index..][1..] == text[index + 1..];
    next := s.(tokens := s.tokens + 1);
    reason := None;
    if text[index] == '"' {
      var closed;
      end, closed := SkipString(text, index + 1);
      if closed { ReachedGrows(text, end, next); }
      if next.tokens > limits.tokens { return end, next, Some(TokenLimit); }
      if !closed { return end, next, Some(InvalidJson); }
    } else {
      end := SkipScalar(text, index + 1);
      ReachedGrows(text, end, next);
      if next.tokens > limits.tokens { return end, next, Some(TokenLimit); }
    }
  }

  /** Refusing `text` for `reason` is right. */
  ghost predicate Refuses(text: string, reason: Reason, limits: Limits) {
    Lexical(text).Some? ==> Justified(reason, Lexical(text).value, limits)
  }

  /** The lexical pass with its limits. */
  method Preflight(text: string, limits: Limits) returns (r: Result<(), Reason>)
    ensures r.Ok? <==> Lexical(text).Some? && Within(Lexical(text).value, limits)
    ensures r.Err? ==> Refuses(text, r.error, limits)
  {
    var s := START;
    var index := 0;
    assert text[0..] == text;
    while index < |text|
      invariant 0 <= index <= |text|
      invariant Reached(text, index, s) && Proceeding(s, limits)
    {
      var c := text[index];
      if IsSpace(c) || c == ',' || c == ':' {
        assert text[index..][1..] == text[index + 1..];
        index := index + 1;
      } else {
        var reason;
        if c in "{}[]" {
          s, reason := Bracket(text, index, s, limits);
          index := index + 1;
        } else {
          index, s, reason := Atom(text, index, s, limits);
        }
        if reason.Some? { return Err(reason.value); }
      }
    }
    assert text[index..] == [];
    if s.stack != [] { return Err(InvalidJson); }
    r := Ok(());
  }

  // ---------------------------------------------------------- serialisations

  /** A character of a string literal: itself, or escaped by a backslash. */
  datatype Piece = Plain(c: char) | Escaped(c: char)

  /** One way of writing a JSON value (sections 2 to 7 of RFC 8259), white space included. */
  datatype Json =
    | Scalar(text: string)
    | Text(body: seq<Piece>)
    | Array(lead: string, elements: Elements)
    | Object(lead: string, members: Members)
  datatype Elements = NoElements | Elements(before: string, value: Json, after: string, rest: Elements)
  datatype Members =
    | NoMembers
    | Members(before: string, key: seq<Piece>, afterKey: string, beforeValue: string,
              value: Json, after: string, rest: Members)

  predicate Blank(t: string) {
    forall i :: 0 <= i < |t| ==> t[i] in " \t\n\r"
  }

  /** Numbers, true, false and null: no delimiter inside. */
  predicate ScalarText(t: string) {
    t != [] && forall i :: 0 <= i < |t| ==> !IsDelimiter(t[i])
  }

  predicate Literal(body: seq<Piece>) {
    forall i :: 0 <= i < |body| ==> body[i].Plain? ==> body[i].c != '"' && body[i].c != '\\'
  }

  predicate Grammatical(j: Json) {
    match j
    case Scalar(text) => ScalarText(text)
    case Text(body) => Literal(body)
    case Array(lead, elements) => Blank(lead) && GrammaticalElements(elements)
    case Object(lead, members) => Blank(lead) && GrammaticalMembers(members)
  }

  predicate GrammaticalElements(e: Elements) {
    e.NoElements? || (Blank(e.before) && Grammatical(e.value) && Blank(e.after) && GrammaticalElements(e.rest))
  }

  predicate GrammaticalMembers(m: Members) {
    m.NoMembers?
    || (Blank(m.before) && Literal(m.key) && Blank(m.afterKey) && Blank(m.beforeValue) && Grammatical(m.value)
        && Blank(m.after) && GrammaticalMembers(m.rest))
  }

  function Spell(body: seq<Piece>): string {
    if body == [] then []
    else (if body[0].Plain? then [body[0].c] else ['\\', body[0].c]) + Spell(body[1..])
  }

  function Quote(body: seq<Piece>): string { "\"" + Spell(body) + "\"" }

  /** The text of a value followed by `tail`. */
  function Write(j: Json, tail: string): string {
    match j
    case Scalar(text) => text + tail
    case Text(body) => Quote(body) + tail
    case Array(lead, elements) => "[" + (lead + WriteElements(elements, true, "]" + tail))
    case Object(lead, members) => "{" + (lead + WriteMembers(members, true, "}" + tail))
  }

  function WriteElements(e: Elements, first: bool, tail: string): string {
    if e.NoElements? then tail
    else Comma(first, e.before + Write(e.value, e.after + WriteElements(e.rest, false, tail)))
  }

  function WriteMembers(m: Members, first: bool, tail: string): string {
    if m.NoMembers? then tail
    else
      Comma(first, WriteKey(m.before, m.key, m.afterKey, m.beforeValue,
                            Write(m.value, m.after + WriteMembers(m.rest, false, tail))))
  }

  function WriteKey(before: string, key: seq<Piece>, afterKey: string, beforeValue: string, tail: string): string {
    before + (Quote(key) + (afterKey + (":" + (beforeValue + tail))))
  }

  function Comma(first: bool, t: string): string { if first then t else "," + t }

  /** What the parser makes of it. */
  function Parsed(j: Json): Value {
    match j
    case Scalar(_) => Leaf
    case Text(_) => Leaf
    case Array(_, elements) => Container(ParsedElements(elements))
    case Object(_, members) => Container(ParsedMembers(members))
  }

  function ParsedElements(e: Elements): Items {
    if e.NoElements? then NoItems else Items(None, Parsed(e.value), ParsedElements(e.rest))
  }

  function ParsedMembers(m: Members): Items {
    if m.NoMembers? then NoItems else Items(Some(Spell(m.key)), Parsed(m.value), ParsedMembers(m.rest))
  }

  // ------------------------------------------------------------- the theorem

  lemma {:induction false} SkipBlank(blank: string, t: string, s: Lexer)
    requires Blank(blank)
    ensures Scan(blank + t, s) == Scan(t, s)
  {
    if blank == [] {
      assert blank + t == t;
    } else {
      assert (blank + t)[1..] == blank[1..] + t && (blank + t)[0] == blank[0];
      SkipBlank(blank[1..], t, s);
    }
  }

  lemma {:induction false} ReadLiteral(body: seq<Piece>, t: string)
    requires Literal(body)
    ensures AfterString(Spell(body) + "\"" + t) == Some(t)
  {
    var text := Spell(body) + "\"" + t;
    if body == [] {
      assert text[1..] == t;
    } else if body[0].Plain? {
      assert text[1..] == Spell(body[1..]) + "\"" + t;
      ReadLiteral(body[1..], t);
    } else {
      assert text[2..] == Spell(body[1..]) + "\"" + t;
      ReadLiteral(body[1..], t);
    }
  }

  lemma {:induction false} ScanLiteral(body: seq<Piece>, t: string, s: Lexer)
    requires Literal(body)
    ensures Scan(Quote(body) + t, s) == Scan(t, s.(tokens := s.tokens + 1))
  {
    assert (Quote(body) + t)[0] == '"' && (Quote(body) + t)[1..] == Spell(body) + "\"" + t;
    ReadLiteral(body, t);
  }

  /** What follows a value cannot be taken for more of it. */
  predicate Delimited(t: string) { t == [] || IsDelimiter(t[0]) }

  lemma {:induction false} ReadScalar(text: string, t: string)
    requires (forall i :: 0 <= i < |text| ==> !IsDelimiter(text[i])) && Delimited(t)
    ensures AfterScalar(text + t) == t
  {
    if text == [] {
      assert text + t == t;
    } else {
      assert (text + t)[1..] == text[1..] + t;
      ReadScalar(text[1..], t);
    }
  }

  /** The lexer after a stretch of text that uses `u`. */
  function Advance(s: Lexer, u: Usage): Lexer {
    Lexer(s.tokens + u.tokens, s.containers + u.containers, s.stack,
          if u.depth == 0 then s.depth else Max(s.depth, |s.stack| + u.depth))
  }

  lemma {:induction false} AdvanceTwice(s: Lexer, a: Usage, b: Usage)
    ensures Advance(Advance(s, a), b) == Advance(s, Plus(a, b))
    ensures |s.stack| <= s.depth ==> |Advance(s, a).stack| <= Advance(s, a).depth
  {
  }

  lemma {:induction false} ScanValue(j: Json, t: string, s: Lexer)
    requires Grammatical(j) && Delimited(t) && |s.stack| <= s.depth
    ensures Scan(Write(j, t), s) == Scan(t, Advance(s, Uses(Parsed(j))))
    decreases j
  {
    match j
    case Scalar(text) => ScanScalar(text, t, s);
    case Text(body) => ScanLiteral(body, t, s);
    case Array(lead, elements) =>
      hide Scan;
      OpenBracket('[', lead, WriteElements(elements, true, "]" + t), s);
      ScanElements(elements, true, "]" + t, Open(s, '['));
      CloseBracket('[', t, s, UsesItems(ParsedElements(elements)));
    case Object(lead, members) =>
      hide Scan;
      OpenBracket('{', lead, WriteMembers(members, true, "}" + t), s);
      ScanMembers(members, true, "}" + t, Open(s, '{'));
      CloseBracket('{', t, s, UsesItems(ParsedMembers(members)));
  }

  lemma {:induction false} ScanScalar(text: string, t: string, s: Lexer)
    requires ScalarText(text) && Delimited(t)
    ensures Scan(text + t, s) == Scan(t, s.(tokens := s.tokens + 1))
  {
    assert (text + t)[0] == text[0] && (text + t)[1..] == text[1..] + t;
    ReadScalar(text[1..], t);
  }

  lemma {:induction false} OpenBracket(c: char, lead: string, inner: string, s: Lexer)
    requires Blank(lead) && (c == '{' || c == '[')
    ensures Scan([c] + (lead + inner), s) == Scan(inner, Open(s, c))
  {
    var text := [c] + (lead + inner);
    assert text[1..] == lead + inner && !IsSpace(c);
    SkipBlank(lead, inner, Open(s, c));
  }

  lemma {:induction false} CloseBracket(c: char, t: string, s: Lexer, inside: Usage)
    requires (c == '{' || c == '[') && |s.stack| <= s.depth
    ensures Scan((if c == '{' then "}" else "]") + t, Advance(Open(s, c), inside))
            == Scan(t, Advance(s, Wrap(inside)))
  {
    var text := (if c == '{' then "}" else "]") + t;
    var e := Advance(Open(s, c), inside);
    assert text[1..] == t && !IsSpace(text[0]);
    assert e.stack[|e.stack| - 1] == c && e.stack[..|e.stack| - 1] == s.stack;
    assert e.(stack := s.stack) == Advance(s, Wrap(inside)) by {
      hide Scan;
    }
  }

  lemma {:induction false} SkipComma(first: bool, t: string, s: Lexer)
    ensures Scan(Comma(first, t), s) == Scan(t, s)
  {
    if !first { assert ("," + t)[1..] == t; }
  }

  lemma {:induction false} ScanElements(e: Elements, first: bool, t: string, s: Lexer)
    requires GrammaticalElements(e) && t != [] && t[0] == ']' && |s.stack| <= s.depth
    ensures Scan(WriteElements(e, first, t), s) == Scan(t, Advance(s, UsesItems(ParsedElements(e))))
    decreases e
  {
    if e.Elements? {
      hide Scan, Max, Advance, Plus, Write, Comma, Delimited, IsDelimiter;
      var rest := WriteElements(e.rest, false, t);
      var u := Uses(Parsed(e.value));
      SkipComma(first, e.before + Write(e.value, e.after + rest), s);
      SkipBlank(e.before, Write(e.value, e.after + rest), s);
      ElementsDelimit(e.rest, t);
      BlankDelimits(e.after, rest);
      ScanValue(e.value, e.after + rest, s);
      SkipBlank(e.after, rest, Advance(s, u));
      AdvanceTwice(s, u, UsesItems(ParsedElements(e.rest)));
      ScanElements(e.rest, false, t, Advance(s, u));
      NoKey(u);
    }
  }

  lemma {:induction false} NoKey(u: Usage)
    ensures Plus(KeyUse(None), u) == u
  {
  }

  lemma {:induction false} ElementsDelimit(e: Elements, t: string)
    requires t != [] && t[0] == ']'
    ensures var text := WriteElements(e, false, t); text != [] && IsDelimiter(text[0])
  {
  }

  lemma {:induction false} MembersDelimit(m: Members, t: string)
    requires t != [] && t[0] == '}'
    ensures var text := WriteMembers(m, false, t); text != [] && IsDelimiter(text[0])
  {
  }

  lemma {:induction false} BlankDelimits(blank: string, rest: string)
    requires Blank(blank) && rest != [] && IsDelimiter(rest[0])
    ensures Delimited(blank + rest)
  {
    if blank != [] { assert (blank + rest)[0] == blank[0]; }
  }

  lemma {:induction false} ScanMembers(m: Members, first: bool, t: string, s: Lexer)
    requires GrammaticalMembers(m) && t != [] && t[0] == '}' && |s.stack| <= s.depth
    ensures Scan(WriteMembers(m, first, t), s) == Scan(t, Advance(s, UsesItems(ParsedMembers(m))))
    decreases m
  {
    if m.Members? {
      MembersUnfold(m, first, t);
      MembersDelimit(m.rest, t);
      hide *;
      var rest := WriteMembers(m.rest, false, t);
      var key, u, more := KeyUse(Some(Spell(m.key))), Uses(Parsed(m.value)), UsesItems(ParsedMembers(m.rest));
      var value := Write(m.value, m.after + rest);
      SkipComma(first, WriteKey(m.before, m.key, m.afterKey, m.beforeValue, value), s);
      ScanKey(m.before, m.key, m.afterKey, m.beforeValue, value, s);
      BlankDelimits(m.after, rest);
      AdvanceTwice(s, key, u);
      ScanValue(m.value, m.after + rest, Advance(s, key));
      AdvanceTwice(s, Plus(key, u), more);
      var after := Advance(s, Plus(key, u));
      SkipBlank(m.after, rest, after);
      ScanMembers(m.rest, false, t, after);
    }
  }

  lemma {:induction false} MembersUnfold(m: Members, first: bool, t: string)
    requires m.Members? && GrammaticalMembers(m)
    ensures Blank(m.before) && Literal(m.key) && Blank(m.afterKey) && Blank(m.beforeValue) && Blank(m.after)
    ensures Grammatical(m.value) && GrammaticalMembers(m.rest)
    ensures WriteMembers(m, first, t)
            == Comma(first, WriteKey(m.before, m.key, m.afterKey, m.beforeValue,
                                     Write(m.value, m.after + WriteMembers(m.rest, false, t))))
    ensures UsesItems(ParsedMembers(m))
            == Plus(Plus(KeyUse(Some(Spell(m.key))), Uses(Parsed(m.value))), UsesItems(ParsedMembers(m.rest)))
  {
  }

  lemma {:induction false} ScanKey(before: string, key: seq<Piece>, afterKey: string, beforeValue: string,
                                   value: string, s: Lexer)
    requires Blank(before) && Literal(key) && Blank(afterKey) && Blank(beforeValue)
    ensures Scan(WriteKey(before, key, afterKey, beforeValue, value), s)
            == Scan(value, Advance(s, KeyUse(Some(Spell(key)))))
  {
    var keyed := s.(tokens := s.tokens + 1);
    var afterColon := beforeValue + value;
    SkipBlank(before, Quote(key) + (afterKey + (":" + afterColon)), s);
    ScanLiteral(key, afterKey + (":" + afterColon), s);
    SkipBlank(afterKey, ":" + afterColon, keyed);
    assert (":" + afterColon)[1..] == afterColon;
    SkipBlank(beforeValue, value, keyed);
  }

  /** However a value is written, the lexical pass measures exactly what the walk
      over the parsed value measures. */
  lemma {:induction false} LexicalIsParsed(before: string, j: Json, after: string)
    requires Blank(before) && Grammatical(j) && Blank(after)
    ensures Lexical(before + Write(j, after)) == Some(Uses(Parsed(j)))
  {
    assert |START.stack| <= START.depth;
    hide *;
    var u := Uses(Parsed(j));
    BlankIsDelimited(after);
    SkipBlank(before, Write(j, after), START);
    ScanValue(j, after, START);
    SkipTail(after, Advance(START, u));
    ScanEnd(before + Write(j, after), u);
  }

  lemma {:induction false} SkipTail(blank: string, s: Lexer)
    requires Blank(blank)
    ensures Scan(blank, s) == Scan([], s)
  {
    SkipBlank(blank, [], s);
    assert blank + [] == blank;
  }

  lemma {:induction false} BlankIsDelimited(t: string)
    requires Blank(t)
    ensures Delimited(t)
  {
    if t != [] { assert t[0] in " \t\n\r"; }
  }

  lemma {:induction false} ScanEnd(t: string, u: Usage)
    requires Scan(t, START) == Scan([], Advance(START, u))
    ensures Lexical(t) == Some(u)
  {
  }

  /** Hence both guards accept the same documents. */
  method BothGuards(before: string, j: Json, after: string, limits: Limits) returns (preflight: bool, walk: bool)
    requires Blank(before) && Grammatical(j) && Blank(after)
    ensures preflight == walk == Within(Uses(Parsed(j)), limits)
  {
    LexicalIsParsed(before, j, after);
    var first := Preflight(before + Write(j, after), limits);
    var second := Walk(Parsed(j), limits);
    preflight, walk := first.Ok?, second.Ok?;
  }
}
