/** The schema-directed fixture generator (scripts/contract_fixture_builders.py).

    A schema that passes the vocabulary check is a record of typed keywords.
    Registered models, the pattern table and the texts of times and UUIDs come
    from outside and are parameters.  The interpreter's stack is the fuel: running
    out of it is an error the union retry does not catch. */
module Fixtures {
  import opened JsonValue
  import opened Wrappers

  const MAX_SCHEMA_ITEMS: int := 32
  const UUID_LIMIT: nat := 0x1_0000_0000_0000_0000_0000_0000_0000_0000

  datatype Kind = ObjectKind | ArrayKind | StringKind | IntegerKind | BooleanKind | NullKind
  datatype Format = UuidFormat | TimeFormat | BinaryFormat

  /** An absent union is an empty one; `closed` is `additionalProperties: false`. */
  datatype Schema = Schema(
    ref: Option<string>, constant: Option<Json>, choices: Option<seq<Json>>,
    oneOf: seq<Schema>, anyOf: seq<Schema>, kind: Option<Kind>,
    properties: map<string, Schema>, required: seq<string>, closed: bool,
    items: Option<Schema>, minItems: Option<int>, maxItems: Option<int>,
    minLength: Option<int>, maxLength: Option<int>, format: Option<Format>, pattern: Option<string>,
    minimum: Option<int>, maximum: Option<int>)

  const ANY := Schema(None, None, None, [], [], None, map[], [], false,
                      None, None, None, None, None, None, None, None, None)

  datatype Context = Context(
    defs: map<string, Schema>,
    registered: set<string>, modelOk: (string, Json) -> bool,
    patterns: map<string, string>, matches: (string, string) -> bool,
    uuidText: nat -> string, time: string, isTime: string -> bool,
    decimal: nat -> string, large: seq<string> -> Option<int>)

  ghost predicate Sane(c: Context) {
    && (forall p :: p in c.patterns ==> c.matches(p, c.patterns[p]))
    && (forall n :: |c.uuidText(n)| == 36)
    && c.isTime(c.time)
  }

  // ------------------------------------------------------------ what a schema means

  predicate Within(n: int, least: Option<int>, most: Option<int>) {
    (least.Some? ==> least.value <= n) && (most.Some? ==> n <= most.value)
  }

  predicate OfKind(v: Json, kind: Kind) {
    match kind
    case ObjectKind => v.Object?
    case ArrayKind => v.Array?
    case StringKind => v.Text?
    case IntegerKind => v.Number?
    case BooleanKind => v.Bool?
    case NullKind => v.Null?
  }

  ghost predicate OfFormat(c: Context, text: string, format: Format) {
    match format
    case UuidFormat => exists n: nat :: text == c.uuidText(n)
    case TimeFormat => c.isTime(text)
    case BinaryFormat => true
  }

  /** The keywords that look at a value as a whole. */
  ghost predicate Fits(c: Context, v: Json, s: Schema) {
    && (s.constant.Some? ==> v == s.constant.value)
    && (s.choices.Some? ==> v in s.choices.value)
    && (s.kind.Some? ==> OfKind(v, s.kind.value))
    && (v.Text? ==>
          && Within(|v.text|, s.minLength, s.maxLength)
          && (s.format.Some? ==> OfFormat(c, v.text, s.format.value))
          && (s.pattern.Some? ==> c.matches(s.pattern.value, v.text)))
    && (v.Number? ==> Within(v.number, s.minimum, s.maximum))
    && (v.Array? ==> Within(|v.items|, s.minItems, s.maxItems))
    && (v.Object? ==> forall name :: name in s.required ==> name in v.fields)
    && (v.Object? && s.closed ==> v.fields.Keys <= s.properties.Keys)
  }

  /** All keywords together; a union is satisfied by some branch. */
  least predicate Satisfies(c: Context, v: Json, s: Schema) {
    && Fits(c, v, s)
    && (s.ref.Some? ==>
          if s.ref.value in c.registered then c.modelOk(s.ref.value, v)
          else s.ref.value in c.defs && Satisfies(c, v, c.defs[s.ref.value]))
    && (s.oneOf != [] ==> exists i :: 0 <= i < |s.oneOf| && Satisfies(c, v, s.oneOf[i]))
    && (s.anyOf != [] ==> exists i :: 0 <= i < |s.anyOf| && Satisfies(c, v, s.anyOf[i]))
    && (v.Array? && s.items.Some? ==> forall i :: 0 <= i < |v.items| ==> Satisfies(c, v.items[i], s.items.value))
    && (v.Object? ==>
          forall name :: name in v.fields && name in s.properties ==>
            Satisfies(c, v.fields[name], s.properties[name]))
  }

  // ---------------------------------------------------- when generation is sound

  function FirstChoice(choices: seq<Json>): Json {
    if choices == [] then Null else if choices[0] != Null then choices[0] else FirstChoice(choices[1..])
  }

  /** The choice taken is the first that is not null, or null if there is none. */
  lemma {:induction false} FirstChoiceIs(choices: seq<Json>) returns (i: nat)
    requires choices != []
    ensures i < |choices| && FirstChoice(choices) == choices[i]
    ensures if choices[i] == Null then forall k :: 0 <= k < |choices| ==> choices[k] == Null
            else forall k :: 0 <= k < i ==> choices[k] == Null
  {
    i := 0;
    if choices[0] == Null && |choices| > 1 {
      var j := FirstChoiceIs(choices[1..]);
      assert forall k :: 0 < k < |choices| ==> choices[k] == choices[1..][k - 1];
      i := if choices[j + 1] == Null then 0 else j + 1;
    }
  }

  /** Branches that only allow null are left for last, that is, for when there are no others. */
  predicate Candidate(alternatives: seq<Schema>, i: nat)
    requires i < |alternatives|
  {
    || alternatives[i].kind != Some(NullKind)
    || forall k :: 0 <= k < |alternatives| ==> alternatives[k].kind == Some(NullKind)
  }

  ghost predicate Narrower(c: Context, s: Schema, rest: Schema) {
    forall v :: Satisfies(c, v, s) ==> Satisfies(c, v, rest)
  }

  /** The generator follows the first of: reference, constant, choices, union, type,
      and looks no further.  In these schemas what it does not look at cannot
      contradict it: a constant or the choice taken fits all keywords; a definition
      or a branch that may be used is narrower than the keywords beside it; a
      formatted text fits its bounds.  `fuel` is how deep the generator can go. */
  ghost predicate Agrees(c: Context, s: Schema, fuel: nat)
    decreases fuel
  {
    if fuel == 0 then true
    else if s.ref.Some? then RefAgrees(c, s, fuel)
    else if s.constant.Some? then Satisfies(c, s.constant.value, s)
    else if s.choices.Some? then s.choices.value != [] ==> Satisfies(c, FirstChoice(s.choices.value), s)
    else if s.oneOf != [] then
      forall i :: 0 <= i < |s.oneOf| && Candidate(s.oneOf, i) ==>
        Agrees(c, s.oneOf[i], fuel - 1) && Narrower(c, s.oneOf[i], s.(oneOf := []))
    else if s.anyOf != [] then
      forall i :: 0 <= i < |s.anyOf| && Candidate(s.anyOf, i) ==>
        Agrees(c, s.anyOf[i], fuel - 1) && Narrower(c, s.anyOf[i], s.(anyOf := []))
    else if s.kind == Some(ObjectKind) then
      forall name :: name in s.properties && name in s.required ==> Agrees(c, s.properties[name], fuel - 1)
    else if s.kind == Some(ArrayKind) then
      s.items.Some? && Default(s.minItems, 0) > 0 ==> Agrees(c, s.items.value, fuel - 1)
    else s.kind == Some(StringKind) ==> forall n: nat :: TextAgrees(c, s, n)
  }

  ghost predicate RefAgrees(c: Context, s: Schema, fuel: nat)
    requires s.ref.Some? && fuel > 0
    decreases fuel, 0
  {
    var name, rest := s.ref.value, s.(ref := None);
    if name in c.registered then forall v :: c.modelOk(name, v) ==> Satisfies(c, v, rest)
    else name in c.defs ==> Agrees(c, c.defs[name], fuel - 1) && Narrower(c, c.defs[name], rest)
  }

  /** The schemas for which agreement is not only enough but needed: no unions, no
      keywords beside a reference, no pattern on a UUID. */
  ghost predicate Direct(c: Context, s: Schema, fuel: nat)
    decreases fuel
  {
    if fuel == 0 then true
    else if s.ref.Some? then
      s == ANY.(ref := s.ref)
      && (s.ref.value in c.registered || (s.ref.value in c.defs ==> Direct(c, c.defs[s.ref.value], fuel - 1)))
    else if s.constant.Some? || s.choices.Some? then true
    else
      && s.oneOf == [] && s.anyOf == []
      && (s.kind == Some(ObjectKind) ==>
            forall name :: name in s.properties && name in s.required ==> Direct(c, s.properties[name], fuel - 1))
      && (s.kind == Some(ArrayKind) && s.items.Some? && Default(s.minItems, 0) > 0 ==>
            Direct(c, s.items.value, fuel - 1))
      && (s.kind == Some(StringKind) ==> s.format != Some(UuidFormat) || s.pattern.None?)
  }

  /** What is promised of a generated value. */
  ghost predicate Right(c: Context, s: Schema, v: Json, fuel: nat) {
    && (Agrees(c, s, fuel) ==> Satisfies(c, v, s))
    && (Direct(c, s, fuel) && Satisfies(c, v, s) ==> Agrees(c, s, fuel))
  }

  /** A formatted string is written without a look at the bounds or the pattern. */
  predicate TextAgrees(c: Context, s: Schema, uuid: nat) {
    s.format.Some? ==>
      var text := Formatted(c, s, uuid);
      && (s.format.value != BinaryFormat ==> Within(|text|, s.minLength, s.maxLength))
      && (s.pattern.Some? ==> c.matches(s.pattern.value, text))
  }

  /** Only a type decides. */
  predicate TypedOnly(s: Schema) {
    s.ref.None? && s.constant.None? && s.choices.None? && s.oneOf == [] && s.anyOf == []
  }

  // -------------------------------------------------------------- generation

  datatype Built = Value(json: Json) | BuildError | OtherError

  function Default(bound: Option<int>, otherwise: int): int { if bound.Some? then bound.value else otherwise }

  function Repeat(n: int): (text: string)
    ensures |text| == if n < 0 then 0 else n
  {
    seq(if n < 0 then 0 else n, _ => 'x')
  }

  predicate TextBoundsOk(s: Schema) {
    var least, most := Default(s.minLength, 0), Default(s.maxLength, 4096);
    0 <= least <= most <= 65_536
  }

  function Formatted(c: Context, s: Schema, uuid: nat): string {
    if s.format == Some(UuidFormat) then c.uuidText(uuid)
    else if s.format == Some(TimeFormat) then c.time
    else Repeat(Default(s.minLength, 0))
  }

  /** The string branch, for the UUID the factory is about to hand out. */
  function TextFor(c: Context, s: Schema, uuid: nat): Built {
    var least, most := Default(s.minLength, 0), Default(s.maxLength, 4096);
    if !TextBoundsOk(s) then BuildError
    else if s.format == Some(UuidFormat) && uuid >= UUID_LIMIT then BuildError
    else if s.format.Some? then Value(Text(Formatted(c, s, uuid)))
    else if s.pattern.Some? then
      if s.pattern.value in c.patterns && least <= |c.patterns[s.pattern.value]| <= most
      then Value(Text(c.patterns[s.pattern.value])) else BuildError
    else
      var length := if least < 1 then 1 else least;
      if length > most then BuildError else Value(Text(Repeat(length)))
  }

  function IntegerFor(s: Schema): Built {
    var least := Default(s.minimum, 0);
    if s.maximum.Some? && least > s.maximum.value then BuildError else Value(Number(least))
  }

  function PlainFor(s: Schema): Built {
    if s.kind == Some(IntegerKind) then IntegerFor(s)
    else if s.kind == Some(BooleanKind) then Value(Bool(false))
    else if s.kind == Some(NullKind) then Value(Null)
    else BuildError
  }

  predicate ArrayBoundsOk(c: Context, s: Schema, path: seq<string>) {
    var least, most := Default(s.minItems, 0), Default(s.maxItems, MAX_SCHEMA_ITEMS);
    && 0 <= least <= most && least <= MAX_SCHEMA_ITEMS
    && (most <= MAX_SCHEMA_ITEMS || c.large(path) == Some(most))
  }

  // ------------------------------------------------ which schemas can be built

  /** What is known of a schema before a value is built: that one will be, that it will
      be refused, that the generator breaks, or that a registered model decides. */
  datatype Verdict = Builds | Refused | Breaks | Decides

  ghost function Foreseen(c: Context, s: Schema, path: seq<string>, fuel: nat): Verdict
    decreases fuel, 1, 0
  {
    if fuel == 0 then Breaks
    else if s.ref.Some? then
      if s.ref.value in c.registered then Decides
      else if s.ref.value !in c.defs then Refused
      else Foreseen(c, c.defs[s.ref.value], path + ["$defs", s.ref.value], fuel - 1)
    else if s.constant.Some? then Builds
    else if s.choices.Some? then if s.choices.value == [] then Refused else Builds
    else if s.oneOf != [] then FirstUsable(c, s.oneOf, path + ["oneOf"], 0, 0, fuel - 1)
    else if s.anyOf != [] then FirstUsable(c, s.anyOf, path + ["anyOf"], 0, 0, fuel - 1)
    else if s.kind == Some(ObjectKind) then AllBuilt(c, s, path, 0, fuel - 1)
    else if s.kind == Some(ArrayKind) then
      var least, most := Default(s.minItems, 0), Default(s.maxItems, 32);
      if least < 0 || most < least || least > 32 || (most > 32 && c.large(path) != Some(most)) then Refused
      else if least == 0 then Builds
      else Foreseen(c, if s.items.Some? then s.items.value else ANY, [], fuel - 1)
    else if s.kind == Some(StringKind) then if Spellable(c, s) then Builds else Refused
    else if s.kind == Some(IntegerKind) then
      if s.maximum.Some? && Default(s.minimum, 0) > s.maximum.value then Refused else Builds
    else if s.kind == Some(BooleanKind) || s.kind == Some(NullKind) then Builds
    else Refused
  }

  /** Of the branches from the `k`th on that are not null, unless all are: the first that
      is not refused decides.  `tried` have been refused so far. */
  ghost function FirstUsable(c: Context, branches: seq<Schema>, path: seq<string>,
                             k: nat, tried: nat, fuel: nat): Verdict
    requires k <= |branches|
    decreases fuel, 2, |branches| - k
  {
    if k == |branches| then Refused
    else if !Candidate(branches, k) then FirstUsable(c, branches, path, k + 1, tried, fuel)
    else
      var here := Foreseen(c, branches[k], path + [c.decimal(tried)], fuel);
      if here != Refused then here else FirstUsable(c, branches, path, k + 1, tried + 1, fuel)
  }

  /** The required properties from the `k`th on: the first that is not built decides. */
  ghost function AllBuilt(c: Context, s: Schema, path: seq<string>, k: nat, fuel: nat): Verdict
    requires k <= |s.required|
    decreases fuel, 2, |s.required| - k
  {
    if k == |s.required| then Builds
    else if s.required[k] !in s.properties then Breaks
    else
      var here := Foreseen(c, s.properties[s.required[k]], path + ["properties", s.required[k]], fuel);
      if here != Builds then here else AllBuilt(c, s, path, k + 1, fuel)
  }

  /** There is a text to be had: the bounds make sense, and there is a format, or a known
      pattern whose text is within them, or room for one character. */
  ghost predicate Spellable(c: Context, s: Schema) {
    var least, most := Default(s.minLength, 0), Default(s.maxLength, 4_096);
    && 0 <= least <= most <= 65_536
    && (s.format.None? ==>
          if s.pattern.Some? then
            s.pattern.value in c.patterns && least <= |c.patterns[s.pattern.value]| <= most
          else most > 0)
  }

  /** What is foreseen happens. */
  ghost predicate Kept(v: Verdict, r: Built) {
    match v
    case Builds => r.Value?
    case Refused => r == BuildError
    case Breaks => r == OtherError
    case Decides => true
  }

  class Factory {
    var next: nat
    /** Every UUID handed out so far. */
    ghost var drawn: seq<nat>

    ghost predicate Valid()
      reads this
    {
      && next <= UUID_LIMIT
      && (forall i, j :: 0 <= i < j < |drawn| ==> drawn[i] < drawn[j])
      && (forall i :: 0 <= i < |drawn| ==> drawn[i] < next)
    }

    constructor (first: nat)
      requires 1 <= first < UUID_LIMIT
      ensures Valid() && drawn == [] && next == first
    {
      next, drawn := first, [];
    }

    method Uuid() returns (r: Option<nat>)
      requires Valid()
      modifies this
      ensures Valid()
      ensures r.Some? ==> r.value == old(next) < UUID_LIMIT && r.value !in old(drawn) && drawn == old(drawn) + [r.value]
      ensures r.None? ==> drawn == old(drawn) && next == old(next) >= UUID_LIMIT
      ensures r.Some? ==> next == old(next) + 1
    {
      if next >= UUID_LIMIT { return None; }
      r := Some(next);
      drawn := drawn + [next];
      next := next + 1;
    }

    /** A registered model: its builder may draw UUIDs, and yields a valid model or raises. */
    method BuildRegistered(c: Context, name: string, draws: nat, json: Json) returns (r: Built)
      requires Valid()
      modifies this
      ensures Valid() && old(drawn) <= drawn && old(next) <= next
      ensures r.Value? ==> c.modelOk(name, r.json)
      ensures r == Value(json) <==> old(next) + draws <= UUID_LIMIT && c.modelOk(name, json)
      ensures r.Value? ==> next == old(next) + draws
    {
      var left := draws;
      while left > 0
        invariant Valid() && old(drawn) <= drawn && 0 <= left <= draws && next == old(next) + draws - left <= UUID_LIMIT
      {
        var uuid := Uuid();
        if uuid.None? { return BuildError; }
        left := left - 1;
      }
      r := if c.modelOk(name, json) then Value(json) else BuildError;
    }

    method SchemaValue(c: Context, s: Schema, path: seq<string>, fuel: nat) returns (r: Built)
      requires Valid() && Sane(c)
      modifies this
      ensures Valid() && old(drawn) <= drawn
      ensures r.Value? ==> Right(c, s, r.json, fuel)
      ensures old(next) <= next && (next < UUID_LIMIT ==> Kept(Foreseen(c, s, path, fuel), r))
      ensures fuel > 0 && s.ref.None? && s.constant.Some? ==> r == Value(s.constant.value) && next == old(next)
      ensures fuel > 0 && s.ref.None? && s.constant.None? && s.choices.Some? && s.choices.value != [] ==>
                r == Value(FirstChoice(s.choices.value)) && next == old(next)
      ensures fuel > 0 && TypedOnly(s) && s.kind == Some(StringKind) ==> r == TextFor(c, s, old(next))
      ensures fuel > 0 && TypedOnly(s) && s.kind == Some(StringKind) ==>
                drawn == old(drawn) + if s.format == Some(UuidFormat) && r.Value? then [old(next)] else []
      ensures fuel > 0 && TypedOnly(s) && s.kind !in {Some(ObjectKind), Some(ArrayKind), Some(StringKind)} ==>
                r == PlainFor(s)
      decreases fuel, 0
    {
      hide Right;
      if fuel == 0 { return OtherError; }
      if s.ref.Some? {
        r := Referenced(c, s, path, fuel - 1);
      } else if s.constant.Some? {
        r := Value(s.constant.value);
        FixedIsRight(c, s, fuel);
      } else if s.choices.Some? {
        if s.choices.value == [] { return BuildError; }
        r := Value(FirstChoice(s.choices.value));
        FixedIsRight(c, s, fuel);
      } else if s.oneOf != [] {
        ghost var i;
        r, i := Union(c, s.oneOf, path + ["oneOf"], fuel - 1);
        if r.Value? { OneOfIsRight(c, s, r.json, i, fuel); }
      } else if s.anyOf != [] {
        ghost var i;
        r, i := Union(c, s.anyOf, path + ["anyOf"], fuel - 1);
        if r.Value? { AnyOfIsRight(c, s, r.json, i, fuel); }
      } else {
        r := Typed(c, s, path, fuel - 1);
      }
    }

    method Referenced(c: Context, s: Schema, path: seq<string>, fuel: nat) returns (r: Built)
      requires Valid() && Sane(c) && s.ref.Some?
      modifies this
      ensures Valid() && old(drawn) <= drawn
      ensures r.Value? ==> Right(c, s, r.json, fuel + 1)
      ensures old(next) <= next && (next < UUID_LIMIT ==> Kept(Foreseen(c, s, path, fuel + 1), r))
      decreases fuel, 1
    {
      hide Right;
      var name := s.ref.value;
      if name in c.registered {
        var draws: nat, json := *, *;
        r := BuildRegistered(c, name, draws, json);
        if r.Value? { ModelIsRight(c, s, r.json, fuel + 1); }
      } else if name !in c.defs {
        r := BuildError;
      } else {
        r := SchemaValue(c, c.defs[name], path + ["$defs", name], fuel);
        if r.Value? { DefinitionIsRight(c, s, r.json, fuel + 1); }
      }
    }

    /** The branches that are not null, in order, or all of them; the first that works. */
    method Union(c: Context, alternatives: seq<Schema>, path: seq<string>, fuel: nat) returns (r: Built, ghost i: nat)
      requires Valid() && Sane(c)
      modifies this
      ensures Valid() && old(drawn) <= drawn
      ensures r.Value? ==>
                i < |alternatives| && Candidate(alternatives, i) && Right(c, alternatives[i], r.json, fuel)
      ensures old(next) <= next && (next < UUID_LIMIT ==> Kept(FirstUsable(c, alternatives, path, 0, 0, fuel), r))
      decreases fuel, 1
    {
      hide Right;
      r, i := BuildError, 0;
      var failures: nat := 0;
      var allNull := forall k :: 0 <= k < |alternatives| ==> alternatives[k].kind == Some(NullKind);
      ghost var whole := FirstUsable(c, alternatives, path, 0, 0, fuel);
      for k := 0 to |alternatives|
        invariant Valid() && old(drawn) <= drawn && old(next) <= next && r == BuildError
        invariant next < UUID_LIMIT ==>
                    whole == Decides || whole == FirstUsable(c, alternatives, path, k, failures, fuel)
      {
        if allNull || alternatives[k].kind != Some(NullKind) {
          var tried := SchemaValue(c, alternatives[k], path + [c.decimal(failures)], fuel);
          if tried != BuildError { return tried, k; }
          failures := failures + 1;
        }
      }
    }

    method Typed(c: Context, s: Schema, path: seq<string>, fuel: nat) returns (r: Built)
      requires Valid() && Sane(c) && TypedOnly(s)
      modifies this
      ensures Valid() && old(drawn) <= drawn
      ensures r.Value? ==> Right(c, s, r.json, fuel + 1)
      ensures s.kind == Some(StringKind) ==> r == TextFor(c, s, old(next))
      ensures s.kind == Some(StringKind) ==>
                drawn == old(drawn) + if s.format == Some(UuidFormat) && r.Value? then [old(next)] else []
      ensures s.kind !in {Some(ObjectKind), Some(ArrayKind), Some(StringKind)} ==> r == PlainFor(s)
      ensures old(next) <= next && (next < UUID_LIMIT ==> Kept(Foreseen(c, s, path, fuel + 1), r))
      decreases fuel, 2
    {
      hide Right;
      if s.kind == Some(ObjectKind) {
        r := ObjectValue(c, s, path, fuel);
      } else if s.kind == Some(ArrayKind) {
        r := ArrayValue(c, s, path, fuel);
      } else if s.kind == Some(StringKind) {
        ghost var uuid := next;
        r := TextFor(c, s, next);
        if s.format == Some(UuidFormat) && TextBoundsOk(s) { var drawnNow := Uuid(); }
        if r.Value? { TextIsRight(c, s, uuid, fuel + 1); }
      } else {
        r := PlainFor(s);
        if r.Value? { PlainIsRight(c, s, fuel + 1); }
      }
    }

    method ObjectValue(c: Context, s: Schema, path: seq<string>, fuel: nat) returns (r: Built)
      requires Valid() && Sane(c) && TypedOnly(s) && s.kind == Some(ObjectKind)
      modifies this
      ensures Valid() && old(drawn) <= drawn
      ensures r.Value? ==> Right(c, s, r.json, fuel + 1)
      ensures r.Value? ==> r.json.Object? && r.json.fields.Keys == (set i | 0 <= i < |s.required| :: s.required[i])
      ensures old(next) <= next && (next < UUID_LIMIT ==> Kept(Foreseen(c, s, path, fuel + 1), r))
      decreases fuel, 1
    {
      hide Right, Satisfies;
      var fields: map<string, Json> := map[];
      ghost var whole := AllBuilt(c, s, path, 0, fuel);
      for k := 0 to |s.required|
        invariant Valid() && old(drawn) <= drawn && old(next) <= next
        invariant next < UUID_LIMIT ==> whole == Decides || whole == AllBuilt(c, s, path, k, fuel)
        invariant fields.Keys == (set i | 0 <= i < k :: s.required[i]) <= s.properties.Keys
        invariant forall name :: name in fields ==> Right(c, s.properties[name], fields[name], fuel)
      {
        var name := s.required[k];
        if name !in s.properties { return OtherError; }
        var value := SchemaValue(c, s.properties[name], path + ["properties", name], fuel);
        if !value.Value? { return value; }
        fields := fields[name := value.json];
      }
      r := Value(Object(fields));
      ObjectIsRight(c, s, fields, fuel + 1);
    }

    method ArrayValue(c: Context, s: Schema, path: seq<string>, fuel: nat) returns (r: Built)
      requires Valid() && Sane(c) && TypedOnly(s) && s.kind == Some(ArrayKind)
      modifies this
      ensures Valid() && old(drawn) <= drawn
      ensures r.Value? ==> Right(c, s, r.json, fuel + 1)
      ensures r.Value? ==> r.json.Array? && |r.json.items| == if s.minItems.Some? then s.minItems.value else 0
      ensures old(next) <= next && (next < UUID_LIMIT ==> Kept(Foreseen(c, s, path, fuel + 1), r))
      decreases fuel, 1
    {
      hide Right, Satisfies;
      if !ArrayBoundsOk(c, s, path) { return BuildError; }
      var item := if s.items.Some? then s.items.value else ANY;
      var items: seq<Json> := [];
      for k := 0 to Default(s.minItems, 0)
        invariant Valid() && old(drawn) <= drawn && |items| == k && old(next) <= next
        invariant k > 0 && next < UUID_LIMIT ==> Foreseen(c, item, [], fuel) in {Builds, Decides}
        invariant forall i :: 0 <= i < k ==> Right(c, item, items[i], fuel)
      {
        var value := SchemaValue(c, item, [], fuel);
        if !value.Value? { return value; }
        items := items + [value.json];
      }
      r := Value(Array(items));
      ArrayIsRight(c, s, items, path, fuel + 1);
    }
  }

  // ------------------------------------------------------ case by case

  lemma FixedIsRight(c: Context, s: Schema, fuel: nat)
    requires fuel > 0 && s.ref.None?
    ensures s.constant.Some? ==> Right(c, s, s.constant.value, fuel)
    ensures s.constant.None? && s.choices.Some? && s.choices.value != [] ==>
              Right(c, s, FirstChoice(s.choices.value), fuel)
  {
    hide Satisfies, FirstChoice;
  }

  ghost predicate ByRef(c: Context, v: Json, s: Schema) {
    s.ref.Some? ==>
      if s.ref.value in c.registered then c.modelOk(s.ref.value, v)
      else s.ref.value in c.defs && Satisfies(c, v, c.defs[s.ref.value])
  }

  ghost predicate BySome(c: Context, v: Json, branches: seq<Schema>) {
    branches != [] ==> exists i :: 0 <= i < |branches| && Satisfies(c, v, branches[i])
  }

  ghost predicate Inside(c: Context, v: Json, items: Option<Schema>, properties: map<string, Schema>) {
    && (v.Array? && items.Some? ==> forall i :: 0 <= i < |v.items| ==> Satisfies(c, v.items[i], items.value))
    && (v.Object? ==>
          forall name :: name in v.fields && name in properties ==> Satisfies(c, v.fields[name], properties[name]))
  }

  lemma Unfold(c: Context, v: Json, s: Schema)
    ensures Satisfies(c, v, s) <==>
            Fits(c, v, s) && ByRef(c, v, s) && BySome(c, v, s.oneOf) && BySome(c, v, s.anyOf)
            && Inside(c, v, s.items, s.properties)
  {
  }

  /** A union is its branches and the keywords beside it. */
  lemma UnionSplits(c: Context, v: Json, s: Schema)
    ensures s.oneOf != [] ==>
              (Satisfies(c, v, s) <==> Satisfies(c, v, s.(oneOf := [])) && BySome(c, v, s.oneOf))
    ensures s.anyOf != [] ==>
              (Satisfies(c, v, s) <==> Satisfies(c, v, s.(anyOf := [])) && BySome(c, v, s.anyOf))
  {
    hide Satisfies, Inside, OfKind, OfFormat, Within;
    Unfold(c, v, s);
    var a, b := s.(oneOf := []), s.(anyOf := []);
    Unfold(c, v, a);
    Unfold(c, v, b);
    assert Fits(c, v, a) == Fits(c, v, s) == Fits(c, v, b);
    assert ByRef(c, v, a) == ByRef(c, v, s) == ByRef(c, v, b);
    hide Fits, ByRef;
  }

  lemma OneOfIsRight(c: Context, s: Schema, v: Json, i: nat, fuel: nat)
    requires fuel > 0 && s.ref.None? && s.constant.None? && s.choices.None?
    requires i < |s.oneOf| && Candidate(s.oneOf, i) && Right(c, s.oneOf[i], v, fuel - 1)
    ensures Right(c, s, v, fuel)
  {
    UnionSplits(c, v, s);
    hide Satisfies;
  }

  lemma AnyOfIsRight(c: Context, s: Schema, v: Json, i: nat, fuel: nat)
    requires fuel > 0 && s.ref.None? && s.constant.None? && s.choices.None? && s.oneOf == []
    requires i < |s.anyOf| && Candidate(s.anyOf, i) && Right(c, s.anyOf[i], v, fuel - 1)
    ensures Right(c, s, v, fuel)
  {
    UnionSplits(c, v, s);
    hide Satisfies;
  }

  /** A reference is its target and the keywords beside it. */
  lemma RefSplits(c: Context, v: Json, s: Schema)
    requires s.ref.Some?
    ensures Satisfies(c, v, s) <==> Satisfies(c, v, s.(ref := None)) && ByRef(c, v, s)
    ensures s == ANY.(ref := s.ref) ==> s.(ref := None) == ANY
  {
    hide Satisfies, Inside, BySome;
    Unfold(c, v, s);
    Unfold(c, v, s.(ref := None));
  }

  lemma AnySatisfies(c: Context, v: Json)
    ensures Satisfies(c, v, ANY)
  {
  }

  lemma ModelIsRight(c: Context, s: Schema, v: Json, fuel: nat)
    requires fuel > 0 && s.ref.Some? && s.ref.value in c.registered && c.modelOk(s.ref.value, v)
    ensures Right(c, s, v, fuel)
  {
    RefSplits(c, v, s);
    assert Agrees(c, s, fuel) == RefAgrees(c, s, fuel);
    hide Satisfies;
    var rest := s.(ref := None);
    if rest == ANY {
      forall w ensures Satisfies(c, w, rest) { AnySatisfies(c, w); }
    }
  }

  lemma DefinitionIsRight(c: Context, s: Schema, v: Json, fuel: nat)
    requires fuel > 0 && s.ref.Some? && s.ref.value !in c.registered && s.ref.value in c.defs
    requires Right(c, c.defs[s.ref.value], v, fuel - 1)
    ensures Right(c, s, v, fuel)
  {
    RefSplits(c, v, s);
    assert Agrees(c, s, fuel) == RefAgrees(c, s, fuel);
    hide Satisfies;
    var rest := s.(ref := None);
    if rest == ANY {
      forall w ensures Satisfies(c, w, rest) { AnySatisfies(c, w); }
    }
  }

  lemma ObjectSplits(c: Context, s: Schema, fields: map<string, Json>)
    requires TypedOnly(s) && s.kind == Some(ObjectKind)
    requires fields.Keys == (set i | 0 <= i < |s.required| :: s.required[i]) <= s.properties.Keys
    ensures Satisfies(c, Object(fields), s) <==>
            forall name :: name in fields ==> Satisfies(c, fields[name], s.properties[name])
  {
    forall name | name in s.required ensures name in fields {
      var i :| 0 <= i < |s.required| && s.required[i] == name;
    }
    assert Fits(c, Object(fields), s);
  }

  lemma ObjectIsRight(c: Context, s: Schema, fields: map<string, Json>, fuel: nat)
    requires fuel > 0 && TypedOnly(s) && s.kind == Some(ObjectKind)
    requires fields.Keys == (set i | 0 <= i < |s.required| :: s.required[i]) <= s.properties.Keys
    requires forall name :: name in fields ==> Right(c, s.properties[name], fields[name], fuel - 1)
    ensures Right(c, s, Object(fields), fuel)
  {
    ObjectSplits(c, s, fields);
    hide Satisfies;
    forall name | name in s.properties && name in s.required ensures name in fields {
      var i :| 0 <= i < |s.required| && s.required[i] == name;
    }
  }

  lemma ArraySplits(c: Context, s: Schema, items: seq<Json>, path: seq<string>)
    requires TypedOnly(s) && s.kind == Some(ArrayKind) && ArrayBoundsOk(c, s, path) && |items| == Default(s.minItems, 0)
    ensures Satisfies(c, Array(items), s) <==>
            (s.items.Some? ==> forall i :: 0 <= i < |items| ==> Satisfies(c, items[i], s.items.value))
  {
    assert Fits(c, Array(items), s);
  }

  lemma ArrayIsRight(c: Context, s: Schema, items: seq<Json>, path: seq<string>, fuel: nat)
    requires fuel > 0 && TypedOnly(s) && s.kind == Some(ArrayKind) && ArrayBoundsOk(c, s, path)
    requires |items| == Default(s.minItems, 0)
    requires forall i :: 0 <= i < |items| ==> Right(c, if s.items.Some? then s.items.value else ANY, items[i], fuel - 1)
    ensures Right(c, s, Array(items), fuel)
  {
    ArraySplits(c, s, items, path);
    hide Satisfies;
    if items != [] { assert Right(c, if s.items.Some? then s.items.value else ANY, items[0], fuel - 1); }
  }

  predicate Scalar(v: Json) { !v.Array? && !v.Object? }

  /** A scalar under a schema without references and unions. */
  lemma PlainExact(c: Context, v: Json, s: Schema)
    requires s.ref.None? && s.oneOf == [] && s.anyOf == [] && Scalar(v)
    ensures Satisfies(c, v, s) <==> Fits(c, v, s)
  {
  }

  lemma PlainIsRight(c: Context, s: Schema, fuel: nat)
    requires fuel > 0 && TypedOnly(s) && PlainFor(s).Value?
    ensures Right(c, s, PlainFor(s).json, fuel)
  {
    PlainExact(c, PlainFor(s).json, s);
    hide Satisfies;
  }

  /** A generated string satisfies its schema exactly when what the generator skipped
      does not stand against it. */
  lemma TextExact(c: Context, s: Schema, uuid: nat)
    requires Sane(c) && s.kind == Some(StringKind) && TypedOnly(s) && TextFor(c, s, uuid).Value?
    ensures Satisfies(c, TextFor(c, s, uuid).json, s) <==> TextAgrees(c, s, uuid)
  {
    var v := TextFor(c, s, uuid).json;
    PlainExact(c, v, s);
    assert s.format == Some(UuidFormat) ==> v.text == c.uuidText(uuid);
  }

  /** A string of no format and pattern is a shortest one that is not empty and within its
      bounds; a number is the least allowed one, counting from 0 if there is no bound. */
  lemma ScalarsAreLeast(c: Context, s: Schema, uuid: nat)
    requires TypedOnly(s)
    ensures s.kind == Some(StringKind) && s.format.None? && s.pattern.None? && TextFor(c, s, uuid).Value? ==>
              && TextFor(c, s, uuid).json.Text?
              && var n := |TextFor(c, s, uuid).json.text|;
                 && n >= 1 && Within(n, s.minLength, s.maxLength)
                 && forall m :: m >= 1 && Within(m, s.minLength, s.maxLength) ==> n <= m
    ensures s.format != Some(UuidFormat) ==> TextFor(c, s, uuid) == TextFor(c, s, 0)
    ensures s.kind == Some(IntegerKind) && PlainFor(s).Value? ==>
              PlainFor(s).json == Number(if s.minimum.Some? then s.minimum.value else 0)
    ensures s.kind == Some(BooleanKind) ==> PlainFor(s) == Value(Bool(false))
    ensures s.kind == Some(NullKind) ==> PlainFor(s) == Value(Null)
  {
  }

  lemma TextIsRight(c: Context, s: Schema, uuid: nat, fuel: nat)
    requires fuel > 0 && Sane(c) && s.kind == Some(StringKind) && TypedOnly(s) && TextFor(c, s, uuid).Value?
    ensures Right(c, s, TextFor(c, s, uuid).json, fuel)
  {
    TextExact(c, s, uuid);
    hide Satisfies, TextFor;
    if s.format != Some(UuidFormat) || s.pattern.None? {
      forall n: nat ensures TextAgrees(c, s, n) == TextAgrees(c, s, uuid) {
        assert s.format == Some(UuidFormat) ==> |Formatted(c, s, n)| == |Formatted(c, s, uuid)| == 36;
      }
    }
  }

  const SHORT_UUID := ANY.(kind := Some(StringKind), format := Some(UuidFormat), maxLength := Some(10))
  const ODD_CONSTANT := ANY.(constant := Some(Text("1")), kind := Some(IntegerKind))

  /** Without such a condition the generator does return values outside the schema:
      a UUID longer than its bound allows, and a constant of another type. */
  method SkippedKeywordsMatter(c: Context, f: Factory, path: seq<string>, fuel: nat)
    returns (uuid: Built, constant: Built)
    requires Sane(c) && f.Valid() && f.next < UUID_LIMIT && fuel > 0
    modifies f
    ensures uuid.Value? && !Satisfies(c, uuid.json, SHORT_UUID)
    ensures constant.Value? && !Satisfies(c, constant.json, ODD_CONSTANT)
  {
    TextExact(c, SHORT_UUID, f.next);
    PlainExact(c, Text("1"), ODD_CONSTANT);
    hide Satisfies;
    uuid := f.SchemaValue(c, SHORT_UUID, path, fuel);
    constant := f.SchemaValue(c, ODD_CONSTANT, path, fuel);
  }
}
