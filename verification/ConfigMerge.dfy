/** The capability's configuration patch, its merge and its checker (src/openclaw-capability-config.ts,
    src/openclaw-wizard-rpc-bridge.ts). */
module ConfigMerge {
  import opened Options
  import opened Json

  const AGENTS: JsString := Ascii("agents")
  const DEFAULTS: JsString := Ascii("defaults")
  const MODEL: JsString := Ascii("model")
  const PRIMARY: JsString := Ascii("primary")
  const MODELS: JsString := Ascii("models")
  const PROVIDERS: JsString := Ascii("providers")
  const API: JsString := Ascii("api")
  const API_KEY: JsString := Ascii("apiKey")
  const BASE_URL: JsString := Ascii("baseUrl")
  const ID: JsString := Ascii("id")
  const LOCAL_URL: JsString := Ascii("http://localhost:18794/v1")
  const CHATGPT: JsString := Ascii("openai-chatgpt-responses")

  datatype Capability = Capability(provider: JsString, model: JsString, modelApi: JsString, apiKey: JsString)

  datatype Summary = Summary(model: JsString, modelApi: JsString, primaryModel: JsString, providerId: JsString)

  // ---- Objects --------------------------------------------------------------------------------

  /** `v?.name`; an absent value stands for undefined. */
  function Property(v: Option<Value>, name: JsString): Option<Value> {
    if v.Some? && v.value.Object? then Get(v.value.fields, name) else None
  }

  function Decimal(n: nat): (s: JsString)
    ensures s != [] && 48 <= s[0] < 58
  {
    if n < 10 then [(48 + n) as CodeUnit] else Decimal(n / 10) + [(48 + n % 10) as CodeUnit]
  }

  function IndexedItems(items: Items, n: nat): Fields {
    match items
    case NoItems => NoFields
    case Item(head, tail) => Field(Decimal(n), head, IndexedItems(tail, n + 1))
  }

  function IndexedUnits(chars: JsString, n: nat): Fields {
    if chars == [] then NoFields else Field(Decimal(n), Text([chars[0]]), IndexedUnits(chars[1..], n + 1))
  }

  /** `...(v ?? {})`: arrays and strings spread their elements under their indices, other non-objects nothing. */
  function Spread(v: Option<Value>): Fields {
    if v.None? then NoFields
    else
      match v.value
      case Object(fields) => fields
      case Array(items) => IndexedItems(items, 0)
      case Text(chars) => IndexedUnits(chars, 0)
      case _ => NoFields
  }

  /** `{...base, ...over}`. */
  function PutAll(base: Fields, over: Fields): Fields
    decreases over
  {
    match over
    case NoFields => base
    case Field(name, value, rest) => PutAll(Put(base, name, value), rest)
  }

  // ---- The patch, the merge and the checker ---------------------------------------------------

  const NAME: JsString := Ascii("name")
  const REASONING: JsString := Ascii("reasoning")
  const INPUT: JsString := Ascii("input")
  const OUTPUT: JsString := Ascii("output")
  const CACHE_READ: JsString := Ascii("cacheRead")
  const CACHE_WRITE: JsString := Ascii("cacheWrite")
  const COST: JsString := Ascii("cost")
  const CONTEXT_WINDOW: JsString := Ascii("contextWindow")
  const MAX_TOKENS: JsString := Ascii("maxTokens")

  const NOTHING: Value := Number(WholeNumber("0"))
  const SMALL_WINDOW: Value := Number(WholeNumber("128000"))
  const LARGE_WINDOW: Value := Number(WholeNumber("200000"))
  const TOKENS: Value := Number(WholeNumber("16384"))

  const INPUTS: Value := Array(Item(Text(Ascii("text")), Item(Text(Ascii("image")), NoItems)))

  const NO_COST: Value :=
    Object(Field(INPUT, NOTHING,
      Field(OUTPUT, NOTHING, Field(CACHE_READ, NOTHING, Field(CACHE_WRITE, NOTHING, NoFields)))))

  function ModelName(c: Capability): Value {
    Text(if c.modelApi == CHATGPT then Ascii("OpenAI ChatGPT") else c.model)
  }

  function ModelEntry(c: Capability): Value {
    var chatgpt := c.modelApi == CHATGPT;
    Object(Field(ID, Text(c.model),
           Field(NAME, ModelName(c),
           Field(REASONING, Bool(chatgpt),
           Field(INPUT, INPUTS,
           Field(COST, NO_COST,
           Field(CONTEXT_WINDOW, if chatgpt then LARGE_WINDOW else SMALL_WINDOW,
           Field(MAX_TOKENS, TOKENS, NoFields))))))))
  }

  function ProviderEntry(c: Capability): Value {
    Object(Literal([Entry(API, Text(c.modelApi)), Entry(API_KEY, Text(c.apiKey)), Entry(BASE_URL, Text(LOCAL_URL)),
                    Entry(MODELS, Array(Item(ModelEntry(c), NoItems)))]))
  }

  function PrimaryModel(c: Capability): JsString { c.provider + [47] + c.model }

  function Single(name: JsString, value: Value): Value { Object(Field(name, value, NoFields)) }

  function CreatePatch(c: Capability): Value {
    Object(Field(AGENTS, Single(DEFAULTS, Single(MODEL, Single(PRIMARY, Text(PrimaryModel(c))))),
           Field(MODELS, Single(PROVIDERS, Single(c.provider, ProviderEntry(c))), NoFields)))
  }

  function SummaryOf(c: Capability): Summary {
    Summary(c.model, c.modelApi, PrimaryModel(c), c.provider)
  }

  /** The merge of patchConfig. */
  function Patched(current: Option<Value>, patch: Value): Value {
    var agents := Property(current, AGENTS);
    var defaults := Property(agents, DEFAULTS);
    var models := Property(current, MODELS);
    var patchModel := Property(Property(Property(Some(patch), AGENTS), DEFAULTS), MODEL);
    var patchProviders := Property(Property(Some(patch), MODELS), PROVIDERS);
    var model' := Object(PutAll(Spread(Property(defaults, MODEL)), Spread(patchModel)));
    var providers' := Object(PutAll(Spread(Property(models, PROVIDERS)), Spread(patchProviders)));
    Object(Put(Put(Spread(current),
                   AGENTS, Object(Put(Spread(agents), DEFAULTS, Object(Put(Spread(defaults), MODEL, model'))))),
               MODELS, Object(Put(Spread(models), PROVIDERS, providers'))))
  }

  predicate SomeHasId(items: Items, id: JsString) {
    items.Item? && (Property(Some(items.head), ID) == Some(Text(id)) || SomeHasId(items.tail, id))
  }

  /** hasOpenClawCapabilityConfig, on the parsed configuration. */
  predicate HasConfig(config: Option<Value>, s: Summary, apiKey: JsString) {
    var model := Property(Property(Property(config, AGENTS), DEFAULTS), MODEL);
    var provider := Property(Property(Property(config, MODELS), PROVIDERS), s.providerId);
    var models := Property(provider, MODELS);
    && Property(model, PRIMARY) == Some(Text(s.primaryModel))
    && Property(provider, API) == Some(Text(s.modelApi))
    && Property(provider, API_KEY) == Some(Text(apiKey))
    && Property(provider, BASE_URL) == Some(Text(LOCAL_URL))
    && models.Some? && models.value.Array? && SomeHasId(models.value.items, s.model)
  }

  // ---- Setting one place ----------------------------------------------------------------------

  function ValueAt(v: Option<Value>, path: seq<JsString>): Option<Value>
    decreases path
  {
    if path == [] then v else ValueAt(Property(v, path[0]), path[1..])
  }

  /** `v` with `leaf` at `path`, every object on the way copied. */
  function SetAt(v: Option<Value>, path: seq<JsString>, leaf: Value): Value
    decreases path
  {
    if path == [] then leaf
    else Object(Put(Spread(v), path[0], SetAt(Property(v, path[0]), path[1..], leaf)))
  }

  lemma {:induction false} ValueAtSet(v: Option<Value>, path: seq<JsString>, leaf: Value)
    ensures ValueAt(Some(SetAt(v, path, leaf)), path) == Some(leaf)
    decreases path
  {
    if path != [] {
      GetPut(Spread(v), path[0], SetAt(Property(v, path[0]), path[1..], leaf), path[0]);
      ValueAtSet(Property(v, path[0]), path[1..], leaf);
    }
  }

  /** Setting what is there already changes nothing. */
  lemma {:induction false} SetSame(v: Value, path: seq<JsString>, leaf: Value)
    requires ValueAt(Some(v), path) == Some(leaf)
    ensures SetAt(Some(v), path, leaf) == v
    decreases path
  {
    if path != [] {
      var inner := Property(Some(v), path[0]);
      if inner == None { ValueAtNone(path[1..]); }
      SetSame(inner.value, path[1..], leaf);
      PutSame(v.fields, path[0], inner.value);
    }
  }

  lemma {:induction false} ValueAtNone(path: seq<JsString>)
    ensures ValueAt(None, path) == None
  {
    if path != [] { ValueAtNone(path[1..]); }
  }

  /** Neither path goes through the other. */
  predicate Apart(a: seq<JsString>, b: seq<JsString>) {
    a != [] && b != [] && (a[0] != b[0] || Apart(a[1..], b[1..]))
  }

  /** Every value on the way, before the end of the path, is an object, null or absent. */
  predicate ObjectsOnTheWay(v: Option<Value>, path: seq<JsString>)
    decreases path
  {
    path != [] ==> (v.None? || v.value.Null? || v.value.Object?) && ObjectsOnTheWay(Property(v, path[0]), path[1..])
  }

  /** Setting one place leaves every place apart from it as it was. */
  lemma {:induction false} ValueAtElsewhere(v: Option<Value>, path: seq<JsString>, leaf: Value, other: seq<JsString>)
    requires Apart(path, other) && ObjectsOnTheWay(v, path)
    ensures ValueAt(Some(SetAt(v, path, leaf)), other) == ValueAt(v, other)
    decreases path
  {
    GetPut(Spread(v), path[0], SetAt(Property(v, path[0]), path[1..], leaf), other[0]);
    assert Get(Spread(v), other[0]) == Property(v, other[0]);
    if path[0] == other[0] { ValueAtElsewhere(Property(v, path[0]), path[1..], leaf, other[1..]); }
  }

  // ---- The merge sets two places --------------------------------------------------------------

  const PRIMARY_PATH: seq<JsString> := [AGENTS, DEFAULTS, MODEL, PRIMARY]

  function ProviderPath(c: Capability): seq<JsString> { [MODELS, PROVIDERS, c.provider] }

  predicate IsIndex(name: JsString) { name != [] && 48 <= name[0] < 58 }

  lemma {:induction false} IndexedItemsHave(items: Items, n: nat, name: JsString)
    requires !IsIndex(name)
    ensures Get(IndexedItems(items, n), name) == None
  {
    if items.Item? { IndexedItemsHave(items.tail, n + 1, name); }
  }

  lemma {:induction false} IndexedUnitsHave(chars: JsString, n: nat, name: JsString)
    requires !IsIndex(name)
    ensures Get(IndexedUnits(chars, n), name) == None
  {
    if chars != [] { IndexedUnitsHave(chars[1..], n + 1, name); }
  }

  lemma {:induction false} SpreadHas(v: Option<Value>, name: JsString)
    requires !IsIndex(name)
    ensures Get(Spread(v), name) == Property(v, name)
  {
    if v.Some? && v.value.Array? { IndexedItemsHave(v.value.items, 0, name); }
    if v.Some? && v.value.Text? { IndexedUnitsHave(v.value.chars, 0, name); }
  }

  lemma {:induction false} NamesDiffer()
    ensures AGENTS != MODELS && !IsIndex(AGENTS) && !IsIndex(MODELS)
    ensures API != API_KEY && API != BASE_URL && API != MODELS && API_KEY != BASE_URL && API_KEY != MODELS
            && BASE_URL != MODELS
  {
    assert AGENTS[0] == 97 && MODELS[0] == 109;
    assert |API| == 3 && |API_KEY| == 6 && |BASE_URL| == 7 && |MODELS| == 6 && API_KEY[0] == 97;
  }

  lemma {:induction false} PatchParts(c: Capability)
    ensures Property(Property(Property(Some(CreatePatch(c)), AGENTS), DEFAULTS), MODEL)
            == Some(Single(PRIMARY, Text(PrimaryModel(c))))
    ensures Property(Property(Some(CreatePatch(c)), MODELS), PROVIDERS) == Some(Single(c.provider, ProviderEntry(c)))
  {
    NamesDiffer();
    var p := CreatePatch(c);
    assert Get(p.fields, MODELS) == Get(p.fields.rest, MODELS)
      == Some(Single(PROVIDERS, Single(c.provider, ProviderEntry(c))));
  }

  lemma {:induction false} SetFour(v: Option<Value>, a: JsString, b: JsString, c: JsString, d: JsString, leaf: Value)
    ensures SetAt(v, [a, b, c, d], leaf)
         == Object(Put(Spread(v), a,
              Object(Put(Spread(Property(v, a)), b, SetAt(Property(Property(v, a), b), [c, d], leaf)))))
  {
    assert [a, b, c, d][1..] == [b, c, d] && [b, c, d][1..] == [c, d];
  }

  lemma {:induction false} SetTwo(v: Option<Value>, a: JsString, b: JsString, leaf: Value)
    ensures SetAt(v, [a, b], leaf) == Object(Put(Spread(v), a, Object(Put(Spread(Property(v, a)), b, leaf))))
  {
    var w := Property(v, a);
    assert [a, b][1..] == [b] && [b][1..] == [];
    assert SetAt(w, [b], leaf) == Object(Put(Spread(w), b, SetAt(Property(w, b), [], leaf)));
  }

  lemma {:induction false} PutSingle(base: Fields, name: JsString, value: Value)
    ensures PutAll(base, Field(name, value, NoFields)) == Put(base, name, value)
  {
    assert PutAll(Put(base, name, value), NoFields) == Put(base, name, value);
  }

  /** Setting one place leaves the other properties of the value. */
  lemma {:induction false} SetElsewhere(v: Option<Value>, path: seq<JsString>, leaf: Value, name: JsString)
    requires path != [] && path[0] != name && !IsIndex(name)
    ensures SetAt(v, path, leaf).Object? && Property(Some(SetAt(v, path, leaf)), name) == Property(v, name)
  {
    GetPut(Spread(v), path[0], SetAt(Property(v, path[0]), path[1..], leaf), name);
    SpreadHas(v, name);
  }

  lemma {:induction false} SetThree(v: Value, a: JsString, b: JsString, c: JsString, leaf: Value)
    requires v.Object?
    ensures SetAt(Some(v), [a, b, c], leaf) == Object(Put(v.fields, a,
              Object(Put(Spread(Property(Some(v), a)), b,
                Object(Put(Spread(Property(Property(Some(v), a), b)), c, leaf))))))
  {
    assert [a, b, c][1..] == [b, c];
    SetTwo(Property(Some(v), a), b, c, leaf);
  }

  /** For any current configuration, the merge with the generated patch sets the primary model and one provider. */
  lemma {:induction false} PatchSetsTwoPlaces(current: Option<Value>, c: Capability)
    ensures Patched(current, CreatePatch(c))
         == SetAt(Some(SetAt(current, PRIMARY_PATH, Text(PrimaryModel(c)))), ProviderPath(c), ProviderEntry(c))
  {
    NamesDiffer();
    PatchParts(c);
    var agents, leaf := Property(current, AGENTS), Text(PrimaryModel(c));
    var first := SetAt(current, PRIMARY_PATH, leaf);
    SetFour(current, AGENTS, DEFAULTS, MODEL, PRIMARY, leaf);
    SetTwo(Property(agents, DEFAULTS), MODEL, PRIMARY, leaf);
    SetElsewhere(current, PRIMARY_PATH, leaf, MODELS);
    SetThree(first, MODELS, PROVIDERS, c.provider, ProviderEntry(c));
    PutSingle(Spread(Property(Property(agents, DEFAULTS), MODEL)), PRIMARY, leaf);
    PutSingle(Spread(Property(Property(current, MODELS), PROVIDERS)), c.provider, ProviderEntry(c));
  }

  /** The merge's result has exactly the generated values in the two places. */
  lemma {:induction false} PatchedPlaces(current: Option<Value>, c: Capability)
    ensures var next := Some(Patched(current, CreatePatch(c)));
      && ValueAt(next, PRIMARY_PATH) == Some(Text(PrimaryModel(c)))
      && ValueAt(next, ProviderPath(c)) == Some(ProviderEntry(c))
  {
    var first := SetAt(current, PRIMARY_PATH, Text(PrimaryModel(c)));
    PatchSetsTwoPlaces(current, c);
    ValueAtSet(current, PRIMARY_PATH, Text(PrimaryModel(c)));
    ValueAtSet(Some(first), ProviderPath(c), ProviderEntry(c));
    NamesDiffer();
    PlaceElsewhere(Some(first), ProviderPath(c), ProviderEntry(c), PRIMARY_PATH);
  }

  /** Setting one place leaves the places under other properties. */
  lemma {:induction false} PlaceElsewhere(v: Option<Value>, path: seq<JsString>, leaf: Value, other: seq<JsString>)
    requires path != [] && other != [] && path[0] != other[0] && !IsIndex(other[0])
    ensures ValueAt(Some(SetAt(v, path, leaf)), other) == ValueAt(v, other)
  {
    SetElsewhere(v, path, leaf, other[0]);
  }

  /** Applying the patch twice is applying it once, for any current configuration. */
  lemma {:induction false} PatchIdempotent(current: Option<Value>, c: Capability)
    ensures var next := Patched(current, CreatePatch(c)); Patched(Some(next), CreatePatch(c)) == next
  {
    var next := Patched(current, CreatePatch(c));
    PatchedPlaces(current, c);
    PatchSetsTwoPlaces(Some(next), c);
    SetSame(next, PRIMARY_PATH, Text(PrimaryModel(c)));
    SetSame(next, ProviderPath(c), ProviderEntry(c));
  }

  /** Where the touched nodes are objects, null or absent, every place apart from the two is as it was. */
  lemma {:induction false} PatchChangesNothingElse(current: Option<Value>, c: Capability, path: seq<JsString>)
    requires ObjectsOnTheWay(current, PRIMARY_PATH) && ObjectsOnTheWay(current, ProviderPath(c))
    requires Apart(PRIMARY_PATH, path) && Apart(ProviderPath(c), path)
    ensures ValueAt(Some(Patched(current, CreatePatch(c))), path) == ValueAt(current, path)
  {
    var first := SetAt(current, PRIMARY_PATH, Text(PrimaryModel(c)));
    PatchSetsTwoPlaces(current, c);
    ValueAtElsewhere(current, PRIMARY_PATH, Text(PrimaryModel(c)), path);
    NamesDiffer();
    SetElsewhere(current, PRIMARY_PATH, Text(PrimaryModel(c)), MODELS);
    assert ObjectsOnTheWay(Some(first), ProviderPath(c));
    ValueAtElsewhere(Some(first), ProviderPath(c), ProviderEntry(c), path);
  }

  lemma {:induction false} ProviderHas(c: Capability)
    ensures var p := Some(ProviderEntry(c));
      && Property(p, API) == Some(Text(c.modelApi)) && Property(p, API_KEY) == Some(Text(c.apiKey))
      && Property(p, BASE_URL) == Some(Text(LOCAL_URL))
      && Property(p, MODELS) == Some(Array(Item(ModelEntry(c), NoItems)))
  {
    NamesDiffer();
    var entries := [Entry(API, Text(c.modelApi)), Entry(API_KEY, Text(c.apiKey)), Entry(BASE_URL, Text(LOCAL_URL)),
                    Entry(MODELS, Array(Item(ModelEntry(c), NoItems)))];
    GetLiteral(entries, 0);
    GetLiteral(entries, 1);
    GetLiteral(entries, 2);
    GetLiteral(entries, 3);
  }

  lemma {:induction false} ValueAtThree(v: Option<Value>, a: JsString, b: JsString, c: JsString)
    ensures ValueAt(v, [a, b, c]) == Property(Property(Property(v, a), b), c)
  {
    assert [a, b, c][1..] == [b, c] && [b, c][1..] == [c] && [c][1..] == [];
    assert ValueAt(Property(Property(v, a), b), [c]) == ValueAt(Property(Property(Property(v, a), b), c), []);
  }

  lemma {:induction false} ValueAtFour(v: Option<Value>, a: JsString, b: JsString, c: JsString, d: JsString)
    ensures ValueAt(v, [a, b, c, d]) == Property(Property(Property(Property(v, a), b), c), d)
  {
    assert [a, b, c, d][1..] == [b, c, d];
    ValueAtThree(Property(v, a), b, c, d);
  }

  /** The checker accepts the merged configuration exactly with the capability's key, whatever was there before. */
  lemma {:induction false} CheckerAcceptsExactly(current: Option<Value>, c: Capability, apiKey: JsString)
    ensures HasConfig(Some(Patched(current, CreatePatch(c))), SummaryOf(c), apiKey) <==> apiKey == c.apiKey
  {
    var next := Some(Patched(current, CreatePatch(c)));
    PatchedPlaces(current, c);
    ValueAtFour(next, AGENTS, DEFAULTS, MODEL, PRIMARY);
    ValueAtThree(next, MODELS, PROVIDERS, c.provider);
    ProviderHas(c);
  }
}
