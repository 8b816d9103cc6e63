/**
 * What the configuration checker accepts, of any configuration, and what the patch writes, said by
 * the places of the configuration alone.
 */
module ConfigChecks {
  import opened Options
  import opened Json
  import opened ConfigMerge

  function ItemAt(items: Items, i: nat): Option<Value> {
    match items
    case NoItems => None
    case Item(head, tail) => if i == 0 then Some(head) else ItemAt(tail, i - 1)
  }

  /** The path of a property of the provider. */
  function ProviderPlace(provider: JsString, name: JsString): seq<JsString> {
    [Ascii("models"), Ascii("providers"), provider, name]
  }

  function ModelsPlace(provider: JsString): seq<JsString> { ProviderPlace(provider, Ascii("models")) }

  const PRIMARY_PLACE: seq<JsString> := [Ascii("agents"), Ascii("defaults"), Ascii("model"), Ascii("primary")]

  predicate HasIdAt(items: Items, id: JsString, i: nat) {
    ValueAt(ItemAt(items, i), [Ascii("id")]) == Some(Text(id))
  }

  /** The value is a list, and one of its elements has the id. */
  ghost predicate ListsModel(models: Option<Value>, id: JsString) {
    models.Some? && models.value.Array? && exists i: nat :: HasIdAt(models.value.items, id, i)
  }

  lemma {:induction false} SomeHasIdExactly(items: Items, id: JsString)
    ensures SomeHasId(items, id) <==> exists i: nat :: HasIdAt(items, id, i)
  {
    if SomeHasId(items, id) { var i := IdIsThere(items, id); }
    if i: nat :| HasIdAt(items, id, i) { ThereIsId(items, id, i); }
  }

  lemma {:induction false} IdIsThere(items: Items, id: JsString) returns (i: nat)
    requires SomeHasId(items, id)
    ensures HasIdAt(items, id, i)
  {
    ValueAtOne(Some(items.head), Ascii("id"));
    if Property(Some(items.head), ID) == Some(Text(id)) {
      i := 0;
    } else {
      var j := IdIsThere(items.tail, id);
      i := j + 1;
      assert ItemAt(items, i) == ItemAt(items.tail, j);
    }
  }

  lemma {:induction false} ThereIsId(items: Items, id: JsString, i: nat)
    requires HasIdAt(items, id, i)
    ensures SomeHasId(items, id)
  {
    ValueAtOne(ItemAt(items, i), Ascii("id"));
    if i > 0 && items.Item? { ThereIsId(items.tail, id, i - 1); }
  }

  lemma {:induction false} ValueAtOne(v: Option<Value>, name: JsString)
    ensures ValueAt(v, [name]) == Property(v, name)
  {
    assert [name][1..] == [];
  }

  /** The five places of a configuration that the checker reads. */
  lemma {:induction false} PlacesRead(config: Option<Value>, provider: JsString)
    ensures ValueAt(config, PRIMARY_PLACE)
         == Property(Property(Property(Property(config, AGENTS), DEFAULTS), MODEL), PRIMARY)
    ensures var p := Property(Property(Property(config, MODELS), PROVIDERS), provider);
      && ValueAt(config, ProviderPlace(provider, Ascii("api"))) == Property(p, API)
      && ValueAt(config, ProviderPlace(provider, Ascii("apiKey"))) == Property(p, API_KEY)
      && ValueAt(config, ProviderPlace(provider, Ascii("baseUrl"))) == Property(p, BASE_URL)
      && ValueAt(config, ModelsPlace(provider)) == Property(p, MODELS)
  {
    ValueAtFour(config, AGENTS, DEFAULTS, MODEL, PRIMARY);
    ValueAtFour(config, MODELS, PROVIDERS, provider, API);
    ValueAtFour(config, MODELS, PROVIDERS, provider, API_KEY);
    ValueAtFour(config, MODELS, PROVIDERS, provider, BASE_URL);
    ValueAtFour(config, MODELS, PROVIDERS, provider, MODELS);
  }

  /** Any configuration is accepted exactly if these five places hold what the capability says. */
  lemma {:induction false} AcceptsExactly(config: Option<Value>, s: Summary, apiKey: JsString)
    ensures HasConfig(config, s, apiKey) <==>
      (&& ValueAt(config, PRIMARY_PLACE) == Some(Text(s.primaryModel))
       && ValueAt(config, ProviderPlace(s.providerId, Ascii("api"))) == Some(Text(s.modelApi))
       && ValueAt(config, ProviderPlace(s.providerId, Ascii("apiKey"))) == Some(Text(apiKey))
       && ValueAt(config, ProviderPlace(s.providerId, Ascii("baseUrl")))
          == Some(Text(Ascii("http://localhost:18794/v1")))
       && ListsModel(ValueAt(config, ModelsPlace(s.providerId)), s.model))
  {
    PlacesRead(config, s.providerId);
    var models := ValueAt(config, ModelsPlace(s.providerId));
    if models.Some? && models.value.Array? { SomeHasIdExactly(models.value.items, s.model); }
  }

  /** Changing the primary model of an accepted configuration makes the checker reject it, whatever the new one is. */
  lemma {:induction false} OtherPrimaryRejected(config: Option<Value>, s: Summary, apiKey: JsString, primary: Value)
    requires primary != Text(s.primaryModel)
    ensures !HasConfig(Some(SetAt(config, PRIMARY_PLACE, primary)), s, apiKey)
  {
    var changed := Some(SetAt(config, PRIMARY_PLACE, primary));
    AcceptsExactly(changed, s, apiKey);
    ValueAtSet(config, PRIMARY_PLACE, primary);
  }

  // ---- What the patch writes ------------------------------------------------------------------

  /** The value with these entries and no others, in this order. */
  predicate IsObjectOf(v: Value, entries: seq<Entry>) { v == Object(Literal(entries)) }

  function Zero(): Value { Number(WholeNumber("0")) }

  /** What the source calls openai-chatgpt-responses. */
  predicate ForChatGpt(c: Capability) { c.modelApi == Ascii("openai-chatgpt-responses") }

  predicate IsModel(c: Capability, v: Value) {
    IsObjectOf(v, [
      Entry(Ascii("id"), Text(c.model)),
      Entry(Ascii("name"), Text(if ForChatGpt(c) then Ascii("OpenAI ChatGPT") else c.model)),
      Entry(Ascii("reasoning"), Bool(ForChatGpt(c))),
      Entry(Ascii("input"), Array(Item(Text(Ascii("text")), Item(Text(Ascii("image")), NoItems)))),
      Entry(Ascii("cost"), Object(Literal([
        Entry(Ascii("input"), Zero()), Entry(Ascii("output"), Zero()),
        Entry(Ascii("cacheRead"), Zero()), Entry(Ascii("cacheWrite"), Zero())]))),
      Entry(Ascii("contextWindow"), Number(WholeNumber(if ForChatGpt(c) then "200000" else "128000"))),
      Entry(Ascii("maxTokens"), Number(WholeNumber("16384")))])
  }

  lemma {:induction false} LiteralMore(entries: seq<Entry>)
    requires entries != []
    ensures Literal(entries) == Field(entries[0].name, entries[0].value, Literal(entries[1..]))
  {
  }

  lemma {:induction false} CostIsLiteral()
    ensures IsObjectOf(NO_COST, [Entry(INPUT, NOTHING), Entry(OUTPUT, NOTHING), Entry(CACHE_READ, NOTHING),
                                 Entry(CACHE_WRITE, NOTHING)])
  {
    var entries := [Entry(INPUT, NOTHING), Entry(OUTPUT, NOTHING), Entry(CACHE_READ, NOTHING),
                    Entry(CACHE_WRITE, NOTHING)];
    assert Literal(entries[4..]) == NoFields;
    assert entries[3..][1..] == entries[4..] && entries[2..][1..] == entries[3..] && entries[1..][1..] == entries[2..];
    LiteralMore(entries[3..]);
    LiteralMore(entries[2..]);
    LiteralMore(entries[1..]);
  }

  lemma {:induction false} ModelIsLiteral(c: Capability)
    ensures IsModel(c, ModelEntry(c))
  {
    CostIsLiteral();
    var e := [Entry(ID, Text(c.model)), Entry(NAME, ModelName(c)), Entry(REASONING, Bool(c.modelApi == CHATGPT)),
              Entry(INPUT, INPUTS), Entry(COST, NO_COST),
              Entry(CONTEXT_WINDOW, if c.modelApi == CHATGPT then LARGE_WINDOW else SMALL_WINDOW),
              Entry(MAX_TOKENS, TOKENS)];
    assert Literal(e[7..]) == NoFields;
    assert e[6..][1..] == e[7..] && e[5..][1..] == e[6..] && e[4..][1..] == e[5..];
    assert e[3..][1..] == e[4..] && e[2..][1..] == e[3..] && e[1..][1..] == e[2..];
    LiteralMore(e[6..]);
    LiteralMore(e[5..]);
    LiteralMore(e[4..]);
    LiteralMore(e[3..]);
    LiteralMore(e[2..]);
    LiteralMore(e[1..]);
    assert IsObjectOf(ModelEntry(c), e);
  }

  /** The primary model is the provider's, and its only model is `v`. */
  predicate Written(config: Option<Value>, c: Capability, v: Value) {
    && ValueAt(config, PRIMARY_PLACE) == Some(Text(c.provider + [47] + c.model))
    && ValueAt(config, ModelsPlace(c.provider)) == Some(Array(Item(v, NoItems)))
  }

  /** Whatever the configuration was, the provider's models are the capability's alone, at no cost. */
  lemma {:induction false} PatchWritesModel(current: Option<Value>, c: Capability) returns (v: Value)
    ensures IsModel(c, v)
    ensures Written(Some(Patched(current, CreatePatch(c))), c, v)
  {
    v := ModelEntry(c);
    ModelIsLiteral(c);
    ModelsWritten(current, c);
  }

  lemma {:induction false} ModelsWritten(current: Option<Value>, c: Capability)
    ensures Written(Some(Patched(current, CreatePatch(c))), c, ModelEntry(c))
  {
    var next := Some(Patched(current, CreatePatch(c)));
    PatchedPlaces(current, c);
    ProviderHas(c);
    ValueAtThree(next, MODELS, PROVIDERS, c.provider);
    PlacesRead(next, c.provider);
  }

  // ---- What the merge copies of a node that is no object --------------------------------------

  function EntryAt(fields: Fields, i: nat): Option<Entry> {
    match fields
    case NoFields => None
    case Field(name, value, rest) => if i == 0 then Some(Entry(name, value)) else EntryAt(rest, i - 1)
  }

  /** The number that decimal digits stand for. */
  function Reading(digits: JsString): int {
    if digits == [] then 0 else Reading(digits[..|digits| - 1]) * 10 + (digits[|digits| - 1] as int - 48)
  }

  /** `name` is the numeral of `n`: digits, without a leading zero. */
  ghost predicate IsNumeral(name: JsString, n: nat) {
    && name != [] && (forall k :: 0 <= k < |name| ==> 48 <= name[k] <= 57)
    && Reading(name) == n && (|name| > 1 ==> name[0] != 48)
  }

  lemma {:induction false} DecimalIsNumeral(n: nat)
    ensures IsNumeral(Decimal(n), n)
  {
    if n >= 10 {
      DecimalIsNumeral(n / 10);
      assert Decimal(n)[..|Decimal(n)| - 1] == Decimal(n / 10);
    } else {
      assert Decimal(n)[..0] == [];
    }
  }

  lemma {:induction false} ItemUnderIndex(items: Items, start: nat, i: nat)
    ensures var item := ItemAt(items, i);
      EntryAt(IndexedItems(items, start), i) == if item.None? then None else Some(Entry(Decimal(start + i), item.value))
  {
    if i > 0 && items.Item? { ItemUnderIndex(items.tail, start + 1, i - 1); }
  }

  lemma {:induction false} UnitUnderIndex(chars: JsString, start: nat, i: nat)
    ensures EntryAt(IndexedUnits(chars, start), i)
         == if i < |chars| then Some(Entry(Decimal(start + i), Text([chars[i]]))) else None
    decreases |chars|
  {
    if i > 0 && chars != [] { UnitUnderIndex(chars[1..], start + 1, i - 1); }
  }

  /**
   * What is copied of a node: an object's entries; an array's elements, or a string's units, in order
   * and each under the numeral of its index; of anything else, nothing.
   */
  lemma {:induction false} SpreadExactly(v: Option<Value>, i: nat)
    ensures v.Some? && v.value.Object? ==> Spread(v) == v.value.fields
    ensures v.Some? && v.value.Array? ==>
      var entry, item := EntryAt(Spread(v), i), ItemAt(v.value.items, i);
      entry.Some? == item.Some? && (entry.Some? ==> IsNumeral(entry.value.name, i) && entry.value.value == item.value)
    ensures v.Some? && v.value.Text? ==>
      var entry := EntryAt(Spread(v), i);
      && entry.Some? == (i < |v.value.chars|)
      && (entry.Some? ==> IsNumeral(entry.value.name, i) && entry.value.value == Text([v.value.chars[i]]))
    ensures v.None? || v.value.Null? || v.value.Bool? || v.value.Number? ==> Spread(v) == NoFields
  {
    DecimalIsNumeral(i);
    if v.Some? && v.value.Array? { ItemUnderIndex(v.value.items, 0, i); }
    if v.Some? && v.value.Text? { UnitUnderIndex(v.value.chars, 0, i); }
  }
}
