/**
 * The request-body schemas of the tile API (packages/server/src/utils/validation.ts):
 * `tileCreateSchema` and its all-optional variant `tileUpdateSchema`, as predicates over a
 * JSON value and as parsers to the typed inputs they infer. Keys the schema does not name are
 * dropped, as zod's default object parsing does.
 */
module Validation {
  import opened Common
  import opened Tiles

  /** A JSON value as `express.json()` delivers it; numbers are JavaScript numbers. */
  datatype Json =
    | JNull
    | JBool(b: bool)
    | JNumber(n: real)
    | JString(s: string)
    | JArray(items: seq<Json>)
    | JObject(fields: map<string, Json>)

  /** `z.string().min(1).max(128)`. */
  predicate TitleOk(v: Json) { v.JString? && 1 <= |v.s| <= 128 }
  /** `z.string().min(1)`. */
  predicate UrlOk(v: Json) { v.JString? && 1 <= |v.s| }
  /** `z.string()`: a string, so `null` is refused. */
  predicate StringOk(v: Json) { v.JString? }
  /** `z.string().max(64)`. */
  predicate CategoryOk(v: Json) { v.JString? && |v.s| <= 64 }
  /** `z.enum(["_blank", "_self"])`. */
  predicate TargetOk(v: Json) { v == JString("_blank") || v == JString("_self") }
  /** `z.number().int().nonnegative()`. */
  predicate OrderOk(v: Json) { v.JNumber? && v.n == v.n.Floor as real && v.n >= 0.0 }
  /** `z.boolean()`. */
  predicate VisibleOk(v: Json) { v.JBool? }

  /** A key that must be present and valid. */
  predicate Required(fields: map<string, Json>, key: string, ok: Json -> bool)
  {
    key in fields && ok(fields[key])
  }

  /** A key that `.optional()` lets be absent, but that must be valid when present. */
  predicate Optional(fields: map<string, Json>, key: string, ok: Json -> bool)
  {
    key in fields ==> ok(fields[key])
  }

  /** The optional keys shared by both schemas. */
  predicate OptionalFieldsOk(f: map<string, Json>)
  {
    && Optional(f, "icon", StringOk)
    && Optional(f, "category", CategoryOk)
    && Optional(f, "description", StringOk)
    && Optional(f, "target", TargetOk)
    && Optional(f, "order", OrderOk)
    && Optional(f, "visible", VisibleOk)
  }

  /** `tileCreateSchema` accepts the body. */
  predicate CreateBodyValid(body: Json)
  {
    && body.JObject?
    && Required(body.fields, "title", TitleOk)
    && Required(body.fields, "url", UrlOk)
    && OptionalFieldsOk(body.fields)
  }

  /** `tileUpdateSchema`, that is `tileCreateSchema.partial()`, accepts the body. */
  predicate UpdateBodyValid(body: Json)
  {
    && body.JObject?
    && Optional(body.fields, "title", TitleOk)
    && Optional(body.fields, "url", UrlOk)
    && OptionalFieldsOk(body.fields)
  }

  /** `TileCreateInput`: the type `tileCreateSchema` infers. */
  datatype TileCreateInput = TileCreateInput(
    title: string, url: string, icon: Option<string>, category: Option<string>,
    description: Option<string>, target: Option<Target>, order: Option<int>,
    visible: Option<bool>)

  /** `TileUpdateInput`: the type `tileUpdateSchema` infers; every field may be absent. */
  datatype TileUpdateInput = TileUpdateInput(
    title: Option<string>, url: Option<string>, icon: Option<string>, category: Option<string>,
    description: Option<string>, target: Option<Target>, order: Option<int>,
    visible: Option<bool>)

  function StringField(f: map<string, Json>, key: string): Option<string>
  {
    if key in f && f[key].JString? then Some(f[key].s) else None
  }

  function TargetField(f: map<string, Json>): Option<Target>
  {
    if "target" !in f then None
    else if f["target"] == JString("_blank") then Some(Blank)
    else if f["target"] == JString("_self") then Some(Self)
    else None
  }

  function OrderField(f: map<string, Json>): Option<int>
  {
    if "order" in f && f["order"].JNumber? then Some(f["order"].n.Floor) else None
  }

  function VisibleField(f: map<string, Json>): Option<bool>
  {
    if "visible" in f && f["visible"].JBool? then Some(f["visible"].b) else None
  }

  /** `tileCreateSchema.parse(body)`: the typed input, or None where zod throws. */
  function ParseCreate(body: Json): (r: Option<TileCreateInput>)
    ensures r.Some? <==> CreateBodyValid(body)
  {
    if !CreateBodyValid(body) then None
    else
      var f := body.fields;
      Some(TileCreateInput(f["title"].s, f["url"].s, StringField(f, "icon"),
        StringField(f, "category"), StringField(f, "description"), TargetField(f),
        OrderField(f), VisibleField(f)))
  }

  /** `tileUpdateSchema.parse(body)`: the typed input, or None where zod throws. */
  function ParseUpdate(body: Json): (r: Option<TileUpdateInput>)
    ensures r.Some? <==> UpdateBodyValid(body)
  {
    if !UpdateBodyValid(body) then None
    else
      var f := body.fields;
      Some(TileUpdateInput(StringField(f, "title"), StringField(f, "url"), StringField(f, "icon"),
        StringField(f, "category"), StringField(f, "description"), TargetField(f),
        OrderField(f), VisibleField(f)))
  }

  /** The constraints of the create schema, said of the typed input. */
  predicate CreateInputValid(x: TileCreateInput)
  {
    && 1 <= |x.title| <= 128
    && 1 <= |x.url|
    && (x.category.Some? ==> |x.category.value| <= 64)
    && (x.order.Some? ==> x.order.value >= 0)
  }

  /** The constraints of the update schema, said of the typed input. */
  predicate UpdateInputValid(x: TileUpdateInput)
  {
    && (x.title.Some? ==> 1 <= |x.title.value| <= 128)
    && (x.url.Some? ==> 1 <= |x.url.value|)
    && (x.category.Some? ==> |x.category.value| <= 64)
    && (x.order.Some? ==> x.order.value >= 0)
  }

  function StringJson(s: string): Json { JString(s) }
  function NumberJson(n: int): Json { JNumber(n as real) }
  function BoolJson(b: bool): Json { JBool(b) }

  function TargetJson(t: Target): Json
  {
    match t
    case Blank => JString("_blank")
    case Self => JString("_self")
  }

  function MapOption<T>(v: Option<T>, toJson: T -> Json): Option<Json>
  {
    if v.Some? then Some(toJson(v.value)) else None
  }

  /** The value a client sends under key `k` for a create input, if any. */
  function CreateField(x: TileCreateInput, k: string): Option<Json>
  {
    if k == "title" then Some(JString(x.title))
    else if k == "url" then Some(JString(x.url))
    else if k == "icon" then MapOption(x.icon, StringJson)
    else if k == "category" then MapOption(x.category, StringJson)
    else if k == "description" then MapOption(x.description, StringJson)
    else if k == "target" then MapOption(x.target, TargetJson)
    else if k == "order" then MapOption(x.order, NumberJson)
    else if k == "visible" then MapOption(x.visible, BoolJson)
    else None
  }

  /** The JSON body a client sends for a create input. */
  function CreateJson(x: TileCreateInput): Json
  {
    JObject(map k | k in SCHEMA_KEYS && CreateField(x, k).Some? :: CreateField(x, k).value)
  }

  /** A valid create input survives the trip through JSON and the schema unchanged. */
  lemma ParseCreateJson(x: TileCreateInput)
    requires CreateInputValid(x)
    ensures ParseCreate(CreateJson(x)) == Some(x)
  {
    var f := CreateJson(x).fields;
    CreateJsonStrings(x);
    CreateJsonOthers(x);
    assert CreateBodyValid(JObject(f));
    ParseCreateFields(f, x);
  }

  /** The key `k` of a create input's JSON holds the value `CreateField` gives, if any. */
  lemma CreateJsonAt(x: TileCreateInput, k: string)
    requires k in SCHEMA_KEYS
    ensures k in CreateJson(x).fields <==> CreateField(x, k).Some?
    ensures k in CreateJson(x).fields ==> CreateJson(x).fields[k] == CreateField(x, k).value
  {
  }

  /** The string fields read back from a create input's JSON. */
  lemma CreateJsonStrings(x: TileCreateInput)
    ensures var f := CreateJson(x).fields;
      && "title" in f && f["title"] == JString(x.title)
      && "url" in f && f["url"] == JString(x.url)
      && StringField(f, "icon") == x.icon
      && StringField(f, "category") == x.category
      && StringField(f, "description") == x.description
  {
    CreateJsonAt(x, "title");
    CreateJsonAt(x, "url");
    CreateJsonAt(x, "icon");
    CreateJsonAt(x, "category");
    CreateJsonAt(x, "description");
  }

  /** The other fields read back from a create input's JSON. */
  lemma CreateJsonOthers(x: TileCreateInput)
    ensures var f := CreateJson(x).fields;
      && TargetField(f) == x.target && OrderField(f) == x.order && VisibleField(f) == x.visible
  {
    var f := CreateJson(x).fields;
    CreateJsonAt(x, "target");
    CreateJsonAt(x, "order");
    CreateJsonAt(x, "visible");
    assert TargetField(f) == x.target by {
      if x.target.Some? {
        assert f["target"] == TargetJson(x.target.value);
      }
    }
    assert OrderField(f) == x.order by {
      if x.order.Some? {
        assert f["order"] == JNumber(x.order.value as real);
        assert (x.order.value as real).Floor == x.order.value;
      }
    }
  }

  /** Parsing yields `x` when every field of `x` is what its key reads as. */
  lemma ParseCreateFields(f: map<string, Json>, x: TileCreateInput)
    requires CreateBodyValid(JObject(f))
    requires f["title"] == JString(x.title) && f["url"] == JString(x.url)
    requires StringField(f, "icon") == x.icon && StringField(f, "category") == x.category
    requires StringField(f, "description") == x.description && TargetField(f) == x.target
    requires OrderField(f) == x.order && VisibleField(f) == x.visible
    ensures ParseCreate(JObject(f)) == Some(x)
  {
  }

  /** What the create schema accepts meets the constraints. */
  lemma ParseCreateValid(body: Json)
    requires ParseCreate(body).Some?
    ensures CreateInputValid(ParseCreate(body).value)
  {
    var f := body.fields;
    if "order" in f {
      assert f["order"].n == f["order"].n.Floor as real;
    }
  }

  /** What the update schema accepts meets the constraints. */
  lemma ParseUpdateValid(body: Json)
    requires ParseUpdate(body).Some?
    ensures UpdateInputValid(ParseUpdate(body).value)
  {
    var f := body.fields;
    if "order" in f {
      assert f["order"].n == f["order"].n.Floor as real;
    }
  }

  /** Every body the create schema accepts, the update schema accepts too. */
  lemma CreateBodyIsUpdateBody(body: Json)
    requires CreateBodyValid(body)
    ensures UpdateBodyValid(body)
  {
  }

  /** The empty object is a valid update and changes nothing. */
  lemma EmptyUpdateValid()
    ensures ParseUpdate(JObject(map[])) ==
      Some(TileUpdateInput(None, None, None, None, None, None, None, None))
  {
  }

  /** An explicit `"icon": null` is refused by both schemas. */
  lemma NullIconRefused(f: map<string, Json>)
    ensures !CreateBodyValid(JObject(f["icon" := JNull]))
    ensures !UpdateBodyValid(JObject(f["icon" := JNull]))
  {
    assert !StringOk(JNull);
  }

  /** The keys the schema names. */
  const SCHEMA_KEYS: set<string> :=
    {"title", "url", "icon", "category", "description", "target", "order", "visible"}

  /**
   * Any other key, `iconSourceUrl` among them, is dropped: adding it to a body changes neither
   * whether the body is accepted nor what is parsed from it.
   */
  lemma UnknownKeysDropped(f: map<string, Json>, key: string, v: Json)
    requires key !in SCHEMA_KEYS
    ensures ParseCreate(JObject(f[key := v])) == ParseCreate(JObject(f))
    ensures ParseUpdate(JObject(f[key := v])) == ParseUpdate(JObject(f))
  {
    var g := f[key := v];
    assert SameAt(f, g, "title") && SameAt(f, g, "url") && SameAt(f, g, "icon");
    assert SameAt(f, g, "category") && SameAt(f, g, "description");
    assert SameAt(f, g, "target") && SameAt(f, g, "order") && SameAt(f, g, "visible");
    SameSchemaFields(f, g);
  }

  /** `f` and `g` agree on key `k`. */
  predicate SameAt(f: map<string, Json>, g: map<string, Json>, k: string)
  {
    (k in g <==> k in f) && (k in f ==> g[k] == f[k])
  }

  /** Two bodies that agree on every schema key parse alike. */
  lemma SameSchemaFields(f: map<string, Json>, g: map<string, Json>)
    requires SameAt(f, g, "title") && SameAt(f, g, "url") && SameAt(f, g, "icon")
    requires SameAt(f, g, "category") && SameAt(f, g, "description")
    requires SameAt(f, g, "target") && SameAt(f, g, "order") && SameAt(f, g, "visible")
    ensures ParseCreate(JObject(g)) == ParseCreate(JObject(f))
    ensures ParseUpdate(JObject(g)) == ParseUpdate(JObject(f))
  {
    SameOptionalFields(f, g);
    SameStringField(f, g, "title");
    SameStringField(f, g, "url");
    SameStringField(f, g, "icon");
    SameStringField(f, g, "category");
    SameStringField(f, g, "description");
    assert CreateBodyValid(JObject(g)) == CreateBodyValid(JObject(f));
    assert UpdateBodyValid(JObject(g)) == UpdateBodyValid(JObject(f));
  }

  lemma SameStringField(f: map<string, Json>, g: map<string, Json>, k: string)
    requires SameAt(f, g, k)
    ensures StringField(g, k) == StringField(f, k)
  {
  }

  lemma SameOptionalFields(f: map<string, Json>, g: map<string, Json>)
    requires SameAt(f, g, "icon") && SameAt(f, g, "category") && SameAt(f, g, "description")
    requires SameAt(f, g, "target") && SameAt(f, g, "order") && SameAt(f, g, "visible")
    ensures OptionalFieldsOk(g) == OptionalFieldsOk(f)
    ensures TargetField(g) == TargetField(f)
    ensures OrderField(g) == OrderField(f)
    ensures VisibleField(g) == VisibleField(f)
  {
  }
}
