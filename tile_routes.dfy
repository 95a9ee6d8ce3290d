/**
 * The tile HTTP routes (packages/server/src/routes/tiles.ts) and the error mapping of the
 * application (packages/server/src/app.ts): each handler turns a request into a service
 * call on the store and the service's outcome into a status and a body. The module also
 * resolves `POST /preview-icon`, which answers with an icon without storing anything, and
 * models the order in which the router tries its routes.
 */
module TileRoutes {
  import opened Common
  import opened Text
  import opened Tiles
  import opened Oracles
  import Base64
  import Image
  import Favicon
  import opened Validation
  import opened TileService

  /** The JSON a handler answers with. */
  datatype Body =
    | TilesBody(tiles: seq<Tile>)
    | TileBody(tile: Tile)
    | IconBody(icon: Option<string>)
    | ErrorBody(error: string)
    | NoBody

  datatype Response = Response(status: int, body: Body)

  /** The error handler's answer to a `ZodError`. */
  const VALIDATION_ERROR: Response := Response(400, ErrorBody("validation_error"))
  /** The error handler's answer to Prisma's P2025. */
  const NOT_FOUND: Response := Response(404, ErrorBody("not_found"))
  /** The error handler's answer to any other error. */
  const INTERNAL_ERROR: Response := Response(500, ErrorBody("internal_server_error"))
  /** The answer of the handlers that find a null tile themselves. */
  const TILE_NOT_FOUND: Response := Response(404, ErrorBody("Not found"))
  /** The reorder handler's answer to a malformed body. */
  const INVALID_IDS: Response := Response(400, ErrorBody("Invalid ids array"))

  /** What the error handler answers for a failed database write. */
  function DbError<T>(r: DbResult<T>): (res: Response)
    requires !r.Ok?
    ensures r.RecordNotFound? <==> res.status == 404
    ensures r.UniqueViolation? <==> res.status == 500
  {
    if r.RecordNotFound? then NOT_FOUND else INTERNAL_ERROR
  }

  /**
   * The changes a parsed update body carries to `updateTile`. The schema admits neither
   * `icon: null` nor `iconSourceUrl`, so neither nullable field is ever cleared from here.
   */
  function ChangesOf(u: TileUpdateInput): (d: TileChanges)
    ensures !d.icon.Clear? && d.iconSourceUrl.Unchanged?
  {
    TileChanges(u.title, u.url, if u.icon.Some? then SetTo(u.icon.value) else Unchanged,
                Unchanged, u.category, u.description, u.target, u.order, u.visible)
  }

  /**
   * `req.body.ids` when it is an array of strings (`Array.isArray(ids) && ids.every(...)`),
   * else None.
   */
  function ReorderIds(body: Json): (r: Option<seq<string>>)
    ensures r.Some? <==>
      && body.JObject? && "ids" in body.fields && body.fields["ids"].JArray?
      && forall i :: 0 <= i < |body.fields["ids"].items| ==> body.fields["ids"].items[i].JString?
    ensures r.Some? ==>
      && |r.value| == |body.fields["ids"].items|
      && forall i :: 0 <= i < |r.value| ==> body.fields["ids"].items[i] == JString(r.value[i])
  {
    if body.JObject? && "ids" in body.fields && body.fields["ids"].JArray? then
      var items := body.fields["ids"].items;
      if forall i :: 0 <= i < |items| ==> items[i].JString? then
        Some(seq(|items|, i requires 0 <= i < |items| => items[i].s))
      else None
    else None
  }

  /** The body a client sends to reorder: `{ ids }`. */
  function IdsBody(ids: seq<string>): Json
  {
    JObject(map["ids" := JArray(seq(|ids|, i requires 0 <= i < |ids| => JString(ids[i])))])
  }

  /** The handler reads back exactly the ids the client sent. */
  lemma ReorderIdsOfIdsBody(ids: seq<string>)
    ensures ReorderIds(IdsBody(ids)) == Some(ids)
  {
    var r := ReorderIds(IdsBody(ids));
    assert r.Some?;
    assert r.value == ids;
  }

  /** `GET /`: every tile, in ascending order. */
  method HandleList(store: TileStore) returns (res: Response)
    requires store.Valid()
    ensures res.status == 200 && res.body.TilesBody?
    ensures |res.body.tiles| == |store.tiles|
    ensures forall id :: id in store.tiles ==> store.tiles[id] in res.body.tiles
    ensures forall i :: 0 <= i < |res.body.tiles| ==>
      res.body.tiles[i].id in store.tiles && store.tiles[res.body.tiles[i].id] == res.body.tiles[i]
    ensures SortedByOrder(res.body.tiles)
  {
    var tiles := store.ListTiles();
    return Response(200, TilesBody(tiles));
  }

  /** `GET /:id`: 404 exactly when there is no such tile. */
  method HandleGet(store: TileStore, id: string) returns (res: Response)
    ensures id !in store.tiles ==> res == TILE_NOT_FOUND
    ensures id in store.tiles ==> res == Response(200, TileBody(store.tiles[id]))
  {
    var tile := store.GetTile(id);
    if tile.None? {
      return TILE_NOT_FOUND;
    }
    return Response(200, TileBody(tile.value));
  }

  /** `POST /`: 400 for a body the schema refuses, else 201 with the created tile. */
  method HandleCreate(store: TileStore, env: Env, newId: string, body: Json)
    returns (res: Response)
    requires store.Valid()
    modifies store
    ensures store.Valid()
    ensures ParseCreate(body).None? ==> res == VALIDATION_ERROR && store.tiles == old(store.tiles)
    ensures ParseCreate(body).Some? && newId in old(store.tiles) ==>
      res == INTERNAL_ERROR && store.tiles == old(store.tiles)
    ensures ParseCreate(body).Some? && newId !in old(store.tiles) ==>
      && res.status == 201 && res.body.TileBody?
      && IsNextOrder(old(store.tiles), res.body.tile.order)
      && res.body.tile == NewTile(env, newId, res.body.tile.order, ParseCreate(body).value)
      && store.tiles == old(store.tiles)[newId := res.body.tile]
  {
    var parsed := ParseCreate(body);
    if parsed.None? {
      return VALIDATION_ERROR;
    }
    var r := store.CreateTile(env, newId, parsed.value);
    if !r.Ok? {
      return DbError(r);
    }
    return Response(201, TileBody(r.value));
  }

  /** `PUT /:id`: 400 for a refused body, 404 for an unknown id, else 200 with the tile. */
  method HandleUpdate(store: TileStore, env: Env, id: string, body: Json) returns (res: Response)
    requires store.Valid()
    modifies store
    ensures store.Valid()
    ensures ParseUpdate(body).None? ==> res == VALIDATION_ERROR && store.tiles == old(store.tiles)
    ensures ParseUpdate(body).Some? && id !in old(store.tiles) ==>
      res == NOT_FOUND && store.tiles == old(store.tiles)
    ensures ParseUpdate(body).Some? && id in old(store.tiles) ==>
      var t := UpdatedTile(env, old(store.tiles)[id], ChangesOf(ParseUpdate(body).value));
      res == Response(200, TileBody(t)) && store.tiles == old(store.tiles)[id := t]
  {
    var parsed := ParseUpdate(body);
    if parsed.None? {
      return VALIDATION_ERROR;
    }
    var r := store.UpdateTile(env, id, ChangesOf(parsed.value));
    if !r.Ok? {
      return DbError(r);
    }
    return Response(200, TileBody(r.value));
  }

  /** `DELETE /:id`: 204 with no body, or 404. */
  method HandleDelete(store: TileStore, id: string) returns (res: Response)
    requires store.Valid()
    modifies store
    ensures store.Valid()
    ensures id in old(store.tiles) ==>
      res == Response(204, NoBody) && store.tiles == old(store.tiles) - {id}
    ensures id !in old(store.tiles) ==> res == NOT_FOUND && store.tiles == old(store.tiles)
  {
    var r := store.DeleteTile(id);
    if !r.Ok? {
      return DbError(r);
    }
    return Response(204, NoBody);
  }

  /**
   * `PUT /reorder`: 400, without calling the service, unless `ids` is an array of strings;
   * 404 when an id is unknown; else 200 with the updated tiles.
   */
  method HandleReorder(store: TileStore, body: Json) returns (res: Response)
    requires store.Valid()
    modifies store
    ensures store.Valid()
    ensures ReorderIds(body).None? ==> res == INVALID_IDS && store.tiles == old(store.tiles)
    ensures ReorderIds(body).Some? ==>
      var ids := ReorderIds(body).value;
      && ((exists i :: 0 <= i < |ids| && ids[i] !in old(store.tiles)) ==>
            res == NOT_FOUND && store.tiles == old(store.tiles))
      && ((forall i :: 0 <= i < |ids| ==> ids[i] in old(store.tiles)) ==>
            && res.status == 200 && res.body.TilesBody? && |res.body.tiles| == |ids|
            && (forall i :: 0 <= i < |ids| ==>
                  res.body.tiles[i] == old(store.tiles)[ids[i]].(order := i + 1))
            && store.tiles == Reordered(old(store.tiles), ids))
  {
    var ids := ReorderIds(body);
    if ids.None? {
      return INVALID_IDS;
    }
    var r := store.ReorderTiles(ids.value);
    if !r.Ok? {
      return DbError(r);
    }
    return Response(200, TilesBody(r.value));
  }

  /** `PUT /:id/refresh-icon`: 404 exactly when the tile is unknown. */
  method HandleRefreshIcon(store: TileStore, env: Env, id: string) returns (res: Response)
    requires store.Valid()
    modifies store
    ensures store.Valid()
    ensures id !in old(store.tiles) <==> res == TILE_NOT_FOUND
    ensures id !in old(store.tiles) ==> store.tiles == old(store.tiles)
    ensures id in old(store.tiles) ==>
      var favicon := Favicon.FaviconOf(env.parseUrl, env.fetch, old(store.tiles)[id].url);
      var t := if favicon.Some? then old(store.tiles)[id].(icon := favicon)
               else old(store.tiles)[id];
      res == Response(200, TileBody(t)) && store.tiles == old(store.tiles)[id := t]
  {
    var tile := store.RefreshTileIcon(env, id);
    if tile.None? {
      return TILE_NOT_FOUND;
    }
    return Response(200, TileBody(tile.value));
  }

  // ---------------------------------------------------------------------------------------
  // POST /preview-icon

  /** The preview handler's own download cap: 200 KiB. */
  const PREVIEW_MAX_BYTES: nat := 200 * 1024

  /** The fields of the preview request body that the handler can use (each absent or a string). */
  datatype PreviewRequest = PreviewRequest(
    url: Option<string>, iconSourceUrl: Option<string>, uploadedIcon: Option<string>)

  /**
   * A destructured field of the body: its value when the body is an object that has it,
   * and `JNull` (which the handler treats like `undefined`) otherwise.
   */
  function BodyField(body: Json, key: string): (v: Json)
    ensures body.JObject? && key in body.fields ==> v == body.fields[key]
    ensures !(body.JObject? && key in body.fields) ==> v.JNull?
  {
    if body.JObject? && key in body.fields then body.fields[key] else JNull
  }

  /** A field as the handler can use it: `Some(s)` exactly when it is the string `s`. */
  function StringField(body: Json, key: string): (r: Option<string>)
    ensures r.Some? <==> BodyField(body, key).JString?
    ensures r.Some? ==> BodyField(body, key) == JString(r.value)
  {
    var v := BodyField(body, key);
    if v.JString? then Some(v.s) else None
  }

  /**
   * The body read the way the handler reads it, which does not validate it. An
   * `uploadedIcon` that is present, not null and not a string has no `startsWith` to call,
   * so the handler throws: None. A non-string `iconSourceUrl` makes the request throw inside
   * the guarded download, and a non-string `url` never parses as a page URL; both therefore
   * yield no icon, like an absent field.
   */
  function PreviewRequestOf(body: Json): (r: Option<PreviewRequest>)
    ensures r.None? <==> !BodyField(body, "uploadedIcon").JNull? && !BodyField(body, "uploadedIcon").JString?
    ensures r.Some? ==>
      && (r.value.url.Some? <==> BodyField(body, "url").JString?)
      && (r.value.url.Some? ==> BodyField(body, "url") == JString(r.value.url.value))
      && (r.value.iconSourceUrl.Some? <==> BodyField(body, "iconSourceUrl").JString?)
      && (r.value.iconSourceUrl.Some? ==>
            BodyField(body, "iconSourceUrl") == JString(r.value.iconSourceUrl.value))
      && (r.value.uploadedIcon.Some? <==> BodyField(body, "uploadedIcon").JString?)
      && (r.value.uploadedIcon.Some? ==>
            BodyField(body, "uploadedIcon") == JString(r.value.uploadedIcon.value))
  {
    var u := BodyField(body, "uploadedIcon");
    if !u.JNull? && !u.JString? then None
    else Some(PreviewRequest(StringField(body, "url"), StringField(body, "iconSourceUrl"),
                             StringField(body, "uploadedIcon")))
  }

  /**
   * A body of the shape the handler declares for itself: an object whose `url`,
   * `iconSourceUrl` and `uploadedIcon`, each optional, are strings.
   */
  function PreviewBody(req: PreviewRequest): Json
  {
    var m: map<string, Json> := map[];
    var m := if req.url.Some? then m["url" := JString(req.url.value)] else m;
    var m := if req.iconSourceUrl.Some? then m["iconSourceUrl" := JString(req.iconSourceUrl.value)] else m;
    var m := if req.uploadedIcon.Some? then m["uploadedIcon" := JString(req.uploadedIcon.value)] else m;
    JObject(m)
  }

  /** On a body of the declared shape, the handler reads back exactly its fields. */
  lemma PreviewBodyRoundTrip(req: PreviewRequest)
    ensures PreviewRequestOf(PreviewBody(req)) == Some(req)
  {
    var b := PreviewBody(req);
    assert StringField(b, "url") == req.url;
    assert StringField(b, "iconSourceUrl") == req.iconSourceUrl;
    assert StringField(b, "uploadedIcon") == req.uploadedIcon;
  }

  /** The `content-type` the handler uses: the header, or the first element of an array. */
  function SingleContentType(h: HeaderValue): Option<string>
  {
    match h
    case Absent => None
    case Single(v) => Some(v)
    case Multiple(vs) => if vs == [] then None else Some(vs[0])
  }

  /**
   * The chunk loop: adds each chunk's length to `total`, stops at the first chunk that takes
   * the total over `maxBytes` (without keeping it), and otherwise keeps every chunk.
   * `failed` says that the stream threw after its last chunk, which only a loop that did not
   * stop can observe.
   */
  method AccumulateChunks(chunks: seq<seq<byte>>, bodyFails: bool, maxBytes: nat)
    returns (kept: seq<seq<byte>>, total: nat, failed: bool)
    ensures total <= maxBytes <==> TotalLength(chunks) <= maxBytes
    ensures total <= maxBytes ==>
      kept == chunks && total == TotalLength(chunks) && failed == bodyFails
    ensures total > maxBytes ==>
      && |kept| < |chunks| && kept == chunks[..|kept|] && !failed
      && TotalLength(kept) <= maxBytes
      && total == TotalLength(kept) + |chunks[|kept|]|
  {
    kept := [];
    total := 0;
    var i := 0;
    while i < |chunks|
      invariant 0 <= i <= |chunks|
      invariant kept == chunks[..i]
      invariant total == TotalLength(chunks[..i]) <= maxBytes
    {
      assert chunks[..i + 1][..i] == chunks[..i];
      total := total + |chunks[i]|;
      if total > maxBytes {
        TotalLengthPrefix(chunks, i + 1);
        return kept, total, false;
      }
      kept := kept + [chunks[i]];
      i := i + 1;
    }
    assert chunks[..i] == chunks;
    failed := bodyFails;
  }

  /**
   * The icon downloaded from `iconSourceUrl`: the body as a `data:` URL labelled with the
   * raw `content-type` (parameters and case kept), when the request succeeded with a status
   * under 400, an `image/...` type, a body of at most 200 KiB and no read error. The bytes
   * are not sanitised.
   */
  function SourceIcon(response: Option<RawResponse>): Option<string>
  {
    match response
    case None => None
    case Some(res) =>
      var ct := SingleContentType(res.contentType);
      if ct.Some? && StartsWith(ct.value, "image/") && res.statusCode < 400
         && TotalLength(res.chunks) <= PREVIEW_MAX_BYTES && !res.bodyFails
      then Some(Image.DataUrl(ct.value, Concat(res.chunks)))
      else None
  }

  /**
   * The preview icon: a `data:` upload, sanitised (an upload that is refused does not fall
   * back to the source URL); otherwise the download from a non-empty `iconSourceUrl`; and,
   * when neither gave an icon, the favicon of a non-empty `url`.
   */
  function PreviewIconOf(env: Env, req: PreviewRequest): Option<string>
  {
    var icon :=
      if req.uploadedIcon.Some? && StartsWith(req.uploadedIcon.value, "data:") then
        Image.SanitizeDataUrl(req.uploadedIcon.value, env.raster)
      else if req.iconSourceUrl.Some? && req.iconSourceUrl.value != "" then
        SourceIcon(env.request(req.iconSourceUrl.value))
      else None;
    if (icon.None? || icon.value == "") && req.url.Some? && req.url.value != "" then
      Favicon.FaviconOf(env.parseUrl, env.fetch, req.url.value)
    else icon
  }

  /**
   * `POST /preview-icon`: a 500 from the error handler when the body's `uploadedIcon` is
   * neither absent, null nor a string; otherwise 200 with the resolved icon (or none).
   */
  method HandlePreviewIcon(env: Env, body: Json) returns (res: Response)
    ensures PreviewRequestOf(body).None? ==> res == INTERNAL_ERROR
    ensures PreviewRequestOf(body).Some? ==>
      res == Response(200, IconBody(PreviewIconOf(env, PreviewRequestOf(body).value)))
  {
    var parsed := PreviewRequestOf(body);
    if parsed.None? {
      return INTERNAL_ERROR;
    }
    var req := parsed.value;
    var icon: Option<string> := None;
    if req.uploadedIcon.Some? && StartsWith(req.uploadedIcon.value, "data:") {
      icon := Image.SanitizeDataUrl(req.uploadedIcon.value, env.raster);
    } else if req.iconSourceUrl.Some? && req.iconSourceUrl.value != "" {
      var response := env.request(req.iconSourceUrl.value);
      if response.Some? {
        var r := response.value;
        var singleCt := SingleContentType(r.contentType);
        if singleCt.Some? && StartsWith(singleCt.value, "image/") && r.statusCode < 400 {
          var chunks, total, failed := AccumulateChunks(r.chunks, r.bodyFails, PREVIEW_MAX_BYTES);
          if !failed && total <= PREVIEW_MAX_BYTES {
            var buf := Concat(chunks);
            var b64 := Base64.Encode(buf);
            icon := Some("data:" + singleCt.value + ";base64," + b64);
          }
        }
      }
    }
    if (icon.None? || icon.value == "") && req.url.Some? && req.url.value != "" {
      var favicon, _ := Favicon.FetchFaviconBase64(env.parseUrl, env.fetch, req.url.value);
      icon := favicon;
    }
    return Response(200, IconBody(icon));
  }

  /** An accepted `data:` upload decides the preview, whatever the other fields say. */
  lemma PreviewUploadFirst(env: Env, req: PreviewRequest)
    requires req.uploadedIcon.Some? && StartsWith(req.uploadedIcon.value, "data:")
    requires Image.SanitizeDataUrl(req.uploadedIcon.value, env.raster).Some?
    ensures PreviewIconOf(env, req) == Image.SanitizeDataUrl(req.uploadedIcon.value, env.raster)
  {
    Image.SanitizedIsData(req.uploadedIcon.value, env.raster);
  }

  /**
   * A refused `data:` upload goes straight to the favicon step: the source URL is not
   * requested, so no answer of the requester changes the result.
   */
  lemma PreviewRefusedUploadSkipsSource(env: Env, req: PreviewRequest, other: Requester)
    requires req.uploadedIcon.Some? && StartsWith(req.uploadedIcon.value, "data:")
    requires Image.SanitizeDataUrl(req.uploadedIcon.value, env.raster).None?
    ensures PreviewIconOf(env, req) ==
      if req.url.Some? && req.url.value != ""
      then Favicon.FaviconOf(env.parseUrl, env.fetch, req.url.value) else None
    ensures PreviewIconOf(env.(request := other), req) == PreviewIconOf(env, req)
  {
  }

  /** Without an upload or a source URL, the preview is the page's favicon. */
  lemma PreviewFaviconOnly(env: Env, url: string)
    requires url != ""
    ensures PreviewIconOf(env, PreviewRequest(Some(url), None, None)) ==
      Favicon.FaviconOf(env.parseUrl, env.fetch, url)
  {
  }

  /**
   * A downloaded icon exists exactly when the gates pass; it embeds the header verbatim and
   * its payload decodes back to the concatenated body.
   */
  lemma SourceIconSpec(res: RawResponse)
    ensures SourceIcon(Some(res)).Some? <==>
      && SingleContentType(res.contentType).Some?
      && StartsWith(SingleContentType(res.contentType).value, "image/")
      && res.statusCode < 400 && !res.bodyFails
      && TotalLength(res.chunks) <= PREVIEW_MAX_BYTES
    ensures SourceIcon(Some(res)).Some? ==>
      var ct := SingleContentType(res.contentType).value;
      var icon := SourceIcon(Some(res)).value;
      && StartsWith(icon, "data:" + ct + ";base64,")
      && Base64.Decode(icon[|"data:" + ct + ";base64,"|..]) == Some(Concat(res.chunks))
  {
    if SourceIcon(Some(res)).Some? {
      var ct := SingleContentType(res.contentType).value;
      var icon := SourceIcon(Some(res)).value;
      var prefix := "data:" + ct + ";base64,";
      assert icon == prefix + Base64.Encode(Concat(res.chunks));
      assert icon[|prefix|..] == Base64.Encode(Concat(res.chunks));
      Base64.DecodeEncode(Concat(res.chunks));
    }
  }

  /** Only the first value of a repeated `content-type` counts. */
  lemma FirstContentTypeCounts(ct: string, more: seq<string>)
    ensures SingleContentType(Multiple([ct] + more)) == Some(ct)
  {
  }

  // ---------------------------------------------------------------------------------------
  // Route order

  datatype Verb = GET | POST | PUT | DELETE

  /** One path segment of a route: a literal, or a `:param` matching any non-empty segment. */
  datatype Segment = Literal(text: string) | Param

  /** The handlers of the router. */
  datatype Endpoint =
    | ListEndpoint | GetEndpoint | CreateEndpoint | UpdateEndpoint | DeleteEndpoint
    | ReorderEndpoint | RefreshIconEndpoint | PreviewIconEndpoint

  datatype RouteDef = RouteDef(verb: Verb, pattern: seq<Segment>, endpoint: Endpoint)

  /** The routes in the order the router registers them (paths below `/api/v1/tiles`). */
  const ROUTES: seq<RouteDef> := [
    RouteDef(GET, [], ListEndpoint),
    RouteDef(GET, [Param], GetEndpoint),
    RouteDef(POST, [], CreateEndpoint),
    RouteDef(PUT, [Param], UpdateEndpoint),
    RouteDef(DELETE, [Param], DeleteEndpoint),
    RouteDef(PUT, [Literal("reorder")], ReorderEndpoint),
    RouteDef(PUT, [Param, Literal("refresh-icon")], RefreshIconEndpoint),
    RouteDef(POST, [Literal("preview-icon")], PreviewIconEndpoint)
  ]

  /** The same routes with `PUT /reorder` registered before `PUT /:id`. */
  const ROUTES_INTENDED: seq<RouteDef> := [
    RouteDef(GET, [], ListEndpoint),
    RouteDef(GET, [Param], GetEndpoint),
    RouteDef(POST, [], CreateEndpoint),
    RouteDef(PUT, [Literal("reorder")], ReorderEndpoint),
    RouteDef(PUT, [Param], UpdateEndpoint),
    RouteDef(DELETE, [Param], DeleteEndpoint),
    RouteDef(PUT, [Param, Literal("refresh-icon")], RefreshIconEndpoint),
    RouteDef(POST, [Literal("preview-icon")], PreviewIconEndpoint)
  ]

  /**
   * Whether a path segment matches: `Router()` leaves `caseSensitive` off, so a literal
   * (written in lower case) matches every ASCII case variant of itself, and only those, since
   * a regular expression with the `i` flag and without `u` never folds a non-ASCII character
   * onto an ASCII one.
   */
  predicate SegmentMatches(seg: Segment, s: string)
  {
    match seg
    case Literal(text) => ToLower(s) == text
    case Param => s != ""
  }

  predicate Matches(pattern: seq<Segment>, path: seq<string>)
  {
    |pattern| == |path| && forall i :: 0 <= i < |path| ==> SegmentMatches(pattern[i], path[i])
  }

  /** The values the `:param` segments take. */
  function Params(pattern: seq<Segment>, path: seq<string>): seq<string>
    requires |pattern| == |path|
  {
    if pattern == [] then []
    else (if pattern[0].Param? then [path[0]] else []) + Params(pattern[1..], path[1..])
  }

  /**
   * The first route that answers, with its parameters; None, which the app answers with
   * 404, exactly when no route answers.
   */
  function Dispatch(routes: seq<RouteDef>, verb: Verb, path: seq<string>)
    : (r: Option<(Endpoint, seq<string>)>)
    ensures r.None? <==> forall i :: 0 <= i < |routes| ==> !Answers(routes[i], verb, path)
    ensures r.Some? ==>
      exists i ::
        && 0 <= i < |routes| && Answers(routes[i], verb, path)
        && (forall j :: 0 <= j < i ==> !Answers(routes[j], verb, path))
        && r.value == (routes[i].endpoint, Params(routes[i].pattern, path))
  {
    if routes == [] then None
    else if Answers(routes[0], verb, path) then
      Some((routes[0].endpoint, Params(routes[0].pattern, path)))
    else
      var r := Dispatch(routes[1..], verb, path);
      if r.Some? then
        ghost var i :| && 0 <= i < |routes[1..]| && Answers(routes[1..][i], verb, path)
          && (forall j :: 0 <= j < i ==> !Answers(routes[1..][j], verb, path))
          && r.value == (routes[1..][i].endpoint, Params(routes[1..][i].pattern, path));
        assert routes[i + 1] == routes[1..][i];
        assert forall j :: 0 <= j < i + 1 ==> !Answers(routes[j], verb, path) by {
          forall j | 0 <= j < i + 1 ensures !Answers(routes[j], verb, path) {
            if j > 0 {
              assert routes[j] == routes[1..][j - 1];
            }
          }
        }
        r
      else
        assert forall i :: 0 <= i < |routes| ==> !Answers(routes[i], verb, path) by {
          forall i | 0 <= i < |routes| ensures !Answers(routes[i], verb, path) {
            if i > 0 {
              assert routes[i] == routes[1..][i - 1];
            }
          }
        }
        r
  }

  /** The route that answers a request, when none before it does, decides its dispatch. */
  lemma DispatchFirst(routes: seq<RouteDef>, verb: Verb, path: seq<string>, i: nat)
    requires i < |routes| && Answers(routes[i], verb, path)
    requires forall j :: 0 <= j < i ==> !Answers(routes[j], verb, path)
    ensures Dispatch(routes, verb, path) == Some((routes[i].endpoint, Params(routes[i].pattern, path)))
  {
    var r := Dispatch(routes, verb, path);
    var k :| && 0 <= k < |routes| && Answers(routes[k], verb, path)
      && (forall j :: 0 <= j < k ==> !Answers(routes[j], verb, path))
      && r.value == (routes[k].endpoint, Params(routes[k].pattern, path));
    assert k == i;
  }

  /** A path segment that the reorder route's literal matches: a case variant of `reorder`. */
  predicate IsReorderSegment(s: string)
  {
    ToLower(s) == "reorder"
  }

  /**
   * As registered, `PUT /reorder` reaches the update handler with id `"reorder"`, and the
   * update schema strips the `ids` key: the client's reorder request never reaches
   * `reorderTiles`, and with no tile of that id it is answered 404 without any write.
   */
  lemma ReorderCapturedByUpdate(ids: seq<string>)
    ensures Dispatch(ROUTES, PUT, ["reorder"]) == Some((UpdateEndpoint, ["reorder"]))
    ensures ParseUpdate(IdsBody(ids)) ==
      Some(TileUpdateInput(None, None, None, None, None, None, None, None))
  {
    ToLowerOfLower("reorder");
    ReorderDispatchedToUpdate("reorder");
    IdsBodyIsEmptyUpdate(ids);
  }

  /**
   * The routing half: the first route answering `PUT /reorder`, in any ASCII case, is
   * `PUT /:id`.
   */
  lemma ReorderDispatchedToUpdate(seg: string)
    requires IsReorderSegment(seg)
    ensures Dispatch(ROUTES, PUT, [seg]) == Some((UpdateEndpoint, [seg]))
  {
    var path := [seg];
    assert |seg| == 7;
    assert Answers(ROUTES[3], PUT, path);
    assert Params([Param], path) == path;
    DispatchFirst(ROUTES, PUT, path, 3);
  }

  /** The validation half: a body holding only `ids` is the empty update. */
  lemma IdsBodyIsEmptyUpdate(ids: seq<string>)
    ensures ParseUpdate(IdsBody(ids)) ==
      Some(TileUpdateInput(None, None, None, None, None, None, None, None))
  {
    var f := IdsBody(ids).fields;
    assert f.Keys == {"ids"};
    assert UpdateBodyValid(IdsBody(ids));
  }

  /** Registered first, the reorder route is reached by `PUT /reorder`, in any ASCII case. */
  lemma ReorderReachedWhenFirst(seg: string)
    requires IsReorderSegment(seg)
    ensures Dispatch(ROUTES_INTENDED, PUT, [seg]) == Some((ReorderEndpoint, []))
  {
    assert Answers(ROUTES_INTENDED[3], PUT, [seg]);
    assert Params([Literal("reorder")], [seg]) == [];
    DispatchFirst(ROUTES_INTENDED, PUT, [seg], 3);
  }

  /** Whether the route answers the request. */
  predicate Answers(route: RouteDef, verb: Verb, path: seq<string>)
  {
    route.verb == verb && Matches(route.pattern, path)
  }

  /** Swapping two adjacent routes that never both answer a request changes nothing. */
  lemma {:induction false} DispatchSwap(pre: seq<RouteDef>, a: RouteDef, b: RouteDef,
                                        post: seq<RouteDef>, verb: Verb, path: seq<string>)
    requires !(Answers(a, verb, path) && Answers(b, verb, path))
    ensures Dispatch(pre + [a, b] + post, verb, path) == Dispatch(pre + [b, a] + post, verb, path)
    decreases |pre|
  {
    if pre == [] {
      assert ([a, b] + post)[1..] == [b] + post && ([b] + post)[1..] == post;
      assert ([b, a] + post)[1..] == [a] + post && ([a] + post)[1..] == post;
    } else {
      assert (pre + [a, b] + post)[1..] == pre[1..] + [a, b] + post;
      assert (pre + [b, a] + post)[1..] == pre[1..] + [b, a] + post;
      DispatchSwap(pre[1..], a, b, post, verb, path);
    }
  }

  /**
   * Moving the reorder route changes the dispatch of no request other than `PUT /reorder`
   * in its case variants.
   */
  lemma IntendedAgreesElsewhere(verb: Verb, path: seq<string>)
    requires !(verb == PUT && |path| == 1 && IsReorderSegment(path[0]))
    ensures Dispatch(ROUTES_INTENDED, verb, path) == Dispatch(ROUTES, verb, path)
  {
    var pre := ROUTES[..3];
    var update, delete, reorder := ROUTES[3], ROUTES[4], ROUTES[5];
    var post := ROUTES[6..];
    OnlyReorderOverlaps(verb, path);
    RoutesAsSwapped(pre, update, delete, reorder, post);
    DispatchSwap(pre + [update], delete, reorder, post, verb, path);
    DispatchSwap(pre, update, reorder, [delete] + post, verb, path);
  }

  /**
   * Apart from `PUT /reorder` in its case variants, no request is answered by both `PUT /:id`
   * and `PUT /reorder`.
   */
  lemma OnlyReorderOverlaps(verb: Verb, path: seq<string>)
    requires !(verb == PUT && |path| == 1 && IsReorderSegment(path[0]))
    ensures !(Answers(ROUTES[3], verb, path) && Answers(ROUTES[5], verb, path))
    ensures !(Answers(ROUTES[4], verb, path) && Answers(ROUTES[5], verb, path))
  {
  }

  /** The two route lists as the same pieces, in the two orders. */
  lemma RoutesAsSwapped(pre: seq<RouteDef>, update: RouteDef, delete: RouteDef,
                        reorder: RouteDef, post: seq<RouteDef>)
    requires pre == ROUTES[..3] && post == ROUTES[6..]
    requires update == ROUTES[3] && delete == ROUTES[4] && reorder == ROUTES[5]
    ensures ROUTES == pre + [update] + [delete, reorder] + post
    ensures pre + [update] + [reorder, delete] + post == pre + [update, reorder] + ([delete] + post)
    ensures ROUTES_INTENDED == pre + [reorder, update] + ([delete] + post)
  {
  }

  /**
   * Moving the reorder route first changes the endpoint of a request exactly when it is
   * `PUT /reorder` in some ASCII case: those leave the update handler for the reorder handler.
   */
  lemma IntendedChangesExactlyReorder(verb: Verb, path: seq<string>)
    ensures Dispatch(ROUTES_INTENDED, verb, path) != Dispatch(ROUTES, verb, path) <==>
      verb == PUT && |path| == 1 && IsReorderSegment(path[0])
  {
    if verb == PUT && |path| == 1 && IsReorderSegment(path[0]) {
      assert path == [path[0]];
      ReorderDispatchedToUpdate(path[0]);
      ReorderReachedWhenFirst(path[0]);
    } else {
      IntendedAgreesElsewhere(verb, path);
    }
  }
}
