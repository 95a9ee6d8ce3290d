# HomeLab Application Hub: icon acquisition, the tile table and the client's list rules

This project models the core of a small home-lab dashboard in Dafny and proves properties of the model.
The dashboard is a list of link tiles, each with an optional icon.

- **Server.** A REST router over a table of tiles does the following:
  - It validates request bodies against a schema.
  - It appends new tiles after the highest `order`.
  - It applies partial updates, refreshes icons, deletes tiles and reorders them.
  - It resolves a tile's icon from one of three sources: an uploaded `data:` URL (sanitised), a remote image, or the site's favicon, probed at four conventional paths.
- **Client.** The model covers these rules:
  - the drag-and-drop reorder of the grid;
  - the optimistic update of the tile cache, with rollback;
  - the classification of icon strings;
  - a card's fallback initial and link `rel`;
  - the icon picker's checks and state changes.

## Modules

| module | file | models |
|---|---|---|
| `Common` | `common.dfy` | `Option`, bytes, concatenation of chunks |
| `Text` | `text.dfy` | prefix and index search, ASCII `toLowerCase`, JavaScript `trim` |
| `Base64` | `base64.dfy` | the base64 alphabet with padding (section 4 of RFC 4648): encoder and strict decoder |
| `Oracles` | `oracles.dfy` | the types of the collaborators that are not modelled: HTTP clients, URL parser, image pipeline |
| `Tiles` | `tiles.dfy` | the tile record |
| `Image` | `image.dfy` | `data:` URL parsing, metadata stripping and normalisation, sanitising, remote image download |
| `Favicon` | `favicon.dfy` | the favicon probe |
| `Validation` | `validation.dfy` | the create and update schemas over a JSON value |
| `TileService` | `tile_service.dfy` | the tile table, as a class `TileStore` whose `tiles` map the methods update |
| `TileRoutes` | `tile_routes.dfy` | the route handlers, the error mapping of the app, the preview-icon cascade with its chunk loop, and route dispatch |
| `UseTiles` | `use_tiles.dfy` | the optimistic reorder and rollback of the tile cache (class `TilesCache`) |
| `TileGrid` | `tile_grid.dfy` | `handleDragEnd` and `arrayMove` |
| `IconUtils` | `icon_utils.dfy` | `isDataUrl`, `tileHasIconUrl` |
| `TileCard` | `tile_card.dfy` | the fallback initial, the link target and `rel`, the avatar |
| `IconPicker` | `icon_picker.dfy` | the picker's checks and derived values, and its state as class `IconPickerState` |

## Modelling choices

- **Collaborators as parameters.** These are function values passed in, bundled in `Oracles.Env`:
  - the network (undici's `request` and `fetch`);
  - the WHATWG `URL` parser;
  - the `sharp` pipeline.

  A rejected promise or a thrown exception is `None`. Every `try`/`catch` that maps a failure to `null` is then an `Option` result.
- **The tile table** is a `map` from id to tile, held by the `TileStore` class.
  - Prisma's "record not found" (P2025) becomes `DbResult.RecordNotFound`.
  - A clash with an existing id (P2002) becomes `DbResult.UniqueViolation`.
  - The app's error handler maps them to 404 `not_found` and 500.
  - The new tile's id (a database default) is a parameter of `CreateTile`.
- **`updateTile` has its own input type, `TileChanges`.** Its `icon` and `iconSourceUrl` are each `Unchanged | Clear | SetTo(v)`, where `Clear` is an explicit `null`. The update route converts the parsed body with `ChangesOf`, which never produces `Clear`. The reason is the schema: it refuses a `null` icon and does not know `iconSourceUrl`.
- **JSON numbers are `real`, and string lengths count characters.** The only numeric rule is that `order` is a non-negative integer. The rounding of doubles is not modelled (see "Left out").

## Model

| member | source | states |
|---|---|---|
| `Common.TotalLengthPrefix` | packages/server/src/routes/tiles.ts:108-113 | the running total over a prefix of the chunks never exceeds the total of all of them |
| `Text.IndexOf` | packages/server/src/utils/image.ts:21 | -1 exactly when the character is absent, else the position of its first occurrence |
| `Text.BeforeFirst` | packages/server/src/utils/image.ts:81 | `split(";")[0]`: a prefix without the separator, followed by the separator unless it is the whole string |
| `Text.ToLower` | packages/server/src/utils/image.ts:23 | same length, each character lower-cased |
| `Text.ToLowerOfLower` | packages/server/src/utils/image.ts:23-24 | lower-casing an already lower-case string changes nothing |
| `Text.TrimSpec` | packages/client/src/utils/icon.ts:7 | `trim` is the slice left after removing the leading and trailing white space, and the slice neither starts nor ends with white space |
| `Text.TrimEmptyIff` | packages/client/src/utils/icon.ts:7-8 | the trimmed string is empty exactly when every character is white space |
| `Base64.ValueOfCharOf` | packages/server/src/utils/image.ts:26 | decoding an alphabet character gives back its value |
| `Base64.Encode` | packages/server/src/utils/image.ts:42 | the encoding has 4 characters per started group of 3 bytes |
| `Base64.EncodeAlphabet` | packages/server/src/utils/image.ts:42 | every character of an encoding is from the alphabet or `=`, so it holds no `;` and no line break |
| `Base64.GroupRoundTrip` | packages/server/src/utils/image.ts:26 | decoding the encoding of 3 bytes gives them back |
| `Base64.TwoRoundTrip` | packages/server/src/utils/image.ts:26 | decoding the padded encoding of 2 bytes gives them back |
| `Base64.OneRoundTrip` | packages/server/src/utils/image.ts:26 | decoding the padded encoding of 1 byte gives it back |
| `Base64.DecodeEncode` | packages/server/src/utils/image.ts:26 | `Decode(Encode(bs)) == Some(bs)` for every byte string |
| `Base64.GroupCanonical` | packages/server/src/utils/image.ts:26 | a decodable 4-character group is the encoding of the 3 bytes it decodes to |
| `Base64.LastCanonical` | packages/server/src/utils/image.ts:26 | a decodable final group, padded or not, is the encoding of what it decodes to |
| `Base64.EncodeDecode` | packages/server/src/utils/image.ts:26 | every decodable string is the encoding of what it decodes to |
| `Base64.DecodeIff` | packages/server/src/utils/image.ts:26 | `Decode(s) == Some(bs)` exactly when `s == Encode(bs)` |
| `Image.MatchDataUrlIff` | packages/server/src/utils/image.ts:21-22 | `MatchDataUrl`, the data-URL regex, matches with groups `(m, p)` exactly when the string is `data:` + m + `;base64,` + p, with m non-empty and free of `;`, and p free of line terminators |
| `Image.ParseDataUrl` | packages/server/src/utils/image.ts:20-32 | on success the regex matched, the mime is the lower-cased first group and one of the seven allowed types, and 1 to 204800 bytes were decoded |
| `Image.EncodingSingleLine` | packages/server/src/utils/image.ts:42-43 | an encoded payload has no line terminator and no `;` |
| `Image.ParseDataUrlOfDataUrl` | packages/server/src/utils/image.ts:20-32 | a `data:` URL built from an allowed type in any case and some bytes parses back to the lower-cased type and exactly those bytes, or to null outside 1..204800 bytes |
| `Image.ParseDataUrlIsDataUrl` | packages/server/src/utils/image.ts:20-32 | whatever parses is the `data:` URL of its bytes under a type that lower-cases to the parsed mime |
| `Image.StripMetadataAndNormalize` | packages/server/src/utils/image.ts:34-62 | SVG: a result exactly when the input is at most 204800 bytes, namely the SVG `data:` URL of the input bytes; other types: a result exactly when the pipeline succeeds with at most 204800 bytes, namely the PNG `data:` URL of its output |
| `Image.RasterResultIsPng` | packages/server/src/utils/image.ts:52-58 | every raster result starts with `data:image/png;base64,` |
| `Image.DataUrlIsData` | packages/server/src/utils/image.ts:43 | a built `data:` URL starts with `data:` |
| `Image.SanitizedIsData` | packages/server/src/utils/image.ts:64-68 | every sanitised icon starts with `data:` |
| `Image.SanitizeDataUrl` | packages/server/src/utils/image.ts:64-68 | null when parsing fails, else the normalisation of the parsed bytes under the parsed mime |
| `Image.NormalizedReparses` | packages/server/src/utils/image.ts:40-58 | a normalised icon parses back to the SVG or PNG type with exactly the bytes it encodes, and fails only for an empty output |
| `Image.SanitizeSvgIdempotent` | packages/server/src/utils/image.ts:40-68 | sanitising a sanitised SVG icon gives the same icon |
| `Image.FetchRemoteImageBase64` | packages/server/src/utils/image.ts:70-90 | null for a failed request, a status of 400 or more, a missing, empty or repeated content type, a mime that does not start with `image/`, a failed body read, or a body of 0 or more than 204800 bytes; when every gate passes, the normalisation of the body under the header's mime |
| `Favicon.AcceptedIff` | packages/server/src/utils/favicon.ts:25-32 | one probe gives an icon exactly when the fetch succeeded with an ok status and a body of 100 to 200000 bytes; the icon is that body's `data:` URL with the response's content type, or `image/x-icon` |
| `Favicon.FaviconOf` | packages/server/src/utils/favicon.ts:8-14 | an unparseable page URL gives null |
| `Favicon.Probe` | packages/server/src/utils/favicon.ts:24-35 | one loop iteration computes the probe result |
| `Favicon.ProbeAll` | packages/server/src/utils/favicon.ts:23-37 | the loop's result is the first accepted candidate; the URLs fetched are a prefix of the candidates; every fetched URL but the last was rejected; a result comes from the last fetched URL; without a result every candidate was fetched |
| `Favicon.FetchFaviconBase64` | packages/server/src/utils/favicon.ts:5-38 | the result is `FaviconOf`; no fetch for an unparseable URL; otherwise it fetches the four candidates of the origin in order and stops at the first accepted one |
| `Favicon.FirstAcceptedAt` | packages/server/src/utils/favicon.ts:23-32 | the first accepted candidate decides the result, whatever the later ones give |
| `Favicon.FirstAcceptedNone` | packages/server/src/utils/favicon.ts:37 | if every candidate is rejected, the result is null |
| `Favicon.FirstAcceptedSome` | packages/server/src/utils/favicon.ts:23-32 | one accepted candidate is enough for a result |
| `Favicon.FirstAcceptedIndex` | packages/server/src/utils/favicon.ts:23-32 | a result is the probe result of some candidate, and every candidate before it was rejected |
| `Favicon.FaviconSpec` | packages/server/src/utils/favicon.ts:5-38 | for a parseable URL, the favicon is null exactly when all four candidates fail; otherwise it is the first candidate with an ok status and a body of 100 to 200000 bytes, as `data:<type>;base64,<enc(body)>`, and its payload decodes back to the body |
| `IconUtils.TileHasIconUrl` | packages/client/src/utils/icon.ts:5-10 | true only for a tile with a non-empty icon |
| `IconUtils.WhitespaceIconIsNoUrl` | packages/client/src/utils/icon.ts:7-8 | an icon made only of white space is not a URL |
| `IconUtils.TrimAfterWhitespace` | packages/client/src/utils/icon.ts:7 | leading white space does not change the trimmed string |
| `IconUtils.TrimStartSkips` | packages/client/src/utils/icon.ts:7 | trimming skips any prefix of white space |
| `IconUtils.DataUrlTrimmed` | packages/client/src/utils/icon.ts:3-9 | a string starting with `data:` is still a data URL after trimming |
| `IconUtils.PaddedDataUrlIsNoUrl` | packages/client/src/utils/icon.ts:7-9 | white space before `data:` still makes the icon a data URL, not a URL |
| `IconUtils.TileHasIconUrlIff` | packages/client/src/utils/icon.ts:5-10 | a tile with an icon has an icon URL exactly when the icon has a non-white-space character and its trimmed form does not start with `data:` |
| `Validation.ParseCreate` | packages/server/src/utils/validation.ts:4-13 | a parsed value exactly when the body is an object meeting every field rule of the create schema |
| `Validation.ParseUpdate` | packages/server/src/utils/validation.ts:15 | a parsed value exactly when every present key meets its rule, nothing being required |
| `Validation.ParseCreateJson` | packages/server/src/utils/validation.ts:4-17 | serialising a valid create input and parsing it back gives that input |
| `Validation.ParseCreateValid` | packages/server/src/utils/validation.ts:5-12 | a parsed create input has a title of 1 to 128 characters, a non-empty url, a category of at most 64 characters, and a non-negative order |
| `Validation.ParseUpdateValid` | packages/server/src/utils/validation.ts:15-18 | a parsed update input meets the same rules on every present field |
| `Validation.CreateBodyIsUpdateBody` | packages/server/src/utils/validation.ts:15 | every valid create body is a valid update body |
| `Validation.EmptyUpdateValid` | packages/server/src/utils/validation.ts:15 | the empty object is a valid update, with every field absent |
| `Validation.NullIconRefused` | packages/server/src/utils/validation.ts:7 | a `null` icon is refused by both schemas |
| `Validation.UnknownKeysDropped` | packages/server/src/utils/validation.ts:4-15 | a key outside the schema, such as `iconSourceUrl` or `ids`, changes neither parse |
| `TileService.InsertByOrder` | packages/server/src/services/tileService.ts:7 | inserting one row into a list adds exactly that row |
| `TileService.InsertByOrderMembers` | packages/server/src/services/tileService.ts:7 | the rows after an insert are the old rows and the new one |
| `TileService.InsertByOrderSorted` | packages/server/src/services/tileService.ts:7 | inserting into an ascending list keeps it ascending |
| `TileService.InsertByOrderDistinct` | packages/server/src/services/tileService.ts:7 | inserting a row with a new id keeps ids distinct |
| `TileService.NextOrderUnique` | packages/server/src/services/tileService.ts:16-17 | the next order (the maximum plus one, or 1 for an empty table) is determined by the table |
| `TileService.ResolvedOnlyIcon` | packages/server/src/services/tileService.ts:50-59 | `ResolvedChanges`, the favicon fallback of an update, changes only the icon |
| `TileService.LastIndexOf` | packages/server/src/services/tileService.ts:82-83 | -1 exactly when the id is absent, else the position of its last occurrence |
| `TileService.ReorderedStep` | packages/server/src/services/tileService.ts:82-83 | each id of the list sets its tile's order to its position plus one, in turn |
| `TileService.ReorderedRows` | packages/server/src/services/tileService.ts:79-86 | a reorder keeps the set of tiles and changes only their `order` |
| `TileService.StageReorder` | packages/server/src/services/tileService.ts:79-86 | the transaction: fails with "not found" if any id is unknown; otherwise it returns, for each position i, the tile of `ids[i]` with order i+1, and stages the reordered table |
| `TileService.TileStore.constructor` | packages/server/src/services/tileService.ts:6-86 | an empty table |
| `TileService.TileStore.ListTiles` | packages/server/src/services/tileService.ts:6-8 | every tile once, sorted by ascending order |
| `TileService.TileStore.GetTile` | packages/server/src/services/tileService.ts:10-12 | the tile of the id, or null exactly when there is none |
| `TileService.TileStore.NextOrder` | packages/server/src/services/tileService.ts:16-17 | the maximum order plus one, or 1 for an empty table |
| `TileService.TileStore.CreateTile` | packages/server/src/services/tileService.ts:14-28 | a taken id fails and leaves the table; otherwise it adds `NewTile` for the input with the next order, overriding any order in the input, and nothing else changes |
| `TileService.TileStore.UpdateTile` | packages/server/src/services/tileService.ts:30-62 | an unknown id fails and leaves the table; otherwise it writes `UpdatedTile` of the stored tile at that id and nothing else |
| `TileService.TileStore.RefreshTileIcon` | packages/server/src/services/tileService.ts:64-73 | null for an unknown id; the tile unchanged, with no write, when no favicon is found; otherwise only its icon is replaced by the favicon |
| `TileService.TileStore.DeleteTile` | packages/server/src/services/tileService.ts:75-77 | removes exactly the given tile, or fails with "not found" and leaves the table |
| `TileService.TileStore.ReorderTiles` | packages/server/src/services/tileService.ts:79-86 | all or nothing: an unknown id fails with no change; otherwise the listed tiles get order position+1 and it returns them in list order |
| `TileService.ReorderedAt` | packages/server/src/services/tileService.ts:79-86 | after a reorder, a listed tile has order "its last position plus one" (the later duplicate wins), and an unlisted tile is unchanged |
| `TileService.ReorderContiguous` | packages/server/src/services/tileService.ts:79-86 | reordering every tile by a list without duplicates gives the orders 1..n, distinct |
| `TileService.ReorderedValid` | packages/server/src/services/tileService.ts:79-86 | a reorder keeps every tile stored under its own id |
| `TileService.NewTileLast` | packages/server/src/services/tileService.ts:16-27 | the new tile's order exceeds that of every existing tile, and it is 1 on an empty table |
| `TileService.CreatedIconCases` | packages/server/src/services/tileService.ts:19-26 | a non-`data:` icon is kept; a `data:` icon becomes its sanitised form; no icon, an empty icon or a failed sanitisation gives the favicon of the url; the stored icon is never empty |
| `TileService.UpdatedColumns` | packages/server/src/services/tileService.ts:31-61 | each column other than the icon takes the given value, or keeps the stored one when absent; `iconSourceUrl` is cleared by an explicit null |
| `TileService.UpdatedIcon` | packages/server/src/services/tileService.ts:33-59 | the icon: absent keeps it; a non-`data:` string is stored; a `data:` string becomes its sanitised form, or keeps the old icon when sanitising fails; an explicit null clears it; both explicit nulls try the stored url's favicon |
| `TileService.ApplyChangesIdempotent` | packages/server/src/services/tileService.ts:61 | writing the same changes twice equals writing them once |
| `TileService.EmptyUpdateIsIdentity` | packages/server/src/services/tileService.ts:30-62 | an update with every field absent leaves the tile as it was |
| `TileRoutes.DbError` | packages/server/src/app.ts:19-28 | "not found" answers 404 and an id clash answers 500 |
| `TileRoutes.ChangesOf` | packages/server/src/routes/tiles.ts:49-50 | a parsed update never clears the icon and never touches `iconSourceUrl` |
| `TileRoutes.ReorderIds` | packages/server/src/routes/tiles.ts:68-71 | the ids exactly when the body's `ids` is an array of strings |
| `TileRoutes.ReorderIdsOfIdsBody` | packages/server/src/routes/tiles.ts:68-71 | the body the client sends gives back its ids |
| `TileRoutes.HandleList` | packages/server/src/routes/tiles.ts:18-25 | 200 with every tile once, sorted by order |
| `TileRoutes.HandleGet` | packages/server/src/routes/tiles.ts:27-35 | 404 `Not found` exactly for an unknown id, else 200 with the tile |
| `TileRoutes.HandleCreate` | packages/server/src/routes/tiles.ts:37-45 | 400 with no write for a refused body; 500 for a taken id; else 201 with the new tile appended at the next order |
| `TileRoutes.HandleUpdate` | packages/server/src/routes/tiles.ts:47-55 | 400 with no write for a refused body; 404 with no write for an unknown id; else 200 with the updated tile, which is the only write |
| `TileRoutes.HandleDelete` | packages/server/src/routes/tiles.ts:57-64 | 204 and the tile removed, or 404 with no change |
| `TileRoutes.HandleReorder` | packages/server/src/routes/tiles.ts:66-77 | 400 `Invalid ids array` with no service call unless `ids` is an array of strings; 404 with no change for an unknown id; else 200 with the reordered tiles |
| `TileRoutes.HandleRefreshIcon` | packages/server/src/routes/tiles.ts:79-87 | 404 `Not found` exactly for an unknown id; else 200 with the tile, its icon replaced by a found favicon |
| `TileRoutes.AccumulateChunks` | packages/server/src/routes/tiles.ts:106-113 | the total stays within the cap exactly when all chunks fit, and then every chunk is kept; otherwise the loop stops at the first chunk that crosses the cap, without keeping it, and the kept prefix fits |
| `TileRoutes.PreviewRequestOf` | packages/server/src/routes/tiles.ts:92-98 | the unvalidated body read field by field: a field is usable exactly when it is a string; the read fails exactly when `uploadedIcon` is present, not null and not a string, so that `startsWith` cannot be called |
| `TileRoutes.PreviewBodyRoundTrip` | packages/server/src/routes/tiles.ts:92-96 | a body of the declared shape is read back as exactly its fields |
| `TileRoutes.HandlePreviewIcon` | packages/server/src/routes/tiles.ts:90-129 | 500 `internal_server_error` through the error handler exactly when the read of the body fails; otherwise 200 with the icon of the cascade |
| `TileRoutes.PreviewUploadFirst` | packages/server/src/routes/tiles.ts:98-124 | in `PreviewIconOf`, the icon cascade of the handler, an accepted `data:` upload decides the preview, whatever the other fields say |
| `TileRoutes.PreviewRefusedUploadSkipsSource` | packages/server/src/routes/tiles.ts:98-124 | a refused `data:` upload goes straight to the favicon step, and the source URL is never requested |
| `TileRoutes.PreviewFaviconOnly` | packages/server/src/routes/tiles.ts:122-124 | with only a page url, the preview is that page's favicon |
| `TileRoutes.SourceIconSpec` | packages/server/src/routes/tiles.ts:100-118 | a downloaded icon exactly when the first content-type value starts with `image/`, the status is under 400, the body reads without error and is at most 204800 bytes; it embeds the header verbatim and its payload decodes to the body |
| `TileRoutes.FirstContentTypeCounts` | packages/server/src/routes/tiles.ts:103-104 | of a repeated `content-type`, the first value is used |
| `TileRoutes.Dispatch` | packages/server/src/routes/tiles.ts:18-129 | the endpoint and parameters of the first route that answers the request, literals matching in any ASCII case; none exactly when no route answers |
| `TileRoutes.ReorderCapturedByUpdate` | packages/server/src/routes/tiles.ts:47-77 | as registered, `PUT /reorder` reaches the update handler with id `reorder`, and the `{ids}` body parses as the empty update |
| `TileRoutes.DispatchFirst` | packages/server/src/routes/tiles.ts:18-129 | a route that answers when none before it does decides the dispatch |
| `TileRoutes.ReorderDispatchedToUpdate` | packages/server/src/routes/tiles.ts:47-66 | the first route matching `PUT /reorder`, in any ASCII case, is `PUT /:id` |
| `TileRoutes.IdsBodyIsEmptyUpdate` | packages/server/src/utils/validation.ts:15 | the reorder body parses as an update with every field absent |
| `TileRoutes.ReorderReachedWhenFirst` | packages/server/src/routes/tiles.ts:66-77 | with `PUT /reorder` registered first, it reaches the reorder handler, in any ASCII case |
| `TileRoutes.DispatchSwap` | packages/server/src/routes/tiles.ts:18-129 | swapping two adjacent routes that cannot both answer a request does not change how it is dispatched |
| `TileRoutes.IntendedAgreesElsewhere` | packages/server/src/routes/tiles.ts:18-129 | moving `PUT /reorder` first changes the dispatch of no request other than `PUT /reorder` in its ASCII case variants |
| `TileRoutes.OnlyReorderOverlaps` | packages/server/src/routes/tiles.ts:47-77 | apart from `PUT /reorder` in its ASCII case variants, no request matches both `PUT /reorder` and the update or delete route |
| `TileRoutes.IntendedChangesExactlyReorder` | packages/server/src/routes/tiles.ts:47-77 | moving `PUT /reorder` first changes a request's dispatch exactly when it is `PUT /reorder` in some ASCII case |
| `UseTiles.LookupById` | packages/client/src/hooks/useTiles.ts:53-56 | `idToTile.get(id)` is a cached tile with that id (the last such one), and is absent exactly when no cached tile has it |
| `UseTiles.OptimisticReorder` | packages/client/src/hooks/useTiles.ts:54-60 | the optimistic list is no longer than `newOrder` |
| `UseTiles.Placed` | packages/client/src/hooks/useTiles.ts:55-59 | one entry exactly when the id is cached, namely its tile with `order` set to the index |
| `UseTiles.OptimisticEntries` | packages/client/src/hooks/useTiles.ts:53-60 | each entry is the cached tile of the id at the 0-based position its `order` names, with only `order` changed |
| `UseTiles.OptimisticIncreasing` | packages/client/src/hooks/useTiles.ts:54-60 | the entries follow `newOrder`: their orders increase strictly and are positions of `newOrder` |
| `UseTiles.OptimisticComplete` | packages/client/src/hooks/useTiles.ts:54-60 | every position of `newOrder` whose id is cached has an entry; unknown ids are dropped |
| `UseTiles.OptimisticDropsUnnamed` | packages/client/src/hooks/useTiles.ts:54-61 | a cached tile not named in `newOrder` is absent from the optimistic list |
| `UseTiles.TilesCache.constructor` | packages/client/src/hooks/useTiles.ts:51 | a cache holding the given list, or none |
| `UseTiles.TilesCache.OnMutate` | packages/client/src/hooks/useTiles.ts:49-64 | returns the snapshot; with a cached list, it writes the optimistic list; with none, it does not write the cache |
| `UseTiles.TilesCache.OnError` | packages/client/src/hooks/useTiles.ts:65-67 | restores a snapshot when there is one, else leaves the cache |
| `UseTiles.TilesCache.FailedReorder` | packages/client/src/hooks/useTiles.ts:49-67 | an optimistic write followed by the error rollback leaves the cache as it was |
| `TileGrid.Ids` | packages/client/src/components/TileGrid.tsx:44 | the ids of the tiles, position by position |
| `TileGrid.FindIndex` | packages/client/src/components/TileGrid.tsx:40-41 | -1 when no tile has the id, else the first position of a tile with it |
| `TileGrid.ArrayMoveSpec` | packages/client/src/components/TileGrid.tsx:43 | `arrayMove` keeps the length and the multiset of items, puts the moved item at the target index, and keeps the others in their relative order |
| `TileGrid.IdsOfArrayMove` | packages/client/src/components/TileGrid.tsx:43-44 | the ids of the moved tiles are the moved ids |
| `TileGrid.HandleDragEndSpec` | packages/client/src/components/TileGrid.tsx:37-45 | `HandleDragEnd` reports a new order exactly when the drag ends over another tile and both ids are in the grid; it is a permutation of the ids, with the dragged id at the target's index and the other ids in their relative order |
| `TileGrid.FindIndexIn` | packages/client/src/components/TileGrid.tsx:40-42 | `findIndex` finds an id exactly when it is among the tiles' ids |
| `TileCard.FirstLetterOrNumber` | packages/client/src/components/TileCard.tsx:18 | -1 when no character is a letter or number, else the first position of one |
| `TileCard.FallbackInitialCases` | packages/client/src/components/TileCard.tsx:16-20 | `FallbackInitial` (`getFallbackInitial`) gives `?` for an empty title; else the upper-cased first letter or number of the trimmed title; without one, the upper-cased first character (a code point) of the untrimmed title |
| `TileCard.FallbackInitialIgnoresPadding` | packages/client/src/components/TileCard.tsx:18-19 | when the trimmed title holds a letter or number, surrounding white space does not change the initial |
| `TileCard.TrimIdempotent` | packages/client/src/components/TileCard.tsx:18 | trimming twice equals trimming once |
| `TileCard.RelIff` | packages/client/src/components/TileCard.tsx:52-54 | the target defaults to `_self`, and `rel` is `noopener noreferrer` exactly when the target is `_blank` |
| `TileCard.AvatarShowsOne` | packages/client/src/components/TileCard.tsx:76-79 | `AvatarOf`, the avatar, shows the icon or the initial, never both; the initial only when the icon is missing or empty |
| `IconPicker.FileCheck` | packages/client/src/components/IconPicker.tsx:63-70 | a non-`image/` type gives the type error; an image over `maxKB*1024` bytes gives the size error; otherwise there is no error |
| `IconPicker.TypeCheckedFirst` | packages/client/src/components/IconPicker.tsx:63-66 | a file with both faults gets the type error |
| `IconPicker.IsHttpUrl` | packages/client/src/components/IconPicker.tsx:35-43 | true only for a non-empty string that parses with protocol `http:` or `https:` |
| `IconPicker.InvalidIconUrlIff` | packages/client/src/components/IconPicker.tsx:116 | flagged exactly in url mode, for a non-empty value that does not parse or has another protocol |
| `IconPicker.EmptyValueNotFlagged` | packages/client/src/components/IconPicker.tsx:116 | an empty value is never flagged |
| `IconPicker.ValueAfterModeSwitch` | packages/client/src/components/IconPicker.tsx:136-141 | the value is kept or cleared, and afterwards fits the new mode |
| `IconPicker.ModeSwitchKeepsIff` | packages/client/src/components/IconPicker.tsx:139-140 | a switch keeps the value exactly when it already fits the new mode: a `data:` value for upload mode, any other value for url mode, or the empty value |
| `IconPicker.ModeSwitchIdempotent` | packages/client/src/components/IconPicker.tsx:136-141 | selecting the same mode twice equals selecting it once |
| `IconPicker.PreviewArgsOf` | packages/client/src/components/IconPicker.tsx:172 | `iconUrl` is passed, as the value, exactly when the value is not a `data:` URL |
| `IconPicker.PreviewDisabled` | packages/client/src/components/IconPicker.tsx:174 | the button is enabled only when not previewing and the value is non-empty |
| `IconPicker.EnabledPreviewPassesValue` | packages/client/src/components/IconPicker.tsx:171-174 | an enabled preview in url mode passes exactly the value |
| `IconPicker.PreviewDisplayOf` | packages/client/src/components/IconPicker.tsx:213-229 | an image exactly when `previewValue || value` is a `data:` URL, showing that string; otherwise the fallback initial of `titleForFallback || "?"` |
| `IconPicker.InitialOfEmptyTitle` | packages/client/src/components/IconPicker.tsx:123-229 | without a title, the initial is the upper-cased `?` |
| `IconPicker.IconPickerState.constructor` | packages/client/src/components/IconPicker.tsx:45-59 | no upload error, no drag in progress, the given mode, value and limit |
| `IconPicker.IconPickerState.ProcessFile` | packages/client/src/components/IconPicker.tsx:61-79 | a refused file sets its error and keeps the value; an accepted one becomes the value as a `data:` URL of its type and bytes |
| `IconPicker.IconPickerState.HandleFileSelect` | packages/client/src/components/IconPicker.tsx:81-86 | no file changes nothing; a file clears the error, then is processed |
| `IconPicker.IconPickerState.HandleDragOver` | packages/client/src/components/IconPicker.tsx:88-92 | the drag becomes active and nothing else changes |
| `IconPicker.IconPickerState.HandleDragLeave` | packages/client/src/components/IconPicker.tsx:93-97 | the drag becomes inactive and nothing else changes |
| `IconPicker.IconPickerState.HandleDrop` | packages/client/src/components/IconPicker.tsx:98-107 | ends the drag, then handles a dropped file as a selected one |
| `IconPicker.IconPickerState.SelectMode` | packages/client/src/components/IconPicker.tsx:136-141 | sets the mode and applies the clearing rule, so the value fits the mode |
| `IconPicker.IconPickerState.ClearIcon` | packages/client/src/components/IconPicker.tsx:109-114 | the value becomes empty and the upload error is reset |
| `IconPicker.AcceptedUploadShown` | packages/client/src/components/IconPicker.tsx:71-227 | after an accepted upload, with no preview, the square shows the upload as an image |
| `IconPicker.AcceptedUploadParses` | packages/client/src/components/IconPicker.tsx:54-70 | a non-empty upload of an allowed type accepted by the picker's default limit is accepted by the server's `parseDataUrl` with exactly its bytes |
| `IconPicker.EmptyUploadRefusedByServer` | packages/client/src/components/IconPicker.tsx:63-70 | an empty file of an allowed type passes the picker's checks but is refused by the server's parser |

## Left out

- The `sharp` pipeline (rotate, optional PNG conversion, resize to fit 128x128, PNG encode) is the parameter `RasterPipeline`. Only the conversion flag, the size cap and the output type are modelled.
- The network is a set of function parameters: undici's `request` (a status, a `content-type` header and body chunks) and `fetch` (a status, a content type and a body). The request headers sent, redirects and timeouts are not modelled.
- `new URL(...)` is the parameter `UrlParser`, which yields the protocol and host or fails.
- Node's `Buffer.from(s, "base64")` is lenient: it skips characters outside the alphabet and accepts missing padding. The model decodes strictly (section 4 of RFC 4648, padded). A payload that Node decodes loosely is refused by the model.
- `toLowerCase` is ASCII lower-casing. `toUpperCase` and the `\p{L}|\p{N}` test are parameters. There is no Unicode case mapping.
- String lengths count characters, not UTF-16 code units. Outside the Basic Multilingual Plane this changes the title and category limits, and the fallback initial (next line).
- `TileCard.FallbackInitialCases`: for a title without a letter or number, the model upper-cases the title's first code point, while the source's `title.charAt(0)` takes its first UTF-16 code unit. The two differ when that code point lies outside the Basic Multilingual Plane. For the title "🏠", the source shows the lone high surrogate U+D83C and the model shows the upper-casing of U+1F3E0. A lone surrogate is not a Dafny `char`, so `TileCard.FallbackInitial` cannot return it. `IconPicker.PreviewDisplayOf` uses the same function (IconPicker.tsx:123-127 repeats it) and has the same gap.
- `TileRoutes.Dispatch`: the request path is given already split into segments. Express's non-strict routing, which also accepts a trailing slash, and the percent-decoding of parameters are not modelled.
- The timestamps `createdAt`/`updatedAt` and Prisma's other column defaults are not modelled. The new id is the parameter `newId`.
- Asynchrony and concurrency are not modelled: `await`, interleaved requests, `cancelQueries`, `invalidateQueries` and `onSettled`. Every operation runs to completion in sequence.
- `FileReader` is not modelled as an asynchronous reader. The picker's value is set at once to `data:<type>;base64,<enc(bytes)>`, the form `readAsDataURL` produces for the file.
- `value`, `mode` and `previewValue` of the picker are props owned by its parent. They are fields of `IconPickerState`, and `onChange`/`onModeChange` are those fields' updates. The optional `onClear` callback and the reset of the hidden file input are not modelled.
- Rendering, styling, sensors and drag animation are not modelled.
- The `issues` list of the 400 `validation_error` body is not modelled, and neither is `console.error` in the error handler.
- The client's `fetchIconFromUrl` posts to a `/tiles/fetch-icon` route that the router does not define, so it is not modelled.
- The health route and the rest of the app's wiring are not modelled.
- `Favicon.FetchFaviconBase64`: a thrown `fetch` and a failed `arrayBuffer()` are both a rejected probe (`None` response or `None` body). The model does not tell them apart, just as the source does not.
- `IconPicker.EmptyUploadRefusedByServer`: stated only for types the server allows. A disallowed type is refused by the server for that reason already.
- `TileRoutes.PreviewRequestOf`: a non-string `url` is read as absent. The source passes it to `new URL`, which converts it with `String()`; only an array of one URL string converts to a URL that parses, and that case is not modelled.
- `TileRoutes.PreviewRequestOf`: a non-string `iconSourceUrl` is read as absent, because undici's `request` throws on it inside the guarded download. A URL-like object, which `request` would accept, is not modelled.
- `TileRoutes.PreviewRequestOf`: a body that is not an object has no fields. The body parser's own refusals of malformed JSON happen before the route and are not modelled.
- `Validation.ParseCreate`: JSON numbers are exact reals, but the source parses them into doubles. Integers above 2^53 are rounded: `9007199254740993` is stored as `9007199254740992`. A literal such as `1e400` overflows to `Infinity`, which `.int()` refuses with a 400, while the model accepts it as a non-negative integer. `Validation.ParseUpdate` has the same gap.
- `Base64.Encode`: its own contract states only the length; the alphabet and the round trips are the separate lemmas `EncodeAlphabet`, `DecodeEncode` and `EncodeDecode`.

## Findings

| source | as written | input that shows it | evidently intended | confidence | as-written member | corrected member |
|---|---|---|---|---|---|---|
| packages/server/src/routes/tiles.ts:47-77 | `PUT /:id` is registered before `PUT /reorder`, and Express dispatches to the first matching route | the client's `PUT /api/v1/tiles/reorder` with body `{"ids": [...]}` reaches the update handler with id `reorder`; the update schema drops `ids`, and with no tile of that id the answer is 404 `not_found` with no write | `PUT /reorder`, in any ASCII case, reaches the reorder handler, and every other request is dispatched as before | high (not executed) | `TileRoutes.ReorderCapturedByUpdate` | `TileRoutes.ReorderReachedWhenFirst` |
