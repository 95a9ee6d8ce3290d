/**
 * The tile service (packages/server/src/services/tileService.ts) over an in-memory table.
 * `TileStore.tiles` stands for the `Tile` table: a map from id to row. Each operation is a
 * method on the store, proved against a function of the old table; the properties the
 * service promises are lemmas about those functions.
 */
module TileService {
  import opened Common
  import opened Text
  import opened Tiles
  import opened Oracles
  import Image
  import Favicon
  import opened Validation

  /** The outcome of a database write: the row, or the Prisma error it throws. */
  datatype DbResult<T> =
    | Ok(value: T)
    | RecordNotFound   // P2025: the row to update or delete does not exist
    | UniqueViolation  // P2002: a row with the new id already exists

  /** A nullable field of an update: a missing key, an explicit `null`, or a value. */
  datatype FieldUpdate<T> = Unchanged | Clear | SetTo(value: T)

  /**
   * The update `updateTile` receives. `icon` and `iconSourceUrl` may be an explicit `null`
   * (the function tests for it); every other field is absent or a value.
   */
  datatype TileChanges = TileChanges(
    title: Option<string>, url: Option<string>, icon: FieldUpdate<string>,
    iconSourceUrl: FieldUpdate<string>, category: Option<string>, description: Option<string>,
    target: Option<Target>, order: Option<int>, visible: Option<bool>)

  /** Orders are ascending. */
  predicate SortedByOrder(s: seq<Tile>)
  {
    forall i, j :: 0 <= i < j < |s| ==> s[i].order <= s[j].order
  }

  /** No id occurs twice. */
  predicate DistinctIds(s: seq<Tile>)
  {
    forall i, j :: 0 <= i < j < |s| ==> s[i].id != s[j].id
  }

  /** Insert `t` into an ascending list, after the rows whose order is not larger. */
  function InsertByOrder(s: seq<Tile>, t: Tile): (r: seq<Tile>)
    ensures |r| == |s| + 1
    ensures multiset(r) == multiset(s) + multiset{t}
    decreases |s|
  {
    if s == [] then [t]
    else if t.order < s[0].order then [t] + s
    else
      assert s == [s[0]] + s[1..];
      [s[0]] + InsertByOrder(s[1..], t)
  }

  /** The rows of `InsertByOrder(s, t)` are `t` and those of `s`. */
  lemma InsertByOrderMembers(s: seq<Tile>, t: Tile)
    ensures forall x :: x in InsertByOrder(s, t) <==> x in s || x == t
  {
    var r := InsertByOrder(s, t);
    forall x ensures x in r <==> x in s || x == t {
      assert x in r <==> x in multiset(r);
      assert x in s <==> x in multiset(s);
    }
  }

  /** Inserting into an ascending list keeps it ascending. */
  lemma {:induction false} InsertByOrderSorted(s: seq<Tile>, t: Tile)
    requires SortedByOrder(s)
    ensures SortedByOrder(InsertByOrder(s, t))
    decreases |s|
  {
    if s != [] && t.order < s[0].order {
      assert forall i :: 0 <= i < |s| ==> t.order <= s[i].order by {
        forall i | 0 <= i < |s| ensures t.order <= s[i].order {
          if i > 0 { assert s[0].order <= s[i].order; }
        }
      }
      SortedCons(t, s);
    } else if s != [] {
      InsertByOrderSorted(s[1..], t);
      InsertByOrderBound(s[1..], t, s[0].order);
      SortedCons(s[0], InsertByOrder(s[1..], t));
    }
  }

  /** A row no later than every row of an ascending list may go in front of it. */
  lemma SortedCons(x: Tile, s: seq<Tile>)
    requires SortedByOrder(s)
    requires forall i :: 0 <= i < |s| ==> x.order <= s[i].order
    ensures SortedByOrder([x] + s)
  {
    var r := [x] + s;
    forall i, j | 0 <= i < j < |r| ensures r[i].order <= r[j].order {
      assert r[j] == s[j - 1];
      if i > 0 { assert r[i] == s[i - 1]; }
    }
  }

  /** A lower bound of the orders of `s` and of `t` bounds those of the insertion. */
  lemma InsertByOrderBound(s: seq<Tile>, t: Tile, b: int)
    requires forall i :: 0 <= i < |s| ==> b <= s[i].order
    requires b <= t.order
    ensures forall i :: 0 <= i < |InsertByOrder(s, t)| ==> b <= InsertByOrder(s, t)[i].order
  {
    var r := InsertByOrder(s, t);
    InsertByOrderMembers(s, t);
    forall i | 0 <= i < |r| ensures b <= r[i].order {
      assert r[i] in r;
    }
  }

  /** Inserting a row whose id is new into a list without repeated ids repeats none. */
  lemma {:induction false} InsertByOrderDistinct(s: seq<Tile>, t: Tile)
    requires DistinctIds(s)
    requires forall i :: 0 <= i < |s| ==> s[i].id != t.id
    ensures DistinctIds(InsertByOrder(s, t))
    decreases |s|
  {
    if s != [] && t.order >= s[0].order {
      var rest := InsertByOrder(s[1..], t);
      InsertByOrderDistinct(s[1..], t);
      InsertByOrderMembers(s[1..], t);
      forall i | 0 <= i < |rest| ensures s[0].id != rest[i].id {
        assert rest[i] in rest;
        if rest[i] != t {
          var j :| 0 <= j < |s[1..]| && s[1..][j] == rest[i];
          assert s[j + 1] == rest[i];
        }
      }
    }
  }

  /**
   * The order `createTile` gives a new row: one more than the largest order in the table,
   * or 1 when the table is empty (`(max._max.order ?? 0) + 1`).
   */
  predicate IsNextOrder(m: map<string, Tile>, n: int)
  {
    && (m == map[] ==> n == 1)
    && (forall id :: id in m ==> m[id].order < n)
    && (m != map[] ==> exists id :: id in m && m[id].order + 1 == n)
  }

  /** The next order is determined by the table. */
  lemma NextOrderUnique(m: map<string, Tile>, a: int, b: int)
    requires IsNextOrder(m, a) && IsNextOrder(m, b)
    ensures a == b
  {
    if m != map[] {
      var x :| x in m && m[x].order + 1 == a;
      var y :| y in m && m[y].order + 1 == b;
      assert m[y].order < a && m[x].order < b;
    }
  }

  /** The sanitised form of a `data:` icon; any other icon as it is. */
  function SanitizedIcon(env: Env, icon: Option<string>): Option<string>
  {
    if icon.Some? && StartsWith(icon.value, "data:")
    then Image.SanitizeDataUrl(icon.value, env.raster)
    else icon
  }

  /**
   * The icon `createTile` stores: the sanitised upload, a non-data icon as given, and the
   * favicon of the tile's URL when there is no icon, it is empty, or sanitising refused it.
   */
  function CreatedIcon(env: Env, data: TileCreateInput): Option<string>
  {
    var icon := SanitizedIcon(env, data.icon);
    if icon.None? || icon.value == "" then Favicon.FaviconOf(env.parseUrl, env.fetch, data.url)
    else icon
  }

  /** The row `createTile` inserts. The input's own `order` is overridden. */
  function NewTile(env: Env, id: string, order: int, data: TileCreateInput): Tile
  {
    Tile(id, data.title, data.url, CreatedIcon(env, data), None, data.category,
         data.description, data.target, order, data.visible)
  }

  /** A value that is absent keeps the old one. */
  function Keep<T>(current: T, v: Option<T>): T
  {
    if v.Some? then v.value else current
  }

  /** An absent update keeps an optional column; a value replaces it. */
  function KeepOption<T>(current: Option<T>, v: Option<T>): Option<T>
  {
    if v.Some? then v else current
  }

  /** `null` clears a nullable column, a value replaces it, an absent key keeps it. */
  function Patch<T>(current: Option<T>, u: FieldUpdate<T>): Option<T>
  {
    match u
    case Unchanged => current
    case Clear => None
    case SetTo(v) => Some(v)
  }

  /** `prisma.tile.update({ data })` on one row: every present key is written. */
  function ApplyChanges(t: Tile, d: TileChanges): Tile
  {
    Tile(t.id, Keep(t.title, d.title), Keep(t.url, d.url), Patch(t.icon, d.icon),
         Patch(t.iconSourceUrl, d.iconSourceUrl), KeepOption(t.category, d.category),
         KeepOption(t.description, d.description), KeepOption(t.target, d.target),
         Keep(t.order, d.order), KeepOption(t.visible, d.visible))
  }

  /**
   * The `newData` `updateTile` writes: a `data:` icon is replaced by its sanitised form, or
   * dropped when sanitising refuses it; when both icon and icon source are cleared, the
   * favicon of the stored URL becomes the icon, if one is found.
   */
  function ResolvedChanges(env: Env, existing: Option<Tile>, d: TileChanges): TileChanges
  {
    var d1 :=
      if d.icon.SetTo? && StartsWith(d.icon.value, "data:") then
        match Image.SanitizeDataUrl(d.icon.value, env.raster)
        case Some(v) => d.(icon := SetTo(v))
        case None => d.(icon := Unchanged)
      else d;
    if d.icon.Clear? && d.iconSourceUrl.Clear? && existing.Some? then
      match Favicon.FaviconOf(env.parseUrl, env.fetch, existing.value.url)
      case Some(f) => d1.(icon := SetTo(f))
      case None => d1
    else d1
  }

  /** Resolving the changes touches only the icon. */
  lemma ResolvedOnlyIcon(env: Env, existing: Option<Tile>, d: TileChanges)
    ensures ResolvedChanges(env, existing, d) == d.(icon := ResolvedChanges(env, existing, d).icon)
  {
  }

  /** The row after `updateTile(t.id, d)`. */
  function UpdatedTile(env: Env, t: Tile, d: TileChanges): Tile
  {
    ApplyChanges(t, ResolvedChanges(env, Some(t), d))
  }

  /** The last index at which `k` occurs in `ids`, or -1. */
  function LastIndexOf(ids: seq<string>, k: string): (r: int)
    ensures -1 <= r < |ids|
    ensures r == -1 <==> k !in ids
    ensures r >= 0 ==> ids[r] == k && k !in ids[r + 1..]
  {
    if ids == [] then -1
    else if ids[|ids| - 1] == k then |ids| - 1
    else
      var r := LastIndexOf(ids[..|ids| - 1], k);
      assert ids == ids[..|ids| - 1] + [ids[|ids| - 1]];
      assert r >= 0 ==> ids[r + 1..] == ids[..|ids| - 1][r + 1..] + [ids[|ids| - 1]];
      r
  }

  /**
   * The table after `reorderTiles(ids)` commits: the updates setting `order` of `ids[i]` to
   * `i + 1`, applied in sequence.
   */
  function Reordered(m: map<string, Tile>, ids: seq<string>): map<string, Tile>
  {
    if ids == [] then m
    else
      var prev := Reordered(m, ids[..|ids| - 1]);
      var id := ids[|ids| - 1];
      if id in prev then prev[id := prev[id].(order := |ids|)] else prev
  }

  /** Every id of `ids` names a row of `m`. */
  predicate AllKnown(m: map<string, Tile>, ids: seq<string>)
  {
    forall i :: 0 <= i < |ids| ==> ids[i] in m
  }

  /** One more id: the table after `ids[..i + 1]` is the one after `ids[..i]` with one update. */
  lemma ReorderedStep(m: map<string, Tile>, ids: seq<string>, i: nat)
    requires i < |ids|
    ensures var prev := Reordered(m, ids[..i]);
      Reordered(m, ids[..i + 1]) ==
        if ids[i] in prev then prev[ids[i] := prev[ids[i]].(order := i + 1)] else prev
  {
    assert ids[..i + 1][..i] == ids[..i];
  }

  /** A reorder keeps the set of rows, and every column of a row but `order`. */
  lemma {:induction false} ReorderedRows(m: map<string, Tile>, ids: seq<string>)
    ensures Reordered(m, ids).Keys == m.Keys
    ensures forall k :: k in m ==> Reordered(m, ids)[k] == m[k].(order := Reordered(m, ids)[k].order)
    decreases |ids|
  {
    if ids != [] {
      ReorderedRows(m, ids[..|ids| - 1]);
    }
  }

  /**
   * The updates of the reorder transaction, run one by one on a copy of the table: the rows
   * they return and the table they leave, or RecordNotFound at the first unknown id (the
   * transaction is then rolled back, so the copy is dropped).
   */
  method StageReorder(m: map<string, Tile>, ids: seq<string>)
    returns (r: DbResult<seq<Tile>>, staged: map<string, Tile>)
    ensures !AllKnown(m, ids) ==> r == RecordNotFound
    ensures AllKnown(m, ids) ==>
      && r.Ok? && |r.value| == |ids|
      && (forall i :: 0 <= i < |ids| ==> r.value[i] == m[ids[i]].(order := i + 1))
      && staged == Reordered(m, ids)
  {
    staged := m;
    var results: seq<Tile> := [];
    var i := 0;
    while i < |ids|
      invariant 0 <= i <= |ids|
      invariant forall j :: 0 <= j < i ==> ids[j] in m
      invariant staged == Reordered(m, ids[..i])
      invariant |results| == i
      invariant forall j :: 0 <= j < i ==> results[j] == m[ids[j]].(order := j + 1)
    {
      ReorderedRows(m, ids[..i]);
      ReorderedStep(m, ids, i);
      if ids[i] !in staged {
        assert !AllKnown(m, ids) by {
          assert ids[i] !in m;
        }
        return RecordNotFound, staged;
      }
      var t := staged[ids[i]].(order := i + 1);
      assert t == m[ids[i]].(order := i + 1);
      staged := staged[ids[i] := t];
      results := results + [t];
      i := i + 1;
    }
    assert ids[..i] == ids;
    return Ok(results), staged;
  }

  class TileStore {
    /** The `Tile` table, keyed by id. */
    var tiles: map<string, Tile>

    /** Every row is stored under its own id. */
    ghost predicate Valid()
      reads this
    {
      forall id :: id in tiles ==> tiles[id].id == id
    }

    constructor ()
      ensures Valid() && tiles == map[]
    {
      tiles := map[];
    }

    /** `listTiles`: every row once, in ascending order (ties in any order). */
    method ListTiles() returns (r: seq<Tile>)
      requires Valid()
      ensures |r| == |tiles|
      ensures forall id :: id in tiles ==> tiles[id] in r
      ensures forall i :: 0 <= i < |r| ==> r[i].id in tiles && tiles[r[i].id] == r[i]
      ensures DistinctIds(r)
      ensures SortedByOrder(r)
    {
      r := [];
      var pending := tiles.Keys;
      while pending != {}
        invariant pending <= tiles.Keys
        invariant |r| + |pending| == |tiles|
        invariant forall id :: id in tiles && id !in pending ==> tiles[id] in r
        invariant forall i :: 0 <= i < |r| ==>
          r[i].id in tiles && r[i].id !in pending && tiles[r[i].id] == r[i]
        invariant DistinctIds(r)
        invariant SortedByOrder(r)
        decreases |pending|
      {
        var id :| id in pending;
        var t := tiles[id];
        var r' := InsertByOrder(r, t);
        InsertByOrderMembers(r, t);
        InsertByOrderSorted(r, t);
        InsertByOrderDistinct(r, t);
        forall i | 0 <= i < |r'|
          ensures r'[i].id in tiles && r'[i].id !in pending - {id} && tiles[r'[i].id] == r'[i]
        {
          assert r'[i] in r';
        }
        r := r';
        pending := pending - {id};
      }
    }

    /** `getTile`: the row with this id, if any. */
    method GetTile(id: string) returns (r: Option<Tile>)
      ensures id in tiles <==> r.Some?
      ensures r.Some? ==> r.value == tiles[id]
    {
      if id in tiles {
        return Some(tiles[id]);
      }
      return None;
    }

    /** The aggregate `_max.order`, plus one (1 for an empty table). */
    method NextOrder() returns (n: int)
      ensures IsNextOrder(tiles, n)
    {
      var pending := tiles.Keys;
      var max: Option<int> := None;
      while pending != {}
        invariant pending <= tiles.Keys
        invariant max.None? <==> pending == tiles.Keys
        invariant max.Some? ==> forall id :: id in tiles && id !in pending ==> tiles[id].order <= max.value
        invariant max.Some? ==> exists id :: id in tiles && tiles[id].order == max.value
        decreases |pending|
      {
        var id :| id in pending;
        if max.None? || tiles[id].order > max.value {
          max := Some(tiles[id].order);
        }
        pending := pending - {id};
      }
      if max.None? {
        n := 1;
      } else {
        n := max.value + 1;
      }
    }

    /**
     * `createTile`: inserts `NewTile` under `newId` (the id the database generates) with the
     * next order; an id already in use is a unique-constraint violation.
     */
    method CreateTile(env: Env, newId: string, data: TileCreateInput) returns (r: DbResult<Tile>)
      requires Valid()
      modifies this
      ensures Valid()
      ensures newId in old(tiles) ==> r == UniqueViolation && tiles == old(tiles)
      ensures newId !in old(tiles) ==>
        && r.Ok? && IsNextOrder(old(tiles), r.value.order)
        && r.value == NewTile(env, newId, r.value.order, data)
        && tiles == old(tiles)[newId := r.value]
    {
      var nextOrder := NextOrder();
      var icon := data.icon;
      if icon.Some? && StartsWith(icon.value, "data:") {
        icon := Image.SanitizeDataUrl(icon.value, env.raster);
      }
      assert icon == SanitizedIcon(env, data.icon);
      if icon.None? || icon.value == "" {
        var favicon, _ := Favicon.FetchFaviconBase64(env.parseUrl, env.fetch, data.url);
        icon := favicon;
      }
      assert icon == CreatedIcon(env, data);
      if newId in tiles {
        return UniqueViolation;
      }
      var t := Tile(newId, data.title, data.url, icon, None, data.category, data.description,
                    data.target, nextOrder, data.visible);
      assert t == NewTile(env, newId, nextOrder, data);
      tiles := tiles[newId := t];
      return Ok(t);
    }

    /**
     * `updateTile`: writes the resolved changes to the row, or fails with RecordNotFound and
     * leaves the table as it was.
     */
    method UpdateTile(env: Env, id: string, data: TileChanges) returns (r: DbResult<Tile>)
      requires Valid()
      modifies this
      ensures Valid()
      ensures id !in old(tiles) ==> r == RecordNotFound && tiles == old(tiles)
      ensures id in old(tiles) ==>
        && r == Ok(UpdatedTile(env, old(tiles)[id], data))
        && tiles == old(tiles)[id := r.value]
    {
      var newData := data;
      var clearingIcon := data.icon.Clear?;
      var clearingIconSource := data.iconSourceUrl.Clear?;
      if newData.icon.SetTo? && StartsWith(newData.icon.value, "data:") {
        var sanitized := Image.SanitizeDataUrl(newData.icon.value, env.raster);
        newData := newData.(icon := if sanitized.Some? then SetTo(sanitized.value) else Unchanged);
      }
      if clearingIcon && clearingIconSource {
        var existing := GetTile(id);
        if existing.Some? {
          var favicon, _ := Favicon.FetchFaviconBase64(env.parseUrl, env.fetch, existing.value.url);
          if favicon.Some? {
            newData := newData.(icon := SetTo(favicon.value));
          }
        }
      }
      if id !in tiles {
        return RecordNotFound;
      }
      var t := ApplyChanges(tiles[id], newData);
      tiles := tiles[id := t];
      return Ok(t);
    }

    /**
     * `refreshTileIcon`: None for an unknown id; the row unchanged when no favicon is found;
     * otherwise the row with the favicon as its icon.
     */
    method RefreshTileIcon(env: Env, id: string) returns (r: Option<Tile>)
      requires Valid()
      modifies this
      ensures Valid()
      ensures id !in old(tiles) ==> r.None? && tiles == old(tiles)
      ensures id in old(tiles) ==>
        var favicon := Favicon.FaviconOf(env.parseUrl, env.fetch, old(tiles)[id].url);
        && (favicon.None? ==> r == Some(old(tiles)[id]) && tiles == old(tiles))
        && (favicon.Some? ==>
              r == Some(old(tiles)[id].(icon := favicon)) && tiles == old(tiles)[id := r.value])
    {
      var tile := GetTile(id);
      if tile.None? {
        return None;
      }
      var icon, _ := Favicon.FetchFaviconBase64(env.parseUrl, env.fetch, tile.value.url);
      if icon.None? {
        return tile;
      }
      var t := tiles[id].(icon := icon);
      tiles := tiles[id := t];
      return Some(t);
    }

    /** `deleteTile`: removes the row, or fails with RecordNotFound. */
    method DeleteTile(id: string) returns (r: DbResult<()>)
      requires Valid()
      modifies this
      ensures Valid()
      ensures id in old(tiles) ==> r == Ok(()) && tiles == old(tiles) - {id}
      ensures id !in old(tiles) ==> r == RecordNotFound && tiles == old(tiles)
    {
      if id !in tiles {
        return RecordNotFound;
      }
      tiles := tiles - {id};
      return Ok(());
    }

    /**
     * `reorderTiles`: one transaction setting the order of `ids[i]` to `i + 1`. If any id is
     * unknown the transaction fails with RecordNotFound and nothing is written; otherwise it
     * returns the row each update produced.
     */
    method ReorderTiles(ids: seq<string>) returns (r: DbResult<seq<Tile>>)
      requires Valid()
      modifies this
      ensures Valid()
      ensures !AllKnown(old(tiles), ids) ==> r == RecordNotFound && tiles == old(tiles)
      ensures AllKnown(old(tiles), ids) ==>
        && r.Ok? && |r.value| == |ids|
        && (forall i :: 0 <= i < |ids| ==> r.value[i] == old(tiles)[ids[i]].(order := i + 1))
        && tiles == Reordered(old(tiles), ids)
    {
      var staged;
      r, staged := StageReorder(tiles, ids);
      if r.Ok? {
        ReorderedRows(tiles, ids);
        tiles := staged;
      }
    }
  }

  /**
   * After a reorder every row keeps its id and every column but `order`; a listed row's order
   * is one more than the last position of its id (a repeated id: the later update wins), and
   * an unlisted row keeps its order.
   */
  lemma {:induction false} ReorderedAt(m: map<string, Tile>, ids: seq<string>, k: string)
    requires forall i :: 0 <= i < |ids| ==> ids[i] in m
    ensures k in Reordered(m, ids) <==> k in m
    ensures k in m ==>
      Reordered(m, ids)[k] ==
        m[k].(order := if k in ids then LastIndexOf(ids, k) + 1 else m[k].order)
    decreases |ids|
  {
    if ids != [] {
      var init := ids[..|ids| - 1];
      assert ids == init + [ids[|ids| - 1]];
      ReorderedAt(m, init, k);
      ReorderedAt(m, init, ids[|ids| - 1]);
    }
  }

  /**
   * Reordering by a list that names every row exactly once numbers the rows 1 to N: each
   * order is in range and no two rows share one.
   */
  lemma ReorderContiguous(m: map<string, Tile>, ids: seq<string>)
    requires forall i, j :: 0 <= i < j < |ids| ==> ids[i] != ids[j]
    requires forall i :: 0 <= i < |ids| ==> ids[i] in m
    requires forall k :: k in m ==> k in ids
    ensures Reordered(m, ids).Keys == m.Keys
    ensures forall k :: k in m ==> 1 <= Reordered(m, ids)[k].order <= |ids|
    ensures forall k1, k2 :: k1 in m && k2 in m && k1 != k2 ==>
      Reordered(m, ids)[k1].order != Reordered(m, ids)[k2].order
  {
    var r := Reordered(m, ids);
    forall k ensures k in r <==> k in m {
      ReorderedAt(m, ids, k);
    }
    forall k | k in m ensures r[k].order == LastIndexOf(ids, k) + 1 {
      ReorderedAt(m, ids, k);
    }
    forall k1, k2 | k1 in m && k2 in m && k1 != k2 ensures r[k1].order != r[k2].order {
      assert ids[LastIndexOf(ids, k1)] == k1 && ids[LastIndexOf(ids, k2)] == k2;
    }
  }

  /** A reordered table is still keyed by id. */
  lemma ReorderedValid(m: map<string, Tile>, ids: seq<string>)
    requires forall id :: id in m ==> m[id].id == id
    requires forall i :: 0 <= i < |ids| ==> ids[i] in m
    ensures forall id :: id in Reordered(m, ids) ==> Reordered(m, ids)[id].id == id
  {
    forall id | id in Reordered(m, ids) ensures Reordered(m, ids)[id].id == id {
      ReorderedAt(m, ids, id);
    }
  }

  /** A new row goes after every existing one, and the first row gets order 1. */
  lemma NewTileLast(env: Env, m: map<string, Tile>, id: string, n: int, data: TileCreateInput)
    requires IsNextOrder(m, n)
    ensures forall k :: k in m ==> m[k].order < NewTile(env, id, n, data).order
    ensures m == map[] ==> NewTile(env, id, n, data).order == 1
  {
  }

  /**
   * What `createTile` stores as the icon: a non-data icon verbatim, an accepted upload in
   * its sanitised form, and otherwise the favicon; never the empty string.
   */
  lemma CreatedIconCases(env: Env, data: TileCreateInput)
    ensures data.icon.Some? && data.icon.value != "" && !StartsWith(data.icon.value, "data:")
      ==> CreatedIcon(env, data) == data.icon
    ensures data.icon.Some? && StartsWith(data.icon.value, "data:")
      && Image.SanitizeDataUrl(data.icon.value, env.raster).Some?
      ==> CreatedIcon(env, data) == Image.SanitizeDataUrl(data.icon.value, env.raster)
    ensures data.icon.None? || data.icon.value == ""
      || (StartsWith(data.icon.value, "data:")
          && Image.SanitizeDataUrl(data.icon.value, env.raster).None?)
      ==> CreatedIcon(env, data) == Favicon.FaviconOf(env.parseUrl, env.fetch, data.url)
    ensures CreatedIcon(env, data) != Some("")
  {
    var f := Favicon.FaviconOf(env.parseUrl, env.fetch, data.url);
    if f.Some? {
      var u := env.parseUrl(data.url).value;
      var c := Favicon.Candidates(Favicon.Origin(u));
      var k := Favicon.FirstAcceptedIndex(c, env.fetch);
      var res := env.fetch(c[k]).value;
      Favicon.AcceptedIff(env.fetch(c[k]));
      Image.DataUrlIsData(Favicon.ContentTypeOf(res), res.body.value);
    }
    if data.icon.Some? && StartsWith(data.icon.value, "data:") {
      if Image.SanitizeDataUrl(data.icon.value, env.raster).Some? {
        Image.SanitizedIsData(data.icon.value, env.raster);
      }
    }
  }

  /**
   * What `updateTile` does to each column: an absent key keeps it, a value replaces it
   * (`order` included), `iconSourceUrl: null` clears it, and the id never changes.
   */
  lemma UpdatedColumns(env: Env, t: Tile, d: TileChanges)
    ensures var u := UpdatedTile(env, t, d);
      && u.id == t.id
      && u.title == (if d.title.Some? then d.title.value else t.title)
      && u.url == (if d.url.Some? then d.url.value else t.url)
      && u.iconSourceUrl == Patch(t.iconSourceUrl, d.iconSourceUrl)
      && u.category == (if d.category.Some? then d.category else t.category)
      && u.description == (if d.description.Some? then d.description else t.description)
      && u.target == (if d.target.Some? then d.target else t.target)
      && u.order == (if d.order.Some? then d.order.value else t.order)
      && u.visible == (if d.visible.Some? then d.visible else t.visible)
  {
    ResolvedOnlyIcon(env, Some(t), d);
  }

  /**
   * What `updateTile` does to the icon: a non-data icon is written as given; an upload is
   * written sanitised, and a refused upload leaves the old icon; `icon: null` clears it, unless
   * the icon source is cleared too, when the favicon of the stored URL is written if found.
   */
  lemma UpdatedIcon(env: Env, t: Tile, d: TileChanges)
    ensures var u := UpdatedTile(env, t, d);
      && (d.icon.Unchanged? ==> u.icon == t.icon)
      && (d.icon.SetTo? && !StartsWith(d.icon.value, "data:") ==> u.icon == Some(d.icon.value))
      && (d.icon.SetTo? && StartsWith(d.icon.value, "data:") ==>
            u.icon == KeepOption(t.icon, Image.SanitizeDataUrl(d.icon.value, env.raster)))
      && (d.icon.Clear? && !d.iconSourceUrl.Clear? ==> u.icon == None)
      && (d.icon.Clear? && d.iconSourceUrl.Clear? ==>
            u.icon == Favicon.FaviconOf(env.parseUrl, env.fetch, t.url))
  {
  }

  /** Applying the same changes twice is the same as applying them once. */
  lemma ApplyChangesIdempotent(t: Tile, d: TileChanges)
    ensures ApplyChanges(ApplyChanges(t, d), d) == ApplyChanges(t, d)
  {
  }

  /** An update with no keys leaves the row as it was. */
  lemma EmptyUpdateIsIdentity(env: Env, t: Tile)
    ensures UpdatedTile(env, t, TileChanges(None, None, Unchanged, Unchanged, None, None, None,
                                            None, None)) == t
  {
  }
}
