/**
 * Drag-and-drop reordering in the tile grid (packages/client/src/components/TileGrid.tsx):
 * when a drag ends over another tile, the dragged tile moves to that tile's position
 * (`arrayMove` of dnd-kit) and the new id order is reported.
 */
module TileGrid {
  import opened Common
  import opened Tiles

  /** `tiles.map(t => t.id)`. */
  function Ids(tiles: seq<Tile>): (r: seq<string>)
    ensures |r| == |tiles|
    ensures forall i :: 0 <= i < |tiles| ==> r[i] == tiles[i].id
  {
    seq(|tiles|, i requires 0 <= i < |tiles| => tiles[i].id)
  }

  /** `tiles.findIndex(t => t.id === id)`: the first index with that id, or -1. */
  function FindIndex(tiles: seq<Tile>, id: string): (r: int)
    ensures -1 <= r < |tiles|
    ensures r >= 0 ==> tiles[r].id == id
    ensures forall i :: 0 <= i < |tiles| && (r < 0 || i < r) ==> tiles[i].id != id
  {
    if tiles == [] then -1
    else if tiles[0].id == id then 0
    else
      var k := FindIndex(tiles[1..], id);
      if k < 0 then -1 else k + 1
  }

  /** `s` without its element at `i`. */
  function RemoveAt<T>(s: seq<T>, i: nat): (r: seq<T>)
    requires i < |s|
    ensures |r| == |s| - 1
  {
    s[..i] + s[i + 1..]
  }

  /** `s` with `x` inserted so that it sits at index `i`. */
  function InsertAt<T>(s: seq<T>, i: nat, x: T): (r: seq<T>)
    requires i <= |s|
    ensures |r| == |s| + 1
  {
    s[..i] + [x] + s[i..]
  }

  /**
   * `arrayMove(s, from, to)`: take out the element at `from`, then insert it so that it sits
   * at `to`.
   */
  function ArrayMove<T>(s: seq<T>, from: nat, to: nat): seq<T>
    requires from < |s| && to < |s|
  {
    InsertAt(RemoveAt(s, from), to, s[from])
  }

  /**
   * The move is a permutation that puts the moved element at `to` and keeps the other
   * elements in their relative order.
   */
  lemma ArrayMoveSpec<T>(s: seq<T>, from: nat, to: nat)
    requires from < |s| && to < |s|
    ensures |ArrayMove(s, from, to)| == |s|
    ensures multiset(ArrayMove(s, from, to)) == multiset(s)
    ensures ArrayMove(s, from, to)[to] == s[from]
    ensures RemoveAt(ArrayMove(s, from, to), to) == RemoveAt(s, from)
  {
    var rest := RemoveAt(s, from);
    var r := ArrayMove(s, from, to);
    assert s == s[..from] + [s[from]] + s[from + 1..];
    assert multiset(s) == multiset(s[..from]) + multiset{s[from]} + multiset(s[from + 1..]);
    assert multiset(rest) == multiset(s[..from]) + multiset(s[from + 1..]);
    assert rest == rest[..to] + rest[to..];
    assert multiset(rest) == multiset(rest[..to]) + multiset(rest[to..]);
    assert r == rest[..to] + [s[from]] + rest[to..];
    assert multiset(r) == multiset(rest[..to]) + multiset{s[from]} + multiset(rest[to..]);
    assert multiset(r) == multiset(rest) + multiset{s[from]};
    assert multiset(s) == multiset(rest) + multiset{s[from]};
    assert r[..to] == rest[..to] && r[to + 1..] == rest[to..];
  }

  /** Moving tiles and then taking their ids is moving the ids. */
  lemma IdsOfArrayMove(tiles: seq<Tile>, from: nat, to: nat)
    requires from < |tiles| && to < |tiles|
    ensures Ids(ArrayMove(tiles, from, to)) == ArrayMove(Ids(tiles), from, to)
  {
    var a := Ids(ArrayMove(tiles, from, to));
    var b := ArrayMove(Ids(tiles), from, to);
    ArrayMoveSpec(tiles, from, to);
    assert |a| == |b|;
    forall i | 0 <= i < |a| ensures a[i] == b[i] {
      var m := ArrayMove(tiles, from, to);
      var rt := RemoveAt(tiles, from);
      var ri := RemoveAt(Ids(tiles), from);
      assert |ri| == |rt|;
      assert forall j :: 0 <= j < |rt| ==> ri[j] == rt[j].id;
      if i < to {
        assert m[i] == rt[i] && b[i] == ri[i];
      } else if i > to {
        assert m[i] == rt[i - 1] && b[i] == ri[i - 1];
      }
    }
  }

  /**
   * `handleDragEnd`: the ids in their new order, or None when no callback fires (no tile
   * under the pointer, the tile dropped on itself, or an id not among the tiles).
   */
  function HandleDragEnd(tiles: seq<Tile>, activeId: string, overId: Option<string>)
    : Option<seq<string>>
  {
    if overId.None? || activeId == overId.value then None
    else
      var oldIndex := FindIndex(tiles, activeId);
      var newIndex := FindIndex(tiles, overId.value);
      if oldIndex == -1 || newIndex == -1 then None
      else Some(Ids(ArrayMove(tiles, oldIndex, newIndex)))
  }

  /**
   * A drag reports a new order exactly when it ends over a different tile and both are in
   * the grid; the order is a permutation of the ids in which the dragged id takes the place
   * of the tile it was dropped on and the other ids keep their relative order.
   */
  lemma HandleDragEndSpec(tiles: seq<Tile>, activeId: string, overId: Option<string>)
    ensures HandleDragEnd(tiles, activeId, overId).Some? <==>
      && overId.Some? && activeId != overId.value
      && activeId in Ids(tiles) && overId.value in Ids(tiles)
    ensures HandleDragEnd(tiles, activeId, overId).Some? ==>
      var ids := HandleDragEnd(tiles, activeId, overId).value;
      var oldIndex := FindIndex(tiles, activeId);
      var newIndex := FindIndex(tiles, overId.value);
      && |ids| == |tiles|
      && multiset(ids) == multiset(Ids(tiles))
      && ids[newIndex] == activeId
      && RemoveAt(ids, newIndex) == RemoveAt(Ids(tiles), oldIndex)
  {
    FindIndexIn(tiles, activeId);
    if overId.Some? {
      FindIndexIn(tiles, overId.value);
    }
    if HandleDragEnd(tiles, activeId, overId).Some? {
      var oldIndex := FindIndex(tiles, activeId);
      var newIndex := FindIndex(tiles, overId.value);
      IdsOfArrayMove(tiles, oldIndex, newIndex);
      ArrayMoveSpec(Ids(tiles), oldIndex, newIndex);
    }
  }

  /** `findIndex` finds an id exactly when some tile has it. */
  lemma FindIndexIn(tiles: seq<Tile>, id: string)
    ensures FindIndex(tiles, id) >= 0 <==> id in Ids(tiles)
  {
    if id in Ids(tiles) {
      var i :| 0 <= i < |tiles| && Ids(tiles)[i] == id;
      assert tiles[i].id == id;
    }
  }
}
