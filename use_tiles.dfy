/**
 * The optimistic reorder of the client's tile cache (packages/client/src/hooks/useTiles.ts,
 * `useReorderTiles`): before the request is sent, the cached list is replaced by the tiles
 * in their new order; if the request fails, the earlier list is put back.
 */
module UseTiles {
  import opened Common
  import opened Tiles

  /**
   * The tile a `new Map(previous.map(t => [t.id, t]))` holds for `id`: the last tile with
   * that id, since a later entry overwrites an earlier one.
   */
  function LookupById(previous: seq<Tile>, id: string): (r: Option<Tile>)
    ensures r.Some? ==> r.value in previous && r.value.id == id
    ensures r.None? <==> forall i :: 0 <= i < |previous| ==> previous[i].id != id
  {
    if previous == [] then None
    else if previous[|previous| - 1].id == id then Some(previous[|previous| - 1])
    else LookupById(previous[..|previous| - 1], id)
  }

  /**
   * The optimistic list: for each id of `newOrder`, in order, its cached tile with `order`
   * set to the id's 0-based position; ids with no cached tile are dropped.
   */
  function OptimisticReorder(previous: seq<Tile>, newOrder: seq<string>): (r: seq<Tile>)
    ensures |r| <= |newOrder|
  {
    if newOrder == [] then []
    else
      var n := |newOrder| - 1;
      OptimisticReorder(previous, newOrder[..n]) + Placed(previous, newOrder[n], n)
  }

  /** The entry for `id` at position `index`: its cached tile with that order, or nothing. */
  function Placed(previous: seq<Tile>, id: string, index: nat): (r: seq<Tile>)
    ensures |r| <= 1
    ensures |r| == 1 <==> LookupById(previous, id).Some?
    ensures |r| == 1 ==> r[0] == LookupById(previous, id).value.(order := index)
  {
    match LookupById(previous, id)
    case Some(t) => [t.(order := index)]
    case None => []
  }

  /**
   * Each entry of `r` is the cached tile of the id at the position its `order` names, with
   * only `order` changed.
   */
  predicate EntriesFromCache(r: seq<Tile>, previous: seq<Tile>, newOrder: seq<string>)
  {
    forall k :: 0 <= k < |r| ==>
      && 0 <= r[k].order < |newOrder|
      && LookupById(previous, newOrder[r[k].order]).Some?
      && r[k] == LookupById(previous, newOrder[r[k].order]).value.(order := r[k].order)
  }

  /** The orders along `r` lie in `[0, bound)` and increase strictly. */
  predicate OrdersIncrease(r: seq<Tile>, bound: int)
  {
    && (forall k :: 0 <= k < |r| ==> 0 <= r[k].order < bound)
    && (forall k, l :: 0 <= k < l < |r| ==> r[k].order < r[l].order)
  }

  /** Every position of `newOrder` whose id the cache knows is the order of some entry of `r`. */
  predicate CoversKnown(r: seq<Tile>, previous: seq<Tile>, newOrder: seq<string>)
  {
    forall i :: 0 <= i < |newOrder| && LookupById(previous, newOrder[i]).Some? ==>
      exists k :: 0 <= k < |r| && r[k].order == i
  }

  /** Each entry of the optimistic list is a cached tile, moved to its id's position. */
  lemma {:induction false} OptimisticEntries(previous: seq<Tile>, newOrder: seq<string>)
    ensures EntriesFromCache(OptimisticReorder(previous, newOrder), previous, newOrder)
    decreases |newOrder|
  {
    if newOrder != [] {
      var n := |newOrder| - 1;
      var init := newOrder[..n];
      OptimisticEntries(previous, init);
      var p := OptimisticReorder(previous, init);
      var r := OptimisticReorder(previous, newOrder);
      assert r == p + Placed(previous, newOrder[n], n);
      assert forall k :: 0 <= k < |p| ==> r[k] == p[k];
      assert forall i :: 0 <= i < n ==> init[i] == newOrder[i];
    }
  }

  /** The optimistic list is in its new order: positions increase strictly along it. */
  lemma {:induction false} OptimisticIncreasing(previous: seq<Tile>, newOrder: seq<string>)
    ensures OrdersIncrease(OptimisticReorder(previous, newOrder), |newOrder|)
    decreases |newOrder|
  {
    if newOrder != [] {
      var n := |newOrder| - 1;
      OptimisticIncreasing(previous, newOrder[..n]);
      var p := OptimisticReorder(previous, newOrder[..n]);
      var r := OptimisticReorder(previous, newOrder);
      assert r == p + Placed(previous, newOrder[n], n);
      assert forall k :: 0 <= k < |p| ==> r[k] == p[k];
      assert |r| > |p| ==> r[|p|].order == n;
    }
  }

  /** Every id of `newOrder` that the cache knows has its entry in the optimistic list. */
  lemma {:induction false} OptimisticComplete(previous: seq<Tile>, newOrder: seq<string>)
    ensures CoversKnown(OptimisticReorder(previous, newOrder), previous, newOrder)
    decreases |newOrder|
  {
    if newOrder != [] {
      var n := |newOrder| - 1;
      var init := newOrder[..n];
      OptimisticComplete(previous, init);
      var p := OptimisticReorder(previous, init);
      var r := OptimisticReorder(previous, newOrder);
      assert r == p + Placed(previous, newOrder[n], n);
      forall i | 0 <= i < |newOrder| && LookupById(previous, newOrder[i]).Some?
        ensures exists k :: 0 <= k < |r| && r[k].order == i
      {
        if i == n {
          assert r[|p|].order == n;
        } else {
          assert init[i] == newOrder[i];
          var k :| 0 <= k < |p| && p[k].order == i;
          assert r[k] == p[k];
        }
      }
    }
  }

  /** A cached tile whose id `newOrder` does not name is not in the optimistic list. */
  lemma OptimisticDropsUnnamed(previous: seq<Tile>, newOrder: seq<string>, id: string)
    requires id !in newOrder
    ensures forall k :: 0 <= k < |OptimisticReorder(previous, newOrder)| ==>
      OptimisticReorder(previous, newOrder)[k].id != id
  {
    OptimisticEntries(previous, newOrder);
    var r := OptimisticReorder(previous, newOrder);
    forall k | 0 <= k < |r| ensures r[k].id != id {
      assert r[k].id == newOrder[r[k].order];
    }
  }

  /** The query cache entry for `["tiles"]`. */
  class TilesCache {
    /** The cached list; None before the first fetch. */
    var data: Option<seq<Tile>>

    constructor (data: Option<seq<Tile>>)
      ensures this.data == data
    {
      this.data := data;
    }

    /**
     * `onMutate`: snapshot the cached list, then, when there is one, replace it by the
     * optimistic list. The snapshot is the mutation's context.
     */
    method OnMutate(newOrder: seq<string>) returns (previous: Option<seq<Tile>>)
      modifies this
      ensures previous == old(data)
      ensures old(data).Some? ==> data == Some(OptimisticReorder(old(data).value, newOrder))
      ensures old(data).None? ==> data == old(data)
    {
      previous := data;
      if previous.Some? {
        var reordered := OptimisticReorder(previous.value, newOrder);
        data := Some(reordered);
      }
    }

    /** `onError`: put the snapshot back, when there was one. */
    method OnError(previous: Option<seq<Tile>>)
      modifies this
      ensures previous.Some? ==> data == previous
      ensures previous.None? ==> data == old(data)
    {
      if previous.Some? {
        data := previous;
      }
    }

    /** A reorder whose request fails leaves the cache as it was before the mutation. */
    method FailedReorder(newOrder: seq<string>)
      modifies this
      ensures data == old(data)
    {
      var previous := OnMutate(newOrder);
      OnError(previous);
    }
  }
}
