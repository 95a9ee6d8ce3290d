/**
 * The tile record, as the server stores it and the client receives it.
 */
module Tiles {
  import opened Common

  /** Where a tile's link opens: `"_blank"` (new tab) or `"_self"` (same tab). */
  datatype Target = Blank | Self

  /**
   * One dashboard link. Optional columns are `Option`s; `order` is the sort key.
   * The timestamps `createdAt` and `updatedAt` are not modelled.
   */
  datatype Tile = Tile(
    id: string,
    title: string,
    url: string,
    icon: Option<string>,
    iconSourceUrl: Option<string>,
    category: Option<string>,
    description: Option<string>,
    target: Option<Target>,
    order: int,
    visible: Option<bool>)
}
