/**
 * Icon-string classification on the client (packages/client/src/utils/icon.ts): whether an
 * icon string is an inline `data:` URL, and whether a tile's icon is a link to an image.
 */
module IconUtils {
  import opened Common
  import opened Text
  import opened Tiles

  /** `isDataUrl`: the string is an inline `data:` URL. */
  predicate IsDataUrl(s: string)
  {
    StartsWith(s, "data:")
  }

  /**
   * `tileHasIconUrl`: there is a tile whose icon, trimmed, is non-empty and not a `data:`
   * URL.
   */
  function TileHasIconUrl(t: Option<Tile>): (r: bool)
    ensures r ==> t.Some? && t.value.icon.Some? && t.value.icon.value != ""
  {
    if t.None? || t.value.icon.None? || t.value.icon.value == "" then false
    else
      var v := Trim(t.value.icon.value);
      if v == "" then false else !IsDataUrl(v)
  }

  /** A tile with an icon made only of white space has no icon URL. */
  lemma WhitespaceIconIsNoUrl(t: Tile)
    requires t.icon.Some?
    requires forall i :: 0 <= i < |t.icon.value| ==> IsJsWhiteSpace(t.icon.value[i])
    ensures !TileHasIconUrl(Some(t))
  {
    TrimEmptyIff(t.icon.value);
  }

  /** Leading white space makes no difference to `trim`. */
  lemma TrimAfterWhitespace(w: string, rest: string)
    requires forall i :: 0 <= i < |w| ==> IsJsWhiteSpace(w[i])
    ensures TrimStart(w + rest) == TrimStart(rest)
    ensures Trim(w + rest) == Trim(rest)
  {
    TrimStartSkips(w + rest, |w|);
    assert (w + rest)[|w|..] == rest;
  }

  /** `trimStart` passes over any white-space prefix. */
  lemma {:induction false} TrimStartSkips(s: string, n: nat)
    requires n <= |s| && forall i :: 0 <= i < n ==> IsJsWhiteSpace(s[i])
    ensures TrimStart(s) == TrimStart(s[n..])
    decreases n
  {
    if n > 0 {
      assert TrimStart(s) == TrimStart(s[1..]);
      assert s[1..][n - 1..] == s[n..];
      TrimStartSkips(s[1..], n - 1);
    }
  }

  /** Trimming does not touch the `data:` prefix. */
  lemma DataUrlTrimmed(rest: string)
    ensures IsDataUrl(Trim("data:" + rest))
  {
    var d := "data:" + rest;
    assert d[0] == 'd' && !IsJsWhiteSpace(d[0]);
    assert TrimStart(d) == d;
    var r := TrimEnd(d);
    assert d[4] == ':' && !IsJsWhiteSpace(d[4]);
    assert |r| >= 5;
    assert r[..5] == d[..5];
  }

  /**
   * A `data:` URL stays a data URL after leading white space: `tileHasIconUrl` is false for
   * it, whatever trails it.
   */
  lemma PaddedDataUrlIsNoUrl(t: Tile, w: string, rest: string)
    requires forall i :: 0 <= i < |w| ==> IsJsWhiteSpace(w[i])
    requires t.icon == Some(w + "data:" + rest)
    ensures !TileHasIconUrl(Some(t))
  {
    assert w + "data:" + rest == w + ("data:" + rest);
    TrimAfterWhitespace(w, "data:" + rest);
    DataUrlTrimmed(rest);
  }

  /**
   * A tile has an icon URL exactly when its icon contains a character that is not white
   * space, and the text from the first such character on does not start with `data:`.
   */
  lemma TileHasIconUrlIff(t: Tile)
    requires t.icon.Some?
    ensures TileHasIconUrl(Some(t)) <==>
      && (exists i :: 0 <= i < |t.icon.value| && !IsJsWhiteSpace(t.icon.value[i]))
      && !IsDataUrl(Trim(t.icon.value))
  {
    var s := t.icon.value;
    TrimEmptyIff(s);
  }
}
