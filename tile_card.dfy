/**
 * The display rules of a tile card (packages/client/src/components/TileCard.tsx): the
 * initial shown when a tile has no icon, and how the link is opened.
 */
module TileCard {
  import opened Common
  import opened Text
  import opened Tiles

  /** The Unicode test `/\p{L}|\p{N}/u` (a letter or a number), chosen by the caller. */
  type LetterOrNumber = char -> bool
  /** `String.prototype.toUpperCase`, chosen by the caller. */
  type UpperCase = string -> string

  /** The index of the first letter or number in `s`, or -1. */
  function FirstLetterOrNumber(s: string, isAlnum: LetterOrNumber): (r: int)
    ensures -1 <= r < |s|
    ensures r >= 0 ==> isAlnum(s[r])
    ensures forall i :: 0 <= i < |s| && (r < 0 || i < r) ==> !isAlnum(s[i])
  {
    if s == [] then -1
    else if isAlnum(s[0]) then 0
    else
      var k := FirstLetterOrNumber(s[1..], isAlnum);
      if k < 0 then -1 else k + 1
  }

  /**
   * `getFallbackInitial`: "?" for an empty title; else the first letter or number of the
   * trimmed title, upper-cased; else the title's first character, upper-cased. A character
   * here is a code point, where `charAt(0)` takes one UTF-16 code unit.
   */
  function FallbackInitial(title: string, isAlnum: LetterOrNumber, upper: UpperCase): string
  {
    if title == "" then "?"
    else
      var t := Trim(title);
      var k := FirstLetterOrNumber(t, isAlnum);
      if k >= 0 then upper([t[k]]) else upper([title[0]])
  }

  /** The cases of `getFallbackInitial`, each stated by what it finds in the title. */
  lemma FallbackInitialCases(title: string, isAlnum: LetterOrNumber, upper: UpperCase)
    ensures title == "" ==> FallbackInitial(title, isAlnum, upper) == "?"
    ensures title != "" && (exists i :: 0 <= i < |Trim(title)| && isAlnum(Trim(title)[i])) ==>
      exists i ::
        && 0 <= i < |Trim(title)| && isAlnum(Trim(title)[i])
        && (forall j :: 0 <= j < i ==> !isAlnum(Trim(title)[j]))
        && FallbackInitial(title, isAlnum, upper) == upper([Trim(title)[i]])
    ensures title != "" && (forall i :: 0 <= i < |Trim(title)| ==> !isAlnum(Trim(title)[i])) ==>
      FallbackInitial(title, isAlnum, upper) == upper([title[0]])
  {
    if title != "" {
      var t := Trim(title);
      var k := FirstLetterOrNumber(t, isAlnum);
      if k >= 0 {
        assert 0 <= k < |t| && isAlnum(t[k]);
      }
    }
  }

  /**
   * The initial only depends on the trimmed title when that holds a letter or number:
   * surrounding white space changes nothing.
   */
  lemma FallbackInitialIgnoresPadding(title: string, isAlnum: LetterOrNumber, upper: UpperCase)
    requires title != "" && Trim(title) != ""
    requires FirstLetterOrNumber(Trim(title), isAlnum) >= 0
    ensures FallbackInitial(Trim(title), isAlnum, upper) == FallbackInitial(title, isAlnum, upper)
  {
    TrimIdempotent(title);
  }

  /** Trimming twice is trimming once. */
  lemma TrimIdempotent(s: string)
    ensures Trim(Trim(s)) == Trim(s)
  {
    var t := Trim(s);
    TrimSpec(s);
    if t != [] {
      assert TrimStart(t) == t;
      assert TrimEnd(t) == t;
    }
  }

  /** `tile.target || "_self"`: a tile without a target opens in the same tab. */
  function TargetOf(t: Option<Target>): Target
  {
    t.GetOr(Self)
  }

  /** The link's `rel`: "noopener noreferrer" for a new tab, nothing otherwise. */
  function Rel(target: Target): Option<string>
  {
    if target == Blank then Some("noopener noreferrer") else None
  }

  /** A card's link gets a `rel` exactly when the tile asks for a new tab. */
  lemma RelIff(t: Option<Target>)
    ensures TargetOf(t) == Self <==> t != Some(Blank)
    ensures Rel(TargetOf(t)) == Some("noopener noreferrer") <==> t == Some(Blank)
    ensures Rel(TargetOf(t)).None? <==> t != Some(Blank)
  {
  }

  /** What the card's avatar shows: the icon as its image, or the fallback initial. */
  datatype Avatar = Avatar(src: Option<string>, initial: Option<string>)

  /** `src={tile.icon || undefined}` and `{!tile.icon && getFallbackInitial(tile.title)}`. */
  function AvatarOf(tile: Tile, isAlnum: LetterOrNumber, upper: UpperCase): Avatar
  {
    var hasIcon := tile.icon.Some? && tile.icon.value != "";
    Avatar(if hasIcon then tile.icon else None,
           if hasIcon then None else Some(FallbackInitial(tile.title, isAlnum, upper)))
  }

  /** Exactly one of the icon and the initial is shown; the initial only without an icon. */
  lemma AvatarShowsOne(tile: Tile, isAlnum: LetterOrNumber, upper: UpperCase)
    ensures var a := AvatarOf(tile, isAlnum, upper);
      && (a.src.Some? <==> a.initial.None?)
      && (a.initial.Some? <==> tile.icon.None? || tile.icon == Some(""))
      && (a.src.Some? ==> a.src == tile.icon)
  {
  }
}
