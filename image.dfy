/**
 * Icon acquisition on the server (packages/server/src/utils/image.ts): parsing an uploaded
 * `data:` URL, normalising the image it carries, and gating a remote image download.
 */
module Image {
  import opened Common
  import opened Text
  import Base64
  import opened Oracles

  /** The byte cap for an icon: 200 KiB. */
  const MAX_ICON_BYTES: nat := 200 * 1024

  const SVG_MIME: string := "image/svg+xml"
  const PNG_MIME: string := "image/png"

  /** The MIME types an uploaded icon may declare. */
  const ALLOWED_MIME: set<string> := {
    "image/png", "image/jpeg", "image/webp", "image/gif",
    "image/x-icon", "image/vnd.microsoft.icon", "image/svg+xml"
  }

  /** A decoded upload: its lower-cased MIME type and its bytes. */
  datatype ParsedDataUrl = ParsedDataUrl(mime: string, data: seq<byte>)

  /** The text `data:<mime>;base64,<payload>` for the given bytes (RFC 2397). */
  function DataUrl(mime: string, bytes: seq<byte>): string
  {
    "data:" + mime + ";base64," + Base64.Encode(bytes)
  }

  /** No line terminator occurs in `s`: the regular-expression `.*` matches all of it. */
  predicate SingleLine(s: string)
  {
    forall i :: 0 <= i < |s| ==> !IsLineTerminator(s[i])
  }

  /**
   * The match of `/^data:([^;]+);base64,(.*)$/`: the declared type and the payload. The
   * type runs to the first `;`, which must open `;base64,`.
   */
  function MatchDataUrl(s: string): (r: Option<(string, string)>)
  {
    if !StartsWith(s, "data:") then None
    else
      var rest := s[5..];
      var k := IndexOf(rest, ';');
      if k <= 0 || !StartsWith(rest[k..], ";base64,") then None
      else if SingleLine(rest[k + 8..]) then Some((rest[..k], rest[k + 8..]))
      else None
  }

  lemma IndexOfFirst(m: string, t: string, c: char)
    requires c !in m && |t| > 0 && t[0] == c
    ensures IndexOf(m + t, c) == |m|
  {
    var s := m + t;
    var r := IndexOf(s, c);
    assert s[|m|] == c;
  }

  lemma MatchDataUrlOf(m: string, p: string)
    requires m != "" && ';' !in m && SingleLine(p)
    ensures MatchDataUrl("data:" + m + ";base64," + p) == Some((m, p))
  {
    var t := ";base64," + p;
    var rest := m + t;
    var s := "data:" + rest;
    assert s == "data:" + m + ";base64," + p;
    assert s[..5] == "data:" && s[5..] == rest;
    IndexOfFirst(m, t, ';');
    assert rest[|m|..] == t && t[..8] == ";base64,";
    assert rest[|m| + 8..] == p && rest[..|m|] == m;
  }

  lemma MatchDataUrlShape(s: string)
    requires MatchDataUrl(s).Some?
    ensures var m, p := MatchDataUrl(s).value.0, MatchDataUrl(s).value.1;
      s == "data:" + m + ";base64," + p && m != "" && ';' !in m && SingleLine(p)
  {
    var rest := s[5..];
    var k := MatchDataUrlSplit(s);
    SplitAtMarker(rest, k);
    PrefixSplit(s, "data:");
    ConcatAssoc(rest[..k], rest[k + 8..]);
  }

  /** Where a match splits its input: the `;` that opens `;base64,`. */
  lemma MatchDataUrlSplit(s: string) returns (k: nat)
    requires MatchDataUrl(s).Some?
    ensures |s| >= 5 && s[..5] == "data:" && 0 < k && k + 8 <= |s[5..]|
    ensures s[5..][k..k + 8] == ";base64,"
    ensures MatchDataUrl(s).value == (s[5..][..k], s[5..][k + 8..])
    ensures ';' !in s[5..][..k] && SingleLine(s[5..][k + 8..])
  {
    k := IndexOf(s[5..], ';');
    assert s[5..][k..][..8] == s[5..][k..k + 8];
  }

  lemma SplitAtMarker(rest: string, k: nat)
    requires 0 < k && k + 8 <= |rest| && rest[k..k + 8] == ";base64,"
    ensures rest == rest[..k] + (";base64," + rest[k + 8..])
  {
    assert rest == rest[..k] + rest[k..k + 8] + rest[k + 8..];
  }

  lemma PrefixSplit(s: string, prefix: string)
    requires |prefix| <= |s| && s[..|prefix|] == prefix
    ensures s == prefix + s[|prefix|..]
  {
  }

  lemma ConcatAssoc(m: string, p: string)
    ensures "data:" + (m + (";base64," + p)) == "data:" + m + ";base64," + p
  {
  }

  /**
   * The regular expression matches exactly the strings `data:<m>;base64,<p>` with a non-empty
   * `m` free of `;` and a single-line `p`, and then captures `m` and `p`.
   */
  lemma MatchDataUrlIff(s: string, m: string, p: string)
    ensures MatchDataUrl(s) == Some((m, p)) <==>
      (s == "data:" + m + ";base64," + p && m != "" && ';' !in m && SingleLine(p))
  {
    if s == "data:" + m + ";base64," + p && m != "" && ';' !in m && SingleLine(p) {
      MatchDataUrlOf(m, p);
    }
    if MatchDataUrl(s) == Some((m, p)) {
      MatchDataUrlShape(s);
    }
  }

  /**
   * `parseDataUrl`: the declared type, lower-cased, must be allowed, and the payload must
   * decode to 1 to 200 KiB of bytes; None otherwise.
   */
  function ParseDataUrl(s: string): (r: Option<ParsedDataUrl>)
    ensures r.Some? ==> r.value.mime in ALLOWED_MIME && 1 <= |r.value.data| <= MAX_ICON_BYTES
    ensures r.Some? ==> MatchDataUrl(s).Some? && r.value.mime == ToLower(MatchDataUrl(s).value.0)
  {
    match MatchDataUrl(s)
    case None => None
    case Some((m, payload)) =>
      var mime := ToLower(m);
      if mime !in ALLOWED_MIME then None
      else
        match Base64.Decode(payload)
        case None => None
        case Some(buf) =>
          if |buf| == 0 || |buf| > MAX_ICON_BYTES then None
          else Some(ParsedDataUrl(mime, buf))
  }

  lemma EncodingSingleLine(bytes: seq<byte>)
    ensures SingleLine(Base64.Encode(bytes)) && ';' !in Base64.Encode(bytes)
  {
    var e := Base64.Encode(bytes);
    Base64.EncodeAlphabet(bytes);
    forall i | 0 <= i < |e| ensures !IsLineTerminator(e[i]) && e[i] != ';' {
      assert Base64.IsEncodingChar(e[i]);
    }
  }

  /**
   * The data URL of any allowed type (in any letter case) parses back to the lower-cased type
   * and exactly the bytes it encodes, when there are 1 to 200 KiB of them; otherwise it is
   * rejected.
   */
  lemma ParseDataUrlOfDataUrl(m: string, bytes: seq<byte>)
    requires m != "" && ';' !in m && ToLower(m) in ALLOWED_MIME
    ensures ParseDataUrl(DataUrl(m, bytes)) ==
      if 1 <= |bytes| <= MAX_ICON_BYTES then Some(ParsedDataUrl(ToLower(m), bytes)) else None
  {
    var p := Base64.Encode(bytes);
    EncodingSingleLine(bytes);
    MatchDataUrlOf(m, p);
    Base64.DecodeEncode(bytes);
  }

  /** Conversely, everything `ParseDataUrl` accepts is the data URL of what it returns. */
  lemma ParseDataUrlIsDataUrl(s: string)
    requires ParseDataUrl(s).Some?
    ensures var r := ParseDataUrl(s).value;
      exists m :: ToLower(m) == r.mime && s == DataUrl(m, r.data)
  {
    var (m, p) := MatchDataUrl(s).value;
    MatchDataUrlIff(s, m, p);
    Base64.EncodeDecode(p);
    assert s == DataUrl(m, ParseDataUrl(s).value.data);
  }

  /** Whether the pipeline should first convert to PNG: GIF, or a type mentioning "icon". */
  predicate ConvertsToPng(mime: string)
  {
    mime == "image/gif" || Contains(mime, "icon")
  }

  /**
   * `stripMetadataAndNormalize`: SVG passes through unchanged, within the cap; any other type
   * goes through the raster pipeline and comes out as PNG, within the cap; None otherwise.
   */
  function StripMetadataAndNormalize(buf: seq<byte>, mime: string, raster: RasterPipeline)
    : (r: Option<string>)
    ensures mime == SVG_MIME ==>
      (r.Some? <==> |buf| <= MAX_ICON_BYTES) && (r.Some? ==> r.value == DataUrl(SVG_MIME, buf))
    ensures mime != SVG_MIME ==>
      (r.Some? <==> raster(buf, ConvertsToPng(mime)).Some? &&
                    |raster(buf, ConvertsToPng(mime)).value| <= MAX_ICON_BYTES)
    ensures mime != SVG_MIME && r.Some? ==>
      r.value == DataUrl(PNG_MIME, raster(buf, ConvertsToPng(mime)).value)
  {
    if mime == SVG_MIME then
      if |buf| > MAX_ICON_BYTES then None else Some(DataUrl(mime, buf))
    else
      match raster(buf, ConvertsToPng(mime))
      case None => None
      case Some(out) =>
        if |out| > MAX_ICON_BYTES then None else Some(DataUrl(PNG_MIME, out))
  }

  /** Every icon the raster branch yields is labelled PNG. */
  lemma RasterResultIsPng(buf: seq<byte>, mime: string, raster: RasterPipeline)
    requires mime != SVG_MIME && StripMetadataAndNormalize(buf, mime, raster).Some?
    ensures StartsWith(StripMetadataAndNormalize(buf, mime, raster).value, "data:image/png;base64,")
  {
    var out := raster(buf, ConvertsToPng(mime)).value;
    var p := "data:image/png;base64,";
    assert "data:" + PNG_MIME + ";base64," == p;
    assert StripMetadataAndNormalize(buf, mime, raster).value == p + Base64.Encode(out);
    PrefixOfConcat(p, Base64.Encode(out));
  }

  /** A data URL starts with `data:`. */
  lemma DataUrlIsData(mime: string, bytes: seq<byte>)
    ensures StartsWith(DataUrl(mime, bytes), "data:") && DataUrl(mime, bytes)[0] == 'd'
  {
    var t := mime + ";base64," + Base64.Encode(bytes);
    assert DataUrl(mime, bytes) == "data:" + t;
    PrefixOfConcat("data:", t);
  }

  /** A sanitised upload is again a `data:` URL. */
  lemma SanitizedIsData(s: string, raster: RasterPipeline)
    requires SanitizeDataUrl(s, raster).Some?
    ensures StartsWith(SanitizeDataUrl(s, raster).value, "data:")
    ensures SanitizeDataUrl(s, raster).value[0] == 'd'
  {
    var parsed := ParseDataUrl(s).value;
    if parsed.mime == SVG_MIME {
      DataUrlIsData(SVG_MIME, parsed.data);
    } else {
      DataUrlIsData(PNG_MIME, raster(parsed.data, ConvertsToPng(parsed.mime)).value);
    }
  }

  lemma PrefixOfConcat(p: string, q: string)
    ensures StartsWith(p + q, p)
  {
    assert (p + q)[..|p|] == p;
  }

  /** `sanitizeDataUrl`: parse, then normalise; None when parsing fails. */
  function SanitizeDataUrl(s: string, raster: RasterPipeline): (r: Option<string>)
    ensures ParseDataUrl(s).None? ==> r.None?
    ensures ParseDataUrl(s).Some? ==>
      r == StripMetadataAndNormalize(ParseDataUrl(s).value.data, ParseDataUrl(s).value.mime, raster)
  {
    match ParseDataUrl(s)
    case None => None
    case Some(parsed) => StripMetadataAndNormalize(parsed.data, parsed.mime, raster)
  }

  /**
   * A normalised icon is the data URL of the SVG input or of the PNG the pipeline made, and
   * decoding it gives back exactly those bytes (or fails, when there are none).
   */
  lemma NormalizedReparses(buf: seq<byte>, mime: string, raster: RasterPipeline)
    requires StripMetadataAndNormalize(buf, mime, raster).Some?
    ensures var out := if mime == SVG_MIME then buf else raster(buf, ConvertsToPng(mime)).value;
      var outMime := if mime == SVG_MIME then SVG_MIME else PNG_MIME;
      ParseDataUrl(StripMetadataAndNormalize(buf, mime, raster).value) ==
        if |out| == 0 then None else Some(ParsedDataUrl(outMime, out))
  {
    var out := if mime == SVG_MIME then buf else raster(buf, ConvertsToPng(mime)).value;
    var outMime := if mime == SVG_MIME then SVG_MIME else PNG_MIME;
    assert StripMetadataAndNormalize(buf, mime, raster).value == DataUrl(outMime, out);
    ToLowerOfLower(outMime);
    ParseDataUrlOfDataUrl(outMime, out);
  }

  /** Sanitising a sanitised SVG upload changes nothing. */
  lemma SanitizeSvgIdempotent(s: string, raster: RasterPipeline)
    requires ParseDataUrl(s).Some? && ParseDataUrl(s).value.mime == SVG_MIME
    ensures SanitizeDataUrl(SanitizeDataUrl(s, raster).value, raster) == SanitizeDataUrl(s, raster)
  {
    var parsed := ParseDataUrl(s).value;
    NormalizedReparses(parsed.data, parsed.mime, raster);
  }

  /** The MIME type `fetchRemoteImageBase64` reads from a header: before any `;`, lower-cased. */
  function HeaderMime(ctype: string): string
  {
    ToLower(BeforeFirst(ctype, ';'))
  }

  /**
   * `fetchRemoteImageBase64` over the response the request produced: None on a failed
   * request, a status of 400 or more, a missing, empty or repeated `content-type`, a type that
   * is not `image/...`, a failed body read, or a body that is empty or over 200 KiB; otherwise
   * the normalised image.
   */
  function FetchRemoteImageBase64(response: Option<RawResponse>, raster: RasterPipeline)
    : (r: Option<string>)
    ensures response.None? ==> r.None?
    ensures response.Some? && response.value.statusCode >= 400 ==> r.None?
    ensures response.Some? && !response.value.contentType.Single? ==> r.None?
    ensures response.Some? && response.value.contentType == Single("") ==> r.None?
    ensures response.Some? && response.value.contentType.Single? &&
            !StartsWith(HeaderMime(response.value.contentType.value), "image/")
            ==> r.None?
    ensures response.Some? && response.value.bodyFails ==> r.None?
    ensures response.Some? && !(1 <= TotalLength(response.value.chunks) <= MAX_ICON_BYTES) ==>
            r.None?
    ensures r.Some? ==>
      r == StripMetadataAndNormalize(Concat(response.value.chunks),
                                     HeaderMime(response.value.contentType.value), raster)
    ensures response.Some? && response.value.statusCode < 400
            && response.value.contentType.Single? && response.value.contentType.value != ""
            && StartsWith(HeaderMime(response.value.contentType.value), "image/")
            && !response.value.bodyFails
            && 1 <= TotalLength(response.value.chunks) <= MAX_ICON_BYTES
            ==> r == StripMetadataAndNormalize(Concat(response.value.chunks),
                                               HeaderMime(response.value.contentType.value), raster)
  {
    match response
    case None => None
    case Some(res) =>
      if res.statusCode >= 400 then None
      else
        match res.contentType
        case Absent => None
        case Multiple(_) => None
        case Single(ctype) =>
          if ctype == "" then None
          else
            var mime := HeaderMime(ctype);
            if !StartsWith(mime, "image/") then None
            else if res.bodyFails then None
            else
              var buf := Concat(res.chunks);
              if |buf| == 0 || |buf| > MAX_ICON_BYTES then None
              else StripMetadataAndNormalize(buf, mime, raster)
  }
}
