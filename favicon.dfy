/**
 * Favicon probing (packages/server/src/utils/favicon.ts): from a page URL, try four
 * conventional icon paths at its origin, in order, and return the first usable body as a
 * `data:` URL.
 */
module Favicon {
  import opened Common
  import Base64
  import opened Oracles
  import Image

  /** Bodies shorter than this are taken for error pages. */
  const MIN_FAVICON_BYTES: nat := 100
  /** Bodies longer than this are skipped. */
  const MAX_FAVICON_BYTES: nat := 200000
  /** The type assumed when the response has no (or an empty) `content-type`. */
  const DEFAULT_CONTENT_TYPE: string := "image/x-icon"

  /** `${u.protocol}//${u.host}`: scheme and host, without path or query. */
  function Origin(u: UrlParts): string
  {
    u.protocol + "//" + u.host
  }

  /** The URLs probed for a page whose origin is `origin`: four icon paths, in order. */
  function Candidates(origin: string): seq<string>
  {
    [ origin + "/favicon.ico", origin + "/favicon.png",
      origin + "/favicon-32x32.png", origin + "/apple-touch-icon.png" ]
  }

  /** `res.headers.get("content-type") || "image/x-icon"`. */
  function ContentTypeOf(res: FetchResponse): string
  {
    if res.contentType.None? || res.contentType.value == "" then DEFAULT_CONTENT_TYPE
    else res.contentType.value
  }

  /**
   * What one probe yields: the body as a data URL labelled with the response's content type,
   * when the fetch succeeded with an ok status and a body of 100 to 200000 bytes.
   */
  function Accepted(response: Option<FetchResponse>): Option<string>
  {
    match response
    case None => None
    case Some(res) =>
      if !(200 <= res.status <= 299) then None
      else
        match res.body
        case None => None
        case Some(buf) =>
          if |buf| < MIN_FAVICON_BYTES || |buf| > MAX_FAVICON_BYTES then None
          else Some(Image.DataUrl(ContentTypeOf(res), buf))
  }

  /** A probe is accepted exactly for an ok response with a body of 100 to 200000 bytes. */
  lemma AcceptedIff(response: Option<FetchResponse>)
    ensures Accepted(response).Some? <==>
      && response.Some? && 200 <= response.value.status <= 299
      && response.value.body.Some?
      && MIN_FAVICON_BYTES <= |response.value.body.value| <= MAX_FAVICON_BYTES
    ensures Accepted(response).Some? ==>
      Accepted(response).value
        == Image.DataUrl(ContentTypeOf(response.value), response.value.body.value)
  {
  }

  /** The result of the first of `urls` whose probe is accepted, if any. */
  function FirstAccepted(urls: seq<string>, fetch: Fetcher): Option<string>
  {
    if urls == [] then None
    else
      match Accepted(fetch(urls[0]))
      case Some(icon) => Some(icon)
      case None => FirstAccepted(urls[1..], fetch)
  }

  /** The favicon of `pageUrl`: None for an unparseable URL, else the first accepted probe. */
  function FaviconOf(parseUrl: UrlParser, fetch: Fetcher, pageUrl: string): (r: Option<string>)
    ensures parseUrl(pageUrl).None? ==> r.None?
  {
    match parseUrl(pageUrl)
    case None => None
    case Some(u) => FirstAccepted(Candidates(Origin(u)), fetch)
  }

  /**
   * One iteration of the probing loop: fetch `url` and, if the response is ok and its body
   * has 100 to 200000 bytes, the body as a data URL labelled with its content type.
   */
  method Probe(fetch: Fetcher, url: string) returns (r: Option<string>)
    ensures r == Accepted(fetch(url))
  {
    var response := fetch(url);
    if response.None? {
      return None;
    }
    var res := response.value;
    if !(200 <= res.status <= 299) {
      return None;
    }
    var contentType := if res.contentType.None? || res.contentType.value == ""
                       then DEFAULT_CONTENT_TYPE else res.contentType.value;
    if res.body.None? {
      return None;
    }
    var buf := res.body.value;
    if |buf| < MIN_FAVICON_BYTES || |buf| > MAX_FAVICON_BYTES {
      return None;
    }
    var base64 := Base64.Encode(buf);
    return Some("data:" + contentType + ";base64," + base64);
  }

  /**
   * The probing loop over `candidates`. Also returns the URLs it fetched, in order: a prefix
   * of the candidates ending at the first accepted one, or all of them.
   */
  method ProbeAll(fetch: Fetcher, candidates: seq<string>)
    returns (r: Option<string>, probed: seq<string>)
    ensures r == FirstAccepted(candidates, fetch)
    ensures |probed| <= |candidates| && probed == candidates[..|probed|]
    ensures forall j :: 0 <= j < |probed| - 1 ==> Accepted(fetch(probed[j])).None?
    ensures r.Some? ==> |probed| > 0 && r == Accepted(fetch(probed[|probed| - 1]))
    ensures r.None? ==> probed == candidates
  {
    probed := [];
    var i := 0;
    while i < |candidates|
      invariant 0 <= i <= |candidates|
      invariant probed == candidates[..i]
      invariant forall j :: 0 <= j < i ==> Accepted(fetch(candidates[j])).None?
      invariant FirstAccepted(candidates[i..], fetch) == FirstAccepted(candidates, fetch)
    {
      var url := candidates[i];
      FirstAcceptedStep(candidates, fetch, i);
      probed := probed + [url];
      i := i + 1;
      var icon := Probe(fetch, url);
      if icon.Some? {
        return icon, probed;
      }
    }
    return None, probed;
  }

  /** `fetchFaviconBase64`: None for an unparseable page URL, else the probing loop's result. */
  method FetchFaviconBase64(parseUrl: UrlParser, fetch: Fetcher, pageUrl: string)
    returns (r: Option<string>, probed: seq<string>)
    ensures r == FaviconOf(parseUrl, fetch, pageUrl)
    ensures parseUrl(pageUrl).None? ==> probed == []
    ensures parseUrl(pageUrl).Some? ==>
      var candidates := Candidates(Origin(parseUrl(pageUrl).value));
      && |probed| <= |candidates| && probed == candidates[..|probed|]
      && (forall j :: 0 <= j < |probed| - 1 ==> Accepted(fetch(probed[j])).None?)
      && (r.Some? ==> |probed| > 0 && r == Accepted(fetch(probed[|probed| - 1])))
      && (r.None? ==> probed == candidates)
  {
    match parseUrl(pageUrl) {
      case None => return None, [];
      case Some(u) =>
        r, probed := ProbeAll(fetch, Candidates(Origin(u)));
    }
  }

  /** Probing from position `i` either stops at `urls[i]` or moves on to the next one. */
  lemma FirstAcceptedStep(urls: seq<string>, fetch: Fetcher, i: nat)
    requires i < |urls|
    ensures FirstAccepted(urls[i..], fetch) ==
      if Accepted(fetch(urls[i])).Some? then Accepted(fetch(urls[i]))
      else FirstAccepted(urls[i + 1..], fetch)
  {
    assert urls[i..][1..] == urls[i + 1..];
  }

  /** The first accepted candidate decides, whatever the later ones would give. */
  lemma {:induction false} FirstAcceptedAt(urls: seq<string>, fetch: Fetcher, k: nat)
    requires k < |urls| && Accepted(fetch(urls[k])).Some?
    requires forall j :: 0 <= j < k ==> Accepted(fetch(urls[j])).None?
    ensures FirstAccepted(urls, fetch) == Accepted(fetch(urls[k]))
  {
    if k > 0 {
      assert Accepted(fetch(urls[0])).None?;
      FirstAcceptedAt(urls[1..], fetch, k - 1);
    }
  }

  /** When no candidate is accepted, there is no favicon. */
  lemma {:induction false} FirstAcceptedNone(urls: seq<string>, fetch: Fetcher)
    requires forall j :: 0 <= j < |urls| ==> Accepted(fetch(urls[j])).None?
    ensures FirstAccepted(urls, fetch).None?
  {
    if urls != [] {
      FirstAcceptedNone(urls[1..], fetch);
    }
  }

  /** One accepted candidate is enough for a favicon to be found. */
  lemma {:induction false} FirstAcceptedSome(urls: seq<string>, fetch: Fetcher, k: nat)
    requires k < |urls| && Accepted(fetch(urls[k])).Some?
    ensures FirstAccepted(urls, fetch).Some?
  {
    if k > 0 && Accepted(fetch(urls[0])).None? {
      FirstAcceptedSome(urls[1..], fetch, k - 1);
    }
  }

  /**
   * A found favicon is the result of some candidate, and every earlier one failed: returns
   * the index of that candidate.
   */
  lemma {:induction false} FirstAcceptedIndex(urls: seq<string>, fetch: Fetcher) returns (k: nat)
    requires FirstAccepted(urls, fetch).Some?
    ensures k < |urls| && FirstAccepted(urls, fetch) == Accepted(fetch(urls[k]))
    ensures forall j :: 0 <= j < k ==> Accepted(fetch(urls[j])).None?
  {
    if Accepted(fetch(urls[0])).Some? {
      k := 0;
    } else {
      var k' := FirstAcceptedIndex(urls[1..], fetch);
      k := k' + 1;
      assert urls[k] == urls[1..][k'];
      forall j | 0 <= j < k ensures Accepted(fetch(urls[j])).None? {
        if j > 0 { assert urls[j] == urls[1..][j - 1]; }
      }
    }
  }

  /**
   * The favicon of a page is the first of its four candidates, in order, whose fetch is ok with
   * a body of 100 to 200000 bytes; it is that body as a `data:` URL whose payload decodes back
   * to it, labelled with the response's content type (or `image/x-icon`). None when all fail.
   */
  lemma FaviconSpec(parseUrl: UrlParser, fetch: Fetcher, pageUrl: string)
    requires parseUrl(pageUrl).Some?
    ensures var c := Candidates(Origin(parseUrl(pageUrl).value));
      match FaviconOf(parseUrl, fetch, pageUrl)
      case None => forall j :: 0 <= j < |c| ==> Accepted(fetch(c[j])).None?
      case Some(icon) => exists k ::
        && 0 <= k < |c| && (forall j :: 0 <= j < k ==> Accepted(fetch(c[j])).None?)
        && fetch(c[k]).Some? && fetch(c[k]).value.body.Some?
        && var res := fetch(c[k]).value;
           && 200 <= res.status <= 299
           && MIN_FAVICON_BYTES <= |res.body.value| <= MAX_FAVICON_BYTES
           && icon == "data:" + ContentTypeOf(res) + ";base64," + Base64.Encode(res.body.value)
           && Base64.Decode(Base64.Encode(res.body.value)) == Some(res.body.value)
  {
    var c := Candidates(Origin(parseUrl(pageUrl).value));
    match FaviconOf(parseUrl, fetch, pageUrl)
    case None =>
      if !forall j :: 0 <= j < |c| ==> Accepted(fetch(c[j])).None? {
        var k :| 0 <= k < |c| && Accepted(fetch(c[k])).Some?;
        FirstAcceptedSome(c, fetch, k);
      }
    case Some(icon) =>
      var k := FirstAcceptedIndex(c, fetch);
      AcceptedIff(fetch(c[k]));
      Base64.DecodeEncode(fetch(c[k]).value.body.value);
  }
}
