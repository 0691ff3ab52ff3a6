/**
 The AI enrichment route: validation of the request, and the
 post-processing of the model's answer (marketplace allow-list for links,
 ruble price normalisation, title and image fallbacks). The upstream call
 and the parsing of its text are abstracted into the `Upstream` outcome;
 URL parsing is the partial function `hostOf` (`None` where `new URL`
 throws); the numeric price conversion is the function `numeric`, which
 yields the text placed before the " ₽" suffix.
 */
module Enrich {
  import opened Options
  import opened Text
  import Editor

  const AllowedHosts: seq<string> := [
    "dns-shop.ru",
    "www.dns-shop.ru",
    "www.ozon.ru",
    "ozon.ru",
    "www.wildberries.ru",
    "wildberries.ru",
    "www.1c-interes.ru",
    "www.mvideo.ru",
    "mvideo.ru",
    "www.citilink.ru",
    "citilink.ru",
    "www.onlinetrade.ru",
    "onlinetrade.ru",
    "market.yandex.ru"
  ]

  /**
   `filterUrlByHost`: the URL itself when it is non-empty, parses, and its
   hostname is on the allow-list; null otherwise.
   */
  function FilterUrlByHost(url: Option<string>, hostOf: string -> Option<string>): (r: Option<string>)
    ensures r.Some? <==> Truthy(url) && hostOf(url.value).Some? && hostOf(url.value).value in AllowedHosts
    ensures r.Some? ==> r == url
  {
    if !Truthy(url) then None
    else match hostOf(url.value)
      case None => None
      case Some(host) => if host in AllowedHosts then url else None
  }

  // ----- price -----

  /** A case-insensitive match of `/₽|руб/i` starts at offset `i`. */
  predicate MarkerAt(s: string, i: int) {
    0 <= i < |s| &&
    (s[i] == '₽'
     || (i + 3 <= |s|
         && (s[i] == 'р' || s[i] == 'Р')
         && (s[i + 1] == 'у' || s[i + 1] == 'У')
         && (s[i + 2] == 'б' || s[i + 2] == 'Б')))
  }

  /** `/₽|руб/i.test(s)`. */
  predicate HasRubMarker(s: string) {
    exists i :: 0 <= i < |s| && MarkerAt(s, i)
  }

  /**
   The string branches of `sanitizePriceToRub`: no price (null or "") stays
   null, a price already in rubles is trimmed, and any other price goes to
   the numeric conversion and gets the " ₽" suffix.
   */
  function SanitizePrice(price: Option<string>, numeric: string -> string): (r: Option<string>)
    ensures r.None? <==> !Truthy(price)
    ensures Truthy(price) && HasRubMarker(price.value) ==> r == Some(Trim(price.value))
    ensures Truthy(price) && !HasRubMarker(price.value) ==> r == Some(numeric(price.value) + " ₽")
  {
    if !Truthy(price) then None
    else if HasRubMarker(price.value) then Some(Trim(price.value))
    else Some(numeric(price.value) + " ₽")
  }

  /** Trimming only removes whitespace, so a ruble marker survives it. */
  lemma {:induction false} TrimKeepsMarker(s: string, i: int)
    requires MarkerAt(s, i)
    ensures MarkerAt(Trim(s), i - Lead(s))
  {
    var k := Lead(s);
    var r := Trim(s);
    var len := if s[i] == '₽' then 1 else 3;
    assert !IsWhitespace(s[i]) && !IsWhitespace(s[i + len - 1]);
    assert r[i - k] == s[i];
    if len == 3 {
      assert r[i - k + 1] == s[i + 1] && r[i - k + 2] == s[i + 2];
    }
  }

  /** Whatever the model answered, a sanitised price is always marked as rubles. */
  lemma PriceIsInRubles(price: Option<string>, numeric: string -> string)
    ensures var r := SanitizePrice(price, numeric);
      r.Some? ==> r.value != [] && HasRubMarker(r.value)
  {
    var r := SanitizePrice(price, numeric);
    if r.Some? {
      if HasRubMarker(price.value) {
        var i :| 0 <= i < |price.value| && MarkerAt(price.value, i);
        TrimKeepsMarker(price.value, i);
      } else {
        var t := r.value;
        assert MarkerAt(t, |t| - 1);
      }
    }
  }

  // ----- the route -----

  /** The fields of the model's answer after JSON parsing; a missing field is `None`. */
  datatype Parsed = Parsed(title: Option<string>, image: Option<string>, url: Option<string>, price: Option<string>)

  /** How the upstream call ended. */
  datatype Upstream =
    | NotOk               // the upstream HTTP status was not ok
    | Unparsable          // no JSON object could be recovered from its text
    | Answer(parsed: Parsed)
    | Threw               // the call or the parsing threw

  datatype EnrichResult = EnrichResult(title: string, image: Option<string>, url: Option<string>, price: Option<string>)

  datatype Response = Error(status: nat, message: string) | Success(result: EnrichResult)

  const EmptyQueryText: string := "Введите название желания"
  const MissingKeyText: string := "GEMINI_API_KEY не задан. Добавьте ключ в .env"
  const UpstreamFailedText: string := "AI запрос не удался"
  const UnparsableText: string := "Не удалось распарсить ответ AI"
  const AiErrorText: string := "Ошибка AI"

  /** The query is present and not blank. */
  predicate ValidQuery(query: Option<string>) {
    query.Some? && !IsBlank(query.value)
  }

  /** The result built from a parsed answer. */
  function Assemble(query: string, p: Parsed, hostOf: string -> Option<string>, numeric: string -> string): (r: EnrichResult)
    ensures r.title == (if Truthy(p.title) then p.title.value else query)
    ensures r.url == FilterUrlByHost(p.url, hostOf)
    ensures r.price == SanitizePrice(p.price, numeric)
    ensures r.image.Some? ==> r.image == p.image && r.image.value != []
  {
    var safeImage :=
      if FilterUrlByHost(p.image, hostOf).Some? then FilterUrlByHost(p.image, hostOf)
      else NonEmpty(p.image);
    EnrichResult(
      OrElse(p.title.GetOr(""), query),
      safeImage,
      FilterUrlByHost(p.url, hostOf),
      SanitizePrice(p.price, numeric))
  }

  /**
   The `POST` handler: 400 for a missing or blank query and 500 for a missing
   key, both before any upstream call; then 500 for each upstream failure,
   and otherwise the assembled result.
   */
  function Post(
    query: Option<string>, apiKey: Option<string>, upstream: Upstream,
    hostOf: string -> Option<string>, numeric: string -> string): (r: Response)
    ensures !ValidQuery(query) ==> r == Error(400, EmptyQueryText)
    ensures ValidQuery(query) && !Truthy(apiKey) ==> r == Error(500, MissingKeyText)
    ensures r.Success? <==> ValidQuery(query) && Truthy(apiKey) && upstream.Answer?
    ensures r.Error? ==> r.status == 400 || r.status == 500
    ensures ValidQuery(query) && Truthy(apiKey) ==>
      && (upstream.NotOk? ==> r == Error(500, UpstreamFailedText))
      && (upstream.Unparsable? ==> r == Error(500, UnparsableText))
      && (upstream.Threw? ==> r == Error(500, AiErrorText))
    ensures r.Success? ==> r.result == Assemble(query.value, upstream.parsed, hostOf, numeric)
  {
    TrimEmptyIffBlank(query.GetOr(""));
    if query.None? || query.value == [] || |Trim(query.value)| == 0 then Error(400, EmptyQueryText)
    else if !Truthy(apiKey) then Error(500, MissingKeyText)
    else match upstream
      case NotOk => Error(500, UpstreamFailedText)
      case Unparsable => Error(500, UnparsableText)
      case Threw => Error(500, AiErrorText)
      case Answer(p) => Success(Assemble(query.value, p, hostOf, numeric))
  }

  /** Validation failures do not depend on what the upstream would have answered. */
  lemma RejectsBeforeUpstream(
    query: Option<string>, apiKey: Option<string>, u1: Upstream, u2: Upstream,
    hostOf: string -> Option<string>, numeric: string -> string)
    requires !ValidQuery(query) || !Truthy(apiKey)
    ensures Post(query, apiKey, u1, hostOf, numeric) == Post(query, apiKey, u2, hostOf, numeric)
  {
  }

  /** Every link in a successful result points to an allowed marketplace. */
  lemma ResultUrlAllowed(
    query: Option<string>, apiKey: Option<string>, upstream: Upstream,
    hostOf: string -> Option<string>, numeric: string -> string)
    ensures var r := Post(query, apiKey, upstream, hostOf, numeric);
      r.Success? && r.result.url.Some? ==>
        hostOf(r.result.url.value).Some? && hostOf(r.result.url.value).value in AllowedHosts
  {
  }

  /**
   The allow-list has no effect on the image: because the raw image is the
   fallback, the result image is the model's image whenever it is non-empty,
   whatever its host.
   */
  lemma ImageFilterIsNoOp(query: string, p: Parsed, hostOf: string -> Option<string>, numeric: string -> string)
    ensures Assemble(query, p, hostOf, numeric).image == NonEmpty(p.image)
  {
  }

  /** A successful result always has a non-empty title: the model's, or the query. */
  lemma ResultTitleNonEmpty(
    query: Option<string>, apiKey: Option<string>, upstream: Upstream,
    hostOf: string -> Option<string>, numeric: string -> string)
    ensures var r := Post(query, apiKey, upstream, hostOf, numeric);
      r.Success? ==> r.result.title != []
  {
    var r := Post(query, apiKey, upstream, hostOf, numeric);
    if r.Success? && !Truthy(upstream.parsed.title) {
      TrimEmptyIffBlank(query.value);
    }
  }

  /** The editor's view of a successful response body. */
  function AsEditorReply(r: EnrichResult): (reply: Editor.AiReply)
    ensures reply.AiResponse? && reply.ok && reply.error.None? && reply.result.Some?
    ensures reply.result.value.title == Some(r.title)
  {
    Editor.AiResponse(true, None, Some(Editor.AiFields(Some(r.title), r.url, r.price, r.image)))
  }

  /**
   Against this route, the editor's AI search always reports success: the
   name it sent is non-blank, so the result's title is truthy, the form's
   name becomes that title and the "nothing found" message never shows.
   */
  lemma EditorSearchAlwaysFills(
    st: Editor.EditorState, apiKey: Option<string>, upstream: Upstream,
    hostOf: string -> Option<string>, numeric: string -> string)
    requires !IsBlank(st.newItemName) && Truthy(apiKey) && upstream.Answer?
    ensures Post(Some(st.newItemName), apiKey, upstream, hostOf, numeric).Success?
    ensures var res := Post(Some(st.newItemName), apiKey, upstream, hostOf, numeric).result;
      var st' := Editor.HandleAiSearch(st, AsEditorReply(res));
      st'.aiMessage == Editor.AiFilledText && st'.aiError == "" && st'.newItemName == res.title
  {
    ResultTitleNonEmpty(Some(st.newItemName), apiKey, upstream, hostOf, numeric);
  }
}
