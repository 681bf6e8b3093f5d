/**
 * The client side of the upstream card API: `fetchCatalog` and `searchCards`. The HTTP call
 * and `JSON.parse` are not modelled; each operation receives instead the `Reply` that the
 * one request it issues would produce, and the model is the decision logic over that reply:
 * the blank-query guard, the `{data: [...]}` envelope check and the re-wrapping of every
 * failure into an `APIError`.
 */
module Api {
  import opened Wrappers
  import JsString

  const BaseUrl: string := "https://api.swu-db.com"
  const SearchPrefix: string := BaseUrl + "/cards/search?q="
  const SearchSuffix: string := "&pretty=true"

  const CatalogFailed: string := "Failed to fetch catalog data"
  const CatalogFormat: string := "Unexpected response format for catalog"
  const SearchFailed: string := "Failed to fetch card data"
  const SearchFormat: string := "Unexpected response format for card search"

  /** One card as the upstream sends it: every field may be missing. */
  datatype CardResponse = CardResponse(
    Set: Option<string>,
    Number: Option<string>,
    Name: Option<string>,
    Type: Option<string>,
    Aspects: Option<seq<string>>,
    Traits: Option<seq<string>>,
    Arenas: Option<seq<string>>,
    Cost: Option<string>,
    Power: Option<string>,
    HP: Option<string>,
    FrontText: Option<string>,
    DoubleSided: Option<bool>,
    Rarity: Option<string>,
    Unique: Option<bool>,
    Artist: Option<string>,
    VariantType: Option<string>,
    MarketPrice: Option<string>,
    FoilPrice: Option<string>,
    FrontArt: Option<string>)

  /** `APIError`: a message and, optionally, the error it was raised for. */
  datatype ApiError = ApiError(message: string, originalError: Option<Cause>)

  /** What a `catch` block can receive. */
  datatype Cause =
    | Transport(message: string)  // an axios error: connection, timeout, non-2xx status
    | Syntax                      // `JSON.parse` rejected the proxied contents
    | NullDestructure             // the TypeError of `const { data } = null`
    | Format(inner: ApiError)     // the "Unexpected response format" error thrown inside `try`

  /**
   * A parsed JSON value, as far as this module looks into it: of an object only its `data`
   * property matters, and array elements (of type `T`) are passed on without inspection.
   */
  datatype Json<T> =
    | Null
    | Bool(b: bool)
    | Number(n: int)
    | Str(s: string)
    | Array(items: seq<T>)
    | Object(data: Option<Json<T>>)

  /** What the single upstream request yields once its body has gone through `JSON.parse`. */
  datatype Reply<T> =
    | TransportError(message: string)
    | Unparsable
    | Parsed(body: Json<T>)

  /** JavaScript truthiness of a JSON value. */
  predicate Truthy<T>(j: Json<T>) {
    match j
    case Null => false
    case Bool(b) => b
    case Number(n) => n != 0
    case Str(s) => s != ""
    case Array(_) => true
    case Object(_) => true
  }

  /** `j.data`: `None` stands for `undefined`, which is what every non-object gives. */
  function DataOf<T>(j: Json<T>): Option<Json<T>> {
    if j.Object? then j.data else None
  }

  /** The reply is the envelope `{data: [...]}`. */
  predicate IsEnvelope<T>(reply: Reply<T>) {
    reply.Parsed? && reply.body.Object? && reply.body.data.Some? && reply.body.data.value.Array?
  }

  /** The cause a failed request or parse hands to the `catch` block. */
  function ReplyCause<T>(reply: Reply<T>): Cause
    requires !reply.Parsed?
  {
    if reply.TransportError? then Transport(reply.message) else Syntax
  }

  /** The `try` block of `fetchCatalog` after `JSON.parse`. */
  function CatalogBody<T>(body: Json<T>): Result<seq<T>, Cause> {
    var data := DataOf(body);
    if !Truthy(body) || !(data.Some? && data.value.Array?) then
      Failure(Format(ApiError(CatalogFormat, None)))
    else
      Success(data.value.items)
  }

  /** `fetchCatalog`: the catalog entries, or an `APIError` wrapping whatever went wrong. */
  function FetchCatalog<T>(reply: Reply<T>): (r: Result<seq<T>, ApiError>)
    ensures r.Success? <==> IsEnvelope(reply)
    ensures r.Success? ==> r.value == reply.body.data.value.items
    ensures r.Failure? ==> r.error.message == CatalogFailed
    ensures r.Failure? && !reply.Parsed? ==> r.error.originalError == Some(ReplyCause(reply))
    ensures r.Failure? && reply.Parsed? ==>
      r.error.originalError == Some(Format(ApiError(CatalogFormat, None)))
  {
    var attempt := if reply.Parsed? then CatalogBody(reply.body) else Failure(ReplyCause(reply));
    match attempt
    case Success(entries) => Success(entries)
    case Failure(cause) => Failure(ApiError(CatalogFailed, Some(cause)))
  }

  /** The upstream URL of a search: the query sits verbatim, untrimmed, between a fixed prefix and suffix. */
  function SearchUrl(query: string): (url: string)
    ensures |url| == |SearchPrefix| + |query| + |SearchSuffix|
    ensures url[..|SearchPrefix|] == SearchPrefix
    ensures url[|SearchPrefix|..|SearchPrefix| + |query|] == query
    ensures url[|SearchPrefix| + |query|..] == SearchSuffix
  {
    var url := SearchPrefix + query + SearchSuffix;
    assert url == SearchPrefix + (query + SearchSuffix);
    url
  }

  /** Two different queries request different URLs. */
  lemma SearchUrlInjective(q1: string, q2: string)
    requires SearchUrl(q1) == SearchUrl(q2)
    ensures q1 == q2
  {
    assert |q1| == |q2|;
  }

  /** A search: the request it issued, if any, and its outcome. */
  datatype Search<T> = Search(request: Option<string>, result: Result<seq<T>, ApiError>)

  /** The `try` block of `searchCards` after `JSON.parse`. */
  function SearchBody<T>(body: Json<T>): Result<seq<T>, Cause> {
    if body.Null? then Failure(NullDestructure)
    else
      var data := DataOf(body);
      if data.None? || !Truthy(data.value) || !data.value.Array? then
        Failure(Format(ApiError(SearchFormat, None)))
      else
        Success(data.value.items)
  }

  /**
   * The outcome of the request `searchCards` issues: the `data` array of the envelope, or
   * an `APIError` with the fixed search message wrapping the transport, parse or shape error.
   */
  function SearchReply<T>(reply: Reply<T>): (r: Result<seq<T>, ApiError>)
    ensures r.Success? <==> IsEnvelope(reply)
    ensures r.Success? ==> r.value == reply.body.data.value.items
    ensures r.Failure? ==> r.error.message == SearchFailed
    ensures r.Failure? && !reply.Parsed? ==> r.error.originalError == Some(ReplyCause(reply))
    ensures r.Failure? && reply.Parsed? ==>
      r.error.originalError ==
        Some(if reply.body.Null? then NullDestructure else Format(ApiError(SearchFormat, None)))
  {
    var attempt := if reply.Parsed? then SearchBody(reply.body) else Failure(ReplyCause(reply));
    match attempt
    case Success(cards) => Success(cards)
    case Failure(cause) => Failure(ApiError(SearchFailed, Some(cause)))
  }

  /**
   * `searchCards(query)`: a blank query yields `[]` without a request; otherwise one request
   * for the query's URL, whose reply decides the outcome.
   */
  function SearchCards<T>(query: string, reply: Reply<T>): (s: Search<T>)
    ensures s.request.None? <==> JsString.AllWhitespace(query)
    ensures s.request.None? ==> s.result == Success([])
    ensures s.request.Some? ==> s.request.value == SearchUrl(query) && s.result == SearchReply(reply)
  {
    JsString.TrimEmptyIff(query);
    if JsString.Trim(query) == "" then Search(None, Success([]))
    else Search(Some(SearchUrl(query)), SearchReply(reply))
  }

  /**
   * Every outcome of `searchCards`: success exactly for a blank query or an envelope reply,
   * and every failure carries the fixed search message, never the inner format message.
   */
  lemma SearchOutcome<T>(query: string, reply: Reply<T>)
    ensures var r := SearchCards(query, reply).result;
      (r.Success? <==> JsString.AllWhitespace(query) || IsEnvelope(reply)) &&
      (r.Failure? ==> r.error.message == SearchFailed && r.error.message != SearchFormat)
  {
    assert SearchFailed[0] == 'F' && SearchFormat[0] == 'U';
  }
}
