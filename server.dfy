/**
 * The request logic of the development server: the Content-Type rule for static assets, the
 * catalog pass-through and the Catalog-scoped card search. The store is a value read by the
 * route, which either yields the stored data or throws; responses are returned as values.
 */
module Server {
  import opened Wrappers
  import JsString
  import JsArray

  const CatalogFailed: string := "Failed to fetch catalog"
  const CardsFailed: string := "Failed to fetch cards"

  /**
   * The Content-Type values `setHeaders` sets for `path`, in the order it sets them: the
   * ".png" test, then the ".jpg"/".jpeg" test. The comparison is case-sensitive.
   */
  function ContentTypes(path: string): (r: seq<string>)
    ensures |r| <= 1
    ensures r == ["image/png"] <==> JsString.EndsWith(path, ".png")
    ensures r == ["image/jpeg"] <==> JsString.EndsWith(path, ".jpg") || JsString.EndsWith(path, ".jpeg")
    ensures r == [] <==>
      !JsString.EndsWith(path, ".png") && !JsString.EndsWith(path, ".jpg") && !JsString.EndsWith(path, ".jpeg")
  {
    ExclusiveSuffixes(path);
    assert ["image/png"] + [] == ["image/png"] && [] + ["image/jpeg"] == ["image/jpeg"];
    assert ["image/png"] != ["image/jpeg"] by { assert "image/png"[6] != "image/jpeg"[6]; }
    (if JsString.EndsWith(path, ".png") then ["image/png"] else []) +
    (if JsString.EndsWith(path, ".jpg") || JsString.EndsWith(path, ".jpeg") then ["image/jpeg"] else [])
  }

  /** A path cannot end with ".png" and also with ".jpg" or ".jpeg". */
  lemma ExclusiveSuffixes(path: string)
    ensures !(JsString.EndsWith(path, ".png") && JsString.EndsWith(path, ".jpg"))
    ensures !(JsString.EndsWith(path, ".png") && JsString.EndsWith(path, ".jpeg"))
  {
    if JsString.EndsWith(path, ".png") {
      assert path[|path| - 2] == 'n';
    }
  }

  /** Upper-case extensions match no test, so this rule sets no Content-Type for them. */
  lemma UpperCaseGetsNoType(stem: string, ext: string)
    requires ext == ".PNG" || ext == ".JPG" || ext == ".JPEG"
    ensures ContentTypes(stem + ext) == []
  {
    var path := stem + ext;
    assert path[|path| - 1] == ext[|ext| - 1];
    assert path[|path| - 2] == ext[|ext| - 2];
  }

  /** One outcome of reading the lowdb store: the data, or an exception. */
  datatype StoreRead<T> = Loaded(value: T) | Threw

  /** The JSON body of a response: the data, or `{ error }`. */
  datatype Body<T> = Json(value: T) | ErrorBody(error: string)

  datatype Response<T> = Response(status: int, body: Body<T>)

  /** `GET /catalog/hps`: the stored catalog as is with 200, or 500 when the store throws. */
  function CatalogRoute<T>(read: StoreRead<T>): (r: Response<T>)
    ensures r.status == 200 <==> read.Loaded?
    ensures read.Loaded? ==> r.body == Json(read.value)
    ensures read.Threw? ==> r == Response(500, ErrorBody(CatalogFailed))
  {
    match read
    case Loaded(data) => Response(200, Json(data))
    case Threw => Response(500, ErrorBody(CatalogFailed))
  }

  /**
   * A stored card: its `Catalog` field, which may be missing, and the rest of the record,
   * which the route passes through untouched.
   */
  datatype StoredCard<R> = StoredCard(catalog: Option<string>, rest: R)

  /**
   * `req.query.Catalog`: missing, a single string, or an array or object (a repeated or
   * bracketed parameter), which is truthy and never `===` a string.
   */
  datatype QueryParam = Absent | Text(value: string) | Structured

  /** The predicate passed to `.filter`: everything passes when `!Catalog`, else `===`. */
  function Keep<R(!new)>(catalog: QueryParam): StoredCard<R> -> bool {
    (card: StoredCard<R>) =>
      match catalog
      case Absent => true
      case Text(c) => c == "" || card.catalog == Some(c)
      case Structured => false
  }

  /** `GET /cards/search`: the stored cards that pass the Catalog test, or 500 on a throw. */
  function CardsRoute<R(!new)>(catalog: QueryParam, read: StoreRead<seq<StoredCard<R>>>): (r: Response<seq<StoredCard<R>>>)
    ensures r.status == 200 <==> read.Loaded?
    ensures read.Threw? ==> r == Response(500, ErrorBody(CardsFailed))
    ensures read.Loaded? ==> r.body.Json? && multiset(r.body.value) <= multiset(read.value)
  {
    match read
    case Loaded(cards) =>
      JsArray.FilterSubMultiset(cards, Keep(catalog));
      Response(200, Json(JsArray.Filter(cards, Keep(catalog))))
    case Threw => Response(500, ErrorBody(CardsFailed))
  }

  /** Without a Catalog, or with an empty one, every stored card comes back in stored order. */
  lemma {:induction false} CardsUnfiltered<R(!new)>(catalog: QueryParam, cards: seq<StoredCard<R>>)
    requires catalog == Absent || catalog == Text("")
    ensures CardsRoute(catalog, Loaded(cards)) == Response(200, Json(cards))
  {
    JsArray.FilterKeepsAll(cards, Keep<R>(catalog));
  }

  /**
   * With Catalog `c`, a card comes back exactly when its own Catalog is exactly `c`, as many
   * times as it is stored; the rest of the record is not consulted.
   */
  lemma CardsMatchExactly<R(!new)>(catalog: QueryParam, cards: seq<StoredCard<R>>, card: StoredCard<R>)
    ensures var r := CardsRoute(catalog, Loaded(cards));
      card in r.body.value <==> card in cards && Keep(catalog)(card)
    ensures var r := CardsRoute(catalog, Loaded(cards));
      multiset(r.body.value)[card] == if Keep(catalog)(card) then multiset(cards)[card] else 0
    ensures catalog.Text? && catalog.value != "" ==>
      (card in CardsRoute(catalog, Loaded(cards)).body.value <==>
         card in cards && card.catalog == Some(catalog.value))
  {
    JsArray.FilterCount(cards, Keep<R>(catalog), card);
  }

  /** The matching cards keep their stored order: the result of a concatenation is concatenated. */
  lemma CardsKeepOrder<R(!new)>(catalog: QueryParam, a: seq<StoredCard<R>>, b: seq<StoredCard<R>>)
    ensures CardsRoute(catalog, Loaded(a + b)).body.value ==
      CardsRoute(catalog, Loaded(a)).body.value + CardsRoute(catalog, Loaded(b)).body.value
  {
    JsArray.FilterConcat(a, b, Keep<R>(catalog));
  }

  /** A Catalog given as an array or object matches no card. */
  lemma {:induction false} CardsStructuredEmpty<R(!new)>(cards: seq<StoredCard<R>>)
    ensures CardsRoute(Structured, Loaded(cards)) == Response(200, Json([]))
  {
    if cards != [] {
      CardsStructuredEmpty(cards[1..]);
    }
  }
}
