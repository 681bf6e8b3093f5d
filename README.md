# Card browser data path, modelled in Dafny

This project models the logic of a small card browser, a React Native app with a local
development server. The modelled parts:

- **`api.ts`** (module `Api`). Two functions make one upstream request each:
  - `searchCards` skips the request when the query is blank;
  - `fetchCatalog` has no such guard.

  Both check that the parsed body is an envelope `{data: [...]}`. Every failure they meet
  (transport, parse or shape) becomes an `APIError` with a fixed message. The network call and
  `JSON.parse` together are an abstract input `Reply<T>`:
  - a transport error;
  - unparsable text;
  - a parsed JSON value.
- **`CardList.tsx`**, across four modules:
  - `Cards`: `transformCardResponse`, plus the `map` that gives each response its index.
  - `CardRange`: the HP range filter `range.split("-").map(Number)`.
  - `CardSort`: the three-way comparator and the in-place `sort`.
  - `CardList`: the choice among the five screens, and the component state that
    `fetchCardData` and the sort buttons update (class `CardListComponent`).
- **`RangePicker.tsx`** (module `RangePicker`): the two text fields and
  `handleRangeChange`, which emits `"min-max"` only when both fields are set.
- **`server.ts`** (module `Server`):
  - the Content-Type rule for static images;
  - the `/catalog/hps` pass-through;
  - the Catalog-scoped `/cards/search` filter;
  - the mapping of store exceptions to status 500.

The lowdb store is a value that either yields its data or throws. Responses are returned as
values.

The JavaScript semantics these depend on are written out once, in their own modules:
- `JsString`:
  - `trim`;
  - `||` on a string that may be missing, where `""` counts as missing;
  - `split` on a one-character separator, with `join` as its inverse;
  - `endsWith`;
  - the lexicographic `<` on strings.
- `JsNumbers`:
  - a number that is an integer or NaN, where every comparison with NaN is false;
  - `parseInt(s, 10)` as a prefix parser;
  - `Number(s)` on text;
  - `${n}` for an index.
- `JsArray`: `filter`.
- `InsertionSort`: a stable insertion sort that takes the comparator as a function value. It
  has a specification on sequences and an in-place array method proved to compute it.

`Array.prototype.sort` is only specified for consistent comparators. The card comparator is
not consistent when a numeric key is NaN. The model fixes one behaviour for every input: the
stable insertion sort. For it the following are proved:
- it is a permutation in every case;
- it is stable for every key value in every case;
- it is sorted whenever no key is NaN.

## Model

| member | source | states |
|---|---|---|
| `Api.FetchCatalog` | src/api/api.ts:45-63 | Succeeds exactly when the parsed reply is an object whose `data` is an array, and then returns that array unchanged. Every failure carries "Failed to fetch catalog data" and the cause: the transport error, the syntax error, or the format error raised for a falsy body or a non-array `data`. |
| `Api.SearchUrl` | src/api/api.ts:72 | The request URL is the fixed prefix, then the query verbatim and untrimmed, then the fixed suffix. |
| `Api.SearchUrlInjective` | src/api/api.ts:72 | Different queries give different request URLs. |
| `Api.SearchReply` | src/api/api.ts:70-91 | The `try`/`catch` of `searchCards` succeeds exactly on an envelope reply and returns its `data` unchanged. Otherwise it fails with "Failed to fetch card data". The cause is the transport or parse error, the error from destructuring a null body, or the inner format error. |
| `Api.SearchCards` | src/api/api.ts:65-92 | No request is issued exactly when the query trims to empty, and then the result is `[]`. Otherwise the request goes to `SearchUrl(query)` and the result is `SearchReply` of the reply. |
| `Api.SearchOutcome` | src/api/api.ts:66-91 | A search succeeds exactly when the query is blank or the reply is an envelope. Every failure carries "Failed to fetch card data", never the inner "Unexpected response format…" message. |
| `Cards.TransformTextFields` | src/components/CardList.tsx:46-49 | Each text field that is missing or `""` gets its fixed placeholder. Number and name placeholders embed the index. A present non-empty field is kept as is. This covers lines 56 and 58 and lines 60-64 as well. |
| `Cards.TransformArrayFields` | src/components/CardList.tsx:50-52 | `aspects`, `traits` and `arenas` are always defined: the given array (even an empty one), or `[]` when missing. |
| `Cards.TransformFlags` | src/components/CardList.tsx:57-59 | `doublesided` and `unique` are true exactly when the source is present and `true`. A present `false` stays `false`, and only a missing flag defaults to `false`. |
| `Cards.FieldNumberMissing` | src/components/CardList.tsx:53-55 | A missing or empty numeric field is 0. |
| `Cards.FieldNumberDigits` | src/components/CardList.tsx:53-55 | A digit-string field is read as its decimal value. |
| `Cards.FieldNumberNotCoerced` | src/components/CardList.tsx:53-55 | A present field is 0 only when its digits start with '0'. A field with no leading digit is NaN, never 0. |
| `Cards.TransformNumbers` | src/components/CardList.tsx:53-55 | `cost`, `power` and `hp` are all read by the same rule. `hp` is 0 when missing and the digits' value for a digit string. |
| `Cards.TransformId` | src/components/CardList.tsx:65 | `id` is `(Set or "unknown-set")-(Number or "unknown-number-<index>")`. |
| `Cards.PlaceholderNumbersDistinct` | src/components/CardList.tsx:47 | Two number-less cards at different indices get different placeholder numbers. |
| `Cards.PlaceholderNamesDistinct` | src/components/CardList.tsx:48 | Two name-less cards at different indices get different placeholder names. |
| `Cards.PlaceholderIdsDistinct` | src/components/CardList.tsx:65 | Two number-less cards of the same set at different indices get different ids. |
| `Cards.NormalizeAll` | src/components/CardList.tsx:89 | `result.map(transformCardResponse)`. The result has the same length, and position `i` holds the transform of response `i` with index `i`. |
| `Cards.NormalizedPlaceholderIdsDistinct` | src/components/CardList.tsx:65-89 | In one response batch, number-less cards of the same set get pairwise distinct ids. |
| `CardRange.FilterByRangeKeeps` | src/components/CardList.tsx:92-97 | For a non-empty range, a card is kept exactly when `minHp <= hp <= maxHp`, and it is kept as many times as it occurs. |
| `CardRange.FilterByRangeOrder` | src/components/CardList.tsx:91-97 | Filtering a concatenation concatenates the filtered parts, so the kept cards keep their order. |
| `CardRange.ParseDigitRange` | src/components/CardList.tsx:93 | `"lo-hi"` with digit strings parses to the two decimal values. |
| `CardRange.FilterByDigitRange` | src/components/CardList.tsx:92-97 | With `"lo-hi"` a card stays exactly when its `hp` is a number between the two values, inclusive at both ends. |
| `CardRange.ParseRangeIgnoresExtraParts` | src/components/CardList.tsx:93 | Parts after the second "-" do not affect the bounds. |
| `CardRange.OnePartRangeKeepsNothing` | src/components/CardList.tsx:93-96 | A non-empty range without "-" leaves `maxHp` undefined and keeps no card. |
| `CardRange.EmptyLowerBoundIsZero` | src/components/CardList.tsx:93 | An empty lower part is `Number("")`, which is 0, whatever follows the "-". With a digit string after it, the bounds are 0 and that string's value. |
| `CardSort.NotAfter` | src/components/CardList.tsx:108-110 | The comparator puts `a` no later than `b` exactly when `b`'s key is not below `a`'s. |
| `CardSort.NotAfterTransitive` | src/components/CardList.tsx:108-110 | On keys without NaN, "not after" is transitive. |
| `CardSort.SortPermutation` | src/components/CardList.tsx:107-111 | The sorted list is a permutation of the filtered list. |
| `CardSort.SortStable` | src/components/CardList.tsx:107-111 | For every key value, the cards with that key keep their input order. |
| `CardSort.SortSorted` | src/components/CardList.tsx:107-111 | With no NaN key, the sorted list is non-decreasing under the comparator. |
| `CardSort.SortOfSorted` | src/components/CardList.tsx:107-111 | A list that is already sorted comes back unchanged. |
| `CardSort.SortSpec` | src/components/CardList.tsx:107-111 | Gathers the three: a permutation, stable for every key value, and sorted when no key is NaN. |
| `CardSort.SortCards` | src/components/CardList.tsx:108-110 | The in-place `sort` leaves the array holding `SortBy` of its old contents. That is a permutation, stable, and sorted when no key is NaN. |
| `InsertionSort.SortPermutation` | src/components/CardList.tsx:108-110 | For any comparator, the sorted sequence is a permutation of the input. |
| `InsertionSort.InsertAt` | src/components/CardList.tsx:108-110 | An element is inserted after the last element that does not compare greater than it. |
| `InsertionSort.InsertionStep` | src/components/CardList.tsx:108-110 | One pass of the in-place algorithm grows the sorted prefix by the next input element. |
| `InsertionSort.Sort` | src/components/CardList.tsx:108-110 | The in-place sort leaves the array holding `SortWith` of its old contents. |
| `InsertionSort.InsertNext` | src/components/CardList.tsx:108-110 | One pass moves `a[i]` left past exactly the elements that compare greater than it. The pass shifts them right by one and leaves the rest of the array alone. |
| `CardList.ChooseScreen` | src/components/CardList.tsx:171-219 | Each of the five screens is characterised by its own condition. Welcome: no `hp`, no cards, not loading. Then loading. Then a non-empty error. Then "No cards found.". Then the grid of exactly the cards. |
| `CardList.BlankQueryShowsNoCards` | src/api/api.ts:66-68 | A blank but non-empty `hp` searches nothing and shows "No cards found.", not the welcome screen. |
| `CardList.ProcessCardsSpec` | src/components/CardList.tsx:89-111 | The displayed list is a permutation of the range-filtered transforms. It is stable per key value and sorted when no key is NaN. Without a range it holds every transform. |
| `CardList.ProcessCardsMembers` | src/components/CardList.tsx:89-111 | A card is displayed exactly when it is the transform of some response at its index and, given a range, is in range. |
| `CardList.FormatAndSort` | src/components/CardList.tsx:89-111 | The array steps of `fetchCardData` (map, filter, in-place sort) compute `ProcessCards`. |
| `CardList.SortedCopy` | src/components/CardList.tsx:107-111 | Sorting an array that holds the filtered cards yields `SortBy` of them. |
| `CardList.FailedFetchShowsError` | src/components/CardList.tsx:114-115 | Once the welcome screen no longer applies, a failed search shows the error screen with "Failed to fetch card data". |
| `CardList.FetchShowsGrid` | src/components/CardList.tsx:198-219 | After a successful fetch, the grid shows exactly when some transformed response is in range. |
| `CardList.CardListComponent.constructor` | src/components/CardList.tsx:68-72 | The first render has no cards, is loading, has no error and sorts by "name". |
| `CardList.CardListComponent.PressSort` | src/components/CardList.tsx:152 | A sort button replaces only `sortKey`. |
| `CardList.CardListComponent.SetProps` | src/components/CardList.tsx:68 | New props replace `hp` and `range` only. |
| `CardList.CardListComponent.BeginFetch` | src/components/CardList.tsx:84-85 | Sets loading and clears the error, so the loading screen shows. |
| `CardList.CardListComponent.FinishFetch` | src/components/CardList.tsx:87-118 | On success the list becomes `ProcessCards` of the responses, range and key. On failure the error message is stored and the previous list stays. Loading ends either way. |
| `RangePicker.RangePicker.constructor` | src/components/RangePicker.tsx:15-16 | Both fields start empty. |
| `RangePicker.RangePicker.SetMinHp` | src/components/RangePicker.tsx:31 | Replaces `minHp` only. |
| `RangePicker.RangePicker.SetMaxHp` | src/components/RangePicker.tsx:41 | Replaces `maxHp` only. |
| `RangePicker.RangePicker.HandleRangeChange` | src/components/RangePicker.tsx:18-22 | Emits a value exactly when both fields are non-empty, and that value is `minHp-maxHp`. The fields are not changed. For digit-only fields, the card list's parse recovers the two values. |
| `Server.ContentTypes` | server.ts:30-37 | At most one Content-Type is set. A path gets image/png exactly when it ends in ".png", and image/jpeg exactly when it ends in ".jpg" or ".jpeg". Any other path gets none. |
| `Server.ExclusiveSuffixes` | server.ts:31-36 | A path cannot end both in ".png" and in ".jpg" or ".jpeg". |
| `Server.UpperCaseGetsNoType` | server.ts:30-37 | ".PNG", ".JPG" and ".JPEG" get no Content-Type from this rule. |
| `Server.CatalogRoute` | server.ts:41-49 | Status 200 with the stored catalog verbatim, exactly when the store read succeeds. Otherwise 500 with `{error: "Failed to fetch catalog"}`. |
| `Server.CardsRoute` | server.ts:52-84 | Status 200 exactly when the store read succeeds, with a body whose cards are a sub-multiset of the stored cards. The exact content is stated by `Server.CardsMatchExactly` and `Server.CardsKeepOrder`. Otherwise 500 with `{error: "Failed to fetch cards"}`. |
| `Server.CardsUnfiltered` | server.ts:71-77 | With Catalog absent or empty, every stored card comes back in stored order. |
| `Server.CardsMatchExactly` | server.ts:73-76 | A card comes back exactly when it is stored and passes the route's predicate, as often as it is stored. For a non-empty Catalog `c`, it passes exactly when its own Catalog `=== c`, so the match is case-sensitive and whole-string. |
| `Server.CardsKeepOrder` | server.ts:71-77 | The matching cards keep their stored order: filtering a concatenation concatenates. |
| `Server.CardsStructuredEmpty` | server.ts:73-76 | A Catalog given as an array or object matches no card. |
| `JsString.TrimEmptyIff` | src/api/api.ts:66 | A string trims to "" exactly when all its characters are whitespace. |
| `JsString.Split` | src/components/CardList.tsx:93 | `split` yields at least one part, no part holds the separator, and joining the parts gives back the string. |
| `JsString.SplitPair` | src/components/RangePicker.tsx:20 | Joining two separator-free pieces with the separator and splitting again gives the two pieces back. |
| `JsString.LessTransitive` | src/components/CardList.tsx:109 | String `<` is transitive. |
| `JsString.LessTotal` | src/components/CardList.tsx:109 | Of two different strings, one is `<` the other. |
| `JsNumbers.ParseIntOfDigits` | src/components/CardList.tsx:53-55 | `parseInt` of a digit string followed by a non-digit is the digits' value. |
| `JsNumbers.ParseIntNonNumeric` | src/components/CardList.tsx:53-55 | `parseInt` of text with no leading digit is NaN. |
| `JsNumbers.ToNumberOfDigits` | src/components/CardList.tsx:93 | `Number` of a digit string, the empty one included, is its decimal value. |
| `JsNumbers.DecimalRoundTrip` | src/components/CardList.tsx:47-48 | Reading back the decimal text of an index gives the index. |
| `JsArray.FilterCount` | src/components/CardList.tsx:94-96 | `filter` keeps each passing element as often as it occurs and drops the others. |
| `JsArray.FilterConcat` | server.ts:71-77 | `filter` of a concatenation is the concatenation of the filters. |
| `JsArray.FilterSubMultiset` | server.ts:71-77 | `filter` never adds an element, or a copy of one, that the input does not hold. |

## Left out

- Animation is not modelled. This covers `Animated` values, the `animatedValues` bookkeeping loop, interpolation, durations and styles. They are presentation with timers and floating point.
- `Card.tsx`, `Dropdown.tsx`, `Header.tsx` and `App.tsx` are not part of this model. They are presentational widgets and wiring with no data logic.
- axios, the CORS proxy, `encodeURIComponent` and `JSON.parse` are foreign library calls. Their combined outcome is the parameter `Api.Reply`, and the URL is modelled before encoding.
- The `console` logging is not modelled. The `axios.isAxiosError` branch of each `catch` only logs, and otherwise rethrows exactly as the other branch does.
- The setup of Express, cors, json-server and lowdb, `app.listen`, and `express.static`'s own MIME defaults are I/O plumbing and are not modelled. The store read is the parameter `Server.StoreRead`.
- A store without a `cards` or `catalog` key is not modelled. A successful store read yields the stored value.
- JavaScript numbers are integers or NaN, with no IEEE arithmetic. `Number` of text with a decimal point, an exponent, a hex, binary or octal prefix (`0x`, `0b`, `0o`) or "Infinity" is NaN in the model; JavaScript reads these as numbers.
- Strings are sequences of Dafny `char`, which are Unicode scalar values. JavaScript `<` compares UTF-16 code units, and the two orders differ only for characters outside the Basic Multilingual Plane.
- Cards.Transform, CardList.CardListComponent.FinishFetch and Server.CardsRoute type every array element as a card record, so the model has no `null` element. In the source, a `null` in the upstream `data` array passes the envelope check. `transformCardResponse` then throws a TypeError while reading `card.Set`, and `fetchCardData` shows that error's message. On the server, a `null` stored card makes the `card.Catalog` read throw when a Catalog is given, and the route answers 500. The model cannot express either case.
- Card fields of the wrong JSON type (a number where a string is declared) are not modelled. Each field is either missing or of its declared type. A `null` field behaves as a missing one under both `||` and `??`, so it is covered by `None`.
- CardSort.SortCards: for comparators that are not consistent (a NaN `cost` or `power`), JavaScript leaves the order to the implementation. The model fixes it to the stable insertion sort, and sortedness is proved only when no key is NaN.
- CardList.CardListComponent.FinishFetch takes the settled outcome of `searchCards` as a parameter. The React `useEffect` scheduling and the ordering of overlapping fetches are not modelled.
- The `"Failed to load cards"` fallback of the `catch` block (a rejection that is not an `Error`) is not modelled. `searchCards` only ever rejects with an `APIError`.
- RangePicker.RangePicker.HandleRangeChange returns the value passed to the `onRangeSelect` callback, or `None` when the callback is not called, instead of calling a callback.
