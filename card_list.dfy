/**
 * The `CardList` component: the data path of `fetchCardData` (search, normalise, filter by
 * range, sort in place), the component state it updates, and the choice of screen.
 */
module CardList {
  import opened Wrappers
  import JsString
  import JsArray
  import Api
  import opened Cards
  import CardRange
  import CardSort

  /** The five things the component can render. */
  datatype Screen =
    | Welcome
    | Loading
    | ErrorMessage(text: string)
    | NoCards
    | CardGrid(cards: seq<CardData>)

  /** `if (error)`: an error string is shown only when it is set and not empty. */
  predicate Shown(error: Option<string>) {
    error.Some? && error.value != ""
  }

  /**
   * The render branches, tried in order: welcome, loading, error, "No cards found.", the grid.
   * Each screen is characterised by its own condition on the state.
   */
  function ChooseScreen(hp: string, cards: seq<CardData>, loading: bool, error: Option<string>): (s: Screen)
    ensures s == Welcome <==> hp == "" && cards == [] && !loading
    ensures s == Loading <==> loading
    ensures s.ErrorMessage? <==> !loading && Shown(error) && !(hp == "" && cards == [])
    ensures s.ErrorMessage? ==> s.text == error.value && s.text != ""
    ensures s == NoCards <==> !loading && !Shown(error) && hp != "" && cards == []
    ensures s.CardGrid? <==> !loading && !Shown(error) && cards != []
    ensures s.CardGrid? ==> s.cards == cards
  {
    if hp == "" && cards == [] && !loading then Welcome
    else if loading then Loading
    else if Shown(error) then ErrorMessage(error.value)
    else if cards == [] then NoCards
    else CardGrid(cards)
  }

  /** A blank but non-empty `hp` searches nothing and lands on "No cards found.", not welcome. */
  lemma BlankQueryShowsNoCards(hp: string, reply: Api.Reply<Api.CardResponse>, range: string, key: CardSort.SortKey)
    requires hp != "" && JsString.AllWhitespace(hp)
    ensures Api.SearchCards(hp, reply).result == Success([])
    ensures ChooseScreen(hp, ProcessCards([], range, key), false, None) == NoCards
  {
  }

  /**
   * Lines 89 to 111 of `fetchCardData` as a value: every response is transformed with its
   * index, the range filter applies when `range` is set, and the result is sorted on `key`.
   */
  function ProcessCards(raws: seq<Api.CardResponse>, range: string, key: CardSort.SortKey): seq<CardData> {
    CardSort.SortBy(CardRange.FilterByRange(NormalizeAll(raws), range), key)
  }

  /**
   * The displayed list holds exactly the transformed responses that are in range, as often as
   * the filter keeps them; equal keys keep their response order, and the list is sorted when
   * no key is NaN.
   */
  lemma ProcessCardsSpec(raws: seq<Api.CardResponse>, range: string, key: CardSort.SortKey)
    ensures var filtered := CardRange.FilterByRange(NormalizeAll(raws), range);
      multiset(ProcessCards(raws, range, key)) == multiset(filtered) &&
      (forall v :: JsArray.Filter(ProcessCards(raws, range, key), CardSort.HasKey(key, v)) ==
                   JsArray.Filter(filtered, CardSort.HasKey(key, v))) &&
      (CardSort.AllComparable(filtered, key) ==> CardSort.Sorted(ProcessCards(raws, range, key), key))
    ensures range == "" ==> multiset(ProcessCards(raws, range, key)) == multiset(NormalizeAll(raws))
  {
    CardSort.SortSpec(CardRange.FilterByRange(NormalizeAll(raws), range), key);
  }

  /** A card is displayed exactly when it is the transform of some response and is in range. */
  lemma ProcessCardsMembers(raws: seq<Api.CardResponse>, range: string, key: CardSort.SortKey, card: CardData)
    ensures card in ProcessCards(raws, range, key) <==>
      (exists i :: 0 <= i < |raws| && card == Transform(raws[i], i)) &&
      (range == "" || CardRange.InRange(card, CardRange.ParseRange(range).0, CardRange.ParseRange(range).1))
  {
    var normalized := NormalizeAll(raws);
    var filtered := CardRange.FilterByRange(normalized, range);
    CardSort.SortPermutation(filtered, key);
    assert card in ProcessCards(raws, range, key) <==> card in filtered by {
      assert card in ProcessCards(raws, range, key) <==> card in multiset(ProcessCards(raws, range, key));
    }
    if range != "" {
      CardRange.FilterByRangeKeeps(normalized, range, card);
    }
    if card in normalized {
      var i :| 0 <= i < |normalized| && normalized[i] == card;
      assert card == Transform(raws[i], i);
    }
  }

  /**
   * The array steps of `fetchCardData`: the responses are transformed with their index, the
   * range filter builds a new array when `range` is set, and that array is sorted in place.
   */
  method FormatAndSort(raws: seq<Api.CardResponse>, range: string, key: CardSort.SortKey) returns (r: seq<CardData>)
    ensures r == ProcessCards(raws, range, key)
  {
    var formatted := NormalizeAll(raws);
    var filtered := CardRange.FilterByRange(formatted, range);
    r := SortedCopy(filtered, key);
  }

  /** `cards.sort(cmp)` on an array holding `cards`: the sorted list it leaves behind. */
  method SortedCopy(cards: seq<CardData>, key: CardSort.SortKey) returns (r: seq<CardData>)
    ensures r == CardSort.SortBy(cards, key)
  {
    var a := new CardData[|cards|](i requires 0 <= i < |cards| => cards[i]);
    assert a[..] == cards;
    CardSort.SortCards(a, key);
    r := a[..];
  }

  /** The component's state: its props and the four `useState` hooks it reads. */
  class CardListComponent {
    var hp: string
    var range: string
    var cards: seq<CardData>
    var loading: bool
    var error: Option<string>
    var sortKey: CardSort.SortKey

    /** First render: no cards, loading, no error, sorted by name; `hp` and `range` default to "". */
    constructor(hp: string, range: string)
      ensures this.hp == hp && this.range == range
      ensures cards == [] && loading && error == None && sortKey == CardSort.ByName
    {
      this.hp := hp;
      this.range := range;
      cards := [];
      loading := true;
      error := None;
      sortKey := CardSort.ByName;
    }

    /** What the component renders in its current state. */
    function View(): Screen
      reads this
    {
      ChooseScreen(hp, cards, loading, error)
    }

    /** A sort button: `setSortKey(key)`. */
    method PressSort(key: CardSort.SortKey)
      modifies this
      ensures sortKey == key
      ensures hp == old(hp) && range == old(range) && cards == old(cards)
      ensures loading == old(loading) && error == old(error)
    {
      sortKey := key;
    }

    /** New props from the parent: the next fetch uses them. */
    method SetProps(hp: string, range: string)
      modifies this
      ensures this.hp == hp && this.range == range
      ensures cards == old(cards) && loading == old(loading)
      ensures error == old(error) && sortKey == old(sortKey)
    {
      this.hp := hp;
      this.range := range;
    }

    /** The synchronous start of `fetchCardData`: loading on, error cleared. */
    method BeginFetch()
      modifies this
      ensures loading && error == None
      ensures hp == old(hp) && range == old(range) && cards == old(cards) && sortKey == old(sortKey)
      ensures View() == Loading
    {
      loading := true;
      error := None;
    }

    /**
     * The rest of `fetchCardData` once `await searchCards(hp)` has settled on `outcome`. On
     * success the list becomes the processed result, sorted in place in an array; on failure
     * the error's message is stored and the previous list stays. Loading ends either way.
     */
    method FinishFetch(outcome: Result<seq<Api.CardResponse>, Api.ApiError>)
      modifies this
      ensures !loading
      ensures hp == old(hp) && range == old(range) && sortKey == old(sortKey)
      ensures outcome.Success? ==> cards == ProcessCards(outcome.value, old(range), old(sortKey)) && error == old(error)
      ensures outcome.Failure? ==> cards == old(cards) && error == Some(outcome.error.message)
    {
      if outcome.Success? {
        cards := FormatAndSort(outcome.value, range, sortKey);
        assert cards == ProcessCards(outcome.value, range, sortKey);
      } else {
        error := Some(outcome.error.message);
      }
      loading := false;
    }
  }

  /** A failed fetch shows the fixed search message, unless the welcome screen applies. */
  lemma FailedFetchShowsError(hp: string, previous: seq<CardData>, reply: Api.Reply<Api.CardResponse>)
    requires Api.SearchCards(hp, reply).result.Failure?
    requires !(hp == "" && previous == [])
    ensures ChooseScreen(hp, previous, false, Some(Api.SearchCards(hp, reply).result.error.message)) ==
      ErrorMessage(Api.SearchFailed)
  {
    var message := Api.SearchCards(hp, reply).result.error.message;
    assert message == Api.SearchFailed;
    assert Shown(Some(message)) by {
      assert message[0] == 'F';
    }
  }

  /** After a successful fetch the grid shows exactly when some transformed response is in range. */
  lemma FetchShowsGrid(hp: string, raws: seq<Api.CardResponse>, range: string, key: CardSort.SortKey)
    ensures ChooseScreen(hp, ProcessCards(raws, range, key), false, None).CardGrid? <==>
      CardRange.FilterByRange(NormalizeAll(raws), range) != []
  {
    assert |ProcessCards(raws, range, key)| == |CardRange.FilterByRange(NormalizeAll(raws), range)|;
  }
}
