/**
 * The HP range filter of `fetchCardData`: `range` is split on "-", both parts go through
 * `Number`, and a card stays when `minHp <= hp <= maxHp`.
 */
module CardRange {
  import JsString
  import JsNumbers
  import JsArray
  import opened Cards

  /**
   * `const [minHp, maxHp] = range.split("-").map(Number)`. A range with no second part
   * leaves `maxHp` undefined, which compares like NaN; parts after the second are ignored.
   */
  function ParseRange(range: string): (JsNumbers.Number, JsNumbers.Number) {
    var parts := JsString.Split(range, '-');
    (JsNumbers.ToNumber(parts[0]), if |parts| >= 2 then JsNumbers.ToNumber(parts[1]) else JsNumbers.NaN)
  }

  /** `card.hp >= minHp && card.hp <= maxHp`. */
  predicate InRange(card: CardData, minHp: JsNumbers.Number, maxHp: JsNumbers.Number) {
    JsNumbers.LessEq(minHp, card.hp) && JsNumbers.LessEq(card.hp, maxHp)
  }

  function InRangeOf(range: string): CardData -> bool {
    var bounds := ParseRange(range);
    card => InRange(card, bounds.0, bounds.1)
  }

  /** The list after the range step: unchanged for an empty `range`, else the cards in range. */
  function FilterByRange(cards: seq<CardData>, range: string): seq<CardData> {
    if range == "" then cards else JsArray.Filter(cards, InRangeOf(range))
  }

  /** The filter keeps exactly the cards in range, each as often as given, in their order. */
  lemma FilterByRangeKeeps(cards: seq<CardData>, range: string, card: CardData)
    requires range != ""
    ensures card in FilterByRange(cards, range) <==>
      card in cards && InRange(card, ParseRange(range).0, ParseRange(range).1)
    ensures multiset(FilterByRange(cards, range))[card] ==
      if InRange(card, ParseRange(range).0, ParseRange(range).1) then multiset(cards)[card] else 0
  {
    JsArray.FilterCount(cards, InRangeOf(range), card);
  }

  /** Filtering a concatenation filters each part: the surviving cards keep their order. */
  lemma FilterByRangeOrder(a: seq<CardData>, b: seq<CardData>, range: string)
    ensures FilterByRange(a + b, range) == FilterByRange(a, range) + FilterByRange(b, range)
  {
    if range != "" {
      JsArray.FilterConcat(a, b, InRangeOf(range));
    }
  }

  /** "lo-hi" with two digit strings bounds `hp` inclusively at both ends by their values. */
  lemma ParseDigitRange(lo: string, hi: string)
    requires JsNumbers.AllDigits(lo) && JsNumbers.AllDigits(hi)
    ensures ParseRange(lo + "-" + hi) == (JsNumbers.Int(JsNumbers.DigitsValue(lo)), JsNumbers.Int(JsNumbers.DigitsValue(hi)))
  {
    NoDashInDigits(lo);
    NoDashInDigits(hi);
    JsString.SplitPair(lo, hi, '-');
    JsNumbers.ToNumberOfDigits(lo);
    JsNumbers.ToNumberOfDigits(hi);
  }

  lemma NoDashInDigits(d: string)
    requires JsNumbers.AllDigits(d)
    ensures '-' !in d
  {
  }

  /** With range "lo-hi" a card stays exactly when its `hp` is a number with lo <= hp <= hi. */
  lemma FilterByDigitRange(cards: seq<CardData>, lo: string, hi: string, card: CardData)
    requires JsNumbers.AllDigits(lo) && JsNumbers.AllDigits(hi)
    ensures card in FilterByRange(cards, lo + "-" + hi) <==>
      card in cards && card.hp.Int? && JsNumbers.DigitsValue(lo) <= card.hp.value <= JsNumbers.DigitsValue(hi)
  {
    var range := lo + "-" + hi;
    ParseDigitRange(lo, hi);
    var bounds := ParseRange(range);
    assert bounds.0 == JsNumbers.Int(JsNumbers.DigitsValue(lo));
    assert bounds.1 == JsNumbers.Int(JsNumbers.DigitsValue(hi));
    assert range != "";
    FilterByRangeKeeps(cards, range, card);
    assert InRange(card, bounds.0, bounds.1) <==>
      card.hp.Int? && JsNumbers.DigitsValue(lo) <= card.hp.value <= JsNumbers.DigitsValue(hi);
  }

  /** Anything after a second "-" plays no part in the bounds. */
  lemma ParseRangeIgnoresExtraParts(a: string, b: string, rest: string)
    requires '-' !in a && '-' !in b
    ensures ParseRange(a + "-" + b + "-" + rest) == ParseRange(a + "-" + b)
  {
    JsString.SplitFirst(a, b + "-" + rest, '-');
    JsString.SplitFirst(b, rest, '-');
    JsString.SplitPair(a, b, '-');
    assert a + "-" + b + "-" + rest == a + ['-'] + (b + "-" + rest);
    assert b + "-" + rest == b + ['-'] + rest;
  }

  /** A non-empty range without "-" has no `maxHp`, so every card fails the test. */
  lemma OnePartRangeKeepsNothing(cards: seq<CardData>, range: string)
    requires range != "" && '-' !in range
    ensures FilterByRange(cards, range) == []
  {
    JsString.SplitWithoutSeparator(range, '-');
    if FilterByRange(cards, range) != [] {
      FilterByRangeKeeps(cards, range, FilterByRange(cards, range)[0]);
    }
  }

  /**
   * An empty part reads as `Number("")`, which is 0, whatever follows the "-"; with a digit
   * string after it, "-hi" keeps the cards with 0 <= hp <= hi.
   */
  lemma EmptyLowerBoundIsZero(hi: string)
    ensures ParseRange("-" + hi).0 == JsNumbers.Int(0)
    ensures JsNumbers.AllDigits(hi) ==>
      ParseRange("-" + hi) == (JsNumbers.Int(0), JsNumbers.Int(JsNumbers.DigitsValue(hi)))
  {
    assert "-" + hi == "" + ['-'] + hi;
    JsString.SplitFirst("", hi, '-');
    JsNumbers.ToNumberOfDigits("");
    if JsNumbers.AllDigits(hi) {
      assert "" + "-" + hi == "-" + hi;
      ParseDigitRange("", hi);
    }
  }
}
