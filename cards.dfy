/**
 * Normalisation of upstream cards (`transformCardResponse` and the `map` that applies it):
 * every field of an `Api.CardResponse` may be missing, every field of a `CardData` is defined.
 */
module Cards {
  import opened Wrappers
  import JsString
  import JsNumbers
  import Api

  const PlaceholderArt: string := "https://via.placeholder.com/150"

  /** A card as the list shows it. */
  datatype CardData = CardData(
    cardSet: string,
    number: string,
    name: string,
    cardType: string,
    aspects: seq<string>,
    traits: seq<string>,
    arenas: seq<string>,
    cost: JsNumbers.Number,
    power: JsNumbers.Number,
    hp: JsNumbers.Number,
    frontText: string,
    doubleSided: bool,
    rarity: string,
    unique: bool,
    artist: string,
    variantType: string,
    marketPrice: string,
    foilPrice: string,
    frontArt: string,
    id: string)

  /** A string field that `||` treats as absent: missing, or the empty string. */
  predicate Missing(field: Option<string>) {
    field.None? || field.value == ""
  }

  /** `parseInt(field || "0", 10)`. */
  function FieldNumber(field: Option<string>): JsNumbers.Number {
    JsNumbers.ParseInt(JsString.OrElse(field, "0"))
  }

  /** `transformCardResponse(card, index)`. Array fields are kept even when empty: `[]` is truthy. */
  function Transform(card: Api.CardResponse, index: nat): CardData {
    CardData(
      cardSet := JsString.OrElse(card.Set, "Unknown Set"),
      number := JsString.OrElse(card.Number, "Unknown Number " + JsNumbers.Decimal(index)),
      name := JsString.OrElse(card.Name, "Unnamed Card " + JsNumbers.Decimal(index)),
      cardType := JsString.OrElse(card.Type, "Unknown Type"),
      aspects := card.Aspects.GetOr([]),
      traits := card.Traits.GetOr([]),
      arenas := card.Arenas.GetOr([]),
      cost := FieldNumber(card.Cost),
      power := FieldNumber(card.Power),
      hp := FieldNumber(card.HP),
      frontText := JsString.OrElse(card.FrontText, "No description available."),
      doubleSided := card.DoubleSided.GetOr(false),
      rarity := JsString.OrElse(card.Rarity, "Common"),
      unique := card.Unique.GetOr(false),
      artist := JsString.OrElse(card.Artist, "Unknown Artist"),
      variantType := JsString.OrElse(card.VariantType, "None"),
      marketPrice := JsString.OrElse(card.MarketPrice, "N/A"),
      foilPrice := JsString.OrElse(card.FoilPrice, "N/A"),
      frontArt := JsString.OrElse(card.FrontArt, PlaceholderArt),
      id := JsString.OrElse(card.Set, "unknown-set") + "-"
            + JsString.OrElse(card.Number, "unknown-number-" + JsNumbers.Decimal(index)))
  }

  /** Absent or empty text fields get their placeholder; present ones are kept as they are. */
  lemma TransformTextFields(card: Api.CardResponse, index: nat)
    ensures var r := Transform(card, index);
      && (if Missing(card.Set) then r.cardSet == "Unknown Set" else r.cardSet == card.Set.value)
      && (if Missing(card.Number) then r.number == "Unknown Number " + JsNumbers.Decimal(index)
          else r.number == card.Number.value)
      && (if Missing(card.Name) then r.name == "Unnamed Card " + JsNumbers.Decimal(index)
          else r.name == card.Name.value)
      && (if Missing(card.Type) then r.cardType == "Unknown Type" else r.cardType == card.Type.value)
      && (if Missing(card.FrontText) then r.frontText == "No description available."
          else r.frontText == card.FrontText.value)
      && (if Missing(card.Rarity) then r.rarity == "Common" else r.rarity == card.Rarity.value)
      && (if Missing(card.Artist) then r.artist == "Unknown Artist" else r.artist == card.Artist.value)
      && (if Missing(card.VariantType) then r.variantType == "None"
          else r.variantType == card.VariantType.value)
      && (if Missing(card.MarketPrice) then r.marketPrice == "N/A"
          else r.marketPrice == card.MarketPrice.value)
      && (if Missing(card.FoilPrice) then r.foilPrice == "N/A" else r.foilPrice == card.FoilPrice.value)
      && (if Missing(card.FrontArt) then r.frontArt == PlaceholderArt else r.frontArt == card.FrontArt.value)
  {
  }

  /** The array fields are always defined: the given array, or `[]` when missing. */
  lemma TransformArrayFields(card: Api.CardResponse, index: nat)
    ensures var r := Transform(card, index);
      && r.aspects == (if card.Aspects.Some? then card.Aspects.value else [])
      && r.traits == (if card.Traits.Some? then card.Traits.value else [])
      && r.arenas == (if card.Arenas.Some? then card.Arenas.value else [])
  {
  }

  /** `??` keeps a present `false` or `true`; only a missing flag becomes `false`. */
  lemma TransformFlags(card: Api.CardResponse, index: nat)
    ensures var r := Transform(card, index);
      && (r.doubleSided <==> card.DoubleSided == Some(true))
      && (r.unique <==> card.Unique == Some(true))
  {
  }

  /** A missing or empty numeric field is 0. */
  lemma FieldNumberMissing(field: Option<string>)
    requires Missing(field)
    ensures FieldNumber(field) == JsNumbers.Int(0)
  {
    var text := JsString.OrElse(field, "0");
    assert text == "0";
    assert text == text + "";
    JsNumbers.ParseIntOfDigits(text, "");
  }

  /** A digit string is read as its decimal value. */
  lemma FieldNumberDigits(field: Option<string>)
    requires !Missing(field) && JsNumbers.AllDigits(field.value)
    ensures FieldNumber(field) == JsNumbers.Int(JsNumbers.DigitsValue(field.value))
  {
    JsNumbers.ParseIntOfDigits(field.value, "");
    assert field.value + "" == field.value;
  }

  /**
   * A numeric field is never 0 by coercion: 0 comes only from a missing field or from text
   * whose first digit (after whitespace and sign) is '0'; text with no digit there is NaN.
   */
  lemma FieldNumberNotCoerced(field: Option<string>)
    requires !Missing(field)
    ensures FieldNumber(field) == JsNumbers.Int(0) ==>
      JsNumbers.NumericPart(field.value) != [] && JsNumbers.NumericPart(field.value)[0] == '0'
    ensures JsNumbers.NumericPart(field.value) == [] || !JsNumbers.IsDigit(JsNumbers.NumericPart(field.value)[0]) ==>
      FieldNumber(field) == JsNumbers.NaN
  {
    if JsNumbers.ParseInt(field.value) == JsNumbers.Int(0) {
      JsNumbers.ParseIntZero(field.value);
    }
  }

  /** `cost`, `power` and `hp` are read by `FieldNumber`; for `hp`, the cases that the range filter depends on. */
  lemma TransformNumbers(card: Api.CardResponse, index: nat)
    ensures var r := Transform(card, index);
      && r.cost == FieldNumber(card.Cost)
      && r.power == FieldNumber(card.Power)
      && r.hp == FieldNumber(card.HP)
    ensures Missing(card.HP) ==> Transform(card, index).hp == JsNumbers.Int(0)
    ensures !Missing(card.HP) && JsNumbers.AllDigits(card.HP.value) ==>
      Transform(card, index).hp == JsNumbers.Int(JsNumbers.DigitsValue(card.HP.value))
  {
    if Missing(card.HP) {
      FieldNumberMissing(card.HP);
    } else if JsNumbers.AllDigits(card.HP.value) {
      FieldNumberDigits(card.HP);
    }
  }

  /**
   * The id is "{Set}-{Number}"; a missing part is replaced by "unknown-set" or by
   * "unknown-number-{index}".
   */
  lemma TransformId(card: Api.CardResponse, index: nat)
    ensures !Missing(card.Number) ==>
      Transform(card, index).id == JsString.OrElse(card.Set, "unknown-set") + "-" + card.Number.value
    ensures Missing(card.Number) ==>
      Transform(card, index).id == JsString.OrElse(card.Set, "unknown-set") + "-unknown-number-" + JsNumbers.Decimal(index)
  {
    var setPart := JsString.OrElse(card.Set, "unknown-set");
    var numberPart := JsString.OrElse(card.Number, "unknown-number-" + JsNumbers.Decimal(index));
    var id := Transform(card, index).id;
    assert id == setPart + "-" + numberPart;
    if Missing(card.Number) {
      LiteralSplit(setPart, JsNumbers.Decimal(index));
    }
  }

  lemma LiteralSplit(setPart: string, digits: string)
    ensures setPart + "-" + ("unknown-number-" + digits) == setPart + "-unknown-number-" + digits
  {
    assert "-" + "unknown-number-" == "-unknown-number-";
  }

  /** Two cards without a number, at different positions, get different placeholder numbers. */
  lemma PlaceholderNumbersDistinct(a: Api.CardResponse, i: nat, b: Api.CardResponse, j: nat)
    requires i != j && Missing(a.Number) && Missing(b.Number)
    ensures Transform(a, i).number != Transform(b, j).number
  {
    DecimalsDiffer(i, j);
    SuffixesDiffer("Unknown Number ", JsNumbers.Decimal(i), JsNumbers.Decimal(j));
  }

  /** Two cards without a name, at different positions, get different placeholder names. */
  lemma PlaceholderNamesDistinct(a: Api.CardResponse, i: nat, b: Api.CardResponse, j: nat)
    requires i != j && Missing(a.Name) && Missing(b.Name)
    ensures Transform(a, i).name != Transform(b, j).name
  {
    DecimalsDiffer(i, j);
    SuffixesDiffer("Unnamed Card ", JsNumbers.Decimal(i), JsNumbers.Decimal(j));
  }

  /**
   * Two cards of the same set part without a number, at different positions, get different
   * ids, so the list keys stay unique.
   */
  lemma PlaceholderIdsDistinct(a: Api.CardResponse, i: nat, b: Api.CardResponse, j: nat)
    requires i != j && Missing(a.Number) && Missing(b.Number)
    requires JsString.OrElse(a.Set, "unknown-set") == JsString.OrElse(b.Set, "unknown-set")
    ensures Transform(a, i).id != Transform(b, j).id
  {
    TransformId(a, i);
    TransformId(b, j);
    DecimalsDiffer(i, j);
    var setA := JsString.OrElse(a.Set, "unknown-set");
    SuffixesDiffer(setA + "-unknown-number-", JsNumbers.Decimal(i), JsNumbers.Decimal(j));
  }

  lemma DecimalsDiffer(i: nat, j: nat)
    requires i != j
    ensures JsNumbers.Decimal(i) != JsNumbers.Decimal(j)
  {
    if JsNumbers.Decimal(i) == JsNumbers.Decimal(j) {
      JsNumbers.DecimalInjective(i, j);
    }
  }

  lemma SuffixesDiffer(prefix: string, x: string, y: string)
    requires x != y
    ensures prefix + x != prefix + y
  {
    assert (prefix + x)[|prefix|..] == x;
    assert (prefix + y)[|prefix|..] == y;
  }

  /** `raws.map(transformCardResponse)` from position `first` on: each card gets its own index. */
  function NormalizeFrom(raws: seq<Api.CardResponse>, first: nat): (r: seq<CardData>)
    ensures |r| == |raws|
    ensures forall i :: 0 <= i < |raws| ==> r[i] == Transform(raws[i], first + i)
  {
    if raws == [] then [] else [Transform(raws[0], first)] + NormalizeFrom(raws[1..], first + 1)
  }

  /** `result.map(transformCardResponse)`: `map` passes each element's array position. */
  function NormalizeAll(raws: seq<Api.CardResponse>): (r: seq<CardData>)
    ensures |r| == |raws|
    ensures forall i :: 0 <= i < |raws| ==> r[i] == Transform(raws[i], i)
  {
    NormalizeFrom(raws, 0)
  }

  /** In one batch, cards of the same set that all lack a number get pairwise distinct ids. */
  lemma NormalizedPlaceholderIdsDistinct(raws: seq<Api.CardResponse>, i: nat, j: nat)
    requires i < j < |raws|
    requires Missing(raws[i].Number) && Missing(raws[j].Number)
    requires JsString.OrElse(raws[i].Set, "unknown-set") == JsString.OrElse(raws[j].Set, "unknown-set")
    ensures NormalizeAll(raws)[i].id != NormalizeAll(raws)[j].id
  {
    PlaceholderIdsDistinct(raws[i], i, raws[j], j);
  }
}
