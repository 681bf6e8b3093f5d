/**
 * The sort step of `fetchCardData`: `filteredCards.sort(cmp)` on the chosen key, where `cmp`
 * returns -1, 1 or 0 from the relational operators. JavaScript's sort is stable; the model
 * sorts by insertion, which is stable too.
 */
module CardSort {
  import JsString
  import JsNumbers
  import JsArray
  import InsertionSort
  import opened Cards

  /** The keys the sort buttons offer; `ByName` is the initial one. */
  datatype SortKey = ByName | BySet | ByCost | ByPower

  /** The value of one card field: text for name and set, a number for cost and power. */
  datatype KeyValue = Text(s: string) | Numeric(n: JsNumbers.Number)

  /** `card[sortKey]`. */
  function KeyOf(card: CardData, key: SortKey): KeyValue {
    match key
    case ByName => Text(card.name)
    case BySet => Text(card.cardSet)
    case ByCost => Numeric(card.cost)
    case ByPower => Numeric(card.power)
  }

  /** `x < y` on two values of the same field. */
  predicate KeyLess(x: KeyValue, y: KeyValue) {
    if x.Text? && y.Text? then JsString.Less(x.s, y.s)
    else if x.Numeric? && y.Numeric? then JsNumbers.Less(x.n, y.n)
    else false
  }

  /** `a[sortKey] < b[sortKey] ? -1 : a[sortKey] > b[sortKey] ? 1 : 0`. */
  function Compare(a: CardData, b: CardData, key: SortKey): int {
    if KeyLess(KeyOf(a, key), KeyOf(b, key)) then -1
    else if KeyLess(KeyOf(b, key), KeyOf(a, key)) then 1
    else 0
  }

  /** The key of `card` takes part in the order: it is not NaN. */
  predicate Comparable(card: CardData, key: SortKey) {
    KeyOf(card, key) != Numeric(JsNumbers.NaN)
  }

  predicate AllComparable(s: seq<CardData>, key: SortKey) {
    forall i :: 0 <= i < |s| ==> Comparable(s[i], key)
  }

  /** Non-decreasing under the comparator. */
  predicate Sorted(s: seq<CardData>, key: SortKey) {
    forall i, j :: 0 <= i < j < |s| ==> Compare(s[i], s[j], key) <= 0
  }

  /** The cards whose key equals `v`. */
  function HasKey(key: SortKey, v: KeyValue): CardData -> bool {
    card => KeyOf(card, key) == v
  }

  /** The comparator passed to `sort`. */
  function CompareOn(key: SortKey): (CardData, CardData) -> int {
    (a: CardData, b: CardData) => Compare(a, b, key)
  }

  /** Inserts `x` after the last card of `p` that the comparator does not put after it. */
  function Insert(p: seq<CardData>, x: CardData, key: SortKey): seq<CardData> {
    InsertionSort.InsertBy(p, x, CompareOn(key))
  }

  /** The sorted list: each card inserted, in input order, into the sorted cards before it. */
  function SortBy(s: seq<CardData>, key: SortKey): seq<CardData> {
    InsertionSort.SortWith(s, CompareOn(key))
  }

  /** Sorting only reorders: the result is a permutation of the input. */
  lemma SortPermutation(s: seq<CardData>, key: SortKey)
    ensures multiset(SortBy(s, key)) == multiset(s)
  {
    InsertionSort.SortPermutation(s, CompareOn(key));
  }

  lemma KeyLessIrreflexive(v: KeyValue)
    ensures !KeyLess(v, v)
  {
    if v.Text? {
      JsString.LessIrreflexive(v.s);
    }
  }

  lemma KeyLessAsymmetric(x: KeyValue, y: KeyValue)
    requires KeyLess(x, y)
    ensures !KeyLess(y, x)
  {
    if x.Text? {
      JsString.LessAsymmetric(x.s, y.s);
    }
  }

  /** The comparator puts `a` no later than `b` exactly when `b`'s key is not below `a`'s. */
  lemma NotAfter(a: CardData, b: CardData, key: SortKey)
    ensures Compare(a, b, key) <= 0 <==> !KeyLess(KeyOf(b, key), KeyOf(a, key))
  {
    if KeyLess(KeyOf(a, key), KeyOf(b, key)) {
      KeyLessAsymmetric(KeyOf(a, key), KeyOf(b, key));
    }
  }

  /** Inserting `x` appends it to the cards of its own key and leaves the others' order alone. */
  lemma {:induction false} InsertStable(p: seq<CardData>, x: CardData, key: SortKey, v: KeyValue)
    ensures JsArray.Filter(Insert(p, x, key), HasKey(key, v)) ==
      JsArray.Filter(p, HasKey(key, v)) + JsArray.Filter([x], HasKey(key, v))
  {
    var keep := HasKey(key, v);
    if p == [] {
      assert Insert(p, x, key) == [x];
      assert JsArray.Filter(p, keep) == [];
    } else if Compare(p[|p| - 1], x, key) > 0 {
      var init, last := p[..|p| - 1], p[|p| - 1];
      assert p == init + [last];
      InsertStable(init, x, key, v);
      InsertStableShift(init, last, x, key, v);
    } else {
      JsArray.FilterConcat(p, [x], keep);
    }
  }

  /** The step of `InsertStable` where `x` moves in front of `last`, whose key differs. */
  lemma InsertStableShift(init: seq<CardData>, last: CardData, x: CardData, key: SortKey, v: KeyValue)
    requires Compare(last, x, key) > 0
    requires JsArray.Filter(Insert(init, x, key), HasKey(key, v)) ==
      JsArray.Filter(init, HasKey(key, v)) + JsArray.Filter([x], HasKey(key, v))
    ensures JsArray.Filter(Insert(init + [last], x, key), HasKey(key, v)) ==
      JsArray.Filter(init + [last], HasKey(key, v)) + JsArray.Filter([x], HasKey(key, v))
  {
    InsertPastLast(init, last, x, key);
    KeysApart(last, x, key, v);
    JsArray.FilterMoveBack(Insert(init, x, key), init, last, x, HasKey(key, v));
  }

  /** A card that compares greater than `x` is inserted behind. */
  lemma InsertPastLast(init: seq<CardData>, last: CardData, x: CardData, key: SortKey)
    requires Compare(last, x, key) > 0
    ensures Insert(init + [last], x, key) == Insert(init, x, key) + [last]
  {
    var p := init + [last];
    assert p[..|p| - 1] == init && p[|p| - 1] == last;
  }

  /** Two cards the comparator tells apart never both have the key value `v`. */
  lemma KeysApart(last: CardData, x: CardData, key: SortKey, v: KeyValue)
    requires Compare(last, x, key) > 0
    ensures !HasKey(key, v)(x) || !HasKey(key, v)(last)
  {
    KeyLessIrreflexive(KeyOf(x, key));
  }

  /** Stability: for every key value, the cards with that key keep their input order. */
  lemma {:induction false} SortStable(s: seq<CardData>, key: SortKey, v: KeyValue)
    ensures JsArray.Filter(SortBy(s, key), HasKey(key, v)) == JsArray.Filter(s, HasKey(key, v))
  {
    if s != [] {
      var init, last := s[..|s| - 1], s[|s| - 1];
      var keep := HasKey(key, v);
      var sorted := SortBy(init, key);
      assert JsArray.Filter(sorted, keep) == JsArray.Filter(init, keep) by {
        SortStable(init, key, v);
      }
      assert JsArray.Filter(Insert(sorted, last, key), keep) ==
        JsArray.Filter(sorted, keep) + JsArray.Filter([last], keep) by {
        InsertStable(sorted, last, key, v);
      }
      assert JsArray.Filter(s, keep) == JsArray.Filter(init, keep) + JsArray.Filter([last], keep) by {
        assert s == init + [last];
        JsArray.FilterConcat(init, [last], keep);
      }
      assert SortBy(s, key) == Insert(sorted, last, key);
    }
  }

  /** On keys without NaN the comparator is a total preorder: "not after" is transitive. */
  lemma NotAfterTransitive(a: CardData, b: CardData, c: CardData, key: SortKey)
    requires Comparable(a, key) && Comparable(b, key) && Comparable(c, key)
    requires Compare(a, b, key) <= 0 && Compare(b, c, key) <= 0
    ensures Compare(a, c, key) <= 0
  {
    var ka, kb, kc := KeyOf(a, key), KeyOf(b, key), KeyOf(c, key);
    NotAfter(a, b, key);
    NotAfter(b, c, key);
    NotAfter(a, c, key);
    if ka.Text? && JsString.Less(kc.s, ka.s) {
      if ka.s != kb.s {
        JsString.LessTotal(ka.s, kb.s);
        JsString.LessTransitive(kc.s, ka.s, kb.s);
      }
    }
  }

  /** Every card of `s` is placed no later than `y`. */
  predicate AllNotAfter(s: seq<CardData>, y: CardData, key: SortKey) {
    forall i :: 0 <= i < |s| ==> Compare(s[i], y, key) <= 0
  }

  lemma {:induction false} InsertAllNotAfter(p: seq<CardData>, x: CardData, y: CardData, key: SortKey)
    requires AllNotAfter(p, y, key) && Compare(x, y, key) <= 0
    ensures AllNotAfter(Insert(p, x, key), y, key)
  {
    if p != [] && Compare(p[|p| - 1], x, key) > 0 {
      InsertAllNotAfter(p[..|p| - 1], x, y, key);
    }
  }

  lemma SortedAppend(q: seq<CardData>, y: CardData, key: SortKey)
    requires Sorted(q, key) && AllNotAfter(q, y, key)
    ensures Sorted(q + [y], key)
  {
    var r := q + [y];
    forall i, j | 0 <= i < j < |r|
      ensures Compare(r[i], r[j], key) <= 0
    {
      if j < |q| {
        assert r[i] == q[i] && r[j] == q[j];
      }
    }
  }

  /** Inserting a comparable card into a sorted list keeps it sorted. */
  lemma {:induction false} InsertSorted(p: seq<CardData>, x: CardData, key: SortKey)
    requires Sorted(p, key) && AllComparable(p, key) && Comparable(x, key)
    ensures Sorted(Insert(p, x, key), key)
  {
    if p == [] {
    } else if Compare(p[|p| - 1], x, key) > 0 {
      var init, last := p[..|p| - 1], p[|p| - 1];
      assert Sorted(init, key) && AllComparable(init, key);
      InsertSorted(init, x, key);
      assert AllNotAfter(init, last, key);
      InsertAllNotAfter(init, x, last, key);
      SortedAppend(Insert(init, x, key), last, key);
    } else {
      var last := p[|p| - 1];
      forall i | 0 <= i < |p|
        ensures Compare(p[i], x, key) <= 0
      {
        if i < |p| - 1 {
          NotAfterTransitive(p[i], last, x, key);
        }
      }
      SortedAppend(p, x, key);
    }
  }

  /** Every card of the sorted list comes from the input. */
  lemma SortedFromInput(s: seq<CardData>, key: SortKey, y: CardData)
    requires y in SortBy(s, key)
    ensures y in s
  {
    SortPermutation(s, key);
    assert y in multiset(SortBy(s, key));
  }

  /** With no NaN key the sorted list is non-decreasing under the comparator. */
  lemma {:induction false} SortSorted(s: seq<CardData>, key: SortKey)
    requires AllComparable(s, key)
    ensures Sorted(SortBy(s, key), key)
  {
    if s != [] {
      var init := s[..|s| - 1];
      SortSorted(init, key);
      var sorted := SortBy(init, key);
      forall i | 0 <= i < |sorted|
        ensures Comparable(sorted[i], key)
      {
        SortedFromInput(init, key, sorted[i]);
      }
      InsertSorted(sorted, s[|s| - 1], key);
    }
  }

  /** A list that is already sorted comes back unchanged, so re-sorting changes nothing. */
  lemma {:induction false} SortOfSorted(s: seq<CardData>, key: SortKey)
    requires Sorted(s, key)
    ensures SortBy(s, key) == s
  {
    if s != [] {
      var init, last := s[..|s| - 1], s[|s| - 1];
      SortedPrefix(s, key);
      SortOfSorted(init, key);
      assert SortBy(s, key) == Insert(init, last, key);
      if |s| > 1 {
        assert init[|init| - 1] == s[|s| - 2];
        assert Compare(s[|s| - 2], last, key) <= 0;
      }
      assert Insert(init, last, key) == init + [last];
      assert init + [last] == s;
    }
  }

  /** Dropping the last card of a sorted list leaves it sorted. */
  lemma SortedPrefix(s: seq<CardData>, key: SortKey)
    requires Sorted(s, key) && s != []
    ensures Sorted(s[..|s| - 1], key)
  {
    var init := s[..|s| - 1];
    forall i, j | 0 <= i < j < |init|
      ensures Compare(init[i], init[j], key) <= 0
    {
      assert init[i] == s[i] && init[j] == s[j];
    }
  }

  /** What `SortBy` promises: a permutation, stable for every key value, sorted without NaN keys. */
  lemma SortSpec(s: seq<CardData>, key: SortKey)
    ensures multiset(SortBy(s, key)) == multiset(s)
    ensures forall v :: JsArray.Filter(SortBy(s, key), HasKey(key, v)) == JsArray.Filter(s, HasKey(key, v))
    ensures AllComparable(s, key) ==> Sorted(SortBy(s, key), key)
  {
    SortPermutation(s, key);
    forall v
      ensures JsArray.Filter(SortBy(s, key), HasKey(key, v)) == JsArray.Filter(s, HasKey(key, v))
    {
      SortStable(s, key, v);
    }
    if AllComparable(s, key) {
      SortSorted(s, key);
    }
  }

  /**
   * `filteredCards.sort(...)` in place. The result is `SortBy` of the input: a permutation,
   * stable for every key value, and sorted whenever no key is NaN.
   */
  method SortCards(a: array<CardData>, key: SortKey)
    modifies a
    ensures a[..] == SortBy(old(a[..]), key)
    ensures multiset(a[..]) == multiset(old(a[..]))
    ensures forall v :: JsArray.Filter(a[..], HasKey(key, v)) == JsArray.Filter(old(a[..]), HasKey(key, v))
    ensures AllComparable(old(a[..]), key) ==> Sorted(a[..], key)
  {
    ghost var input := a[..];
    InsertionSort.Sort(a, CompareOn(key));
    SortSpec(input, key);
  }
}
