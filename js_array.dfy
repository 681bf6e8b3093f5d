/** `Array.prototype.filter`, which both the card list and the dev server use. */
module JsArray {

  /** `s.filter(keep)`: the elements that pass `keep`, in their original order. */
  function Filter<T(!new)>(s: seq<T>, keep: T -> bool): (r: seq<T>)
    ensures |r| <= |s|
  {
    if s == [] then []
    else
      (if keep(s[0]) then [s[0]] else []) + Filter(s[1..], keep)
  }

  lemma FilterSingle<T(!new)>(x: T, keep: T -> bool)
    ensures Filter([x], keep) == if keep(x) then [x] else []
  {
    assert [x][1..] == [];
  }

  /** Filtering respects concatenation: the kept elements keep their relative order. */
  lemma {:induction false} FilterConcat<T(!new)>(a: seq<T>, b: seq<T>, keep: T -> bool)
    ensures Filter(a + b, keep) == Filter(a, keep) + Filter(b, keep)
  {
    if a != [] {
      var head := if keep(a[0]) then [a[0]] else [];
      assert (a + b)[0] == a[0] && (a + b)[1..] == a[1..] + b;
      FilterConcat(a[1..], b, keep);
      calc {
        Filter(a + b, keep);
        head + Filter(a[1..] + b, keep);
        head + (Filter(a[1..], keep) + Filter(b, keep));
        (head + Filter(a[1..], keep)) + Filter(b, keep);
        Filter(a, keep) + Filter(b, keep);
      }
    } else {
      assert a + b == b;
    }
  }

  /** Each element occurs in the result as often as in the input if it passes, else never. */
  lemma {:induction false} FilterCount<T(!new)>(s: seq<T>, keep: T -> bool, x: T)
    ensures multiset(Filter(s, keep))[x] == if keep(x) then multiset(s)[x] else 0
    ensures x in Filter(s, keep) <==> x in s && keep(x)
  {
    if s != [] {
      var head := if keep(s[0]) then [s[0]] else [];
      FilterCount(s[1..], keep, x);
      assert s == [s[0]] + s[1..];
      assert Filter(s, keep) == head + Filter(s[1..], keep);
      assert multiset(Filter(s, keep)) == multiset(head) + multiset(Filter(s[1..], keep));
    }
  }

  /** The result is a sub-multiset of the input: filtering never adds an element or a copy of one. */
  lemma {:induction false} FilterSubMultiset<T(!new)>(s: seq<T>, keep: T -> bool)
    ensures multiset(Filter(s, keep)) <= multiset(s)
  {
    if s != [] {
      FilterSubMultiset(s[1..], keep);
      assert s == [s[0]] + s[1..];
    }
  }

  /** When every element passes, the filter returns the sequence itself. */
  lemma {:induction false} FilterKeepsAll<T(!new)>(s: seq<T>, keep: T -> bool)
    requires forall i :: 0 <= i < |s| ==> keep(s[i])
    ensures Filter(s, keep) == s
  {
    if s != [] {
      FilterKeepsAll(s[1..], keep);
    }
  }

  /**
   * An element that fails `keep`, or that sits next to one that fails it, can trade places
   * with it without changing the filtered result.
   */
  lemma FilterMoveBack<T(!new)>(q: seq<T>, init: seq<T>, last: T, x: T, keep: T -> bool)
    requires Filter(q, keep) == Filter(init, keep) + Filter([x], keep)
    requires !keep(x) || !keep(last)
    ensures Filter(q + [last], keep) == Filter(init + [last], keep) + Filter([x], keep)
  {
    FilterSingle(x, keep);
    FilterSingle(last, keep);
    FilterConcat(q, [last], keep);
    FilterConcat(init, [last], keep);
    var fx, fl := Filter([x], keep), Filter([last], keep);
    calc {
      Filter(q + [last], keep);
      Filter(init, keep) + fx + fl;
      { assert fx == [] || fl == []; }
      Filter(init, keep) + fl + fx;
    }
  }
}
