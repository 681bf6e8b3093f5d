/**
 * `Array.prototype.sort(cmp)` as a stable insertion sort over any element type: a
 * specification by functions on sequences, and the in-place algorithm on an array proved to
 * compute it. Properties that depend on the comparator are proved where it is defined.
 */
module InsertionSort {

  /** Inserts `x` after the last element of `p` that `cmp` does not put after it. */
  function InsertBy<T>(p: seq<T>, x: T, cmp: (T, T) -> int): (r: seq<T>)
    ensures |r| == |p| + 1
  {
    if p == [] then [x]
    else if cmp(p[|p| - 1], x) > 0 then InsertBy(p[..|p| - 1], x, cmp) + [p[|p| - 1]]
    else p + [x]
  }

  /** The sorted sequence: each element inserted, in input order, into the sorted ones before it. */
  function SortWith<T>(s: seq<T>, cmp: (T, T) -> int): (r: seq<T>)
    ensures |r| == |s|
  {
    if s == [] then [] else InsertBy(SortWith(s[..|s| - 1], cmp), s[|s| - 1], cmp)
  }

  lemma {:induction false} InsertCount<T>(p: seq<T>, x: T, cmp: (T, T) -> int)
    ensures multiset(InsertBy(p, x, cmp)) == multiset(p) + multiset{x}
  {
    if p != [] && cmp(p[|p| - 1], x) > 0 {
      var init, last := p[..|p| - 1], p[|p| - 1];
      InsertCount(init, x, cmp);
      assert p == init + [last];
      assert multiset(p) == multiset(init) + multiset{last};
    }
  }

  /** Sorting only reorders, whatever the comparator: the result is a permutation of the input. */
  lemma {:induction false} SortPermutation<T>(s: seq<T>, cmp: (T, T) -> int)
    ensures multiset(SortWith(s, cmp)) == multiset(s)
  {
    if s != [] {
      var init, last := s[..|s| - 1], s[|s| - 1];
      var sorted := SortWith(init, cmp);
      assert multiset(sorted) == multiset(init) by {
        SortPermutation(init, cmp);
      }
      assert multiset(InsertBy(sorted, last, cmp)) == multiset(sorted) + multiset{last} by {
        InsertCount(sorted, last, cmp);
      }
      assert multiset(s) == multiset(init) + multiset{last} by {
        assert s == init + [last];
      }
      assert SortWith(s, cmp) == InsertBy(sorted, last, cmp);
    }
  }

  /**
   * Where `x` lands: after the prefix `p[..j]` when the element before position `j` does not
   * compare greater than `x` and every element from `j` on does.
   */
  lemma {:induction false} InsertAt<T>(p: seq<T>, j: nat, x: T, cmp: (T, T) -> int)
    requires j <= |p|
    requires j == 0 || cmp(p[j - 1], x) <= 0
    requires forall k :: j <= k < |p| ==> cmp(p[k], x) > 0
    ensures InsertBy(p, x, cmp) == p[..j] + [x] + p[j..]
  {
    if j == |p| {
      assert p[..j] == p && p[j..] == [];
    } else {
      var init, last := p[..|p| - 1], p[|p| - 1];
      InsertAt(init, j, x, cmp);
      assert init[..j] == p[..j];
      assert init[j..] + [last] == p[j..];
    }
  }

  /** The sorted prefix grows by inserting the next input element. */
  lemma SortWithExtend<T>(s: seq<T>, i: nat, cmp: (T, T) -> int)
    requires i < |s|
    ensures SortWith(s[..i + 1], cmp) == InsertBy(SortWith(s[..i], cmp), s[i], cmp)
  {
    assert s[..i + 1][..i] == s[..i];
  }

  /** A sequence that holds `p[..j]`, then `x`, then the rest of `p`, is that concatenation. */
  lemma Shifted<T>(b: seq<T>, p: seq<T>, j: nat, x: T)
    requires j <= |p| && |b| == |p| + 1
    requires forall k :: 0 <= k < j ==> b[k] == p[k]
    requires b[j] == x
    requires forall k :: j < k < |b| ==> b[k] == p[k - 1]
    ensures b == p[..j] + [x] + p[j..]
  {
  }

  /**
   * One outer step of the in-place sort, on the array contents `before` and `after` the pass
   * that moves the next element to position `j`: the sorted prefix grows by one input element.
   */
  lemma InsertionStep<T>(input: seq<T>, before: seq<T>, after: seq<T>, i: nat, j: nat, cmp: (T, T) -> int)
    requires i < |input| == |before| == |after| && j <= i
    requires before[..i] == SortWith(input[..i], cmp) && before[i..] == input[i..]
    requires forall k :: 0 <= k < j ==> after[k] == before[k]
    requires after[j] == before[i]
    requires forall k :: j < k <= i ==> after[k] == before[k - 1]
    requires forall k :: i < k < |after| ==> after[k] == before[k]
    requires j == 0 || cmp(before[j - 1], before[i]) <= 0
    requires forall k :: j <= k < i ==> cmp(before[k], before[i]) > 0
    ensures after[..i + 1] == SortWith(input[..i + 1], cmp)
    ensures after[i + 1..] == input[i + 1..]
  {
    var sorted := before[..i];
    assert before[i] == input[i];
    Shifted(after[..i + 1], sorted, j, input[i]);
    InsertAt(sorted, j, input[i], cmp);
    SortWithExtend(input, i, cmp);
    assert after[i + 1..] == before[i + 1..];
  }

  /** `a.sort(cmp)` in place: the array ends up holding `SortWith` of its old contents. */
  method Sort<T>(a: array<T>, cmp: (T, T) -> int)
    modifies a
    ensures a[..] == SortWith(old(a[..]), cmp)
  {
    ghost var input := a[..];
    var i := 0;
    while i < a.Length
      invariant 0 <= i <= a.Length
      invariant a[..i] == SortWith(input[..i], cmp)
      invariant a[i..] == input[i..]
    {
      ghost var before := a[..];
      var j := InsertNext(a, i, cmp);
      InsertionStep(input, before, a[..], i, j, cmp);
      i := i + 1;
    }
    assert input[..a.Length] == input;
  }

  /**
   * One pass of the insertion sort: `a[i]` moves left past the elements that `cmp` puts
   * after it, and lands at `j`, behind an element `cmp` does not put after it (or at the front).
   */
  method InsertNext<T>(a: array<T>, i: nat, cmp: (T, T) -> int) returns (j: nat)
    requires i < a.Length
    modifies a
    ensures j <= i
    ensures forall k :: 0 <= k < j ==> a[k] == old(a[k])
    ensures a[j] == old(a[i])
    ensures forall k :: j < k <= i ==> a[k] == old(a[k - 1])
    ensures forall k :: i < k < a.Length ==> a[k] == old(a[k])
    ensures j == 0 || cmp(old(a[j - 1]), old(a[i])) <= 0
    ensures forall k :: j <= k < i ==> cmp(old(a[k]), old(a[i])) > 0
  {
    var x := a[i];
    ghost var p := a[..i];
    j := i;
    while j > 0 && cmp(a[j - 1], x) > 0
      invariant 0 <= j <= i
      invariant forall k :: 0 <= k < j ==> a[k] == p[k]
      invariant forall k :: j < k <= i ==> a[k] == p[k - 1]
      invariant forall k :: i < k < a.Length ==> a[k] == old(a[k])
      invariant forall k :: j <= k < i ==> cmp(p[k], x) > 0
    {
      a[j] := a[j - 1];
      j := j - 1;
    }
    a[j] := x;
  }
}
