/** Python's `sorted()` for the two key types the pipeline sorts (speaker names and
    directory entries by `str` order, group indices by `int` order), and the
    set-to-list step that precedes sorting the speaker names. */
module Order {

  /** Python's `<` on `str`: code points compared left to right, a proper prefix first. */
  predicate Less(a: string, b: string) {
    if |a| == 0 then |b| > 0
    else if |b| == 0 then false
    else if a[0] != b[0] then a[0] < b[0]
    else Less(a[1..], b[1..])
  }

  /** Python's `<` on the (non-negative) `int` keys of the assembler. */
  predicate NatLess(a: nat, b: nat) { a < b }

  ghost predicate StrictTotalOrder<T(!new)>(less: (T, T) -> bool) {
    && (forall x :: !less(x, x))
    && (forall x, y, z :: less(x, y) && less(y, z) ==> less(x, z))
    && (forall x, y :: x != y ==> less(x, y) || less(y, x))
  }

  /** Ascending, ties allowed: no element is smaller than an earlier one. */
  ghost predicate SortedBy<T>(xs: seq<T>, less: (T, T) -> bool) {
    forall i, j :: 0 <= i < j < |xs| ==> !less(xs[j], xs[i])
  }

  ghost predicate StrictlySortedBy<T>(xs: seq<T>, less: (T, T) -> bool) {
    forall i, j :: 0 <= i < j < |xs| ==> less(xs[i], xs[j])
  }

  lemma EmptyOrHasHead<T>(xs: seq<T>)
    ensures |xs| == 0 || xs[0] in xs
  {
  }

  predicate NoDuplicates<T(==)>(xs: seq<T>) {
    forall i, j :: 0 <= i < j < |xs| ==> xs[i] != xs[j]
  }

  lemma {:induction false} LessIrreflexive(a: string)
    ensures !Less(a, a)
  {
    if |a| > 0 {
      LessIrreflexive(a[1..]);
    }
  }

  lemma {:induction false} LessTransitive(a: string, b: string, c: string)
    requires Less(a, b) && Less(b, c)
    ensures Less(a, c)
  {
    if |a| > 0 && |b| > 0 && |c| > 0 && a[0] == b[0] && b[0] == c[0] {
      LessTransitive(a[1..], b[1..], c[1..]);
    }
  }

  lemma {:induction false} LessTotal(a: string, b: string)
    ensures a == b || Less(a, b) || Less(b, a)
  {
    if |a| > 0 && |b| > 0 && a[0] == b[0] {
      LessTotal(a[1..], b[1..]);
      if a[1..] == b[1..] {
        assert a == [a[0]] + a[1..] && b == [b[0]] + b[1..];
      }
    }
  }

  /** Python orders `str` values by a strict total order, so sorting them is well defined. */
  lemma LessIsStrictTotalOrder()
    ensures StrictTotalOrder(Less)
  {
    forall x: string ensures !Less(x, x) {
      LessIrreflexive(x);
    }
    forall x: string, y: string, z: string | Less(x, y) && Less(y, z) ensures Less(x, z) {
      LessTransitive(x, y, z);
    }
    forall x: string, y: string | x != y ensures Less(x, y) || Less(y, x) {
      LessTotal(x, y);
    }
  }

  lemma NatLessIsStrictTotalOrder()
    ensures StrictTotalOrder(NatLess)
  {
  }

  /** One insertion step: `x` goes before the first element it is not larger than. */
  function Insert<T(!new)>(xs: seq<T>, x: T, less: (T, T) -> bool): (r: seq<T>)
    requires StrictTotalOrder(less)
    requires SortedBy(xs, less)
    ensures SortedBy(r, less)
    ensures multiset(r) == multiset(xs) + multiset{x}
  {
    if |xs| == 0 || !less(xs[0], x) then
      PrependLeast(xs, x, less);
      [x] + xs
    else
      var rest := Insert(xs[1..], x, less);
      assert xs == [xs[0]] + xs[1..];
      NoneBelowHead(xs, x, rest, less);
      PrependLeast(rest, xs[0], less);
      [xs[0]] + rest
  }

  /** Putting an element no larger than the head in front keeps a list sorted. */
  lemma PrependLeast<T(!new)>(xs: seq<T>, x: T, less: (T, T) -> bool)
    requires StrictTotalOrder(less)
    requires SortedBy(xs, less)
    requires |xs| == 0 || !less(xs[0], x)
    ensures SortedBy([x] + xs, less)
  {
    forall j | 0 <= j < |xs| ensures !less(xs[j], x) {
      if j > 0 {
        assert !less(xs[j], xs[0]);
      }
    }
  }

  /** Inserting something larger than the head into the tail leaves nothing below the head. */
  lemma NoneBelowHead<T(!new)>(xs: seq<T>, x: T, rest: seq<T>, less: (T, T) -> bool)
    requires StrictTotalOrder(less)
    requires |xs| > 0 && SortedBy(xs, less) && less(xs[0], x)
    requires SortedBy(rest, less)
    requires multiset(rest) == multiset(xs[1..]) + multiset{x}
    ensures |rest| == 0 || !less(rest[0], xs[0])
  {
    if |rest| > 0 {
      assert rest[0] in multiset(rest);
      if rest[0] != x {
        assert rest[0] in multiset(xs[1..]);
        var k :| 0 <= k < |xs[1..]| && xs[1..][k] == rest[0];
        assert xs[k + 1] == rest[0];
      }
    }
  }

  /** Python's `sorted(xs)`. */
  function Sort<T(!new)>(xs: seq<T>, less: (T, T) -> bool): (r: seq<T>)
    requires StrictTotalOrder(less)
    ensures SortedBy(r, less)
    ensures multiset(r) == multiset(xs)
  {
    if |xs| == 0 then []
    else
      assert xs == [xs[0]] + xs[1..];
      Insert(Sort(xs[1..], less), xs[0], less)
  }

  /** A sorted arrangement of a multiset is unique: whatever order the input
      came in, `sorted()` produces the same list. */
  lemma {:induction false} SortedUnique<T(!new)>(xs: seq<T>, ys: seq<T>, less: (T, T) -> bool)
    requires StrictTotalOrder(less)
    requires SortedBy(xs, less) && SortedBy(ys, less)
    requires multiset(xs) == multiset(ys)
    ensures xs == ys
  {
    if |xs| == 0 {
      assert |ys| == |multiset(ys)| == 0;
    } else {
      assert |ys| == |multiset(ys)| == |xs|;
      SortedHeadIsLeast(xs, ys[0], less);
      SortedHeadIsLeast(ys, xs[0], less);
      assert xs[0] == ys[0];
      DropCommonHead(xs, ys);
      SortedUnique(xs[1..], ys[1..], less);
    }
  }

  lemma SortedHeadIsLeast<T>(xs: seq<T>, y: T, less: (T, T) -> bool)
    requires |xs| > 0 && SortedBy(xs, less)
    requires y in multiset(xs)
    ensures y == xs[0] || !less(y, xs[0])
  {
    var k :| 0 <= k < |xs| && xs[k] == y;
  }

  lemma DropCommonHead<T>(xs: seq<T>, ys: seq<T>)
    requires |xs| > 0 && |ys| > 0 && xs[0] == ys[0]
    requires multiset(xs) == multiset(ys)
    ensures multiset(xs[1..]) == multiset(ys[1..])
  {
    assert xs == [xs[0]] + xs[1..] && ys == [ys[0]] + ys[1..];
    assert multiset(xs) == multiset{xs[0]} + multiset(xs[1..]);
    assert multiset(ys) == multiset{ys[0]} + multiset(ys[1..]);
    assert multiset(xs[1..]) == multiset(xs) - multiset{xs[0]};
    assert multiset(ys[1..]) == multiset(ys) - multiset{ys[0]};
  }

  /** Sorting any arrangement of a list gives the same result. */
  lemma SortIgnoresInputOrder<T(!new)>(xs: seq<T>, ys: seq<T>, less: (T, T) -> bool)
    requires StrictTotalOrder(less)
    requires multiset(xs) == multiset(ys)
    ensures Sort(xs, less) == Sort(ys, less)
  {
    SortedUnique(Sort(xs, less), Sort(ys, less), less);
  }

  /** Distinct elements, first occurrences kept in order: the set of a list. */
  function Dedupe<T(==,!new)>(xs: seq<T>): (r: seq<T>)
    ensures forall x :: x in r <==> x in xs
    ensures NoDuplicates(r)
  {
    if |xs| == 0 then []
    else
      var p := Dedupe(xs[..|xs| - 1]);
      if xs[|xs| - 1] in p then p else p + [xs[|xs| - 1]]
  }

  lemma SortedDistinctIsStrict<T(!new)>(xs: seq<T>, less: (T, T) -> bool)
    requires StrictTotalOrder(less)
    requires SortedBy(xs, less) && NoDuplicates(xs)
    ensures StrictlySortedBy(xs, less)
  {
  }

  /** Python's `sorted(set(xs))`: strictly ascending, exactly the elements of `xs`. */
  function SortedSet<T(==,!new)>(xs: seq<T>, less: (T, T) -> bool): (r: seq<T>)
    requires StrictTotalOrder(less)
    ensures StrictlySortedBy(r, less)
    ensures forall x :: x in r <==> x in xs
  {
    var d := Dedupe(xs);
    var r := Sort(d, less);
    assert forall x :: x in r <==> x in multiset(d);
    forall x ensures multiset(r)[x] <= 1 {
      DedupeCountsOne(d, x);
    }
    CountsOneNoDuplicates(r);
    SortedDistinctIsStrict(r, less);
    r
  }

  lemma CountsOneNoDuplicates<T>(r: seq<T>)
    requires forall x :: multiset(r)[x] <= 1
    ensures NoDuplicates(r)
  {
    forall i, j | 0 <= i < j < |r| ensures r[i] != r[j] {
      RepeatCountsTwice(r, i, j);
    }
  }

  lemma RepeatCountsTwice<T>(r: seq<T>, i: nat, j: nat)
    requires i < j < |r|
    ensures r[i] == r[j] ==> multiset(r)[r[i]] >= 2
  {
    assert r == r[..i] + [r[i]] + r[i + 1..j] + [r[j]] + r[j + 1..];
  }

  /** Two duplicate-free lists with the same elements are permutations of each other. */
  lemma DistinctSameMembers<T>(xs: seq<T>, ys: seq<T>)
    requires NoDuplicates(xs) && NoDuplicates(ys)
    requires forall x :: x in xs <==> x in ys
    ensures multiset(xs) == multiset(ys)
  {
    forall x ensures multiset(xs)[x] == multiset(ys)[x] {
      DedupeCountsOne(xs, x);
      DedupeCountsOne(ys, x);
      assert x in xs <==> x in multiset(xs);
      assert x in ys <==> x in multiset(ys);
    }
  }

  /** Removing the element at `j` removes one copy of it. */
  lemma MultisetRemove<T>(xs: seq<T>, j: nat)
    requires j < |xs|
    ensures multiset(xs[..j] + xs[j + 1..]) == multiset(xs) - multiset{xs[j]}
  {
    assert xs == xs[..j] + [xs[j]] + xs[j + 1..];
    assert multiset(xs) == multiset(xs[..j] + xs[j + 1..]) + multiset{xs[j]};
  }

  /** Removing one element keeps a list sorted. */
  lemma SortedRemove<T>(xs: seq<T>, j: nat, less: (T, T) -> bool)
    requires j < |xs| && SortedBy(xs, less)
    ensures SortedBy(xs[..j] + xs[j + 1..], less)
  {
    var w := xs[..j] + xs[j + 1..];
    forall a, b | 0 <= a < b < |w| ensures !less(w[b], w[a]) {
      var a' := if a < j then a else a + 1;
      var b' := if b < j then b else b + 1;
      assert w[a] == xs[a'] && w[b] == xs[b'];
    }
  }

  /** Sorting a list with one more element inserts that element somewhere into
      the sorted list and leaves the rest as it was. */
  lemma SortSplit<T(!new)>(xs: seq<T>, x: T, less: (T, T) -> bool) returns (j: nat)
    requires StrictTotalOrder(less)
    ensures j <= |Sort(xs, less)|
    ensures Sort(xs + [x], less) == Sort(xs, less)[..j] + [x] + Sort(xs, less)[j..]
  {
    var sorted := Sort(xs + [x], less);
    assert multiset(xs + [x]) == multiset(xs) + multiset{x};
    assert x in multiset(sorted);
    j :| 0 <= j < |sorted| && sorted[j] == x;
    RemoveFromSorted(sorted, j, Sort(xs, less), less);
  }

  lemma RemoveFromSorted<T(!new)>(sorted: seq<T>, j: nat, ys: seq<T>, less: (T, T) -> bool)
    requires StrictTotalOrder(less)
    requires j < |sorted| && SortedBy(sorted, less) && SortedBy(ys, less)
    requires multiset(sorted) == multiset(ys) + multiset{sorted[j]}
    ensures j <= |ys| && sorted == ys[..j] + [sorted[j]] + ys[j..]
  {
    var w := sorted[..j] + sorted[j + 1..];
    MultisetRemove(sorted, j);
    SortedRemove(sorted, j, less);
    SortedUnique(w, ys, less);
    SpliceBack(sorted, j);
  }

  /** In a permutation of a non-empty list, some position holds its head, and
      the rest of each list is again a permutation of the other. */
  lemma MatchHead<T>(xs: seq<T>, ys: seq<T>) returns (j: nat)
    requires |xs| > 0 && multiset(xs) == multiset(ys)
    ensures j < |ys| && ys[j] == xs[0]
    ensures multiset(xs[1..]) == multiset(ys[..j] + ys[j + 1..])
  {
    j := PositionOf(ys, xs[0]);
    MultisetRemove(ys, j);
    assert xs == [xs[0]] + xs[1..];
  }

  /** Every member of a list sits at some position. */
  lemma PositionOf<T>(ys: seq<T>, x: T) returns (j: nat)
    requires x in multiset(ys)
    ensures j < |ys| && ys[j] == x
  {
    j :| 0 <= j < |ys| && ys[j] == x;
  }

  /** Removing the element at `j` and inserting it again at `j` restores the list. */
  lemma SpliceBack<T>(xs: seq<T>, j: nat)
    requires j < |xs|
    ensures var w := xs[..j] + xs[j + 1..];
      j <= |w| && xs == w[..j] + [xs[j]] + w[j..]
  {
    var w := xs[..j] + xs[j + 1..];
    assert w[..j] == xs[..j];
    assert w[j..] == xs[j + 1..];
    assert xs == xs[..j] + [xs[j]] + xs[j + 1..];
  }

  lemma {:induction false} DedupeCountsOne<T>(d: seq<T>, x: T)
    requires NoDuplicates(d)
    ensures multiset(d)[x] <= 1
  {
    if |d| > 0 {
      assert d == [d[0]] + d[1..];
      DedupeCountsOne(d[1..], x);
      if d[0] == x {
        assert x !in d[1..];
      }
    }
  }
}
