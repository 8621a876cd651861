/** `toSorted` with a collation, and what a sorted list of distinct elements is determined by. */
module Sorting {

  ghost predicate Injective<A(!new), B>(f: A -> B) {
    forall a, b :: f(a) == f(b) ==> a == b
  }

  ghost predicate Distinct<T>(s: seq<T>) {
    forall i, j | 0 <= i < j < |s| :: s[i] != s[j]
  }

  ghost function Elements<T>(s: seq<T>): set<T> {
    set x | x in s
  }

  /** A comparison that sorts: it never holds of an element and itself, it chains, and what is told apart from neither
    * of two elements does not tell those two apart. Different elements may compare as equal. */
  ghost predicate WeakOrder<T(!new)>(less: (T, T) -> bool) {
    && (forall a :: !less(a, a))
    && (forall a, b, c :: less(a, b) && less(b, c) ==> less(a, c))
    && (forall a, b, c :: less(a, c) ==> less(a, b) || less(b, c))
  }

  /** One that tells any two elements apart. */
  ghost predicate TotalOrder<T(!new)>(less: (T, T) -> bool) {
    WeakOrder(less) && forall a, b :: a != b ==> less(a, b) || less(b, a)
  }

  /** Before the elements that compare as equal: the sort is stable. */
  function Insert<T>(x: T, s: seq<T>, less: (T, T) -> bool): seq<T> {
    if s == [] || !less(s[0], x) then [x] + s else [s[0]] + Insert(x, s[1..], less)
  }

  function Sort<T>(s: seq<T>, less: (T, T) -> bool): seq<T> {
    if s == [] then [] else Insert(s[0], Sort(s[1..], less), less)
  }

  /** First occurrences only: spreading a `Set` built from the list. */
  function Dedupe<T(==)>(s: seq<T>): seq<T> {
    if s == [] then []
    else
      var front := Dedupe(s[..|s| - 1]);
      if s[|s| - 1] in front then front else front + [s[|s| - 1]]
  }

  ghost predicate Sorted<T>(s: seq<T>, less: (T, T) -> bool) {
    forall i, j | 0 <= i < j < |s| :: !less(s[j], s[i])
  }

  ghost predicate StrictlySorted<T>(s: seq<T>, less: (T, T) -> bool) {
    forall i, j | 0 <= i < j < |s| :: less(s[i], s[j])
  }

  ghost predicate Pairwise<T>(s: seq<T>, rel: (T, T) -> bool) {
    forall i, j | 0 <= i < j < |s| :: rel(s[i], s[j])
  }

  function Told<T>(less: (T, T) -> bool): (T, T) -> bool {
    (a: T, b: T) => less(a, b) || less(b, a)
  }

  /** Any two elements at different places are told apart. */
  ghost predicate Comparable<T>(s: seq<T>, less: (T, T) -> bool) {
    Pairwise(s, Told(less))
  }

  lemma {:induction false} DedupeElements<T>(s: seq<T>)
    ensures Elements(Dedupe(s)) == Elements(s) && Distinct(Dedupe(s))
  {
    if s != [] {
      var last := s[|s| - 1];
      DedupeElements(s[..|s| - 1]);
      assert s == s[..|s| - 1] + [last];
      assert Elements(s) == Elements(s[..|s| - 1]) + {last};
      var front := Dedupe(s[..|s| - 1]);
      assert last in front <==> last in Elements(front);
      if last in front {
        assert Elements(front) == Elements(s);
      } else {
        assert Elements(front + [last]) == Elements(front) + {last};
      }
    }
  }

  lemma {:induction false} InsertMembers<T>(x: T, s: seq<T>, less: (T, T) -> bool, y: T)
    ensures y in Insert(x, s, less) <==> y == x || y in s
  {
    if s != [] && less(s[0], x) {
      InsertMembers(x, s[1..], less, y);
      assert s == [s[0]] + s[1..];
    }
  }

  lemma {:induction false} SortMembers<T>(s: seq<T>, less: (T, T) -> bool, y: T)
    ensures y in Sort(s, less) <==> y in s
  {
    if s != [] {
      SortMembers(s[1..], less, y);
      InsertMembers(s[0], Sort(s[1..], less), less, y);
      assert s == [s[0]] + s[1..];
    }
  }

  // ----- sorting orders the list -----

  lemma SortedCons<T>(x: T, s: seq<T>, less: (T, T) -> bool)
    requires Sorted(s, less) && forall y | y in s :: !less(y, x)
    ensures Sorted([x] + s, less)
  {
  }

  lemma SortedTail<T>(s: seq<T>, less: (T, T) -> bool)
    requires Sorted(s, less) && s != []
    ensures Sorted(s[1..], less) && forall y | y in s[1..] :: !less(y, s[0])
  {
    forall y | y in s[1..] ensures !less(y, s[0]) {
      var i :| 0 <= i < |s[1..]| && s[1..][i] == y;
      assert s[i + 1] == y;
    }
  }

  lemma {:induction false} InsertSorts<T(!new)>(x: T, s: seq<T>, less: (T, T) -> bool)
    requires WeakOrder(less) && Sorted(s, less)
    ensures Sorted(Insert(x, s, less), less)
  {
    hide Sorted;
    if s == [] {
      SortedCons(x, s, less);
    } else {
      SortedTail(s, less);
      assert s == [s[0]] + s[1..];
      if less(s[0], x) {
        InsertSorts(x, s[1..], less);
        forall y | y in Insert(x, s[1..], less) ensures !less(y, s[0]) {
          InsertMembers(x, s[1..], less, y);
        }
        SortedCons(s[0], Insert(x, s[1..], less), less);
      } else {
        var head := s[0];
        assert forall y :: less(y, x) ==> less(y, head) || less(head, x);
        SortedCons(x, s, less);
      }
    }
  }

  /** Sorting leaves no pair out of order. */
  lemma {:induction false} SortSorts<T(!new)>(s: seq<T>, less: (T, T) -> bool)
    requires WeakOrder(less)
    ensures Sorted(Sort(s, less), less)
  {
    hide WeakOrder;
    if s != [] {
      SortSorts(s[1..], less);
      InsertSorts(s[0], Sort(s[1..], less), less);
    }
  }

  /** What is in order stays as it is, equal elements included. */
  lemma {:induction false} SortFixesSorted<T(!new)>(s: seq<T>, less: (T, T) -> bool)
    requires Sorted(s, less)
    ensures Sort(s, less) == s
  {
    if s != [] {
      SortedTail(s, less);
      SortFixesSorted(s[1..], less);
      assert |s| > 1 ==> s[1..][0] in s[1..];
    }
  }

  // ----- what holds of any two elements still holds -----

  lemma PairwiseCons<T>(x: T, s: seq<T>, rel: (T, T) -> bool)
    ensures Pairwise([x] + s, rel) <==> Pairwise(s, rel) && forall y | y in s :: rel(x, y)
  {
    var t := [x] + s;
    if Pairwise(t, rel) {
      forall i, j | 0 <= i < j < |s| ensures rel(s[i], s[j]) {
        assert t[i + 1] == s[i] && t[j + 1] == s[j];
      }
      forall y | y in s ensures rel(x, y) {
        var i :| 0 <= i < |s| && s[i] == y;
        assert t[0] == x && t[i + 1] == y;
      }
    }
  }

  lemma {:induction false} InsertPairwise<T(!new)>(x: T, s: seq<T>, less: (T, T) -> bool, rel: (T, T) -> bool)
    requires (forall a, b :: rel(a, b) ==> rel(b, a)) && Pairwise(s, rel) && forall y | y in s :: rel(x, y)
    ensures Pairwise(Insert(x, s, less), rel)
  {
    hide Pairwise;
    PairwiseCons(x, s, rel);
    if s != [] && less(s[0], x) {
      assert s == [s[0]] + s[1..];
      PairwiseCons(s[0], s[1..], rel);
      InsertPairwise(x, s[1..], less, rel);
      forall y | y in Insert(x, s[1..], less) ensures rel(s[0], y) {
        InsertMembers(x, s[1..], less, y);
      }
      PairwiseCons(s[0], Insert(x, s[1..], less), rel);
    }
  }

  /** A symmetric relation between any two elements of a list holds after sorting. */
  lemma {:induction false} SortPairwise<T(!new)>(s: seq<T>, less: (T, T) -> bool, rel: (T, T) -> bool)
    requires (forall a, b :: rel(a, b) ==> rel(b, a)) && Pairwise(s, rel)
    ensures Pairwise(Sort(s, less), rel)
  {
    if s != [] {
      assert s == [s[0]] + s[1..];
      PairwiseCons(s[0], s[1..], rel);
      SortPairwise(s[1..], less, rel);
      forall y | y in Sort(s[1..], less) ensures rel(s[0], y) {
        SortMembers(s[1..], less, y);
      }
      InsertPairwise(s[0], Sort(s[1..], less), less, rel);
    }
  }

  /** Elements that are told apart end up in one order only. */
  lemma SortsStrictly<T(!new)>(s: seq<T>, less: (T, T) -> bool)
    requires WeakOrder(less) && Comparable(s, less)
    ensures StrictlySorted(Sort(s, less), less)
    ensures forall y :: y in Sort(s, less) <==> y in s
  {
    hide Sort, WeakOrder;
    SortSorts(s, less);
    SortPairwise(s, less, Told(less));
    forall y { SortMembers(s, less, y); }
    var r := Sort(s, less);
    forall i, j | 0 <= i < j < |r| ensures less(r[i], r[j]) {
      assert Told(less)(r[i], r[j]);
    }
  }

  lemma StrictlySortedTail<T>(s: seq<T>, less: (T, T) -> bool)
    requires StrictlySorted(s, less) && s != []
    ensures StrictlySorted(s[1..], less) && forall y | y in s[1..] :: less(s[0], y) && y in s
  {
    forall y | y in s[1..] ensures less(s[0], y) && y in s {
      var i :| 0 <= i < |s[1..]| && s[1..][i] == y;
      assert s[i + 1] == y;
    }
  }

  lemma FirstIsLeast<T>(s: seq<T>, less: (T, T) -> bool, x: T)
    requires StrictlySorted(s, less) && x in s
    ensures x == s[0] || less(s[0], x)
  {
    var i :| 0 <= i < |s| && s[i] == x;
  }

  lemma FirstOfBoth<T(!new)>(a: seq<T>, b: seq<T>, less: (T, T) -> bool)
    requires WeakOrder(less) && StrictlySorted(a, less) && StrictlySorted(b, less)
    requires a != [] && b != [] && a[0] in b && b[0] in a
    ensures a[0] == b[0]
  {
    FirstIsLeast(a, less, b[0]);
    FirstIsLeast(b, less, a[0]);
  }

  lemma TailMembers<T(!new)>(a: seq<T>, less: (T, T) -> bool, x: T)
    requires WeakOrder(less) && a != [] && StrictlySorted(a, less)
    ensures x in a[1..] <==> x in a && x != a[0]
  {
    StrictlySortedTail(a, less);
    assert a == [a[0]] + a[1..];
    assert !less(a[0], a[0]);
  }

  /** A strictly sorted list is determined by its elements. */
  lemma {:induction false} SortedUnique<T(!new)>(a: seq<T>, b: seq<T>, less: (T, T) -> bool)
    requires WeakOrder(less) && StrictlySorted(a, less) && StrictlySorted(b, less)
    requires forall x :: x in a <==> x in b
    ensures a == b
  {
    hide WeakOrder, StrictlySorted;
    assert |b| > 0 ==> b[0] in b && b[0] in a;
    if a != [] {
      assert a[0] in a;
      FirstOfBoth(a, b, less);
      assert a == [a[0]] + a[1..] && b == [b[0]] + b[1..];
      forall x ensures x in a[1..] <==> x in b[1..] {
        TailMembers(a, less, x);
        TailMembers(b, less, x);
      }
      StrictlySortedTail(a, less);
      StrictlySortedTail(b, less);
      SortedUnique(a[1..], b[1..], less);
    }
  }

  /** Lists of elements that are told apart sort alike exactly when they have the same elements. */
  lemma SortsAlike<T(!new)>(a: seq<T>, b: seq<T>, less: (T, T) -> bool)
    requires WeakOrder(less) && Comparable(a, less) && Comparable(b, less)
    ensures Sort(a, less) == Sort(b, less) <==> forall x :: x in a <==> x in b
  {
    hide WeakOrder, Comparable, StrictlySorted, Sort;
    SortsStrictly(a, less);
    SortsStrictly(b, less);
    if forall x :: x in a <==> x in b {
      SortedUnique(Sort(a, less), Sort(b, less), less);
    }
    if Sort(a, less) == Sort(b, less) {
      forall x ensures x in a <==> x in b {
        assert x in Sort(a, less) <==> x in a;
        assert x in Sort(b, less) <==> x in b;
      }
    }
  }

  // ----- the default order of strings -----

  /** By code units, a proper prefix first. */
  predicate Below(a: string, b: string) {
    b != "" && (a == "" || a[0] < b[0] || (a[0] == b[0] && Below(a[1..], b[1..])))
  }

  lemma {:induction false} BelowTells(a: string, b: string)
    ensures a != b ==> Below(a, b) || Below(b, a)
    ensures !Below(a, a)
  {
    if a != "" {
      BelowTells(a[1..], if b != "" then b[1..] else "");
      if b != "" {
        assert a == [a[0]] + a[1..] && b == [b[0]] + b[1..];
      }
    }
  }

  lemma {:induction false} BelowChains(a: string, b: string, c: string)
    requires Below(a, b) && Below(b, c)
    ensures Below(a, c)
  {
    if a != "" && a[0] == b[0] == c[0] {
      BelowChains(a[1..], b[1..], c[1..]);
    }
  }

  lemma BelowIsTotal()
    ensures TotalOrder(Below)
  {
    forall a, b ensures !Below(a, a) && (a != b ==> Below(a, b) || Below(b, a)) {
      BelowTells(a, b);
    }
    forall a, b, c | Below(a, b) && Below(b, c) ensures Below(a, c) {
      BelowChains(a, b, c);
    }
    forall a, b, c | Below(a, c) ensures Below(a, b) || Below(b, c) {
      BelowTells(a, b);
      if Below(b, a) {
        BelowChains(b, a, c);
      }
    }
  }
}
