/** The standard library's stable sort, by the three facts callers rely on. */
module Sorting {
  /** What `sort_by` asks of a comparison. */
  ghost predicate TotalPreorder<T(!new)>(leq: (T, T) -> bool) {
    && (forall a, b :: leq(a, b) || leq(b, a))
    && (forall a, b, c :: leq(a, b) && leq(b, c) ==> leq(a, c))
  }

  function SortBy<T>(s: seq<T>, leq: (T, T) -> bool): (r: seq<T>)
    ensures |r| == |s|
  {
    if s == [] then [] else Insert(s[0], SortBy(s[1..], leq), leq)
  }

  function Insert<T>(x: T, s: seq<T>, leq: (T, T) -> bool): (r: seq<T>)
    ensures |r| == |s| + 1
  {
    if s == [] || leq(x, s[0]) then [x] + s else [s[0]] + Insert(x, s[1..], leq)
  }

  ghost predicate Sorted<T>(s: seq<T>, leq: (T, T) -> bool) {
    s == [] || ((forall y | y in s[1..] :: leq(s[0], y)) && Sorted(s[1..], leq))
  }

  /** The elements equivalent to `x`, in order. */
  function Like<T>(s: seq<T>, x: T, leq: (T, T) -> bool): seq<T> {
    if s == [] then []
    else if leq(x, s[0]) && leq(s[0], x) then [s[0]] + Like(s[1..], x, leq)
    else Like(s[1..], x, leq)
  }

  lemma {:induction false} InsertKeeps<T>(x: T, s: seq<T>, leq: (T, T) -> bool)
    ensures multiset(Insert(x, s, leq)) == multiset(s) + multiset{x}
  {
    if s == [] || leq(x, s[0]) {
    } else {
      InsertKeeps(x, s[1..], leq);
      assert s == [s[0]] + s[1..];
    }
  }

  lemma {:induction false} SortKeeps<T>(s: seq<T>, leq: (T, T) -> bool)
    ensures multiset(SortBy(s, leq)) == multiset(s)
  {
    if s != [] {
      SortKeeps(s[1..], leq);
      InsertKeeps(s[0], SortBy(s[1..], leq), leq);
      assert s == [s[0]] + s[1..];
    }
  }

  lemma {:induction false} InsertSorts<T(!new)>(x: T, s: seq<T>, leq: (T, T) -> bool)
    requires TotalPreorder(leq) && Sorted(s, leq)
    ensures Sorted(Insert(x, s, leq), leq)
  {
    if s == [] {
    } else if leq(x, s[0]) {
      assert ([x] + s)[1..] == s;
      forall y | y in s ensures leq(x, y) {
        assert leq(s[0], y);
      }
    } else {
      InsertSorts(x, s[1..], leq);
      InsertKeeps(x, s[1..], leq);
      forall y | y in Insert(x, s[1..], leq) ensures leq(s[0], y) {
        assert y in multiset(Insert(x, s[1..], leq));
      }
    }
  }

  lemma {:induction false} SortSorts<T(!new)>(s: seq<T>, leq: (T, T) -> bool)
    requires TotalPreorder(leq)
    ensures Sorted(SortBy(s, leq), leq)
  {
    if s != [] {
      SortSorts(s[1..], leq);
      InsertSorts(s[0], SortBy(s[1..], leq), leq);
    }
  }

  lemma {:induction false} InsertStable<T(!new)>(x: T, s: seq<T>, leq: (T, T) -> bool, z: T)
    requires TotalPreorder(leq) && Sorted(s, leq)
    ensures Like(Insert(x, s, leq), z, leq) == Like([x] + s, z, leq)
  {
    assert ([x] + s)[1..] == s;
    if s == [] || leq(x, s[0]) {
    } else {
      InsertStable(x, s[1..], leq, z);
      assert ([x] + s[1..])[1..] == s[1..];
      assert ([s[0]] + Insert(x, s[1..], leq))[1..] == Insert(x, s[1..], leq);
    }
  }

  /** Equivalent elements keep their order. */
  lemma {:induction false} SortStable<T(!new)>(s: seq<T>, leq: (T, T) -> bool, z: T)
    requires TotalPreorder(leq)
    ensures Like(SortBy(s, leq), z, leq) == Like(s, z, leq)
  {
    if s != [] {
      SortStable(s[1..], leq, z);
      SortSorts(s[1..], leq);
      InsertStable(s[0], SortBy(s[1..], leq), leq, z);
      var r := SortBy(s[1..], leq);
      assert ([s[0]] + r)[1..] == r && s == [s[0]] + s[1..];
    }
  }

  lemma {:induction false} SortedPair<T>(s: seq<T>, leq: (T, T) -> bool, i: nat, j: nat)
    requires Sorted(s, leq) && i < j < |s|
    ensures leq(s[i], s[j])
    decreases i
  {
    if i > 0 {
      SortedPair(s[1..], leq, i - 1, j - 1);
    } else {
      assert s[j] == s[1..][j - 1];
    }
  }

  // ---------- Lexicographic order ----------

  predicate LexLeq<T(==)>(a: seq<T>, b: seq<T>, less: (T, T) -> bool) {
    a == [] || (b != [] && (less(a[0], b[0]) || (a[0] == b[0] && LexLeq(a[1..], b[1..], less))))
  }

  ghost predicate StrictOrder<T(!new)>(less: (T, T) -> bool) {
    && (forall x, y :: less(x, y) || less(y, x) || x == y)
    && (forall x, y :: less(x, y) ==> !less(y, x) && x != y)
    && (forall x, y, z :: less(x, y) && less(y, z) ==> less(x, z))
  }

  lemma {:induction false} LexTotal<T(!new)>(a: seq<T>, b: seq<T>, less: (T, T) -> bool)
    requires StrictOrder(less)
    ensures LexLeq(a, b, less) || LexLeq(b, a, less)
    ensures LexLeq(a, b, less) && LexLeq(b, a, less) <==> a == b
  {
    if a != [] && b != [] && a[0] == b[0] {
      LexTotal(a[1..], b[1..], less);
      assert a == [a[0]] + a[1..] && b == [b[0]] + b[1..];
    }
  }

  lemma {:induction false} LexTransitive<T(!new)>(a: seq<T>, b: seq<T>, c: seq<T>, less: (T, T) -> bool)
    requires StrictOrder(less) && LexLeq(a, b, less) && LexLeq(b, c, less)
    ensures LexLeq(a, c, less)
  {
    if a != [] && a[0] == b[0] == c[0] {
      LexTransitive(a[1..], b[1..], c[1..], less);
    }
  }
}
