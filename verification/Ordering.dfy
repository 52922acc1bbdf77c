/** Sorting by a comparison, and the orders the project sorts by.

    The program calls its library's stable sort in several places.  `Sort` below
    is that sort as a function; the lemmas say what a caller may rely on: the
    result is a sorted permutation, and under a total order it is the same for
    every arrangement of the same elements. */
module Ordering {

  ghost predicate TotalPreorder<T(!new)>(leq: (T, T) -> bool) {
    && (forall a, b :: leq(a, b) || leq(b, a))
    && (forall a, b, c :: leq(a, b) && leq(b, c) ==> leq(a, c))
  }

  ghost predicate TotalOrder<T(!new)>(leq: (T, T) -> bool) {
    && TotalPreorder(leq)
    && (forall a, b :: leq(a, b) && leq(b, a) ==> a == b)
  }

  ghost predicate Sorted<T>(xs: seq<T>, leq: (T, T) -> bool) {
    forall i, j | 0 <= i < j < |xs| :: leq(xs[i], xs[j])
  }

  /** Put `x` in front of the first element it does not exceed. */
  function Insert<T>(x: T, xs: seq<T>, leq: (T, T) -> bool): seq<T> {
    if xs == [] then [x]
    else if leq(x, xs[0]) then [x] + xs
    else [xs[0]] + Insert(x, xs[1..], leq)
  }

  function Sort<T>(xs: seq<T>, leq: (T, T) -> bool): seq<T> {
    if xs == [] then [] else Insert(xs[0], Sort(xs[1..], leq), leq)
  }

  lemma {:induction false} InsertPermutes<T>(x: T, xs: seq<T>, leq: (T, T) -> bool)
    ensures multiset(Insert(x, xs, leq)) == multiset{x} + multiset(xs)
  {
    if xs != [] && !leq(x, xs[0]) {
      InsertPermutes(x, xs[1..], leq);
      assert xs == [xs[0]] + xs[1..];
    }
  }

  lemma {:induction false} SortPermutes<T>(xs: seq<T>, leq: (T, T) -> bool)
    ensures multiset(Sort(xs, leq)) == multiset(xs)
    ensures |Sort(xs, leq)| == |xs|
    ensures forall x :: x in Sort(xs, leq) <==> x in xs
  {
    if xs != [] {
      SortPermutes(xs[1..], leq);
      InsertPermutes(xs[0], Sort(xs[1..], leq), leq);
      assert xs == [xs[0]] + xs[1..];
    }
    assert |multiset(Sort(xs, leq))| == |multiset(xs)|;
    forall x ensures x in Sort(xs, leq) <==> x in xs {
      assert x in Sort(xs, leq) <==> x in multiset(Sort(xs, leq));
      assert x in xs <==> x in multiset(xs);
    }
  }

  lemma {:induction false} InsertSorts<T(!new)>(x: T, xs: seq<T>, leq: (T, T) -> bool)
    requires TotalPreorder(leq) && Sorted(xs, leq)
    ensures Sorted(Insert(x, xs, leq), leq)
  {
    if xs == [] {
    } else if leq(x, xs[0]) {
      forall j | 0 <= j < |xs| ensures leq(x, xs[j]) {
        assert leq(xs[0], xs[j]) by { assert leq(xs[j], xs[j]); }
      }
    } else {
      var rest := Insert(x, xs[1..], leq);
      InsertSorts(x, xs[1..], leq);
      InsertPermutes(x, xs[1..], leq);
      forall j | 0 <= j < |rest| ensures leq(xs[0], rest[j]) {
        assert rest[j] in multiset(rest);
        assert rest[j] == x || rest[j] in xs[1..];
      }
    }
  }

  lemma {:induction false} SortSorts<T(!new)>(xs: seq<T>, leq: (T, T) -> bool)
    requires TotalPreorder(leq)
    ensures Sorted(Sort(xs, leq), leq)
  {
    if xs != [] {
      SortSorts(xs[1..], leq);
      InsertSorts(xs[0], Sort(xs[1..], leq), leq);
    }
  }

  lemma LeastIsFirst<T(!new)>(xs: seq<T>, x: T, leq: (T, T) -> bool)
    requires TotalPreorder(leq) && Sorted(xs, leq) && x in xs
    ensures leq(xs[0], x)
  {
    var i :| 0 <= i < |xs| && xs[i] == x;
    assert leq(x, x);
  }

  /** Two sorted sequences with the same elements are the same sequence, if the
      order tells those elements apart. */
  lemma {:induction false} SortedUnique<T(!new)>(xs: seq<T>, ys: seq<T>, leq: (T, T) -> bool)
    requires TotalPreorder(leq) && Sorted(xs, leq) && Sorted(ys, leq)
    requires forall a, b | a in xs && b in xs && leq(a, b) && leq(b, a) :: a == b
    requires multiset(xs) == multiset(ys)
    ensures xs == ys
  {
    assert |multiset(xs)| == |multiset(ys)|;
    if xs != [] {
      assert xs[0] in multiset(ys) && ys[0] in multiset(xs);
      LeastIsFirst(xs, ys[0], leq);
      LeastIsFirst(ys, xs[0], leq);
      assert xs == [xs[0]] + xs[1..] && ys == [ys[0]] + ys[1..];
      assert multiset(xs[1..]) == multiset(xs) - multiset{xs[0]};
      assert multiset(ys[1..]) == multiset(ys) - multiset{ys[0]};
      SortedUnique(xs[1..], ys[1..], leq);
    }
  }

  /** Sorting gives one result for every arrangement of the same elements. */
  lemma SortDeterministic<T(!new)>(xs: seq<T>, ys: seq<T>, leq: (T, T) -> bool)
    requires TotalPreorder(leq) && multiset(xs) == multiset(ys)
    requires forall a, b | a in xs && b in xs && leq(a, b) && leq(b, a) :: a == b
    ensures Sort(xs, leq) == Sort(ys, leq)
  {
    SortPermutes(xs, leq);
    SortPermutes(ys, leq);
    SortSorts(xs, leq);
    SortSorts(ys, leq);
    SortedUnique(Sort(xs, leq), Sort(ys, leq), leq);
  }

  /** Under a total order, sorting is a canonical form for "same elements". */
  lemma SortCanonical<T(!new)>(xs: seq<T>, ys: seq<T>, leq: (T, T) -> bool)
    requires TotalOrder(leq)
    ensures Sort(xs, leq) == Sort(ys, leq) <==> multiset(xs) == multiset(ys)
  {
    SortPermutes(xs, leq);
    SortPermutes(ys, leq);
    if multiset(xs) == multiset(ys) {
      SortDeterministic(xs, ys, leq);
    }
  }

  lemma SubsetCount<T>(small: set<T>, large: set<T>)
    requires small <= large
    ensures |small| <= |large|
  {
    assert large == small + (large - small);
  }

  // --- removing repetitions ---------------------------------------------------

  /** Each element at its first occurrence. */
  function Dedup<T(==)>(xs: seq<T>): seq<T> {
    if xs == [] then []
    else
      var n := |xs| - 1;
      if xs[n] in xs[..n] then Dedup(xs[..n]) else Dedup(xs[..n]) + [xs[n]]
  }

  lemma DedupNext<T>(xs: seq<T>, k: nat)
    requires k < |xs|
    ensures Dedup(xs[..k + 1]) == if xs[k] in xs[..k] then Dedup(xs[..k]) else Dedup(xs[..k]) + [xs[k]]
    ensures xs[..k + 1] == xs[..k] + [xs[k]]
  {
    assert xs[..k + 1][..k] == xs[..k];
  }

  predicate Distinct<T(==)>(xs: seq<T>) {
    forall i, j | 0 <= i < j < |xs| :: xs[i] != xs[j]
  }

  lemma {:induction false} DedupKeepsTheSet<T>(xs: seq<T>)
    ensures forall x :: x in Dedup(xs) <==> x in xs
    ensures Distinct(Dedup(xs))
  {
    if xs != [] {
      DedupKeepsTheSet(xs[..|xs| - 1]);
      assert xs == xs[..|xs| - 1] + [xs[|xs| - 1]];
    }
  }

  lemma {:induction false} DistinctByCount<T>(xs: seq<T>)
    ensures Distinct(xs) <==> forall x :: multiset(xs)[x] <= 1
  {
    if xs != [] {
      var first, rest := xs[0], xs[1..];
      DistinctByCount(rest);
      assert xs == [first] + rest;
      assert forall x :: multiset(xs)[x] == multiset(rest)[x] + if x == first then 1 else 0;
      if Distinct(xs) {
        assert first !in rest;
      } else if Distinct(rest) {
        assert first in rest;
        assert multiset(xs)[first] >= 2;
      }
    }
  }

  lemma SortKeepsDistinct<T>(xs: seq<T>, leq: (T, T) -> bool)
    ensures Distinct(Sort(xs, leq)) <==> Distinct(xs)
  {
    SortPermutes(xs, leq);
    DistinctByCount(xs);
    DistinctByCount(Sort(xs, leq));
  }

  // --- the orders themselves ------------------------------------------------

  function LexLeq<T(==)>(leq: (T, T) -> bool, a: seq<T>, b: seq<T>): bool {
    if a == [] then true
    else if b == [] then false
    else if a[0] == b[0] then LexLeq(leq, a[1..], b[1..])
    else leq(a[0], b[0])
  }

  /** Lexicographic order on sequences. */
  function Lex<T(==)>(leq: (T, T) -> bool): (seq<T>, seq<T>) -> bool {
    (a, b) => LexLeq(leq, a, b)
  }

  /** Order on pairs: the first component decides, the second breaks ties. */
  function Then<A(==), B>(first: (A, A) -> bool, second: (B, B) -> bool): ((A, B), (A, B)) -> bool {
    (x: (A, B), y: (A, B)) => if x.0 == y.0 then second(x.1, y.1) else first(x.0, y.0)
  }

  /** Order by a key, as in sort(key=...). */
  function By<T, K>(key: T -> K, leq: (K, K) -> bool): (T, T) -> bool {
    (a, b) => leq(key(a), key(b))
  }

  function CharOrder(): (char, char) -> bool { (a, b) => a <= b }

  function BoolOrder(): (bool, bool) -> bool { (a, b) => a ==> b }

  function NatOrder(): (nat, nat) -> bool { (a, b) => a <= b }

  function StringOrder(): (string, string) -> bool { Lex(CharOrder()) }

  /** The first place where they differ decides. */
  lemma {:induction false} LexAt<T>(leq: (T, T) -> bool, a: seq<T>, b: seq<T>, k: nat)
    requires k < |a| && k < |b| && a[..k] == b[..k] && a[k] != b[k]
    ensures LexLeq(leq, a, b) <==> leq(a[k], b[k])
    decreases k
  {
    if k > 0 {
      assert a[0] == a[..k][0] == b[0];
      assert a[1..][..k - 1] == a[..k][1..] && b[1..][..k - 1] == b[..k][1..];
      LexAt(leq, a[1..], b[1..], k - 1);
    }
  }

  /** A shared head makes no difference. */
  lemma {:induction false} LexSkip<T>(leq: (T, T) -> bool, head: seq<T>, a: seq<T>, b: seq<T>)
    ensures LexLeq(leq, head + a, head + b) <==> LexLeq(leq, a, b)
    decreases |head|
  {
    if head == [] {
      assert head + a == a && head + b == b;
    } else {
      LexSkip(leq, head[1..], a, b);
      assert (head + a)[1..] == head[1..] + a && (head + b)[1..] == head[1..] + b;
    }
  }

  lemma {:induction false} LexTotal<T(!new)>(leq: (T, T) -> bool, a: seq<T>, b: seq<T>)
    requires TotalOrder(leq)
    ensures LexLeq(leq, a, b) || LexLeq(leq, b, a)
    ensures LexLeq(leq, a, b) && LexLeq(leq, b, a) ==> a == b
  {
    if a != [] && b != [] && a[0] == b[0] {
      LexTotal(leq, a[1..], b[1..]);
      assert a == [a[0]] + a[1..] && b == [b[0]] + b[1..];
    }
  }

  lemma {:induction false} LexTransitive<T(!new)>(leq: (T, T) -> bool, a: seq<T>, b: seq<T>, c: seq<T>)
    requires TotalOrder(leq)
    requires LexLeq(leq, a, b) && LexLeq(leq, b, c)
    ensures LexLeq(leq, a, c)
  {
    if a != [] && b != [] && c != [] && a[0] == b[0] && b[0] == c[0] {
      LexTransitive(leq, a[1..], b[1..], c[1..]);
    }
  }

  lemma LexIsTotalOrder<T(!new)>(leq: (T, T) -> bool)
    requires TotalOrder(leq)
    ensures TotalOrder(Lex(leq))
  {
    forall a, b ensures Lex(leq)(a, b) || Lex(leq)(b, a)
      ensures Lex(leq)(a, b) && Lex(leq)(b, a) ==> a == b
    {
      LexTotal(leq, a, b);
    }
    forall a, b, c | Lex(leq)(a, b) && Lex(leq)(b, c) ensures Lex(leq)(a, c) {
      LexTransitive(leq, a, b, c);
    }
  }

  lemma ThenIsTotalOrder<A(!new), B(!new)>(first: (A, A) -> bool, second: (B, B) -> bool)
    requires TotalOrder(first) && TotalOrder(second)
    ensures TotalOrder(Then(first, second))
  {
    var leq := Then(first, second);
    forall x: (A, B), y: (A, B) ensures leq(x, y) || leq(y, x)
      ensures leq(x, y) && leq(y, x) ==> x == y
    {
      assert first(x.0, y.0) || first(y.0, x.0);
      assert second(x.1, y.1) || second(y.1, x.1);
    }
    forall x: (A, B), y: (A, B), z: (A, B) | leq(x, y) && leq(y, z) ensures leq(x, z) {
      assert first(x.0, y.0) && first(y.0, z.0) ==> first(x.0, z.0);
    }
  }

  lemma ByIsPreorder<T(!new), K(!new)>(key: T -> K, leq: (K, K) -> bool)
    requires TotalPreorder(leq)
    ensures TotalPreorder(By(key, leq))
  {
  }

  lemma BasicOrders()
    ensures TotalOrder(CharOrder()) && TotalOrder(BoolOrder()) && TotalOrder(NatOrder())
    ensures TotalOrder(StringOrder()) && TotalOrder(Lex(StringOrder()))
  {
    LexIsTotalOrder(CharOrder());
    LexIsTotalOrder(StringOrder());
  }
}
