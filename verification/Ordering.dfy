/** Total orders given by a three-way comparison, the lexicographic order they
    induce on sequences, and the fact every sort in ZoneLint rests on: a sorted
    arrangement of given elements is unique, so it cannot depend on the order
    in which Go handed the elements over. */
module Ordering {

  datatype Option<+T> = None | Some(value: T)

  /** `cmp` is a total order in the style of Go's `cmp.Compare`. */
  ghost predicate TotalOrder<T(!new)>(cmp: (T, T) -> int) {
    && (forall x, y :: cmp(x, y) == 0 <==> x == y)
    && (forall x, y :: cmp(x, y) < 0 <==> cmp(y, x) > 0)
    && (forall x, y, z :: Chain(cmp, x, y, z) ==> cmp(x, z) <= 0)
  }

  ghost predicate Chain<T>(cmp: (T, T) -> int, x: T, y: T, z: T) {
    cmp(x, y) <= 0 && cmp(y, z) <= 0
  }

  /** Lexicographic comparison, shorter first on ties: `bytes.Compare`,
      string comparison and `slices.Compare` are instances. */
  function Lex<T>(cmp: (T, T) -> int, a: seq<T>, b: seq<T>): int {
    if a == [] then
      if b == [] then 0 else -1
    else if b == [] then 1
    else if cmp(a[0], b[0]) != 0 then cmp(a[0], b[0])
    else Lex(cmp, a[1..], b[1..])
  }

  lemma {:induction false} LexZero<T(!new)>(cmp: (T, T) -> int, a: seq<T>, b: seq<T>)
    requires TotalOrder(cmp)
    ensures Lex(cmp, a, b) == 0 <==> a == b
  {
    if a == [] || b == [] {
    } else {
      LexZero(cmp, a[1..], b[1..]);
      assert a == [a[0]] + a[1..] && b == [b[0]] + b[1..];
    }
  }

  lemma {:induction false} LexMirror<T(!new)>(cmp: (T, T) -> int, a: seq<T>, b: seq<T>)
    requires TotalOrder(cmp)
    ensures Lex(cmp, a, b) < 0 <==> Lex(cmp, b, a) > 0
  {
    if a == [] || b == [] {
    } else {
      LexMirror(cmp, a[1..], b[1..]);
    }
  }

  lemma {:induction false} LexTransitive<T(!new)>(cmp: (T, T) -> int, a: seq<T>, b: seq<T>, c: seq<T>)
    requires TotalOrder(cmp)
    requires Lex(cmp, a, b) <= 0 && Lex(cmp, b, c) <= 0
    ensures Lex(cmp, a, c) <= 0
  {
    if a == [] || b == [] || c == [] {
    } else {
      if cmp(a[0], b[0]) == 0 && cmp(b[0], c[0]) == 0 {
        LexTransitive(cmp, a[1..], b[1..], c[1..]);
      } else {
        assert Chain(cmp, a[0], b[0], c[0]);
      }
    }
  }

  /** `a` and `b` agree up to place `p`, where `a` ends or is smaller. */
  ghost predicate SmallerAt<T>(cmp: (T, T) -> int, a: seq<T>, b: seq<T>, p: nat) {
    p <= |a| && p < |b| && a[..p] == b[..p] && (p < |a| ==> cmp(a[p], b[p]) < 0)
  }

  /** What `Lex` decides: the first place where two sequences differ. */
  lemma {:induction false} LexFirstDifference<T(!new)>(cmp: (T, T) -> int, a: seq<T>, b: seq<T>)
    requires TotalOrder(cmp)
    ensures Lex(cmp, a, b) < 0 <==> exists p: nat :: SmallerAt(cmp, a, b, p)
  {
    if a == [] || b == [] {
      assert b != [] ==> SmallerAt(cmp, a, b, 0);
    } else if a[0] != b[0] {
      assert SmallerAt(cmp, a, b, 0) == (cmp(a[0], b[0]) < 0);
      forall p: nat | 0 < p <= |a| && p <= |b| ensures a[..p] != b[..p] {
        assert a[..p][0] == a[0] && b[..p][0] == b[0];
      }
    } else {
      LexFirstDifference(cmp, a[1..], b[1..]);
      forall p: nat ensures SmallerAt(cmp, a, b, p + 1) <==> SmallerAt(cmp, a[1..], b[1..], p) {
        SmallerInTail(cmp, a, b, p);
      }
      assert !SmallerAt(cmp, a, b, 0);
      forall p: nat | SmallerAt(cmp, a, b, p) ensures p > 0 && SmallerAt(cmp, a[1..], b[1..], p - 1) {
        assert SmallerAt(cmp, a, b, p - 1 + 1);
      }
    }
  }

  lemma SmallerInTail<T(!new)>(cmp: (T, T) -> int, a: seq<T>, b: seq<T>, p: nat)
    requires a != [] && b != [] && a[0] == b[0]
    ensures SmallerAt(cmp, a, b, p + 1) <==> SmallerAt(cmp, a[1..], b[1..], p)
  {
    if p < |a| && p < |b| {
      assert a[..p + 1] == [a[0]] + a[1..][..p] && b[..p + 1] == [b[0]] + b[1..][..p];
      if a[..p + 1] == b[..p + 1] {
        assert a[1..][..p] == a[..p + 1][1..] && b[1..][..p] == b[..p + 1][1..];
      }
    }
  }

  ghost predicate Sorted<T>(cmp: (T, T) -> int, s: seq<T>) {
    forall i, j :: 0 <= i < j < |s| ==> cmp(s[i], s[j]) <= 0
  }

  ghost predicate StrictlySorted<T>(cmp: (T, T) -> int, s: seq<T>) {
    forall i, j :: 0 <= i < j < |s| ==> cmp(s[i], s[j]) < 0
  }

  ghost predicate Tied<T>(cmp: (T, T) -> int, x: T, y: T) {
    cmp(x, y) <= 0 && cmp(y, x) <= 0
  }

  /** Elements of `s` that the comparison cannot tell apart are equal. */
  ghost predicate NoTies<T(!new)>(cmp: (T, T) -> int, s: seq<T>) {
    forall x, y :: x in s && y in s && Tied(cmp, x, y) ==> x == y
  }

  ghost predicate SameElements<T(!new)>(a: seq<T>, b: seq<T>) {
    forall x :: x in a <==> x in b
  }

  ghost predicate Distinct<T>(s: seq<T>) {
    forall i, j :: 0 <= i < j < |s| ==> s[i] != s[j]
  }

  ghost predicate Reflexive<T(!new)>(cmp: (T, T) -> int) {
    forall x :: cmp(x, x) <= 0
  }

  lemma MultisetTail<T>(s: seq<T>)
    requires s != []
    ensures multiset(s[1..]) == multiset(s) - multiset{s[0]}
  {
    assert s == [s[0]] + s[1..];
  }

  /** The first element of a sorted sequence is below every element of it. */
  lemma SortedHead<T(!new)>(cmp: (T, T) -> int, s: seq<T>, x: T)
    requires Sorted(cmp, s) && x in s
    requires Reflexive(cmp)
    ensures cmp(s[0], x) <= 0
  {
    var i :| 0 <= i < |s| && s[i] == x;
  }

  /** Two sorted permutations of one another agree, provided that elements of
      the sequence which compare equal are equal. */
  lemma {:induction false} SortedUnique<T(!new)>(cmp: (T, T) -> int, a: seq<T>, b: seq<T>)
    requires Sorted(cmp, a) && Sorted(cmp, b)
    requires multiset(a) == multiset(b)
    requires Reflexive(cmp)
    requires NoTies(cmp, a)
    ensures a == b
  {
    assert |multiset(a)| == |a| && |multiset(b)| == |b|;
    if a != [] {
      SameHead(cmp, a, b);
      TailsPermute(a, b);
      SortedTail(cmp, a);
      SortedTail(cmp, b);
      TailNoTies(cmp, a);
      SortedUnique(cmp, a[1..], b[1..]);
    }
  }

  lemma TailsPermute<T>(a: seq<T>, b: seq<T>)
    requires a != [] && b != [] && a[0] == b[0] && multiset(a) == multiset(b)
    ensures multiset(a[1..]) == multiset(b[1..])
    ensures a[1..] == b[1..] ==> a == b
  {
    MultisetTail(a);
    MultisetTail(b);
    assert a == [a[0]] + a[1..] && b == [b[0]] + b[1..];
  }

  lemma SortedTail<T>(cmp: (T, T) -> int, s: seq<T>)
    requires Sorted(cmp, s) && s != []
    ensures Sorted(cmp, s[1..])
  {
  }

  lemma SameHead<T(!new)>(cmp: (T, T) -> int, a: seq<T>, b: seq<T>)
    requires Sorted(cmp, a) && Sorted(cmp, b) && a != [] && b != []
    requires multiset(a) == multiset(b)
    requires Reflexive(cmp)
    requires NoTies(cmp, a)
    ensures a[0] == b[0]
  {
    assert a[0] in multiset(a) && b[0] in multiset(b);
    assert a[0] in b && b[0] in a;
    SortedHead(cmp, a, b[0]);
    SortedHead(cmp, b, a[0]);
    assert Tied(cmp, a[0], b[0]);
  }

  lemma TailNoTies<T(!new)>(cmp: (T, T) -> int, s: seq<T>)
    requires NoTies(cmp, s) && s != []
    ensures NoTies(cmp, s[1..])
  {
  }

  lemma Regroup<T>(a: seq<T>, b: seq<T>, c: seq<T>)
    ensures a + b + c == a + (b + c)
  {
  }

  lemma WithoutIndex<T>(s: seq<T>, i: nat)
    requires i < |s|
    ensures multiset(s[..i] + s[i + 1..]) == multiset(s) - multiset{s[i]}
  {
    assert s == s[..i] + [s[i]] + s[i + 1..];
  }

  /** A permutation of `a` holds the last element of `a` somewhere, and without
      it is a permutation of the rest. */
  lemma RemoveOne<T>(a: seq<T>, b: seq<T>) returns (i: nat)
    requires multiset(a) == multiset(b) && a != []
    ensures i < |b| && b[i] == a[|a| - 1] && multiset(a[..|a| - 1]) == multiset(b[..i] + b[i + 1..])
  {
    var x := a[|a| - 1];
    assert x in multiset(a);
    i :| 0 <= i < |b| && b[i] == x;
    WithoutIndex(b, i);
    WithoutLast(a);
  }

  lemma WithoutLast<T>(s: seq<T>)
    requires s != []
    ensures multiset(s[..|s| - 1]) == multiset(s) - multiset{s[|s| - 1]}
  {
    assert s == s[..|s| - 1] + [s[|s| - 1]];
  }

  lemma HasElement<T>(s: seq<T>)
    ensures s == [] || exists x :: x in s
  {
    if s != [] { assert s[0] in s; }
  }

  lemma StrictlySortedHead<T(!new)>(cmp: (T, T) -> int, s: seq<T>, x: T)
    requires TotalOrder(cmp) && StrictlySorted(cmp, s) && s != []
    ensures x in s[1..] <==> x in s && x != s[0]
    ensures x in s ==> cmp(s[0], x) <= 0
  {
    if x in s {
      var i :| 0 <= i < |s| && s[i] == x;
      if i > 0 { assert s[1..][i - 1] == x; }
    }
  }

  /** A strictly sorted sequence is determined by its set of elements. */
  lemma {:induction false} StrictlySortedUnique<T(!new)>(cmp: (T, T) -> int, a: seq<T>, b: seq<T>)
    requires TotalOrder(cmp)
    requires StrictlySorted(cmp, a) && StrictlySorted(cmp, b)
    requires SameElements(a, b)
    ensures a == b
  {
    if a == [] {
      HasElement(b);
    } else {
      assert a[0] in b && b[0] in a;
      StrictlySortedHead(cmp, a, b[0]);
      StrictlySortedHead(cmp, b, a[0]);
      forall x ensures x in a[1..] <==> x in b[1..] {
        StrictlySortedHead(cmp, a, x);
        StrictlySortedHead(cmp, b, x);
      }
      StrictlySortedUnique(cmp, a[1..], b[1..]);
      assert a == [a[0]] + a[1..] && b == [b[0]] + b[1..];
    }
  }

  /** Insertion that keeps one copy of each element. */
  function InsertOnce<T(==)>(cmp: (T, T) -> int, x: T, s: seq<T>): seq<T> {
    if s == [] || cmp(x, s[0]) < 0 then [x] + s
    else if x == s[0] then s
    else [s[0]] + InsertOnce(cmp, x, s[1..])
  }

  /** The distinct elements of `s`, in strictly increasing order. */
  function SortOnce<T(==)>(cmp: (T, T) -> int, s: seq<T>): seq<T> {
    if s == [] then [] else InsertOnce(cmp, s[0], SortOnce(cmp, s[1..]))
  }

  lemma {:induction false} InsertOnceElements<T>(cmp: (T, T) -> int, x: T, s: seq<T>, y: T)
    ensures y in InsertOnce(cmp, x, s) <==> y == x || y in s
  {
    if s == [] || cmp(x, s[0]) < 0 || x == s[0] {
    } else {
      InsertOnceElements(cmp, x, s[1..], y);
      assert s == [s[0]] + s[1..];
    }
  }

  /** Putting a smaller element in front keeps a sequence strictly sorted. */
  lemma StrictlySortedCons<T(!new)>(cmp: (T, T) -> int, x: T, s: seq<T>)
    requires StrictlySorted(cmp, s)
    requires forall y :: y in s ==> cmp(x, y) < 0
    ensures StrictlySorted(cmp, [x] + s)
  {
    var r := [x] + s;
    forall i, j | 0 <= i < j < |r| ensures cmp(r[i], r[j]) < 0 {
      assert r[j] == s[j - 1] && r[j] in s;
    }
  }

  lemma {:induction false} InsertOnceSorted<T(!new)>(cmp: (T, T) -> int, x: T, s: seq<T>)
    requires TotalOrder(cmp) && StrictlySorted(cmp, s)
    ensures StrictlySorted(cmp, InsertOnce(cmp, x, s))
  {
    if s == [] {
    } else if cmp(x, s[0]) < 0 {
      forall y | y in s ensures cmp(x, y) < 0 {
        StrictlySortedHead(cmp, s, y);
        assert Chain(cmp, x, s[0], y);
      }
      StrictlySortedCons(cmp, x, s);
    } else if x == s[0] {
    } else {
      InsertOnceSorted(cmp, x, s[1..]);
      var r := InsertOnce(cmp, x, s[1..]);
      forall y | y in r ensures cmp(s[0], y) < 0 {
        InsertOnceElements(cmp, x, s[1..], y);
        StrictlySortedHead(cmp, s, y);
      }
      StrictlySortedCons(cmp, s[0], r);
    }
  }

  lemma {:induction false} SortOnceSorted<T(!new)>(cmp: (T, T) -> int, s: seq<T>)
    requires TotalOrder(cmp)
    ensures StrictlySorted(cmp, SortOnce(cmp, s))
    ensures SameElements(SortOnce(cmp, s), s)
  {
    if s == [] {
    } else {
      SortOnceSorted(cmp, s[1..]);
      var r := SortOnce(cmp, s[1..]);
      InsertOnceSorted(cmp, s[0], r);
      forall y ensures y in SortOnce(cmp, s) <==> y in s {
        InsertOnceElements(cmp, s[0], r, y);
        assert s == [s[0]] + s[1..];
      }
    }
  }

  /** Sorting forgets order and multiplicity, and nothing else. */
  lemma SortOnceIsSetEquality<T(!new)>(cmp: (T, T) -> int, a: seq<T>, b: seq<T>)
    requires TotalOrder(cmp)
    ensures SortOnce(cmp, a) == SortOnce(cmp, b) <==> SameElements(a, b)
  {
    SortOnceSorted(cmp, a);
    SortOnceSorted(cmp, b);
    if SameElements(a, b) {
      StrictlySortedUnique(cmp, SortOnce(cmp, a), SortOnce(cmp, b));
    } else {
      var x :| x in a <==> x !in b;
      assert x in SortOnce(cmp, a) <==> x in a;
      assert x in SortOnce(cmp, b) <==> x in b;
    }
  }

  lemma AtLeastTwice<T>(s: seq<T>, i: nat, j: nat)
    requires i < j < |s| && s[i] == s[j]
    ensures multiset(s)[s[i]] >= 2
  {
    assert s == s[..j] + [s[j]] + s[j + 1..];
    assert s[i] in s[..j];
  }

  lemma {:induction false} AtMostOnce<T>(s: seq<T>, x: T)
    requires Distinct(s)
    ensures multiset(s)[x] <= 1
  {
    if s != [] {
      var p, l := s[..|s| - 1], s[|s| - 1];
      assert s == p + [l];
      AtMostOnce(p, x);
      if x == l {
        assert x !in p;
      }
    }
  }

  /** For lists without repetition multisets and sets are the same thing. */
  lemma {:induction false} DistinctMultisets<T(!new)>(a: seq<T>, b: seq<T>)
    requires Distinct(a) && Distinct(b)
    ensures multiset(a) == multiset(b) <==> SameElements(a, b)
  {
    if SameElements(a, b) {
      forall x ensures multiset(a)[x] == multiset(b)[x] {
        AtMostOnce(a, x);
        AtMostOnce(b, x);
        assert x in a <==> x in multiset(a);
        assert x in b <==> x in multiset(b);
      }
    }
    if multiset(a) == multiset(b) {
      forall x ensures x in a <==> x in b {
        assert x in a <==> x in multiset(a);
        assert x in b <==> x in multiset(b);
      }
    }
  }

  lemma PermutationOfDistinct<T(!new)>(uniq: seq<T>, s: seq<T>)
    requires Distinct(uniq) && multiset(s) == multiset(uniq)
    ensures Distinct(s) && SameElements(s, uniq)
  {
    forall x ensures x in s <==> x in uniq {
      assert x in s <==> x in multiset(s);
      assert x in uniq <==> x in multiset(uniq);
    }
    forall i, j | 0 <= i < j < |s| ensures s[i] != s[j] {
      if s[i] == s[j] {
        AtLeastTwice(s, i, j);
        AtMostOnce(uniq, s[i]);
      }
    }
  }

  /** A sorted permutation of the distinct elements of `orig` is `SortOnce` of it. */
  lemma SortedDistinctIsSortOnce<T(!new)>(cmp: (T, T) -> int, orig: seq<T>, uniq: seq<T>, sorted: seq<T>)
    requires TotalOrder(cmp)
    requires Distinct(uniq) && SameElements(uniq, orig)
    requires Sorted(cmp, sorted) && multiset(sorted) == multiset(uniq)
    ensures sorted == SortOnce(cmp, orig)
  {
    SortOnceSorted(cmp, orig);
    PermutationOfDistinct(uniq, sorted);
    StrictlySortedUnique(cmp, sorted, SortOnce(cmp, orig));
  }

  /** `s` lists the elements of `xs`, each once: an iteration order of a Go map. */
  ghost predicate IsArrangement<T(!new)>(s: seq<T>, xs: set<T>) {
    Distinct(s) && forall x :: x in s <==> x in xs
  }

  lemma {:induction false} Arrange<T(!new)>(xs: set<T>) returns (s: seq<T>)
    ensures IsArrangement(s, xs)
  {
    if xs == {} {
      s := [];
    } else {
      var x :| x in xs;
      var rest := Arrange(xs - {x});
      s := [x] + rest;
    }
  }

  /** Any element can come first, */
  lemma ArrangeFirst<T(!new)>(xs: set<T>, x: T) returns (s: seq<T>)
    requires x in xs
    ensures IsArrangement(s, xs) && s != [] && s[0] == x
  {
    var rest := Arrange(xs - {x});
    s := [x] + rest;
  }

  /** or last. */
  lemma ArrangeLast<T(!new)>(xs: set<T>, x: T) returns (s: seq<T>)
    requires x in xs
    ensures IsArrangement(s, xs) && s != [] && s[|s| - 1] == x
  {
    var rest := Arrange(xs - {x});
    s := rest + [x];
  }

  /** A three-way comparison that may tie distinct elements. */
  ghost predicate Preorder<T(!new)>(cmp: (T, T) -> int) {
    && (forall x, y :: cmp(x, y) < 0 <==> cmp(y, x) > 0)
    && (forall x, y, z :: Chain(cmp, x, y, z) ==> cmp(x, z) <= 0)
  }

  /** Everything up to and including `i` is in order, except perhaps the
      element on its way down at `j`, which is below all that it has passed. */
  ghost predicate SortedBut<T>(cmp: (T, T) -> int, s: seq<T>, i: nat, j: nat)
    requires j <= i < |s|
  {
    forall p, q :: 0 <= p < q <= i && q != j ==> cmp(s[p], s[q]) <= 0
  }

  lemma SwapDown<T(!new)>(cmp: (T, T) -> int, s: seq<T>, i: nat, j: nat)
    requires 0 < j <= i < |s| && SortedBut(cmp, s, i, j)
    requires cmp(s[j], s[j - 1]) <= 0
    ensures SortedBut(cmp, s[j := s[j - 1]][j - 1 := s[j]], i, j - 1)
    ensures multiset(s[j := s[j - 1]][j - 1 := s[j]]) == multiset(s)
  {
  }

  lemma SettleDown<T(!new)>(cmp: (T, T) -> int, s: seq<T>, i: nat, j: nat)
    requires Preorder(cmp)
    requires j <= i < |s| && SortedBut(cmp, s, i, j)
    requires j == 0 || cmp(s[j], s[j - 1]) >= 0
    ensures Sorted(cmp, s[..i + 1])
  {
    forall p | 0 <= p < j ensures cmp(s[p], s[j]) <= 0 {
      assert cmp(s[j - 1], s[j]) <= 0;
      assert p < j - 1 ==> Chain(cmp, s[p], s[j - 1], s[j]);
    }
  }

  method SinkDown<T(!new)>(cmp: (T, T) -> int, a: array<T>, i: nat)
    requires Preorder(cmp) && i < a.Length && Sorted(cmp, a[..i])
    modifies a
    ensures Sorted(cmp, a[..i + 1])
    ensures multiset(a[..]) == multiset(old(a[..]))
  {
    var j := i;
    assert forall p :: 0 <= p < i ==> a[..i][p] == a[p];
    while j > 0 && cmp(a[j], a[j - 1]) < 0
      invariant 0 <= j <= i
      invariant SortedBut(cmp, a[..], i, j)
      invariant multiset(a[..]) == multiset(old(a[..]))
    {
      ghost var s := a[..];
      SwapDown(cmp, s, i, j);
      a[j], a[j - 1] := a[j - 1], a[j];
      assert a[..] == s[j := s[j - 1]][j - 1 := s[j]];
      j := j - 1;
    }
    SettleDown(cmp, a[..], i, j);
    assert a[..][..i + 1] == a[..i + 1];
  }

  /** Sorting in place. It stands for `sort.Slice`, `sort.Strings` and
      `slices.SortStableFunc`; callers rely on this contract alone. */
  method SortInPlace<T(!new)>(cmp: (T, T) -> int, a: array<T>)
    requires Preorder(cmp)
    modifies a
    ensures Sorted(cmp, a[..])
    ensures multiset(a[..]) == multiset(old(a[..]))
  {
    for i := 0 to a.Length
      invariant Sorted(cmp, a[..i])
      invariant multiset(a[..]) == multiset(old(a[..]))
    {
      SinkDown(cmp, a, i);
    }
    assert a[..a.Length] == a[..];
  }
}
