/** How far the findings of a CNAME check depend on the iteration order of Go's
    maps: the exact condition under which every order gives the same findings,
    counted with multiplicity. */
module CnameOrder {
  import opened Ordering
  import opened Bytes
  import opened Cname

  // ----- scans of permuted starts -----

  lemma {:induction false} ScanAppend(g: Graph, limit: int, resolves: Str -> bool, a: seq<Str>, b: seq<Str>)
    ensures ScanFindings(g, limit, resolves, a + b)
            == ScanFindings(g, limit, resolves, a) + ScanFindings(g, limit, resolves, b)
  {
    if b == [] {
      assert a + b == a;
    } else {
      assert Front(a + b) == a + Front(b) && Last(a + b) == Last(b);
      ScanAppend(g, limit, resolves, a, Front(b));
      Regroup(ScanFindings(g, limit, resolves, a), ScanFindings(g, limit, resolves, Front(b)),
              StartFindings(g, limit, resolves, Last(b)));
    }
  }

  lemma ScanOne(g: Graph, limit: int, resolves: Str -> bool, s: Str)
    ensures ScanFindings(g, limit, resolves, [s]) == StartFindings(g, limit, resolves, s)
  {
    assert Front([s]) == [];
    assert ScanFindings(g, limit, resolves, []) == [];
  }

  lemma SplitAround(starts: seq<Str>, i: nat)
    requires i < |starts|
    ensures starts == starts[..i] + [starts[i]] + starts[i + 1..]
  {
  }

  lemma ScanWithout(g: Graph, limit: int, resolves: Str -> bool, starts: seq<Str>, i: nat)
    requires i < |starts|
    ensures multiset(ScanFindings(g, limit, resolves, starts))
            == multiset(ScanFindings(g, limit, resolves, starts[..i] + starts[i + 1..]))
               + multiset(StartFindings(g, limit, resolves, starts[i]))
  {
    var a, b := starts[..i], starts[i + 1..];
    SplitAround(starts, i);
    ScanAppend(g, limit, resolves, a + [starts[i]], b);
    ScanAppend(g, limit, resolves, a, [starts[i]]);
    ScanOne(g, limit, resolves, starts[i]);
    ScanAppend(g, limit, resolves, a, b);
  }

  /** If every start is walked, the order does not matter. */
  lemma {:induction false} ScanOfPermutation(g: Graph, limit: int, resolves: Str -> bool, a: seq<Str>, b: seq<Str>)
    requires multiset(a) == multiset(b)
    ensures multiset(ScanFindings(g, limit, resolves, a)) == multiset(ScanFindings(g, limit, resolves, b))
  {
    if a == [] {
      assert |multiset(b)| == 0;
    } else {
      var i := RemoveOne(a, b);
      ScanOfPermutation(g, limit, resolves, Front(a), b[..i] + b[i + 1..]);
      ScanWithout(g, limit, resolves, b, i);
    }
  }

  // ----- the condition is sufficient -----

  /** A name that another name points to has no finding of its own. */
  ghost predicate Quiet(g: Graph, limit: int, resolves: Str -> bool) {
    forall s, y :: s in g && PointsTo(g, y, s) ==> StartFindings(g, limit, resolves, s) == []
  }

  ghost predicate PointsTo(g: Graph, y: Str, s: Str) {
    y in g && y != s && g[y] == s
  }

  /** Skipped starts are pointed to by another name. */
  lemma OnChainIsPointedTo(g: Graph, w: Str, x: Str) returns (y: Str)
    requires x in Walk(g, w) && x != w
    ensures PointsTo(g, y, x)
  {
    WalkFacts(g, w);
    var r := Follow(g, [w]);
    var i: nat :| i < |r| - 1 && Walk(g, w)[i] == x;
    assert r[i + 1] == x && g[r[i]] == r[i + 1];
    if r[i] != x {
      y := r[i];
    } else {
      assert i > 0 && g[r[i - 1]] == r[i];
      y := r[i - 1];
      assert Front(r)[i - 1] != Front(r)[i];
    }
  }

  lemma {:induction false} QuietScan(g: Graph, limit: int, resolves: Str -> bool, order: seq<Str>)
    requires Quiet(g, limit, resolves) && Distinct(order) && forall x :: x in order ==> x in g
    ensures ScanFindings(g, limit, resolves, Walked(g, order)) == ScanFindings(g, limit, resolves, order)
  {
    if order != [] {
      var p, x := Front(order), Last(order);
      assert order == p + [x];
      QuietScan(g, limit, resolves, p);
      if x in Visited(g, p) {
        VisitedIsOnChain(g, p, x);
        var w :| w in Walked(g, p) && x in Walk(g, w);
        WalkedIsStart(g, p, w);
        LastIsNew(order);
        var y := OnChainIsPointedTo(g, w, x);
        assert Walked(g, order) == Walked(g, p);
        assert StartFindings(g, limit, resolves, x) == [];
      } else {
        ScanNextWalked(g, limit, resolves, Walked(g, p), x);
      }
    }
  }

  lemma ScanNextWalked(g: Graph, limit: int, resolves: Str -> bool, ws: seq<Str>, x: Str)
    ensures ScanFindings(g, limit, resolves, ws + [x])
            == ScanFindings(g, limit, resolves, ws) + StartFindings(g, limit, resolves, x)
  {
    assert Front(ws + [x]) == ws;
  }

  ghost predicate SameScan(g: Graph, limit: int, resolves: Str -> bool, o1: seq<Str>, o2: seq<Str>) {
    multiset(ScanFindings(g, limit, resolves, Walked(g, o1)))
    == multiset(ScanFindings(g, limit, resolves, Walked(g, o2)))
  }

  lemma QuietIsEnough(g: Graph, limit: int, resolves: Str -> bool, o1: seq<Str>, o2: seq<Str>)
    requires Quiet(g, limit, resolves) && IsOrder(g, o1) && IsOrder(g, o2)
    ensures SameScan(g, limit, resolves, o1, o2)
  {
    QuietScan(g, limit, resolves, o1);
    QuietScan(g, limit, resolves, o2);
    DistinctMultisets(o1, o2);
    ScanOfPermutation(g, limit, resolves, o1, o2);
  }

  // ----- orders that begin differently and go on alike -----

  ghost predicate AgreeOn(g: Graph, a: seq<Str>, b: seq<Str>, xs: set<Str>) {
    forall x :: x in xs ==> (x in Visited(g, a) <==> x in Visited(g, b))
  }

  /** If two beginnings have visited the same of the remaining names, the same of
      them are walked from then on. */
  lemma {:induction false} GoOnAlike(g: Graph, a: seq<Str>, b: seq<Str>, rest: seq<Str>, xs: set<Str>)
    returns (d: seq<Str>)
    requires AgreeOn(g, a, b, xs) && forall x :: x in rest ==> x in xs
    ensures Walked(g, a + rest) == Walked(g, a) + d && Walked(g, b + rest) == Walked(g, b) + d
    ensures AgreeOn(g, a + rest, b + rest, xs)
  {
    if rest == [] {
      d := [];
      assert a + rest == a && b + rest == b;
      assert Walked(g, a) + d == Walked(g, a) && Walked(g, b) + d == Walked(g, b);
    } else {
      var x := Last(rest);
      assert rest == Front(rest) + [x];
      var e := GoOnAlike(g, a, b, Front(rest), xs);
      NextStart(g, a, rest);
      NextStart(g, b, rest);
      d := e + if x in Visited(g, a + Front(rest)) then [] else [x];
      Regroup(Walked(g, a), e, if x in Visited(g, a + Front(rest)) then [] else [x]);
      Regroup(Walked(g, b), e, if x in Visited(g, a + Front(rest)) then [] else [x]);
    }
  }

  lemma NextStart(g: Graph, a: seq<Str>, rest: seq<Str>)
    requires rest != []
    ensures var p, x := a + Front(rest), Last(rest);
            && Walked(g, a + rest) == Walked(g, p) + (if x in Visited(g, p) then [] else [x])
            && Visited(g, a + rest)
               == if x in Visited(g, p) then Visited(g, p) else Visited(g, p) + Elements(Walk(g, x))
  {
    assert Front(a + rest) == a + Front(rest) && Last(a + rest) == Last(rest);
  }

  /** Different findings so far stay different. */
  lemma StaysDifferent(g: Graph, limit: int, resolves: Str -> bool, a: seq<Str>, b: seq<Str>, rest: seq<Str>)
    requires AgreeOn(g, a, b, Elements(rest))
    requires !SameScan(g, limit, resolves, a, b)
    ensures !SameScan(g, limit, resolves, a + rest, b + rest)
  {
    var d := GoOnAlike(g, a, b, rest, Elements(rest));
    ScanAppend(g, limit, resolves, Walked(g, a), d);
    ScanAppend(g, limit, resolves, Walked(g, b), d);
    var m := multiset(ScanFindings(g, limit, resolves, d));
    Cancel(multiset(ScanFindings(g, limit, resolves, Walked(g, a))),
           multiset(ScanFindings(g, limit, resolves, Walked(g, b))), m);
  }

  lemma Cancel<T>(a: multiset<T>, b: multiset<T>, m: multiset<T>)
    requires a != b
    ensures a + m != b + m
  {
    assert a == (a + m) - m && b == (b + m) - m;
  }

  /** The rest of an order that begins with given names. */
  lemma CompleteOrders(g: Graph, a: seq<Str>, b: seq<Str>) returns (rest: seq<Str>)
    requires Distinct(a) && Distinct(b) && SameElements(a, b) && forall x :: x in a ==> x in g
    ensures IsOrder(g, a + rest) && IsOrder(g, b + rest) && Elements(rest) == g.Keys - Elements(a)
  {
    rest := Arrange(g.Keys - Elements(a));
    AppendArrangement(g.Keys, a, rest);
    AppendArrangement(g.Keys, b, rest);
  }

  lemma AppendArrangement(xs: set<Str>, a: seq<Str>, rest: seq<Str>)
    requires Distinct(a) && (forall x :: x in a ==> x in xs) && IsArrangement(rest, xs - Elements(a))
    ensures IsArrangement(a + rest, xs)
  {
    forall i, j | 0 <= i < |a| && 0 <= j < |rest| ensures a[i] != rest[j] {
      assert rest[j] in xs - Elements(a);
    }
    forall x ensures x in a + rest <==> x in xs {
      assert x in a + rest <==> x in a || x in rest;
    }
  }

  lemma PairAtEnd(pre: seq<Str>, s: Str, y: Str)
    requires Distinct(pre) && s !in pre && y !in pre && s != y
    ensures Distinct(pre + [s, y])
    ensures forall x :: x in pre + [s, y] <==> x in pre || x == s || x == y
  {
    assert (pre + [s, y])[|pre|] == s && (pre + [s, y])[|pre| + 1] == y;
    forall x | x in pre ensures x in pre + [s, y] {}
  }

  /** Two orders that differ only in which of two names comes first. */
  lemma PairOrders(g: Graph, pre: seq<Str>, s: Str, y: Str) returns (rest: seq<Str>)
    requires Distinct(pre) && s !in pre && y !in pre && s != y && s in g && y in g && forall x :: x in pre ==> x in g
    ensures IsOrder(g, pre + [s, y] + rest) && IsOrder(g, pre + [y, s] + rest)
    ensures forall x :: x in Elements(rest) ==> x !in pre && x != s && x != y
  {
    PairAtEnd(pre, s, y);
    PairAtEnd(pre, y, s);
    rest := CompleteOrders(g, pre + [s, y], pre + [y, s]);
    forall x | x in Elements(rest) ensures x !in pre && x != s && x != y {
      assert x !in Elements(pre + [s, y]);
    }
  }

  // ----- the condition is necessary: walks below the cap -----

  lemma OneMore(g: Graph, p: seq<Str>, x: Str)
    ensures x in Visited(g, p) ==> Walked(g, p + [x]) == Walked(g, p) && Visited(g, p + [x]) == Visited(g, p)
    ensures x !in Visited(g, p)
            ==> Walked(g, p + [x]) == Walked(g, p) + [x]
                && Visited(g, p + [x]) == Visited(g, p) + Elements(Walk(g, x))
  {
    NextStart(g, p, [x]);
    assert Front([x]) == [] && p + [] == p;
    assert Walked(g, p) + [] == Walked(g, p);
  }

  /** First `y`: then `s`, to which it points, is skipped. */
  lemma PointerFirst(g: Graph, pre: seq<Str>, s: Str, y: Str)
    requires y !in Visited(g, pre) && PointsTo(g, y, s)
    ensures Walked(g, pre + [y, s]) == Walked(g, pre) + [y]
    ensures Visited(g, pre + [y, s]) == Visited(g, pre) + Elements(Walk(g, y))
  {
    OneMore(g, pre, y);
    FirstOfWalk(g, y);
    OneMore(g, pre + [y], s);
    assert pre + [y] + [s] == pre + [y, s];
  }

  /** First `s`: then `y` is skipped only if it lies on the chain of `s`. */
  lemma TargetFirst(g: Graph, pre: seq<Str>, s: Str, y: Str)
    requires s !in Visited(g, pre) && y !in Visited(g, pre)
    ensures y !in Walk(g, s)
            ==> Walked(g, pre + [s, y]) == Walked(g, pre) + [s, y]
                && Visited(g, pre + [s, y]) == Visited(g, pre) + Elements(Walk(g, s)) + Elements(Walk(g, y))
    ensures y in Walk(g, s)
            ==> Walked(g, pre + [s, y]) == Walked(g, pre) + [s]
                && Visited(g, pre + [s, y]) == Visited(g, pre) + Elements(Walk(g, s))
  {
    OneMore(g, pre, s);
    OneMore(g, pre + [s], y);
    assert pre + [s] + [y] == pre + [s, y];
    assert Walked(g, pre) + [s] + [y] == Walked(g, pre) + [s, y];
  }

  lemma FirstOfWalk(g: Graph, y: Str)
    requires y in g
    ensures g[y] in Walk(g, y)
  {
    WalkFacts(g, y);
    var r := Follow(g, [y]);
    assert r[1] == g[r[0]] && Walk(g, y)[0] == r[1];
  }

  lemma DistinctCons(y: Str, a: seq<Str>)
    requires Distinct(a) && y !in a
    ensures Distinct([y] + a)
  {
  }

  lemma PathCons(g: Graph, y: Str, p: seq<Str>)
    requires IsPath(g, p) && y in g && g[y] == p[0] && Distinct(Front(p)) && y !in Front(p)
    ensures WalkFrom(g, y, [y] + p) && Front([y] + p) == [y] + Front(p) && Last([y] + p) == Last(p)
  {
    DistinctCons(y, Front(p));
    assert Front([y] + p) == [y] + Front(p);
  }

  lemma Prefix(g: Graph, p: seq<Str>, k: nat)
    requires IsPath(g, p) && Distinct(Front(p)) && 0 < k < |p|
    ensures IsPath(g, p[..k]) && Distinct(Front(p[..k])) && Front(p[..k]) <= Front(p)
  {
    assert Front(p[..k]) == Front(p)[..k - 1];
  }

  /** Off the chain, `y` walks one step more than `s`, if the cap allows. */
  lemma WalkBefore(g: Graph, s: Str, y: Str)
    requires s in g && PointsTo(g, y, s) && y !in Walk(g, s)
    ensures var r := Follow(g, [s]); Follow(g, [y]) == if |r| < 102 then [y] + r else [y] + r[..101]
  {
    WalkFacts(g, s);
    var r := Follow(g, [s]);
    assert r == [s] + Walk(g, s);
    assert y !in r;
    assert forall x :: x in Front(r) ==> x in r;
    if |r| < 102 {
      PathCons(g, y, r);
      assert forall x :: x in Front(r) ==> x in [y] + Front(r);
      WalkIs(g, y, [y] + r);
    } else {
      Prefix(g, r, 101);
      assert forall x :: x in Front(r[..101]) ==> x in Front(r);
      PathCons(g, y, r[..101]);
      WalkIs(g, y, [y] + r[..101]);
    }
  }

  /** On a short cycle both walks go round it. */
  lemma WalkAround(g: Graph, s: Str, y: Str)
    requires s in g && PointsTo(g, y, s) && y in Walk(g, s) && |Follow(g, [s])| < 102
    ensures var r := Follow(g, [s]);
            && Last(r) == s && Last(Front(r)) == y && Follow(g, [y]) == [y] + Front(r)
            && Elements(Walk(g, y)) == Elements(Walk(g, s))
  {
    WalkFacts(g, s);
    var r := Follow(g, [s]);
    var i: nat :| i < |r| - 1 && Walk(g, s)[i] == y;
    YIsNextToLast(g, s, y, i + 1);
    var q := Front(r);
    Prefix(g, r, |r| - 1);
    LastIsNew(q);
    PathCons(g, y, q);
    assert y in [y] + Front(q);
    WalkIs(g, y, [y] + q);
    SameNames(r);
  }

  lemma YIsNextToLast(g: Graph, s: Str, y: Str, i: nat)
    requires s in g && PointsTo(g, y, s) && 0 < i < |Follow(g, [s])| < 102 && Follow(g, [s])[i] == y
    ensures i == |Follow(g, [s])| - 2 && Last(Follow(g, [s])) == s
  {
    WalkFacts(g, s);
    var r := Follow(g, [s]);
    if i == |r| - 1 {
      var k :| 0 <= k < |r| - 1 && Front(r)[k] == y;
      assert g[r[k]] == r[k + 1] == s;
      DistinctAt(r, 0, k + 1);
    }
    assert g[r[i]] == r[i + 1] == s;
    if i + 1 < |r| - 1 {
      DistinctAt(r, 0, i + 1);
    }
  }

  lemma SameNames(r: seq<Str>)
    requires |r| >= 2 && r[0] == Last(r)
    ensures Elements(r[1..]) == Elements(Front(r))
    ensures Elements(([Last(Front(r))] + Front(r))[1..]) == Elements(Front(r))
  {
    assert ([Last(Front(r))] + Front(r))[1..] == Front(r);
    forall x ensures x in r[1..] <==> x in Front(r) {
      if x in Front(r) {
        var k :| 0 <= k < |r| - 1 && Front(r)[k] == x;
        assert if k == 0 then r[1..][|r| - 2] == x else r[1..][k - 1] == x;
      }
      if x in r[1..] {
        var k :| 0 <= k < |r| - 1 && r[1..][k] == x;
        assert if k == |r| - 2 then Front(r)[0] == x else Front(r)[k + 1] == x;
      }
    }
  }

  /** A start below the cap with a finding of its own: it matters whether the name
      that points to it comes before or after it. */
  lemma NoisyBelowCap(g: Graph, limit: int, resolves: Str -> bool, s: Str, y: Str) returns (o1: seq<Str>, o2: seq<Str>)
    requires s in g && PointsTo(g, y, s) && StartFindings(g, limit, resolves, s) != [] && |Follow(g, [s])| < 102
    ensures IsOrder(g, o1) && IsOrder(g, o2) && !SameScan(g, limit, resolves, o1, o2)
  {
    var rest := PairOrders(g, [], s, y);
    o1, o2 := [s, y] + rest, [y, s] + rest;
    assert [] + [s, y] + rest == o1 && [] + [y, s] + rest == o2;
    if y in Walk(g, s) {
      CycleDiffers(g, limit, resolves, s, y);
    } else {
      TailDiffers(g, limit, resolves, s, y);
    }
    StaysDifferent(g, limit, resolves, [s, y], [y, s], rest);
  }

  lemma CycleStarts(g: Graph, s: Str, y: Str)
    requires s in g && PointsTo(g, y, s) && |Follow(g, [s])| < 102 && y in Walk(g, s)
    ensures Visited(g, [s, y]) == Visited(g, [y, s])
    ensures Walked(g, [s, y]) == [s] && Walked(g, [y, s]) == [y]
  {
    WalkAround(g, s, y);
    PointerFirst(g, [], s, y);
    TargetFirst(g, [], s, y);
    assert [] + [s, y] == [s, y] && [] + [y, s] == [y, s] && [] + [s] == [s] && [] + [y] == [y];
  }

  /** The name a finding is about. */
  function Subject(f: Finding): Str {
    match f
    case LongChain002(start, _) => start
    case Dangling004(target) => target
    case Loop001(root, _) => root
  }

  lemma FindingsAreAboutStart(g: Graph, limit: int, resolves: Str -> bool, s: Str, f: Finding)
    requires EndsChain(g, s, s) && f in StartFindings(g, limit, resolves, s)
    ensures Subject(f) == s
  {
  }

  lemma CycleDiffers(g: Graph, limit: int, resolves: Str -> bool, s: Str, y: Str)
    requires s in g && PointsTo(g, y, s) && StartFindings(g, limit, resolves, s) != [] && |Follow(g, [s])| < 102
    requires y in Walk(g, s)
    ensures Visited(g, [s, y]) == Visited(g, [y, s]) && !SameScan(g, limit, resolves, [s, y], [y, s])
  {
    CycleStarts(g, s, y);
    CycleEnds(g, s, y);
    ScanOne(g, limit, resolves, s);
    ScanOne(g, limit, resolves, y);
    var f := StartFindings(g, limit, resolves, s)[0];
    FindingsAreAboutStart(g, limit, resolves, s, f);
    if f in StartFindings(g, limit, resolves, y) {
      FindingsAreAboutStart(g, limit, resolves, y, f);
    }
    Tell(StartFindings(g, limit, resolves, s), StartFindings(g, limit, resolves, y), f);
  }

  lemma Tell<T>(a: seq<T>, b: seq<T>, x: T)
    requires x in a && x !in b
    ensures multiset(a) != multiset(b)
  {
    assert x in multiset(a) && x !in multiset(b);
  }

  lemma CycleEnds(g: Graph, s: Str, y: Str)
    requires s in g && PointsTo(g, y, s) && |Follow(g, [s])| < 102 && y in Walk(g, s)
    ensures EndsChain(g, s, s) && EndsChain(g, y, y)
  {
    WalkAround(g, s, y);
  }

  lemma TailVisitsSame(g: Graph, s: Str, y: Str)
    requires s in g && PointsTo(g, y, s) && |Follow(g, [s])| < 102 && y !in Walk(g, s)
    ensures Elements(Walk(g, s)) <= Elements(Walk(g, y))
  {
    WalkBefore(g, s, y);
    assert Walk(g, y) == Follow(g, [s]);
    assert forall x :: x in Walk(g, s) ==> x in Follow(g, [s]);
  }

  lemma TailStarts(g: Graph, s: Str, y: Str)
    requires s in g && PointsTo(g, y, s) && |Follow(g, [s])| < 102 && y !in Walk(g, s)
    ensures Visited(g, [s, y]) == Visited(g, [y, s])
    ensures Walked(g, [s, y]) == [] + [s, y] && Walked(g, [y, s]) == [] + [y]
  {
    TailVisitsSame(g, s, y);
    PointerFirst(g, [], s, y);
    TargetFirst(g, [], s, y);
    assert [] + [s, y] == [s, y] && [] + [y, s] == [y, s];
  }

  lemma TailDiffers(g: Graph, limit: int, resolves: Str -> bool, s: Str, y: Str)
    requires s in g && PointsTo(g, y, s) && StartFindings(g, limit, resolves, s) != [] && |Follow(g, [s])| < 102
    requires y !in Walk(g, s)
    ensures Visited(g, [s, y]) == Visited(g, [y, s]) && !SameScan(g, limit, resolves, [s, y], [y, s])
  {
    TailStarts(g, s, y);
    OneScanLonger(g, limit, resolves, [], s, y);
  }

  /** With `s` walked there are more findings than without. */
  lemma OneScanLonger(g: Graph, limit: int, resolves: Str -> bool, ws: seq<Str>, s: Str, y: Str)
    requires StartFindings(g, limit, resolves, s) != []
    ensures multiset(ScanFindings(g, limit, resolves, ws + [s, y]))
            != multiset(ScanFindings(g, limit, resolves, ws + [y]))
  {
    var starts := ws + [s, y];
    assert starts[..|ws|] + starts[|ws| + 1..] == ws + [y];
    ScanWithout(g, limit, resolves, starts, |ws|);
    var m := multiset(ScanFindings(g, limit, resolves, ws + [y]));
    assert |m + multiset(StartFindings(g, limit, resolves, s))| > |m|;
  }

  /** A long chain is reported of `s` if `s` comes first, and not of `s` if the
      name that points to it does. */
  lemma NoisyLong(g: Graph, limit: int, resolves: Str -> bool, s: Str, y: Str) returns (o1: seq<Str>, o2: seq<Str>)
    requires s in g && PointsTo(g, y, s) && |Walk(g, s)| > limit
    ensures IsOrder(g, o1) && IsOrder(g, o2) && !SameScan(g, limit, resolves, o1, o2)
  {
    var rest := PairOrders(g, [], s, y);
    o1, o2 := [s, y] + rest, [y, s] + rest;
    assert [] + [s, y] + rest == o1 && [] + [y, s] + rest == o2 && [y] + ([s] + rest) == o2;
    FirstIsWalked(g, o1);
    SkippedAfter(g, s, y, [s] + rest);
    LongChainTells(g, limit, resolves, s, o1, o2);
  }

  lemma LongChainTells(g: Graph, limit: int, resolves: Str -> bool, s: Str, o1: seq<Str>, o2: seq<Str>)
    requires |Walk(g, s)| > limit && s in Walked(g, o1) && s !in Walked(g, o2)
    ensures !SameScan(g, limit, resolves, o1, o2)
  {
    ScanLongChains(g, o1, limit, resolves);
    ScanLongChains(g, o2, limit, resolves);
    Tell(ScanFindings(g, limit, resolves, Walked(g, o1)), ScanFindings(g, limit, resolves, Walked(g, o2)),
         LongChain002(s, Walk(g, s)));
  }

  lemma SkippedAfter(g: Graph, s: Str, y: Str, rest: seq<Str>)
    requires PointsTo(g, y, s)
    ensures s !in Walked(g, [y] + rest)
  {
    FirstOfWalk(g, y);
    OneMore(g, [], y);
    assert [] + [y] == [y];
    LaterIsSkipped(g, [y], rest, s);
  }

  // ----- the condition is necessary: walks that reach the cap -----

  /** If the last name `z` of a capped walk has been visited before, or is no
      start, only one step of the chain is visited more or less. */
  lemma CappedDiffers(g: Graph, limit: int, resolves: Str -> bool, s: Str, y: Str, pre: seq<Str>)
    requires s in g && PointsTo(g, y, s) && StartFindings(g, limit, resolves, s) != []
    requires y !in Walk(g, s) && s !in Visited(g, pre) && y !in Visited(g, pre)
    ensures !SameScan(g, limit, resolves, pre + [s, y], pre + [y, s])
  {
    PointerFirst(g, pre, s, y);
    TargetFirst(g, pre, s, y);
    OneScanLonger(g, limit, resolves, Walked(g, pre), s, y);
  }

  lemma CappedChain(g: Graph, s: Str, y: Str, x: Str)
    requires s in g && PointsTo(g, y, s) && |Follow(g, [s])| == 102 && y !in Walk(g, s)
    requires x in Walk(g, s) && x != Last(Walk(g, s))
    ensures x in Walk(g, y)
  {
    WalkBefore(g, s, y);
    var r := Follow(g, [s]);
    assert Walk(g, y) == r[..101];
    var k: nat :| k < 101 && Walk(g, s)[k] == x;
    assert k < 100;
    assert r[..101][k + 1] == x;
  }

  lemma CappedAgrees(g: Graph, s: Str, y: Str, pre: seq<Str>, xs: set<Str>)
    requires s in g && PointsTo(g, y, s) && |Follow(g, [s])| == 102
    requires y !in Walk(g, s) && s !in Visited(g, pre) && y !in Visited(g, pre)
    requires Last(Walk(g, s)) !in xs
    ensures AgreeOn(g, pre + [s, y], pre + [y, s], xs)
  {
    PointerFirst(g, pre, s, y);
    TargetFirst(g, pre, s, y);
    forall x | x in Walk(g, s) && x in xs ensures x in Walk(g, y) {
      CappedChain(g, s, y, x);
    }
  }

  /** What comes before the pair: the last name of the chain, if it is a start. */
  function Before(g: Graph, z: Str, y: Str): seq<Str> {
    if z in g && z != y then [z] else []
  }

  lemma VisitedBefore(g: Graph, z: Str, y: Str)
    ensures Visited(g, Before(g, z, y)) <= Elements(Walk(g, z))
    ensures Distinct(Before(g, z, y)) && forall x :: x in Before(g, z, y) ==> x == z && x in g && x != y
  {
    OneMore(g, [], z);
    assert [] + [z] == [z];
  }

  /** A start at the cap that is not on a cycle. */
  lemma NoisyOffCycle(g: Graph, limit: int, resolves: Str -> bool, s: Str, y: Str) returns (o1: seq<Str>, o2: seq<Str>)
    requires s in g && PointsTo(g, y, s) && StartFindings(g, limit, resolves, s) != [] && |Follow(g, [s])| == 102
    requires forall p :: !Returns(g, s, p)
    ensures IsOrder(g, o1) && IsOrder(g, o2) && !SameScan(g, limit, resolves, o1, o2)
  {
    var z := Last(Walk(g, s));
    var pre := Before(g, z, y);
    NotBack(g, s, y);
    VisitedBefore(g, z, y);
    var rest := PairOrders(g, pre, s, y);
    assert z !in Elements(rest);
    CappedDiffers(g, limit, resolves, s, y, pre);
    CappedAgrees(g, s, y, pre, Elements(rest));
    StaysDifferent(g, limit, resolves, pre + [s, y], pre + [y, s], rest);
    o1, o2 := pre + [s, y] + rest, pre + [y, s] + rest;
  }

  ghost predicate Reaches(g: Graph, a: Str, b: Str, p: seq<Str>) {
    IsPath(g, p) && |p| >= 2 && p[0] == a && Last(p) == b
  }

  lemma ReachOn(g: Graph, p: seq<Str>, q: seq<Str>)
    requires IsPath(g, p) && IsPath(g, q) && Last(p) == q[0]
    ensures IsPath(g, Front(p) + q) && (Front(p) + q)[0] == p[0] && Last(Front(p) + q) == Last(q)
  {
    var r := Front(p) + q;
    forall i | 0 <= i < |r| - 1 ensures r[i] in g && g[r[i]] == r[i + 1] {
      if i < |p| - 1 {
        assert r[i] == p[i] && r[i + 1] == p[i + 1];
      } else {
        assert r[i] == q[i - (|p| - 1)] && r[i + 1] == q[i + 1 - (|p| - 1)];
      }
    }
  }

  lemma PathOfWalk(g: Graph, s: Str, x: Str) returns (p: seq<Str>)
    requires x in Walk(g, s)
    ensures Reaches(g, s, x, p)
  {
    WalkFacts(g, s);
    var r := Follow(g, [s]);
    var k: nat :| k < |r| - 1 && Walk(g, s)[k] == x;
    p := r[..k + 2];
    assert IsPath(g, p) && Last(p) == x;
  }

  /** A name that does not come back to itself does not reach what points to it. */
  lemma NoWayBack(g: Graph, s: Str, y: Str, p: seq<Str>)
    requires PointsTo(g, y, s) && forall q :: !Returns(g, s, q)
    ensures !Reaches(g, s, s, p) && !Reaches(g, s, y, p)
  {
    assert Reaches(g, s, s, p) ==> Returns(g, s, p);
    if Reaches(g, s, y, p) {
      assert IsPath(g, [y, s]);
      ReachOn(g, p, [y, s]);
      assert Returns(g, s, Front(p) + [y, s]);
    }
  }

  lemma ReachFurther(g: Graph, s: Str, z: Str, x: Str, p: seq<Str>) returns (q: seq<Str>)
    requires Reaches(g, s, z, p) && x in Walk(g, z)
    ensures Reaches(g, s, x, q)
  {
    var r := PathOfWalk(g, z, x);
    ReachOn(g, p, r);
    q := Front(p) + r;
  }

  /** Off a cycle neither the walk from `s` nor the one from its last name comes
      back to `s` or to a name that points to it. */
  lemma NotBack(g: Graph, s: Str, y: Str)
    requires s in g && PointsTo(g, y, s) && |Follow(g, [s])| == 102 && forall p :: !Returns(g, s, p)
    ensures y !in Walk(g, s) && Last(Walk(g, s)) != s
    ensures var z := Last(Walk(g, s)); s !in Walk(g, z) && y !in Walk(g, z)
  {
    var z := Last(Walk(g, s));
    var pz := PathOfWalk(g, s, z);
    NoWayBack(g, s, y, pz);
    if y in Walk(g, s) {
      var p := PathOfWalk(g, s, y);
      NoWayBack(g, s, y, p);
    }
    if s in Walk(g, z) {
      var p := ReachFurther(g, s, z, s, pz);
      NoWayBack(g, s, y, p);
    }
    if y in Walk(g, z) {
      var p := ReachFurther(g, s, z, y, pz);
      NoWayBack(g, s, y, p);
    }
  }

  // ----- starts on a cycle longer than the cap -----

  /** `k` hops from `x`, or as many as there are. */
  function Hop(g: Graph, x: Str, k: nat): Str
    decreases k
  {
    if k == 0 || x !in g then x else Hop(g, g[x], k - 1)
  }

  lemma {:induction false} HopOnPath(g: Graph, p: seq<Str>, k: nat)
    requires IsPath(g, p) && k < |p|
    ensures Hop(g, p[0], k) == p[k]
  {
    if k > 0 {
      assert p[0] in g && g[p[0]] == p[1..][0];
      PathSuffix(g, p, 1);
      HopOnPath(g, p[1..], k - 1);
    }
  }

  lemma {:induction false} HopAdd(g: Graph, x: Str, a: nat, b: nat)
    ensures Hop(g, x, a + b) == Hop(g, Hop(g, x, a), b)
    decreases a
  {
    if a > 0 {
      if x in g {
        HopAdd(g, g[x], a - 1, b);
      }
    }
  }

  lemma {:induction false} HopPeriod(g: Graph, x: Str, n: nat, m: nat)
    requires Hop(g, x, n) == x
    ensures Hop(g, x, n * m) == x
  {
    if m > 0 {
      HopPeriod(g, x, n, m - 1);
      assert n * m == n * (m - 1) + n;
      HopAdd(g, x, n * (m - 1), n);
    }
  }

  /** On a cycle, names that meet after as many hops are the same. */
  lemma MeetOnCycle(g: Graph, s: Str, p: seq<Str>, j: nat, k: nat)
    requires Returns(g, s, p) && j < |p| && Hop(g, p[j], k) == Hop(g, s, k)
    ensures p[j] == s
  {
    var n, w := |p| - 1, p[j];
    HopOnPath(g, p, n);
    HopOnPath(g, p, j);
    HopAdd(g, s, j, n);
    HopAdd(g, s, n, j);
    assert Hop(g, w, n) == w;
    HopPeriod(g, s, n, k);
    HopPeriod(g, w, n, k);
    AtLeast(n, k);
    var rest := n * k - k;
    HopAdd(g, s, k, rest);
    HopAdd(g, w, k, rest);
  }

  lemma AtLeast(n: nat, k: nat)
    requires n >= 1
    ensures n * k >= k
  {
  }

  lemma CycleIsClosed(g: Graph, s: Str, p: seq<Str>)
    requires Returns(g, s, p)
    ensures ClosedUnder(g, Elements(p))
  {
    forall x | x in Elements(p) ensures x in g && g[x] in Elements(p) {
      var i :| 0 <= i < |p| && p[i] == x;
      if i == |p| - 1 {
        assert g[p[0]] == p[1];
      } else {
        assert g[p[i]] == p[i + 1];
      }
    }
  }

  /** A loop that contains a name of the cycle contains all of it. */
  lemma LoopHasCycle(g: Graph, s: Str, p: seq<Str>, j: nat, q: seq<Str>)
    requires Returns(g, s, p) && j < |p| && IsPath(g, q) && Last(q) in Front(q) && q[0] == p[j]
    ensures s in Elements(Front(q))
  {
    LoopIsClosed(g, q);
    PathSuffix(g, p, j);
    assert Front(q)[0] == p[j];
    StaysInside(g, p[j..], Elements(Front(q)), |p| - 1 - j);
  }

  /** A loop around a name whose walk reaches the cap is as long. */
  lemma LoopIsLong(g: Graph, s: Str, q: seq<Str>)
    requires IsPath(g, q) && Last(q) in Front(q) && s in Elements(Front(q)) && |Follow(g, [s])| == 102
    ensures |q| >= 102
  {
    WalkFacts(g, s);
    LoopIsClosed(g, q);
    WalkFitsClosedSet(g, s, Follow(g, [s]), Elements(Front(q)));
    ElementCount(Front(q));
  }

  lemma NeverLeavesCycle(g: Graph, s: Str, p: seq<Str>, j: nat)
    requires Returns(g, s, p) && j < |p|
    ensures Last(Follow(g, [p[j]])) in g
  {
    CycleIsClosed(g, s, p);
    WalkFacts(g, p[j]);
    var q := Follow(g, [p[j]]);
    assert q[0] in Elements(p);
    StaysInside(g, q, Elements(p), |q| - 1);
  }

  /** On a long cycle every walk reaches the cap. */
  lemma LongCycleCaps(g: Graph, s: Str, p: seq<Str>, j: nat)
    requires Returns(g, s, p) && j < |p| && |Follow(g, [s])| == 102
    ensures |Follow(g, [p[j]])| == 102
  {
    WalkFacts(g, p[j]);
    NeverLeavesCycle(g, s, p, j);
    var q := Follow(g, [p[j]]);
    if |q| < 102 {
      LoopHasCycle(g, s, p, j, q);
      LoopIsLong(g, s, q);
    }
  }

  /** So no other name of the cycle has the same last name. */
  lemma OneStartPerEnd(g: Graph, s: Str, p: seq<Str>, w: Str)
    requires Returns(g, s, p) && w in Elements(p) && |Follow(g, [s])| == 102
    requires EndsChain(g, w, Last(Walk(g, s)))
    ensures w == s
  {
    var j: nat :| j < |p| && p[j] == w;
    LongCycleCaps(g, s, p, j);
    WalkFacts(g, s);
    WalkFacts(g, w);
    HopOnPath(g, Follow(g, [s]), 101);
    HopOnPath(g, Follow(g, [w]), 101);
    MeetOnCycle(g, s, p, j, 101);
  }

  lemma {:induction false} VisitedInside(g: Graph, xs: set<Str>, order: seq<Str>, x: Str)
    requires ClosedUnder(g, xs) && (forall o :: o in order ==> o in xs) && x in Visited(g, order)
    ensures x in xs
  {
    VisitedIsOnChain(g, order, x);
    var w :| w in Walked(g, order) && x in Walk(g, w);
    WalkedIsStart(g, order, w);
    WalkFacts(g, w);
    var k: nat :| k < |Walk(g, w)| && Walk(g, w)[k] == x;
    StaysInside(g, Follow(g, [w]), xs, k + 1);
  }

  /** A start at the cap on a cycle, which then has more than 101 names. */
  lemma NoisyOnCycle(g: Graph, limit: int, resolves: Str -> bool, s: Str, p: seq<Str>)
    returns (o1: seq<Str>, o2: seq<Str>)
    requires Returns(g, s, p) && |Follow(g, [s])| == 102 && |Walk(g, s)| <= limit && !resolves(Last(Walk(g, s)))
    ensures IsOrder(g, o1) && IsOrder(g, o2) && !SameScan(g, limit, resolves, o1, o2)
  {
    var xs, y := Elements(p), p[|p| - 2];
    CycleIsClosed(g, s, p);
    BeforeOnCycle(g, s, p);
    var a := ArrangeFirst(xs, s);
    var b := ArrangeFirst(xs, y);
    assert s in a && s in b;
    var rest := CompleteOrders(g, a, b);
    forall x | x in Elements(rest) ensures x !in Visited(g, a) && x !in Visited(g, b) {
      if x in Visited(g, a) { VisitedInside(g, xs, a, x); }
      if x in Visited(g, b) { VisitedInside(g, xs, b, x); }
    }
    CycleStartsDiffer(g, limit, resolves, s, p, a, b);
    StaysDifferent(g, limit, resolves, a, b, rest);
    o1, o2 := a + rest, b + rest;
  }

  lemma BeforeOnCycle(g: Graph, s: Str, p: seq<Str>)
    requires Returns(g, s, p) && |Follow(g, [s])| == 102
    ensures PointsTo(g, p[|p| - 2], s)
  {
    WalkFacts(g, s);
    var r := Follow(g, [s]);
    if p[|p| - 2] == s {
      assert g[r[0]] == r[1];
      DistinctAt(r, 0, 1);
    }
  }

  lemma CycleStartsDiffer(g: Graph, limit: int, resolves: Str -> bool, s: Str, p: seq<Str>, a: seq<Str>, b: seq<Str>)
    requires Returns(g, s, p) && |Follow(g, [s])| == 102 && |Walk(g, s)| <= limit && !resolves(Last(Walk(g, s)))
    requires a != [] && a[0] == s && b != [] && PointsTo(g, b[0], s) && forall x :: x in b ==> x in Elements(p)
    ensures !SameScan(g, limit, resolves, a, b)
  {
    var z := Last(Walk(g, s));
    FirstIsWalked(g, a);
    DanglingOfOrder(g, a, limit, resolves, z);
    assert EndsChain(g, s, z);
    assert b == [b[0]] + b[1..];
    SkippedAfter(g, s, b[0], b[1..]);
    DanglingOfOrder(g, b, limit, resolves, z);
    if w :| w in Walked(g, b) && EndsChain(g, w, z) {
      WalkedIsStart(g, b, w);
      OneStartPerEnd(g, s, p, w);
      assert false;
    }
    Tell(ScanFindings(g, limit, resolves, Walked(g, a)), ScanFindings(g, limit, resolves, Walked(g, b)),
         Dangling004(z));
  }

  // ----- main results -----

  lemma NoisyStart(g: Graph, limit: int, resolves: Str -> bool, s: Str, y: Str) returns (o1: seq<Str>, o2: seq<Str>)
    requires s in g && PointsTo(g, y, s) && StartFindings(g, limit, resolves, s) != []
    ensures IsOrder(g, o1) && IsOrder(g, o2) && !SameScan(g, limit, resolves, o1, o2)
  {
    WalkFacts(g, s);
    if |Walk(g, s)| > limit {
      o1, o2 := NoisyLong(g, limit, resolves, s, y);
    } else if |Follow(g, [s])| < 102 {
      o1, o2 := NoisyBelowCap(g, limit, resolves, s, y);
    } else if p :| Returns(g, s, p) {
      o1, o2 := NoisyOnCycle(g, limit, resolves, s, p);
    } else {
      o1, o2 := NoisyOffCycle(g, limit, resolves, s, y);
    }
  }

  /** For every graph and limit: the chain findings are the same under every
      iteration order if and only if no name that another name points to has a
      finding of its own. */
  lemma ScanDeterministicIffQuiet(g: Graph, limit: int, resolves: Str -> bool)
    ensures (forall o1, o2 :: IsOrder(g, o1) && IsOrder(g, o2) ==> SameScan(g, limit, resolves, o1, o2))
            <==> Quiet(g, limit, resolves)
  {
    if Quiet(g, limit, resolves) {
      forall o1, o2 | IsOrder(g, o1) && IsOrder(g, o2) ensures SameScan(g, limit, resolves, o1, o2) {
        QuietIsEnough(g, limit, resolves, o1, o2);
      }
    } else {
      var s, y :| s in g && PointsTo(g, y, s) && StartFindings(g, limit, resolves, s) != [];
      var o1, o2 := NoisyStart(g, limit, resolves, s, y);
      assert !SameScan(g, limit, resolves, o1, o2);
    }
  }

  ghost predicate SameCheck(g: Graph, limit: int, resolves: Str -> bool, o1: seq<Str>, l1: seq<Str>, o2: seq<Str>,
                            l2: seq<Str>) {
    CheckBag(g, o1, l1, limit, resolves) == CheckBag(g, o2, l2, limit, resolves)
  }

  lemma LoopBagMember(g: Graph, limit: int, resolves: Str -> bool, o: seq<Str>, l: seq<Str>, x: Str, p: seq<Str>)
    ensures Loop001(x, p) in CheckBag(g, o, l, limit, resolves) <==> x in LoopRoots(g, l) && LoopRoots(g, l)[x] == p
  {
    ScanHasNoLoops(g, limit, resolves, Walked(g, o), x, p);
  }

  lemma SameCheckSameParts(g: Graph, limit: int, resolves: Str -> bool, o1: seq<Str>, l1: seq<Str>, o2: seq<Str>,
                           l2: seq<Str>)
    requires SameCheck(g, limit, resolves, o1, l1, o2, l2)
    ensures SameLoops(g, l1, l2) && SameScan(g, limit, resolves, o1, o2)
  {
    forall x ensures x in LoopRoots(g, l1) ==> x in LoopRoots(g, l2) && LoopRoots(g, l2)[x] == LoopRoots(g, l1)[x]
      ensures x in LoopRoots(g, l2) ==> x in LoopRoots(g, l1) {
      if x in LoopRoots(g, l1) {
        LoopBagMember(g, limit, resolves, o1, l1, x, LoopRoots(g, l1)[x]);
        LoopBagMember(g, limit, resolves, o2, l2, x, LoopRoots(g, l1)[x]);
      }
      if x in LoopRoots(g, l2) {
        LoopBagMember(g, limit, resolves, o1, l1, x, LoopRoots(g, l2)[x]);
        LoopBagMember(g, limit, resolves, o2, l2, x, LoopRoots(g, l2)[x]);
      }
    }
    assert LoopRoots(g, l1) == LoopRoots(g, l2);
    if !SameScan(g, limit, resolves, o1, o2) {
      Cancel(multiset(ScanFindings(g, limit, resolves, Walked(g, o1))),
             multiset(ScanFindings(g, limit, resolves, Walked(g, o2))),
             LoopBag(LoopRoots(g, l1), LoopRoots(g, l1).Keys));
    }
  }

  /** All findings of `Check`, counted with multiplicity, are the same under all
      iteration orders if and only if no name that another name points to has a
      chain finding of its own and no loop root is fed. Sorting makes the report
      deterministic in exactly these cases. */
  lemma CheckDeterministicIff(g: Graph, limit: int, resolves: Str -> bool)
    ensures (forall o1, l1, o2, l2 :: IsOrder(g, o1) && IsOrder(g, l1) && IsOrder(g, o2) && IsOrder(g, l2)
                                      ==> SameCheck(g, limit, resolves, o1, l1, o2, l2))
            <==> Quiet(g, limit, resolves) && forall x :: OnShortCycle(g, x) ==> !Fed(g, x)
  {
    ScanDeterministicIffQuiet(g, limit, resolves);
    LoopsDeterministicIffUnfed(g);
    var o := Arrange(g.Keys);
    if forall o1, l1, o2, l2 :: IsOrder(g, o1) && IsOrder(g, l1) && IsOrder(g, o2) && IsOrder(g, l2)
                                ==> SameCheck(g, limit, resolves, o1, l1, o2, l2) {
      forall o1, o2 | IsOrder(g, o1) && IsOrder(g, o2)
        ensures SameScan(g, limit, resolves, o1, o2) && SameLoops(g, o1, o2) {
        SameCheckSameParts(g, limit, resolves, o1, o1, o2, o2);
      }
    }
    if Quiet(g, limit, resolves) && forall x :: OnShortCycle(g, x) ==> !Fed(g, x) {
      forall o1, l1, o2, l2 | IsOrder(g, o1) && IsOrder(g, l1) && IsOrder(g, o2) && IsOrder(g, l2)
        ensures SameCheck(g, limit, resolves, o1, l1, o2, l2) {
        assert SameScan(g, limit, resolves, o1, o2) && SameLoops(g, l1, l2);
      }
    }
  }

  // ----- a concrete case -----

  function TwoHops(a: Str, b: Str, x: Str): Graph {
    map[a := b, b := x]
  }

  lemma WalksOfTwoHops(a: Str, b: Str, x: Str)
    requires a != b && a != x && b != x
    ensures Follow(TwoHops(a, b, x), [a]) == [a, b, x] && Follow(TwoHops(a, b, x), [b]) == [b, x]
  {
    var g := TwoHops(a, b, x);
    assert IsPath(g, [a, b, x]) && IsPath(g, [b, x]);
    assert Front([a, b, x]) == [a, b] && Front([b, x]) == [b];
    WalkIs(g, a, [a, b, x]);
    WalkIs(g, b, [b, x]);
  }

  lemma StartsOfTwoHops(a: Str, b: Str, x: Str)
    requires a != b && a != x && b != x
    ensures var g := TwoHops(a, b, x);
            Walked(g, [a, b]) == [a] && Walked(g, [b, a]) == [b, a] && Walk(g, a) == [b, x] && Walk(g, b) == [x]
  {
    var g := TwoHops(a, b, x);
    WalksOfTwoHops(a, b, x);
    assert Walk(g, a) == [b, x] && Walk(g, b) == [x];
    PointerFirst(g, [], b, a);
    TargetFirst(g, [], b, a);
    assert [] + [a, b] == [a, b] && [] + [b, a] == [b, a] && [] + [a] == [a];
  }

  /** A chain of two hops with an unresolved end, below any limit and without a
      loop: the end is reported once or twice, depending on the order. */
  lemma TwoHopsVary(a: Str, b: Str, x: Str, limit: int, resolves: Str -> bool)
    requires a != b && a != x && b != x && limit >= 2 && !resolves(x)
    ensures var g := TwoHops(a, b, x);
            && IsOrder(g, [a, b]) && ScanFindings(g, limit, resolves, Walked(g, [a, b])) == [Dangling004(x)]
            && IsOrder(g, [b, a])
            && ScanFindings(g, limit, resolves, Walked(g, [b, a])) == [Dangling004(x), Dangling004(x)]
  {
    var g := TwoHops(a, b, x);
    StartsOfTwoHops(a, b, x);
    assert StartFindings(g, limit, resolves, a) == [Dangling004(x)];
    assert StartFindings(g, limit, resolves, b) == [Dangling004(x)];
    ScanOne(g, limit, resolves, a);
    ScanOne(g, limit, resolves, b);
    ScanNextWalked(g, limit, resolves, [b], a);
    assert [b] + [a] == [b, a];
  }
}
