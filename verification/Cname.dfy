/** CNAME graph analysis: chain walks with a `visited` shortcut and a cap of
    101 elements, and loop detection. Go's map iteration order is the parameter
    `order`, an arbitrary arrangement of the graph's names. */
module Cname {
  import opened Ordering
  import opened Bytes
  import opened Names
  import opened RData

  type Graph = map<Str, Str>

  // ----- building the graph -----

  /** The target of the last CNAME record of `name`. */
  function TargetOf(records: seq<RR>, name: Str): Option<Str> {
    if records == [] then None
    else
      var rr := records[|records| - 1];
      if rr.data.CNAME? && Canon(rr.name) == name then Some(Canon(rr.data.target))
      else TargetOf(records[..|records| - 1], name)
  }

  ghost predicate IsCname(rr: RR, name: Str) {
    rr.data.CNAME? && Canon(rr.name) == name
  }

  /** Record `i` is the last CNAME of `name`, and points to `target`. */
  ghost predicate PointsAt(records: seq<RR>, name: Str, target: Str, i: int) {
    && 0 <= i < |records| && IsCname(records[i], name) && Canon(records[i].data.target) == target
    && forall j :: i < j < |records| ==> !IsCname(records[j], name)
  }

  lemma PointsAtNext(p: seq<RR>, l: RR, name: Str, target: Str, i: int)
    requires PointsAt(p, name, target, i) && !IsCname(l, name)
    ensures PointsAt(p + [l], name, target, i)
  {
  }

  lemma {:induction false} TargetIsLast(records: seq<RR>, name: Str)
    ensures TargetOf(records, name).Some? ==> exists i :: PointsAt(records, name, TargetOf(records, name).value, i)
    ensures TargetOf(records, name).None? ==> forall rr :: rr in records ==> !IsCname(rr, name)
  {
    if records != [] {
      var p, l := records[..|records| - 1], records[|records| - 1];
      assert records == p + [l];
      TargetIsLast(p, name);
      if IsCname(l, name) {
        assert PointsAt(records, name, Canon(l.data.target), |records| - 1);
      } else {
        assert TargetOf(records, name) == TargetOf(p, name);
        if TargetOf(p, name).Some? {
          var i :| PointsAt(p, name, TargetOf(p, name).value, i);
          PointsAtNext(p, l, name, TargetOf(p, name).value, i);
        }
      }
    }
  }

  /** The name has a CNAME exactly if the graph has it, and then the last one counts. */
  ghost predicate IsEdge(records: seq<RR>, g: Graph, n: Str) {
    if n in g then exists i :: PointsAt(records, n, g[n], i) else forall rr :: rr in records ==> !IsCname(rr, n)
  }

  method Build(records: seq<RR>) returns (g: Graph)
    ensures forall n :: IsEdge(records, g, n)
    ensures forall n :: (n in g <==> TargetOf(records, n).Some?) && (n in g ==> g[n] == TargetOf(records, n).value)
  {
    g := map[];
    for i := 0 to |records|
      invariant forall n :: (n in g <==> TargetOf(records[..i], n).Some?)
                            && (n in g ==> g[n] == TargetOf(records[..i], n).value)
    {
      assert records[..i + 1][..i] == records[..i];
      var rr := records[i];
      if rr.data.CNAME? {
        g := g[Canon(rr.name) := Canon(rr.data.target)];
      }
    }
    assert records[..|records|] == records;
    forall n ensures IsEdge(records, g, n) {
      TargetIsLast(records, n);
    }
  }

  // ----- paths -----

  function Last<T>(p: seq<T>): T
    requires p != []
  {
    p[|p| - 1]
  }

  function Front<T>(p: seq<T>): seq<T>
    requires p != []
  {
    p[..|p| - 1]
  }

  /** Each name of `p` but the last points to the next. */
  ghost predicate IsPath(g: Graph, p: seq<Str>) {
    p != [] && forall i :: 0 <= i < |p| - 1 ==> p[i] in g && g[p[i]] == p[i + 1]
  }

  /** A path from `s` that meets no name twice, except perhaps at its end. */
  ghost predicate WalkFrom(g: Graph, s: Str, p: seq<Str>) {
    IsPath(g, p) && p[0] == s && Distinct(Front(p))
  }

  /** A graph has one path from a name, so two paths agree while both last. */
  lemma {:induction false} PathsAgree(g: Graph, p: seq<Str>, q: seq<Str>, k: nat)
    requires IsPath(g, p) && IsPath(g, q) && p[0] == q[0]
    requires k < |p| && k < |q|
    ensures p[k] == q[k]
  {
    if k > 0 {
      PathsAgree(g, p, q, k - 1);
    }
  }

  lemma PathSuffix(g: Graph, p: seq<Str>, j: nat)
    requires IsPath(g, p) && j < |p|
    ensures IsPath(g, p[j..]) && p[j..][0] == p[j] && Last(p[j..]) == Last(p)
  {
  }

  // ----- the walk -----

  /** The loop of `walk`, on the start followed by the chain so far. */
  function Follow(g: Graph, path: seq<Str>): (r: seq<Str>)
    requires path != []
    ensures r != [] && r[0] == path[0]
    decreases 102 - |path|
  {
    if Last(path) in Front(path) || Last(path) !in g then path
    else
      var longer := path + [g[Last(path)]];
      if |longer| - 1 > 100 then longer else Follow(g, longer)
  }

  /** The chain `walk` returns: the names after the start. */
  function Walk(g: Graph, start: Str): seq<Str> {
    Follow(g, [start])[1..]
  }

  /** Why a walk stopped: cap, repeated name, or name without CNAME. */
  ghost predicate Stopped(g: Graph, p: seq<Str>)
    requires p != []
  {
    |p| == 102 || Last(p) in Front(p) || Last(p) !in g
  }

  lemma {:induction false} FollowFacts(g: Graph, path: seq<Str>)
    requires 1 <= |path| <= 101 && WalkFrom(g, path[0], path)
    ensures var r := Follow(g, path);
            WalkFrom(g, path[0], r) && |path| <= |r| <= 102 && r[..|path|] == path && Stopped(g, r)
    decreases 102 - |path|
  {
    if Last(path) in Front(path) || Last(path) !in g {
    } else {
      var longer := path + [g[Last(path)]];
      DistinctFront(path);
      assert Front(longer) == path;
      if |longer| <= 101 {
        FollowFacts(g, longer);
        assert longer[..|path|] == path;
      }
    }
  }

  lemma DistinctFront(p: seq<Str>)
    requires p != [] && Distinct(Front(p)) && Last(p) !in Front(p)
    ensures Distinct(p)
  {
    forall i, j | 0 <= i < j < |p| ensures p[i] != p[j] {
      assert p[i] == Front(p)[i];
    }
  }

  /** The whole walk from a start: a path without repetition that stopped for
      a reason, at most 102 names long. */
  lemma WalkFacts(g: Graph, s: Str)
    ensures var r := Follow(g, [s]);
            WalkFrom(g, s, r) && 1 <= |r| <= 102 && Stopped(g, r) && (s in g ==> |r| >= 2)
  {
    FollowFacts(g, [s]);
  }

  method WalkChain(start: Str, g: Graph) returns (chain: seq<Str>)
    ensures chain == Walk(g, start)
  {
    chain := [];
    var cur, seen: set<Str> := start, {};
    assert [start] + chain == [start];
    while true
      invariant |chain| <= 100 && cur == Last([start] + chain)
      invariant forall x :: x in seen <==> x in Front([start] + chain)
      invariant Follow(g, [start] + chain) == Follow(g, [start])
      decreases 101 - |chain|
    {
      if cur in seen {
        return;
      }
      if cur !in g {
        return;
      }
      ghost var path := [start] + chain;
      assert path + [g[cur]] == [start] + (chain + [g[cur]]);
      assert path == Front(path) + [cur];
      seen := seen + {cur};
      chain := chain + [g[cur]];
      cur := g[cur];
      assert Front([start] + chain) == path;
      if |chain| > 100 {
        return;
      }
    }
  }

  // ----- how long a walk is -----

  ghost predicate ClosedUnder(g: Graph, xs: set<Str>) {
    forall x :: x in xs ==> x in g && g[x] in xs
  }

  lemma {:induction false} StaysInside(g: Graph, p: seq<Str>, xs: set<Str>, k: nat)
    requires IsPath(g, p) && ClosedUnder(g, xs) && p[0] in xs && k < |p|
    ensures p[k] in xs
  {
    if k > 0 {
      StaysInside(g, p, xs, k - 1);
    }
  }

  function Elements(s: seq<Str>): set<Str> {
    set x | x in s
  }

  lemma {:induction false} ElementCount(s: seq<Str>)
    ensures |Elements(s)| <= |s|
    ensures Distinct(s) ==> |Elements(s)| == |s|
  {
    if s != [] {
      ElementCount(Front(s));
      assert s == Front(s) + [Last(s)];
      assert Elements(s) == Elements(Front(s)) + {Last(s)};
      if Distinct(s) {
        assert Last(s) !in Front(s);
      }
    }
  }

  lemma SubsetCount(a: set<Str>, b: set<Str>)
    requires a <= b
    ensures |a| <= |b|
  {
    assert b == a + (b - a);
  }

  /** A walk without repetition fits into a closed set of names. */
  lemma WalkFitsClosedSet(g: Graph, s: Str, p: seq<Str>, xs: set<Str>)
    requires WalkFrom(g, s, p) && ClosedUnder(g, xs) && s in xs
    ensures |p| - 1 <= |xs|
  {
    forall x | x in Elements(Front(p)) ensures x in xs {
      var k :| 0 <= k < |p| - 1 && Front(p)[k] == x;
      StaysInside(g, p, xs, k);
    }
    SubsetCount(Elements(Front(p)), xs);
    ElementCount(Front(p));
  }

  /** The names of a walk that ended in a repetition form a closed set. */
  lemma LoopIsClosed(g: Graph, p: seq<Str>)
    requires IsPath(g, p) && Last(p) in Front(p)
    ensures ClosedUnder(g, Elements(Front(p)))
  {
    forall x | x in Elements(Front(p)) ensures x in g && g[x] in Elements(Front(p)) {
      var i :| 0 <= i < |p| - 1 && Front(p)[i] == x;
      assert g[p[i]] == p[i + 1];
      assert i + 1 < |p| - 1 ==> p[i + 1] == Front(p)[i + 1];
    }
  }

  /** No walk from a name on the way outlasts a walk that came back to itself, */
  lemma WalkFitsLoop(g: Graph, r: seq<Str>, j: nat, p: seq<Str>)
    requires IsPath(g, r) && j < |r| && Last(r) in Front(r) && WalkFrom(g, r[j], p)
    ensures |p| <= |r|
  {
    LoopIsClosed(g, r);
    assert r[j] in Elements(Front(r)) by {
      assert j < |r| - 1 ==> Front(r)[j] == r[j];
    }
    WalkFitsClosedSet(g, r[j], p, Elements(Front(r)));
    ElementCount(Front(r));
  }

  /** or one that ended. */
  lemma WalkFitsChain(g: Graph, r: seq<Str>, j: nat, p: seq<Str>)
    requires IsPath(g, r) && j < |r| && Last(r) !in g && WalkFrom(g, r[j], p)
    ensures |p| <= |r| - j
  {
    if |p| > |r| - j {
      PathSuffix(g, r, j);
      PathsAgree(g, p, r[j..], |r| - 1 - j);
      assert false;
    }
  }

  lemma LaterWalkIsShorter(g: Graph, r: seq<Str>, j: nat, p: seq<Str>)
    requires IsPath(g, r) && j < |r| && (Last(r) in Front(r) || Last(r) !in g)
    requires WalkFrom(g, r[j], p)
    ensures |p| <= |r|
  {
    if Last(r) in Front(r) {
      WalkFitsLoop(g, r, j, p);
    } else {
      WalkFitsChain(g, r, j, p);
    }
  }

  /** Walking from a name on the chain gives a chain no longer: the reason why
      skipping visited starts loses no long chain. */
  lemma WalkShrinksAlongChain(g: Graph, s: Str, s': Str)
    requires s' in Walk(g, s)
    ensures |Walk(g, s')| <= |Walk(g, s)|
  {
    var r := Follow(g, [s]);
    WalkFacts(g, s);
    WalkFacts(g, s');
    var i :| 0 <= i < |r| - 1 && Walk(g, s)[i] == s';
    assert r[i + 1] == s';
    if |r| < 102 {
      LaterWalkIsShorter(g, r, i + 1, Follow(g, [s']));
    }
  }

  /** Up to the cap, the walk is as long as any walk without repetition. */
  lemma WalkIsLongest(g: Graph, s: Str, p: seq<Str>)
    requires WalkFrom(g, s, p)
    ensures |p| - 1 <= |Walk(g, s)| || |Walk(g, s)| == 101
  {
    WalkFacts(g, s);
    var r := Follow(g, [s]);
    if |r| < 102 {
      LaterWalkIsShorter(g, r, 0, p);
    }
  }

  // ----- the scan over all starts -----

  ghost predicate IsOrder(g: Graph, order: seq<Str>) {
    IsArrangement(order, g.Keys)
  }

  /** What the `visited` map holds after the starts in `order`. */
  function Visited(g: Graph, order: seq<Str>): set<Str> {
    if order == [] then {}
    else
      var v := Visited(g, Front(order));
      if Last(order) in v then v else v + Elements(Walk(g, Last(order)))
  }

  /** The starts that are not skipped. */
  function Walked(g: Graph, order: seq<Str>): seq<Str> {
    if order == [] then []
    else
      Walked(g, Front(order)) + if Last(order) in Visited(g, Front(order)) then [] else [Last(order)]
  }

  datatype Finding =
    | LongChain002(start: Str, chain: seq<Str>)
    | Dangling004(target: Str)
    | Loop001(root: Str, path: seq<Str>)

  /** The findings about one walked start. */
  function StartFindings(g: Graph, limit: int, resolves: Str -> bool, start: Str): seq<Finding> {
    var chain := Walk(g, start);
    (if |chain| > limit then [LongChain002(start, chain)] else [])
    + (if chain != [] && !resolves(Last(chain)) then [Dangling004(Last(chain))] else [])
  }

  function ScanFindings(g: Graph, limit: int, resolves: Str -> bool, starts: seq<Str>): seq<Finding> {
    if starts == [] then []
    else ScanFindings(g, limit, resolves, Front(starts)) + StartFindings(g, limit, resolves, Last(starts))
  }

  lemma ScanNext(g: Graph, limit: int, resolves: Str -> bool, order: seq<Str>, k: nat)
    requires k < |order|
    ensures var w := Walked(g, order[..k]);
            ScanFindings(g, limit, resolves, Walked(g, order[..k + 1]))
            == if order[k] in Visited(g, order[..k]) then ScanFindings(g, limit, resolves, w)
               else ScanFindings(g, limit, resolves, w) + StartFindings(g, limit, resolves, order[k])
    ensures Visited(g, order[..k + 1])
            == if order[k] in Visited(g, order[..k]) then Visited(g, order[..k])
               else Visited(g, order[..k]) + Elements(Walk(g, order[k]))
  {
    var w, s := Walked(g, order[..k]), order[k];
    assert Front(order[..k + 1]) == order[..k] && Last(order[..k + 1]) == s;
    if s in Visited(g, order[..k]) {
      assert w + [] == w;
    } else {
      assert Front(w + [s]) == w;
    }
  }

  /** The first loop of `Check`. */
  method Scan(g: Graph, order: seq<Str>, maxChain: int, resolves: Str -> bool) returns (out: seq<Finding>)
    ensures out == ScanFindings(g, if maxChain <= 0 then 8 else maxChain, resolves, Walked(g, order))
  {
    var limit := if maxChain <= 0 then 8 else maxChain;
    out := [];
    var visited: set<Str> := {};
    for k := 0 to |order|
      invariant visited == Visited(g, order[..k])
      invariant out == ScanFindings(g, limit, resolves, Walked(g, order[..k]))
    {
      var start := order[k];
      ScanNext(g, limit, resolves, order, k);
      if start in visited {
        continue;
      }
      var chain := WalkChain(start, g);
      visited := visited + Elements(chain);
      var found := CheckStart(g, start, chain, limit, resolves);
      out := out + found;
    }
    assert order[..|order|] == order;
  }

  /** The body of that loop for a start that is walked. */
  method CheckStart(g: Graph, start: Str, chain: seq<Str>, limit: int, resolves: Str -> bool)
    returns (found: seq<Finding>)
    requires chain == Walk(g, start)
    ensures found == StartFindings(g, limit, resolves, start)
  {
    found := [];
    if |chain| > limit {
      found := [LongChain002(start, chain)];
    }
    if |chain| > 0 {
      var last := chain[|chain| - 1];
      if !resolves(last) {
        found := found + [Dangling004(last)];
      }
    }
  }

  /** Every start is walked or lies on the chain of a walked start. */
  lemma {:induction false} EveryStartIsCovered(g: Graph, order: seq<Str>, s: Str)
    requires s in order
    ensures s in Walked(g, order) || exists w :: w in Walked(g, order) && s in Walk(g, w)
  {
    var p := Front(order);
    assert order == p + [Last(order)];
    if s in p {
      EveryStartIsCovered(g, p, s);
    } else if s in Visited(g, p) {
      VisitedIsOnChain(g, p, s);
    }
  }

  lemma {:induction false} VisitedIsOnChain(g: Graph, order: seq<Str>, x: Str)
    requires x in Visited(g, order)
    ensures exists w :: w in Walked(g, order) && x in Walk(g, w)
  {
    var p := Front(order);
    if x in Visited(g, p) {
      VisitedIsOnChain(g, p, x);
      var w :| w in Walked(g, p) && x in Walk(g, w);
      assert w in Walked(g, order);
    } else {
      assert Last(order) in Walked(g, order);
    }
  }

  lemma {:induction false} WalkedIsStart(g: Graph, order: seq<Str>, w: Str)
    requires w in Walked(g, order)
    ensures w in order
  {
    if w in Walked(g, Front(order)) {
      WalkedIsStart(g, Front(order), w);
    }
    assert order == Front(order) + [Last(order)];
  }

  lemma {:induction false} ScanMembers(g: Graph, limit: int, resolves: Str -> bool, starts: seq<Str>, f: Finding)
    ensures f in ScanFindings(g, limit, resolves, starts)
            <==> exists s :: s in starts && f in StartFindings(g, limit, resolves, s)
  {
    if starts != [] {
      ScanMembers(g, limit, resolves, Front(starts), f);
      assert starts == Front(starts) + [Last(starts)];
    }
  }

  ghost predicate ReportsLongChain(out: seq<Finding>) {
    exists s, chain :: LongChain002(s, chain) in out
  }

  /** Some start has a walk of more than `limit` hops without repetition. */
  ghost predicate HasLongWalk(g: Graph, limit: int) {
    exists s, p :: s in g && WalkFrom(g, s, p) && |p| - 1 > limit
  }

  lemma ReportedChainIsLong(g: Graph, order: seq<Str>, limit: int, resolves: Str -> bool, s: Str, chain: seq<Str>)
    requires IsOrder(g, order)
    requires LongChain002(s, chain) in ScanFindings(g, limit, resolves, Walked(g, order))
    ensures WalkFrom(g, s, [s] + chain) && s in g && limit < |chain| <= 101
  {
    ScanMembers(g, limit, resolves, Walked(g, order), LongChain002(s, chain));
    WalkedIsStart(g, order, s);
    WalkFacts(g, s);
    assert [s] + chain == Follow(g, [s]);
  }

  lemma LongWalkIsReported(g: Graph, order: seq<Str>, limit: int, resolves: Str -> bool, s: Str, p: seq<Str>)
    requires IsOrder(g, order) && limit <= 100 && s in g && WalkFrom(g, s, p) && |p| - 1 > limit
    ensures ReportsLongChain(ScanFindings(g, limit, resolves, Walked(g, order)))
  {
    WalkIsLongest(g, s, p);
    EveryStartIsCovered(g, order, s);
    var w :| w in Walked(g, order) && (w == s || s in Walk(g, w));
    if w != s {
      WalkShrinksAlongChain(g, w, s);
    }
    assert LongChain002(w, Walk(g, w)) in StartFindings(g, limit, resolves, w);
    ScanMembers(g, limit, resolves, Walked(g, order), LongChain002(w, Walk(g, w)));
  }

  /** For every graph, cycles included, every iteration order and every limit:
      a long chain is reported if and only if some start has a walk longer than
      the limit and the limit is below the cap of 101 elements. */
  lemma LongChainIffLongWalk(g: Graph, order: seq<Str>, maxChain: int, resolves: Str -> bool)
    requires IsOrder(g, order)
    ensures var limit := if maxChain <= 0 then 8 else maxChain;
            ReportsLongChain(ScanFindings(g, limit, resolves, Walked(g, order)))
            <==> limit <= 100 && HasLongWalk(g, limit)
  {
    var limit := if maxChain <= 0 then 8 else maxChain;
    var out := ScanFindings(g, limit, resolves, Walked(g, order));
    if ReportsLongChain(out) {
      var s, chain :| LongChain002(s, chain) in out;
      ReportedChainIsLong(g, order, limit, resolves, s, chain);
    }
    if limit <= 100 && HasLongWalk(g, limit) {
      var s, p :| s in g && WalkFrom(g, s, p) && |p| - 1 > limit;
      LongWalkIsReported(g, order, limit, resolves, s, p);
    }
  }

  // ----- dangling targets -----

  /** `t` is where the chain from `s` ends: a name without CNAME. */
  ghost predicate Ends(g: Graph, s: Str, t: Str, p: seq<Str>) {
    IsPath(g, p) && p[0] == s && Last(p) == t && t !in g
  }

  lemma {:induction false} RepeatShifts(g: Graph, p: seq<Str>, i: nat, j: nat, m: nat)
    requires IsPath(g, p) && i < j && j + m < |p| && p[i] == p[j]
    ensures p[i + m] == p[j + m]
  {
    if m > 0 {
      RepeatShifts(g, p, i, j, m - 1);
    }
  }

  /** A path that leaves the graph never repeats a name. */
  lemma EndingPathIsDistinct(g: Graph, p: seq<Str>)
    requires IsPath(g, p) && Last(p) !in g
    ensures Distinct(p)
  {
    forall i, j | 0 <= i < j < |p| ensures p[i] != p[j] {
      if p[i] == p[j] {
        var m := |p| - 1 - j;
        RepeatShifts(g, p, i, j, m);
        assert false;
      }
    }
  }

  /** A chain of at most 101 hops that ends is walked to its end. */
  lemma WalkReachesEnd(g: Graph, s: Str, t: Str, p: seq<Str>)
    requires Ends(g, s, t, p) && |p| <= 102
    ensures Follow(g, [s]) == p
  {
    EndingPathIsDistinct(g, p);
    WalkFacts(g, s);
    var r := Follow(g, [s]);
    var n := if |r| <= |p| then |r| else |p|;
    forall k | 0 <= k < n ensures r[k] == p[k] {
      PathsAgree(g, r, p, k);
    }
    if |r| < |p| {
      NoRepeatAt(p, r);
    }
    assert |r| == |p|;
  }

  lemma NoRepeatAt(p: seq<Str>, r: seq<Str>)
    requires Distinct(p) && r != [] && r <= p
    ensures Last(r) !in Front(r)
  {
    assert forall i :: 0 <= i < |r| - 1 ==> Front(r)[i] == p[i] && p[i] != p[|r| - 1];
  }

  ghost predicate UnresolvedEnd(g: Graph, resolves: Str -> bool, t: Str) {
    !resolves(t) && exists s, p :: s in g && Ends(g, s, t, p)
  }

  /** A name that no CNAME points to. */
  ghost predicate IsHead(g: Graph, s: Str) {
    s in g && forall x :: x in g ==> g[x] != s
  }

  /** Some chain from a head ends in `t` after at most 101 hops. */
  ghost predicate ReachedFromHead(g: Graph, t: Str) {
    exists s, p :: IsHead(g, s) && Ends(g, s, t, p) && |p| - 1 <= 101
  }

  /** What a walked start reports is an end of the graph. */
  lemma ReportedEndIsReal(g: Graph, limit: int, resolves: Str -> bool, s: Str, t: Str)
    requires Dangling004(t) in StartFindings(g, limit, resolves, s) && s in g && t !in g
    ensures UnresolvedEnd(g, resolves, t) && |Follow(g, [s])| <= 102 && Ends(g, s, t, Follow(g, [s]))
  {
    WalkFacts(g, s);
    assert Ends(g, s, t, Follow(g, [s]));
  }

  lemma VisitedAreTargets(g: Graph, order: seq<Str>, x: Str)
    requires x in Visited(g, order)
    ensures !IsHead(g, x)
  {
    VisitedIsOnChain(g, order, x);
    var w :| w in Walked(g, order) && x in Walk(g, w);
    WalkFacts(g, w);
    var r := Follow(g, [w]);
    var i :| 0 <= i < |r| - 1 && Walk(g, w)[i] == x;
    assert g[r[i]] == r[i + 1];
  }

  /** A head is never skipped, whatever the order. */
  lemma {:induction false} HeadIsWalked(g: Graph, order: seq<Str>, s: Str)
    requires s in order && IsHead(g, s)
    ensures s in Walked(g, order)
  {
    if Last(order) == s {
      if s in Visited(g, Front(order)) {
        VisitedAreTargets(g, Front(order), s);
      }
    } else {
      assert order == Front(order) + [Last(order)];
      HeadIsWalked(g, Front(order), s);
    }
  }

  lemma HeadReports(g: Graph, order: seq<Str>, limit: int, resolves: Str -> bool, t: Str)
    requires IsOrder(g, order) && ReachedFromHead(g, t) && !resolves(t)
    ensures Dangling004(t) in ScanFindings(g, limit, resolves, Walked(g, order))
  {
    var s, p :| IsHead(g, s) && Ends(g, s, t, p) && |p| - 1 <= 101;
    HeadIsWalked(g, order, s);
    WalkReachesEnd(g, s, t, p);
    WalkFacts(g, s);
    assert Last(Walk(g, s)) == t;
    assert Dangling004(t) in StartFindings(g, limit, resolves, s);
    ScanMembers(g, limit, resolves, Walked(g, order), Dangling004(t));
  }

  /** Whatever is reported outside the graph is an unresolved end. */
  lemma ScanReportsEnds(g: Graph, order: seq<Str>, limit: int, resolves: Str -> bool, t: Str)
    requires IsOrder(g, order) && t !in g
    requires Dangling004(t) in ScanFindings(g, limit, resolves, Walked(g, order))
    ensures UnresolvedEnd(g, resolves, t)
  {
    ScanMembers(g, limit, resolves, Walked(g, order), Dangling004(t));
    var s :| s in Walked(g, order) && Dangling004(t) in StartFindings(g, limit, resolves, s);
    WalkedIsStart(g, order, s);
    ReportedEndIsReal(g, limit, resolves, s, t);
  }

  // ----- an order that loses a target no near head reaches -----

  /** Two chains from one name to an end are the same. */
  lemma OneChain(g: Graph, s: Str, t: Str, p: seq<Str>, q: seq<Str>)
    requires Ends(g, s, t, p) && Ends(g, s, t, q)
    ensures |p| == |q|
  {
    if |p| < |q| {
      PathsAgree(g, p, q, |p| - 1);
    } else if |q| < |p| {
      PathsAgree(g, p, q, |q| - 1);
    }
  }

  /** `s` is exactly 102 hops from `t`: one more than a walk covers. */
  ghost predicate IsFar(g: Graph, s: Str, t: Str) {
    exists q :: Ends(g, s, t, q) && |q| == 103
  }

  /** The walk from a far name passes all other names of its chain, but stops
      before the end. */
  lemma FarWalk(g: Graph, s: Str, t: Str, q: seq<Str>)
    requires Ends(g, s, t, q) && |q| == 103
    ensures Follow(g, [s]) == q[..102]
  {
    WalkFacts(g, s);
    EndingPathIsDistinct(g, q);
    var r := Follow(g, [s]);
    forall k | 0 <= k < |r| ensures r[k] == q[k] {
      PathsAgree(g, r, q, k);
    }
    NoRepeatAt(q, r);
  }

  /** Where no near head leads to `t`, going backwards always finds a far name. */
  lemma {:induction false} FarAncestor(g: Graph, t: Str, w: Str, p: seq<Str>) returns (f: Str, q: seq<Str>)
    requires Ends(g, w, t, p) && w in g && |p| <= 103 && !ReachedFromHead(g, t)
    ensures f in g && Ends(g, f, t, q) && |q| == 103 && q[103 - |p|] == w
    decreases 103 - |p|
  {
    if |p| == 103 {
      f, q := w, p;
    } else {
      assert !IsHead(g, w);
      var y :| y in g && g[y] == w;
      assert Ends(g, y, t, [y] + p);
      f, q := FarAncestor(g, t, y, [y] + p);
      assert g[q[103 - |p| - 1]] == q[103 - |p|];
    }
  }

  /** Far names are not on each other's walks. */
  lemma FarIsNotOnWalk(g: Graph, t: Str, w: Str, x: Str)
    requires IsFar(g, w, t) && IsFar(g, x, t)
    ensures x !in Walk(g, w)
  {
    var q :| Ends(g, w, t, q) && |q| == 103;
    FarWalk(g, w, t, q);
    if x in Walk(g, w) {
      var i :| 0 <= i < 101 && Walk(g, w)[i] == x;
      assert q[i + 1] == x;
      PathSuffix(g, q, i + 1);
      var q' :| Ends(g, x, t, q') && |q'| == 103;
      OneChain(g, x, t, q', q[i + 1..]);
    }
  }

  lemma {:induction false} FarNamesAreWalked(g: Graph, t: Str, a: seq<Str>)
    requires forall x :: x in a ==> IsFar(g, x, t)
    ensures forall x :: x in a ==> x in Walked(g, a)
  {
    if a != [] {
      var p, l := Front(a), Last(a);
      assert a == p + [l];
      FarNamesAreWalked(g, t, p);
      if l in Visited(g, p) {
        VisitedIsOnChain(g, p, l);
        var w :| w in Walked(g, p) && l in Walk(g, w);
        WalkedIsStart(g, p, w);
        FarIsNotOnWalk(g, t, w, l);
      }
    }
  }

  lemma {:induction false} WalkedMarks(g: Graph, order: seq<Str>, w: Str, x: Str)
    requires w in Walked(g, order) && x in Walk(g, w)
    ensures x in Visited(g, order)
  {
    if w in Walked(g, Front(order)) {
      WalkedMarks(g, Front(order), w, x);
    }
  }

  lemma {:induction false} LaterIsSkipped(g: Graph, a: seq<Str>, b: seq<Str>, x: Str)
    requires x in Visited(g, a) && x !in a
    ensures x in Visited(g, a + b) && x !in Walked(g, a + b)
  {
    if b == [] {
      assert a + b == a;
      if x in Walked(g, a) {
        WalkedIsStart(g, a, x);
      }
    } else {
      assert Front(a + b) == a + Front(b) && Last(a + b) == Last(b);
      LaterIsSkipped(g, a, Front(b), x);
    }
  }

  lemma ArrangeBoth(g: Graph, far: set<Str>) returns (a: seq<Str>, b: seq<Str>)
    requires far <= g.Keys
    ensures IsOrder(g, a + b) && forall x :: x in a <==> x in far
  {
    a := Arrange(far);
    b := Arrange(g.Keys - far);
    forall i, j | 0 <= i < |a| && 0 <= j < |b| ensures a[i] != b[j] {
      assert a[i] in far && b[j] in g.Keys - far;
    }
    forall n ensures n in a + b <==> n in g {
      assert n in a + b <==> n in a || n in b;
    }
  }

  /** With the far names first, no start that is walked ends in `t`. */
  lemma FarFirstLosesTarget(g: Graph, t: Str, a: seq<Str>, b: seq<Str>, w: Str)
    requires t !in g && !ReachedFromHead(g, t) && IsOrder(g, a + b)
    requires forall x :: x in a <==> x in g && IsFar(g, x, t)
    requires w in Walked(g, a + b)
    ensures !Ends(g, w, t, Follow(g, [w]))
  {
    WalkedIsStart(g, a + b, w);
    WalkFacts(g, w);
    var p := Follow(g, [w]);
    if Ends(g, w, t, p) {
      var f, q := FarAncestor(g, t, w, p);
      FarWalk(g, f, t, q);
      var i := 103 - |p|;
      assert Walk(g, f)[i - 1] == w;
      FarNamesAreWalked(g, t, a);
      assert f in a;
      WalkedMarks(g, a, f, w);
      if w in a {
        FarIsNotOnWalk(g, t, f, w);
      }
      LaterIsSkipped(g, a, b, w);
      assert false;
    }
  }

  /** A target that no near head reaches is lost under some iteration order. */
  lemma SomeOrderLosesTarget(g: Graph, limit: int, resolves: Str -> bool, t: Str) returns (order: seq<Str>)
    requires t !in g && !ReachedFromHead(g, t)
    ensures IsOrder(g, order) && Dangling004(t) !in ScanFindings(g, limit, resolves, Walked(g, order))
  {
    var a, b := ArrangeBoth(g, set s | s in g && IsFar(g, s, t));
    order := a + b;
    if Dangling004(t) in ScanFindings(g, limit, resolves, Walked(g, order)) {
      ScanMembers(g, limit, resolves, Walked(g, order), Dangling004(t));
      var w :| w in Walked(g, order) && Dangling004(t) in StartFindings(g, limit, resolves, w);
      WalkedIsStart(g, order, w);
      ReportedEndIsReal(g, limit, resolves, w, t);
      FarFirstLosesTarget(g, t, a, b, w);
    }
  }

  ghost predicate ReportedRightly(g: Graph, order: seq<Str>, limit: int, resolves: Str -> bool, t: Str) {
    Dangling004(t) in ScanFindings(g, limit, resolves, Walked(g, order)) <==> UnresolvedEnd(g, resolves, t)
  }

  /** An end is reported rightly under every iteration order if and only if,
      should it be unresolved, some chain of at most 101 hops leads to it from a
      head. Cycles elsewhere in the graph do not matter. */
  lemma EndExactIffNearHead(g: Graph, limit: int, resolves: Str -> bool, t: Str)
    requires t !in g
    ensures (forall order :: IsOrder(g, order) ==> ReportedRightly(g, order, limit, resolves, t))
            <==> (UnresolvedEnd(g, resolves, t) ==> ReachedFromHead(g, t))
  {
    forall order | IsOrder(g, order) && (UnresolvedEnd(g, resolves, t) ==> ReachedFromHead(g, t))
      ensures ReportedRightly(g, order, limit, resolves, t) {
      if UnresolvedEnd(g, resolves, t) {
        HeadReports(g, order, limit, resolves, t);
      } else if Dangling004(t) in ScanFindings(g, limit, resolves, Walked(g, order)) {
        ScanReportsEnds(g, order, limit, resolves, t);
      }
    }
    if UnresolvedEnd(g, resolves, t) && !ReachedFromHead(g, t) {
      var order := SomeOrderLosesTarget(g, limit, resolves, t);
      assert !ReportedRightly(g, order, limit, resolves, t);
    }
  }

  // ----- names reported although they have a CNAME -----

  /** A walk along `p` stops at a name that has a CNAME: it came back to one of
      its names, or reached the cap. */
  ghost predicate StopsEarly(g: Graph, p: seq<Str>) {
    && IsPath(g, p) && Distinct(Front(p)) && 2 <= |p| <= 102 && Last(p) in g
    && (Last(p) in Front(p) || |p| == 102)
  }

  ghost predicate EndsChain(g: Graph, s: Str, t: Str) {
    Walk(g, s) != [] && Last(Walk(g, s)) == t
  }

  ghost predicate StopsInside(g: Graph, t: Str) {
    exists p :: StopsEarly(g, p) && Last(p) == t
  }

  /** A walk that goes on had no reason to stop before. */
  lemma GoesOn(g: Graph, s: Str, p: seq<Str>, q: seq<Str>)
    requires WalkFrom(g, s, p) && WalkFrom(g, s, q) && |p| < |q| && |p| < 102
    ensures !Stopped(g, p)
  {
    forall k | 0 <= k < |p| ensures p[k] == q[k] {
      PathsAgree(g, p, q, k);
    }
    assert Last(p) == Front(q)[|p| - 1];
    forall i | 0 <= i < |p| - 1 ensures p[i] != Last(p) {
      assert p[i] == Front(q)[i];
    }
  }

  /** A walk that has a reason to stop is the one the code takes. */
  lemma WalkIs(g: Graph, s: Str, p: seq<Str>)
    requires WalkFrom(g, s, p) && |p| <= 102 && Stopped(g, p)
    ensures Follow(g, [s]) == p
  {
    WalkFacts(g, s);
    var r := Follow(g, [s]);
    if |r| < |p| {
      GoesOn(g, s, r, p);
    } else if |p| < |r| {
      GoesOn(g, s, p, r);
    }
    forall k | 0 <= k < |p| ensures r[k] == p[k] {
      PathsAgree(g, r, p, k);
    }
  }

  lemma StopsInsideIsWalk(g: Graph, t: Str)
    requires t in g
    ensures StopsInside(g, t) <==> exists s :: s in g && EndsChain(g, s, t)
  {
    if p :| StopsEarly(g, p) && Last(p) == t {
      WalkIs(g, p[0], p);
      assert EndsChain(g, p[0], t);
    }
    if s :| s in g && EndsChain(g, s, t) {
      WalkFacts(g, s);
      assert StopsEarly(g, Follow(g, [s]));
    }
  }

  lemma {:induction false} FirstIsWalked(g: Graph, order: seq<Str>)
    requires order != []
    ensures order[0] in Walked(g, order)
  {
    if |order| > 1 {
      FirstIsWalked(g, Front(order));
    } else {
      assert Front(order) == [];
    }
  }

  /** What a scan reports as dangling: the unresolved last names of the chains
      of its walked starts. */
  lemma DanglingOfOrder(g: Graph, order: seq<Str>, limit: int, resolves: Str -> bool, t: Str)
    ensures Dangling004(t) in ScanFindings(g, limit, resolves, Walked(g, order))
            <==> !resolves(t) && exists w :: w in Walked(g, order) && EndsChain(g, w, t)
  {
    ScanMembers(g, limit, resolves, Walked(g, order), Dangling004(t));
    if w :| w in Walked(g, order) && EndsChain(g, w, t) {
      assert !resolves(t) ==> Dangling004(t) in StartFindings(g, limit, resolves, w);
    }
  }

  /** A name with a CNAME is never rightly reported. It is left alone under every
      order if and only if it resolves or no walk stops at it. */
  lemma InsideExactIffNoStop(g: Graph, limit: int, resolves: Str -> bool, t: Str)
    requires t in g
    ensures (forall order :: IsOrder(g, order) ==> ReportedRightly(g, order, limit, resolves, t))
            <==> resolves(t) || !StopsInside(g, t)
  {
    StopsInsideIsWalk(g, t);
    forall order | IsOrder(g, order) && (resolves(t) || !StopsInside(g, t))
      ensures ReportedRightly(g, order, limit, resolves, t) {
      DanglingOfOrder(g, order, limit, resolves, t);
      forall w | w in Walked(g, order) ensures w in g { WalkedIsStart(g, order, w); }
    }
    if !resolves(t) && StopsInside(g, t) {
      var s :| s in g && EndsChain(g, s, t);
      var order := ArrangeFirst(g.Keys, s);
      FirstIsWalked(g, order);
      DanglingOfOrder(g, order, limit, resolves, t);
      assert !ReportedRightly(g, order, limit, resolves, t);
    }
  }

  /** When the dangling finding is right for a name, whatever the iteration order:
      for an end, when a near head leads to it; for a name with a CNAME, when no
      walk stops there by repetition or by the cap. */
  lemma DanglingExactIff(g: Graph, limit: int, resolves: Str -> bool, t: Str)
    ensures (forall order :: IsOrder(g, order) ==> ReportedRightly(g, order, limit, resolves, t))
            <==> if t in g then resolves(t) || !StopsInside(g, t)
                 else UnresolvedEnd(g, resolves, t) ==> ReachedFromHead(g, t)
  {
    if t in g {
      InsideExactIffNoStop(g, limit, resolves, t);
    } else {
      EndExactIffNearHead(g, limit, resolves, t);
    }
  }

  // ----- acyclic graphs with short chains -----

  /** Every chain of the graph that ends does so within 101 hops. */
  ghost predicate ShortChains(g: Graph) {
    forall s, t, p :: Ends(g, s, t, p) ==> |p| - 1 <= 101
  }

  ghost predicate Acyclic(g: Graph) {
    forall x, p :: !Returns(g, x, p)
  }

  lemma AcyclicPathIsDistinct(g: Graph, p: seq<Str>)
    requires Acyclic(g) && IsPath(g, p)
    ensures Distinct(p)
  {
    forall i, j | 0 <= i < j < |p| ensures p[i] != p[j] {
      var q := p[i..j + 1];
      assert q[0] == p[i] && Last(q) == p[j];
      assert IsPath(g, q);
      assert !Returns(g, p[i], q);
    }
  }

  /** In an acyclic graph every path goes on to an end. */
  lemma {:induction false} GoesToEnd(g: Graph, p: seq<Str>) returns (q: seq<Str>)
    requires Acyclic(g) && IsPath(g, p)
    ensures IsPath(g, q) && p <= q && Last(q) !in g
    decreases |g| + 1 - |p|
  {
    if Last(p) !in g {
      q := p;
    } else {
      AcyclicPathIsDistinct(g, p);
      forall x | x in Elements(p) ensures x in g.Keys {
        var i :| 0 <= i < |p| && p[i] == x;
      }
      SubsetCount(Elements(p), g.Keys);
      ElementCount(p);
      q := GoesToEnd(g, p + [g[Last(p)]]);
    }
  }

  lemma LastIsNew(p: seq<Str>)
    requires p != [] && Distinct(p)
    ensures Last(p) !in Front(p)
  {
    assert forall i :: 0 <= i < |p| - 1 ==> Front(p)[i] == p[i] && p[i] != p[|p| - 1];
  }

  lemma NoStopInside(g: Graph, t: Str)
    requires Acyclic(g) && ShortChains(g)
    ensures !StopsInside(g, t)
  {
    if p :| StopsEarly(g, p) && Last(p) == t {
      AcyclicPathIsDistinct(g, p);
      LastIsNew(p);
      var q := GoesToEnd(g, p);
      assert |q| > |p|;
      assert Ends(g, q[0], Last(q), q);
    }
  }

  /** With short chains no unresolved end is lost, whatever cycles there are. */
  lemma ShortChainsLoseNothing(g: Graph, t: Str)
    requires ShortChains(g)
    ensures (exists s, p :: s in g && Ends(g, s, t, p)) ==> ReachedFromHead(g, t)
  {
    if s, p :| s in g && Ends(g, s, t, p) {
      if !ReachedFromHead(g, t) {
        var f, q := FarAncestor(g, t, s, p);
        assert false;
      }
    }
  }

  /** For an acyclic graph whose chains have at most 101 hops, and for every
      iteration order, the set of dangling subjects is the set of unresolved
      ends found by following every chain. */
  lemma DanglingSubjectsAreUnresolvedEnds(g: Graph, order: seq<Str>, limit: int, resolves: Str -> bool)
    requires IsOrder(g, order) && Acyclic(g) && ShortChains(g)
    ensures forall t :: Dangling004(t) in ScanFindings(g, limit, resolves, Walked(g, order))
                        <==> UnresolvedEnd(g, resolves, t)
  {
    forall t ensures Dangling004(t) in ScanFindings(g, limit, resolves, Walked(g, order))
                     <==> UnresolvedEnd(g, resolves, t) {
      NoStopInside(g, t);
      ShortChainsLoseNothing(g, t);
      DanglingExactIff(g, limit, resolves, t);
      assert ReportedRightly(g, order, limit, resolves, t);
    }
  }

  // ----- a concrete chain that is too long -----

  /** The names `aa.`, `ab.`, ... */
  function NameOf(i: nat): Str
    requires i < 256
  {
    [97 + i / 16, 97 + i % 16, DOT]
  }

  lemma NamesDiffer(i: nat, j: nat)
    requires i < 256 && j < 256 && NameOf(i) == NameOf(j)
    ensures i == j
  {
    assert NameOf(i)[0] == NameOf(j)[0] && NameOf(i)[1] == NameOf(j)[1];
    assert i == i / 16 * 16 + i % 16 && j == j / 16 * 16 + j % 16;
  }

  /** A chain of `n` hops. */
  function Line(n: nat): Graph
    requires n < 256
  {
    if n == 0 then map[] else Line(n - 1)[NameOf(n - 1) := NameOf(n)]
  }

  /** The records that make it. */
  function LineRecords(n: nat): seq<RR>
    requires n < 256
  {
    if n == 0 then [] else LineRecords(n - 1) + [RR(NameOf(n - 1), CNAME(NameOf(n)), [])]
  }

  lemma NameOfIsCanonical(i: nat)
    requires i < 256
    ensures Canon(NameOf(i)) == NameOf(i)
  {
  }

  lemma TargetNext(rrs: seq<RR>, rr: RR, x: Str)
    requires rr.data.CNAME?
    ensures TargetOf(rrs + [rr], x) == if Canon(rr.name) == x then Some(Canon(rr.data.target)) else TargetOf(rrs, x)
  {
    assert (rrs + [rr])[..|rrs|] == rrs;
  }

  lemma LineNext(n: nat)
    requires n < 255
    ensures Line(n + 1) == Line(n)[NameOf(n) := NameOf(n + 1)]
    ensures LineRecords(n + 1) == LineRecords(n) + [RR(NameOf(n), CNAME(NameOf(n + 1)), [])]
  {
  }

  /** The records give name `x` the target it has in the graph. */
  ghost predicate BuiltAt(rrs: seq<RR>, g: Graph, x: Str) {
    TargetOf(rrs, x) == if x in g then Some(g[x]) else None
  }

  lemma LineStep(n: nat, x: Str)
    requires n < 255 && BuiltAt(LineRecords(n), Line(n), x)
    ensures BuiltAt(LineRecords(n + 1), Line(n + 1), x)
  {
    NameOfIsCanonical(n);
    NameOfIsCanonical(n + 1);
    LineNext(n);
    TargetNext(LineRecords(n), RR(NameOf(n), CNAME(NameOf(n + 1)), []), x);
  }

  lemma {:induction false} LineIsBuilt(n: nat, x: Str)
    requires n < 256
    ensures BuiltAt(LineRecords(n), Line(n), x)
  {
    if n == 0 {
      assert LineRecords(0) == [] && Line(0) == map[];
    } else {
      LineIsBuilt(n - 1, x);
      LineStep(n - 1, x);
    }
  }

  lemma {:induction false} LineAt(n: nat, i: nat)
    requires i < n < 256
    ensures NameOf(i) in Line(n) && Line(n)[NameOf(i)] == NameOf(i + 1)
  {
    if i < n - 1 {
      LineAt(n - 1, i);
      if NameOf(i) == NameOf(n - 1) {
        NamesDiffer(i, n - 1);
      }
    }
  }

  lemma {:induction false} LineHas(n: nat, x: Str) returns (i: nat)
    requires n < 256 && x in Line(n)
    ensures i < n && x == NameOf(i)
  {
    if x == NameOf(n - 1) {
      i := n - 1;
    } else {
      i := LineHas(n - 1, x);
    }
  }

  function LineNames(n: nat): (r: seq<Str>)
    requires n < 256
    ensures |r| == n + 1 && forall i :: 0 <= i <= n ==> r[i] == NameOf(i)
  {
    seq(n + 1, i requires 0 <= i < n + 1 => NameOf(i))
  }

  lemma LineEnds(n: nat)
    requires n < 256
    ensures Ends(Line(n), NameOf(0), NameOf(n), LineNames(n))
  {
    forall i | 0 <= i < n ensures NameOf(i) in Line(n) && Line(n)[NameOf(i)] == NameOf(i + 1) {
      LineAt(n, i);
    }
    if NameOf(n) in Line(n) {
      var i := LineHas(n, NameOf(n));
      NamesDiffer(i, n);
    }
  }

  /** The only head is the first name. */
  lemma LineHead(n: nat, s: Str)
    requires n < 256 && IsHead(Line(n), s)
    ensures s == NameOf(0)
  {
    var i := LineHas(n, s);
    if i > 0 {
      LineAt(n, i - 1);
    }
  }

  /** The bound of 101 hops is sharp: of a chain of 102 hops the unresolved end
      is not reported under some iteration order. */
  lemma LongerChainLosesTarget(limit: int, resolves: Str -> bool)
    requires !resolves(NameOf(102))
    ensures var g := Line(102);
            && (forall x :: TargetOf(LineRecords(102), x) == if x in g then Some(g[x]) else None)
            && UnresolvedEnd(g, resolves, NameOf(102))
            && exists order :: IsOrder(g, order) && !ReportedRightly(g, order, limit, resolves, NameOf(102))
  {
    var g, t := Line(102), NameOf(102);
    forall x ensures TargetOf(LineRecords(102), x) == if x in g then Some(g[x]) else None {
      LineIsBuilt(102, x);
    }
    LineEnds(102);
    LineAt(102, 0);
    assert UnresolvedEnd(g, resolves, t);
    LineIsFar();
    DanglingExactIff(g, limit, resolves, t);
  }

  lemma LineIsFar()
    ensures !ReachedFromHead(Line(102), NameOf(102)) && NameOf(102) !in Line(102)
  {
    LineEnds(102);
    forall s, p | IsHead(Line(102), s) && Ends(Line(102), s, NameOf(102), p) ensures |p| == 103 {
      LineHead(102, s);
      OneChain(Line(102), NameOf(0), NameOf(102), p, LineNames(102));
    }
  }

  // ----- loops -----

  /** The walk from `s` came back to one of its names before the cap. */
  predicate FindsLoop(g: Graph, s: Str) {
    var r := Follow(g, [s]);
    |r| <= 101 && Last(r) in Front(r)
  }

  /** What `loopRoots` has recorded after the starts in `order`. */
  function LoopRoots(g: Graph, order: seq<Str>): map<Str, seq<Str>> {
    if order == [] then map[]
    else
      var m, r := LoopRoots(g, Front(order)), Follow(g, [Last(order)]);
      if FindsLoop(g, Last(order)) then m[Last(r) := r] else m
  }

  /** One round of `loopRoots`: the names up to the first repetition, if any. */
  method TraceLoop(g: Graph, start: Str) returns (found: bool, loop: seq<Str>)
    ensures found <==> FindsLoop(g, start)
    ensures found ==> loop == Follow(g, [start])
  {
    var path, cur, seen: set<Str> := [], start, {};
    assert path + [cur] == [start];
    while true
      invariant |path| <= 100 && (forall x :: x in seen <==> x in path)
      invariant Follow(g, path + [cur]) == Follow(g, [start])
      decreases 101 - |path|
    {
      assert Front(path + [cur]) == path;
      if cur in seen {
        return true, path + [cur];
      }
      seen := seen + {cur};
      path := path + [cur];
      if cur !in g {
        return false, [];
      }
      cur := g[cur];
      if |path| > 100 {
        return false, [];
      }
    }
  }

  method FindLoopRoots(g: Graph, order: seq<Str>) returns (out: map<Str, seq<Str>>)
    ensures out == LoopRoots(g, order)
  {
    out := map[];
    for k := 0 to |order|
      invariant out == LoopRoots(g, order[..k])
    {
      assert Front(order[..k + 1]) == order[..k] && Last(order[..k + 1]) == order[k];
      var found, loop := TraceLoop(g, order[k]);
      if found {
        out := out[loop[|loop| - 1] := loop];
      }
    }
    assert order[..|order|] == order;
  }

  /** `x` lies on a cycle of at most 100 names. */
  ghost predicate OnShortCycle(g: Graph, x: Str) {
    exists p :: Returns(g, x, p) && |p| <= 101
  }

  ghost predicate Returns(g: Graph, x: Str, p: seq<Str>) {
    IsPath(g, p) && |p| >= 2 && p[0] == x && Last(p) == x
  }

  /** Wherever a walk finds a loop, the repeated name is on a short cycle. */
  lemma LoopIsCycle(g: Graph, s: Str)
    requires FindsLoop(g, s)
    ensures OnShortCycle(g, Last(Follow(g, [s])))
  {
    var r := Follow(g, [s]);
    WalkFacts(g, s);
    var i :| 0 <= i < |r| - 1 && Front(r)[i] == Last(r);
    PathSuffix(g, r, i);
    assert Returns(g, Last(r), r[i..]);
  }

  lemma DistinctAt(r: seq<Str>, i: nat, j: nat)
    requires r != [] && Distinct(Front(r)) && i < j < |r| - 1
    ensures r[i] != r[j]
  {
    assert Front(r)[i] != Front(r)[j];
  }

  /** From a name on a short cycle the walk comes back to that very name. */
  lemma {:induction false} CycleIsFound(g: Graph, x: Str, p: seq<Str>)
    requires Returns(g, x, p) && |p| <= 101
    ensures FindsLoop(g, x) && Last(Follow(g, [x])) == x
    decreases |p|
  {
    var r := Follow(g, [x]);
    WalkFacts(g, x);
    if |r| > |p| {
      PathsAgree(g, r, p, |p| - 1);
      DistinctAt(r, 0, |p| - 1);
    }
    PathsAgree(g, r, p, |r| - 1);
    assert Last(r) in g;
    assert Last(r) in Front(r);
    var i :| 0 <= i < |r| - 1 && Front(r)[i] == Last(r);
    PathsAgree(g, r, p, i);
    if i > 0 {
      // p repeats at i and |r| - 1, so it already returns to x earlier
      var d := i + (|p| - |r|);
      RepeatShifts(g, p, i, |r| - 1, |p| - |r|);
      assert p[d] == x && 0 < d < |p| - 1;
      assert Returns(g, x, p[..d + 1]);
      CycleIsFound(g, x, p[..d + 1]);
    }
  }

  lemma {:induction false} LoopRootsEntries(g: Graph, order: seq<Str>, x: Str)
    ensures x in LoopRoots(g, order) <==> exists s :: s in order && FindsLoop(g, s) && Last(Follow(g, [s])) == x
    ensures x in LoopRoots(g, order)
            ==> exists s :: s in order && FindsLoop(g, s) && LoopRoots(g, order)[x] == Follow(g, [s])
                            && Last(Follow(g, [s])) == x
  {
    if order != [] {
      LoopRootsEntries(g, Front(order), x);
      assert order == Front(order) + [Last(order)];
    }
  }

  /** A recorded path: real, without repetition up to its last name, which is
      the recorded root and occurs before. */
  ghost predicate IsLoopPath(g: Graph, root: Str, path: seq<Str>) {
    IsPath(g, path) && Last(path) == root && Distinct(Front(path)) && root in Front(path)
  }

  /** Loop detection is exact and independent of the iteration order: the roots
      are precisely the names on cycles of at most 100 names. */
  lemma LoopRootsAreShortCycles(g: Graph, order: seq<Str>, x: Str)
    requires IsOrder(g, order)
    ensures x in LoopRoots(g, order) <==> OnShortCycle(g, x)
    ensures x in LoopRoots(g, order) ==> IsLoopPath(g, x, LoopRoots(g, order)[x])
  {
    LoopRootsEntries(g, order, x);
    if x in LoopRoots(g, order) {
      var s :| s in order && FindsLoop(g, s) && LoopRoots(g, order)[x] == Follow(g, [s]) && Last(Follow(g, [s])) == x;
      LoopIsCycle(g, s);
      WalkFacts(g, s);
    }
    if OnShortCycle(g, x) {
      var p :| Returns(g, x, p) && |p| <= 101;
      CycleIsFound(g, x, p);
      assert x in order;
    }
  }

  // ----- when the recorded path depends on the order -----

  /** Another name leads into the cycle of `x` at `x`, and the walk from there
      around the cycle stays below the cap. */
  ghost predicate Fed(g: Graph, x: Str) {
    |Follow(g, [x])| <= 100 && exists y :: y in g && g[y] == x && y !in Follow(g, [x])
  }

  lemma FeederFindsLoop(g: Graph, x: Str, y: Str)
    requires FindsLoop(g, x) && Last(Follow(g, [x])) == x && |Follow(g, [x])| <= 100
    requires y in g && g[y] == x && y !in Follow(g, [x])
    ensures Follow(g, [y]) == [y] + Follow(g, [x]) && FindsLoop(g, y)
  {
    WalkFacts(g, x);
    var r := Follow(g, [x]);
    var p := [y] + r;
    assert Front(p) == [y] + Front(r);
    forall i | 0 <= i < |r| - 1 ensures Front(r)[i] != y { assert Front(r)[i] == r[i] && r[i] in r; }
    WalkIs(g, y, p);
  }

  /** Any other start whose walk repeats at `x` gives such a name. */
  lemma OtherStartFeeds(g: Graph, x: Str, s: Str)
    requires OnShortCycle(g, x) && s != x && s in g && FindsLoop(g, s) && Last(Follow(g, [s])) == x
    ensures Fed(g, x)
  {
    var r := Follow(g, [s]);
    WalkFacts(g, s);
    var i :| 0 <= i < |r| - 1 && Front(r)[i] == x;
    var cycle, y := r[i..], r[i - 1];
    PathSuffix(g, r, i);
    FrontOfSuffix(r, i);
    WalkIs(g, x, cycle);
    BeforeIsElsewhere(r, i);
    assert g[y] == x;
  }

  lemma FrontOfSuffix(r: seq<Str>, i: nat)
    requires i < |r| - 1
    ensures Front(r[i..]) == Front(r)[i..] && r[i] in Front(r[i..])
  {
    assert Front(r[i..])[0] == r[i];
  }

  lemma BeforeIsElsewhere(r: seq<Str>, i: nat)
    requires r != [] && Distinct(Front(r)) && 0 < i < |r| - 1 && Last(r) == r[i]
    ensures r[i - 1] !in r[i..]
  {
    forall j | i <= j < |r| ensures r[j] != r[i - 1] {
      DistinctAt(r, i - 1, if j == |r| - 1 then i else j);
    }
  }

  ghost predicate AlwaysRecords(g: Graph, x: Str, p: seq<Str>) {
    forall order :: IsOrder(g, order) ==> x in LoopRoots(g, order) && LoopRoots(g, order)[x] == p
  }

  lemma UnfedPathIsFixed(g: Graph, x: Str, order: seq<Str>)
    requires OnShortCycle(g, x) && !Fed(g, x) && IsOrder(g, order)
    ensures x in LoopRoots(g, order) && LoopRoots(g, order)[x] == Follow(g, [x])
  {
    LoopRootsAreShortCycles(g, order, x);
    LoopRootsEntries(g, order, x);
    var s :| s in order && FindsLoop(g, s) && LoopRoots(g, order)[x] == Follow(g, [s]) && Last(Follow(g, [s])) == x;
    if s != x {
      OtherStartFeeds(g, x, s);
    }
  }

  /** The path that is recorded last stays. */
  lemma LastStartDecides(g: Graph, order: seq<Str>, s: Str)
    requires order != [] && Last(order) == s && FindsLoop(g, s)
    ensures var r := Follow(g, [s]); Last(r) in LoopRoots(g, order) && LoopRoots(g, order)[Last(r)] == r
  {
  }

  lemma FedPathVaries(g: Graph, x: Str) returns (o1: seq<Str>, o2: seq<Str>)
    requires OnShortCycle(g, x) && Fed(g, x)
    ensures IsOrder(g, o1) && IsOrder(g, o2) && x in LoopRoots(g, o1) && x in LoopRoots(g, o2)
    ensures LoopRoots(g, o1)[x] != LoopRoots(g, o2)[x]
  {
    var p :| Returns(g, x, p) && |p| <= 101;
    CycleIsFound(g, x, p);
    var y :| y in g && g[y] == x && y !in Follow(g, [x]);
    FeederFindsLoop(g, x, y);
    o1 := ArrangeLast(g.Keys, x);
    o2 := ArrangeLast(g.Keys, y);
    LastStartDecides(g, o1, x);
    LastStartDecides(g, o2, y);
    assert |Follow(g, [y])| == |Follow(g, [x])| + 1;
    assert Last([y] + Follow(g, [x])) == x;
  }

  /** The evidence for a loop root is the same under every iteration order if and
      only if nothing outside its cycle points to it below the cap. */
  lemma LoopPathFixedIffUnfed(g: Graph, x: Str)
    requires OnShortCycle(g, x)
    ensures (exists p :: AlwaysRecords(g, x, p)) <==> !Fed(g, x)
  {
    if Fed(g, x) {
      var o1, o2 := FedPathVaries(g, x);
      forall p ensures !AlwaysRecords(g, x, p) {
        assert LoopRoots(g, o1)[x] == p ==> LoopRoots(g, o2)[x] != p;
      }
    } else {
      forall order | IsOrder(g, order)
        ensures x in LoopRoots(g, order) && LoopRoots(g, order)[x] == Follow(g, [x]) {
        UnfedPathIsFixed(g, x, order);
      }
      assert AlwaysRecords(g, x, Follow(g, [x]));
    }
  }

  ghost predicate SameLoops(g: Graph, o1: seq<Str>, o2: seq<Str>) {
    LoopRoots(g, o1) == LoopRoots(g, o2)
  }

  /** So the loop findings of a report are deterministic if and only if no root of
      the graph is fed. */
  lemma LoopsDeterministicIffUnfed(g: Graph)
    ensures (forall o1, o2 :: IsOrder(g, o1) && IsOrder(g, o2) ==> SameLoops(g, o1, o2))
            <==> forall x :: OnShortCycle(g, x) ==> !Fed(g, x)
  {
    if x :| OnShortCycle(g, x) && Fed(g, x) {
      var o1, o2 := FedPathVaries(g, x);
      assert !SameLoops(g, o1, o2);
    } else {
      forall o1, o2 | IsOrder(g, o1) && IsOrder(g, o2) ensures SameLoops(g, o1, o2) {
        forall x ensures x in LoopRoots(g, o1) <==> x in LoopRoots(g, o2)
          ensures x in LoopRoots(g, o1) && x in LoopRoots(g, o2) ==> LoopRoots(g, o1)[x] == LoopRoots(g, o2)[x] {
          LoopRootsAreShortCycles(g, o1, x);
          LoopRootsAreShortCycles(g, o2, x);
          if OnShortCycle(g, x) {
            UnfedPathIsFixed(g, x, o1);
            UnfedPathIsFixed(g, x, o2);
          }
        }
      }
    }
  }

  function TailedTwoCycle(t: Str, a: Str, b: Str): Graph {
    map[t := a, a := b, b := a]
  }

  lemma OrderOfThree(t: Str, a: Str, b: Str)
    requires t != a && t != b && a != b
    ensures IsOrder(TailedTwoCycle(t, a, b), [t, a, b]) && IsOrder(TailedTwoCycle(t, a, b), [a, b, t])
  {
  }

  lemma WalksOfThree(t: Str, a: Str, b: Str)
    requires t != a && t != b && a != b
    ensures var g := TailedTwoCycle(t, a, b);
            && FindsLoop(g, t) && FindsLoop(g, a) && FindsLoop(g, b)
            && Follow(g, [t]) == [t, a, b, a] && Follow(g, [a]) == [a, b, a] && Follow(g, [b]) == [b, a, b]
  {
    var g := TailedTwoCycle(t, a, b);
    FollowTwoCycle(g, [], a, b);
    FollowTwoCycle(g, [], b, a);
    FollowFromTail(g, t, a, b);
  }

  /** The roots do not depend on the order, but the recorded paths do: a name
      that leads into a cycle of two may or may not show up in the evidence. */
  lemma LoopPathDependsOnOrder(t: Str, a: Str, b: Str)
    requires t != a && t != b && a != b
    ensures var g := TailedTwoCycle(t, a, b);
            && IsOrder(g, [t, a, b]) && IsOrder(g, [a, b, t])
            && LoopRoots(g, [t, a, b]) == map[][a := [t, a, b, a]][a := [a, b, a]][b := [b, a, b]]
            && LoopRoots(g, [a, b, t]) == map[][a := [a, b, a]][b := [b, a, b]][a := [t, a, b, a]]
  {
    OrderOfThree(t, a, b);
    WalksOfThree(t, a, b);
    RootsOfThree(TailedTwoCycle(t, a, b), t, a, b, [t, a, b, a], [a, b, a], [b, a, b]);
    RootsOfThree(TailedTwoCycle(t, a, b), a, b, t, [a, b, a], [b, a, b], [t, a, b, a]);
  }

  /** In the same graph a name with a CNAME is reported as dangling, under every
      order that starts with it, if it does not resolve. */
  lemma LoopNameIsReported(t: Str, a: Str, b: Str, limit: int, resolves: Str -> bool)
    requires t != a && t != b && a != b && !resolves(a)
    ensures var g := TailedTwoCycle(t, a, b);
            && a in g && StopsInside(g, a) && IsOrder(g, [a, b, t])
            && !ReportedRightly(g, [a, b, t], limit, resolves, a)
  {
    var g := TailedTwoCycle(t, a, b);
    OrderOfThree(t, a, b);
    WalksOfThree(t, a, b);
    assert EndsChain(g, a, a);
    StopsInsideIsWalk(g, a);
    FirstIsWalked(g, [a, b, t]);
    DanglingOfOrder(g, [a, b, t], limit, resolves, a);
  }

  lemma FollowFromTail(g: Graph, t: Str, a: Str, b: Str)
    requires t != a && t != b && a != b && t in g && g[t] == a
    requires a in g && g[a] == b && b in g && g[b] == a
    ensures Follow(g, [t]) == [t, a, b, a] && FindsLoop(g, t)
  {
    FollowTwoCycle(g, [t], a, b);
    assert [t] + [a] == [t, a] && [t] + [a, b, a] == [t, a, b, a];
    assert Front([t]) == [];
    assert Front([t, a, b, a]) == [t, a, b];
  }

  lemma FollowStep(g: Graph, path: seq<Str>, x: Str)
    requires 1 <= |path| <= 99 && x !in path && x in g
    ensures Follow(g, path + [x]) == Follow(g, path + [x] + [g[x]])
  {
    assert Front(path + [x]) == path;
  }

  lemma FollowTwoCycle(g: Graph, pre: seq<Str>, a: Str, b: Str)
    requires |pre| <= 1 && a != b && a !in pre && b !in pre
    requires a in g && g[a] == b && b in g && g[b] == a
    ensures Follow(g, pre + [a]) == pre + [a, b, a]
    ensures pre == [] ==> Follow(g, [a]) == [a, b, a] && FindsLoop(g, a)
  {
    var p1, p2, p3 := pre + [a], pre + [a, b], pre + [a, b, a];
    assert Front(p1) == pre && p1 + [b] == p2;
    assert Follow(g, p1) == Follow(g, p2);
    FollowStep(g, p1, b);
    assert p1 + [b] + [a] == p3;
    assert Follow(g, p2) == Follow(g, p3) by { assert p1 + [b] == p2; }
    assert Front(p3) == p2 && a in p2;
    assert Follow(g, p3) == p3;
    if pre == [] {
      assert p1 == [a] && p3 == [a, b, a];
    }
  }

  lemma RootsOfThree(g: Graph, x: Str, y: Str, z: Str, rx: seq<Str>, ry: seq<Str>, rz: seq<Str>)
    requires FindsLoop(g, x) && FindsLoop(g, y) && FindsLoop(g, z)
    requires Follow(g, [x]) == rx && Follow(g, [y]) == ry && Follow(g, [z]) == rz
    ensures LoopRoots(g, [x, y, z]) == map[][Last(rx) := rx][Last(ry) := ry][Last(rz) := rz]
  {
    assert Front([x, y, z]) == [x, y] && Front([x, y]) == [x] && Front([x]) == [];
    assert LoopRoots(g, [x]) == map[][Last(rx) := rx];
    assert LoopRoots(g, [x, y]) == map[][Last(rx) := rx][Last(ry) := ry];
  }

  // ----- the check -----

  /** Every reported chain is a real walk beyond the limit, and every reported
      target is an unresolved last element of a chain. */
  ghost predicate ScanIsTrue(g: Graph, limit: int, resolves: Str -> bool, out: seq<Finding>) {
    && (forall s, chain :: LongChain002(s, chain) in out ==> WalkFrom(g, s, [s] + chain) && s in g && |chain| > limit)
    && (forall t :: Dangling004(t) in out ==> !resolves(t) && exists s :: s in g && EndsChain(g, s, t))
  }

  lemma ScanReportsEndOfChain(g: Graph, order: seq<Str>, limit: int, resolves: Str -> bool, t: Str)
    requires IsOrder(g, order)
    requires Dangling004(t) in ScanFindings(g, limit, resolves, Walked(g, order))
    ensures !resolves(t) && exists s :: s in g && EndsChain(g, s, t)
  {
    ScanMembers(g, limit, resolves, Walked(g, order), Dangling004(t));
    var s :| s in Walked(g, order) && Dangling004(t) in StartFindings(g, limit, resolves, s);
    WalkedIsStart(g, order, s);
    assert EndsChain(g, s, t);
  }

  lemma ScanReportsTruth(g: Graph, order: seq<Str>, limit: int, resolves: Str -> bool)
    requires IsOrder(g, order)
    ensures ScanIsTrue(g, limit, resolves, ScanFindings(g, limit, resolves, Walked(g, order)))
  {
    var out := ScanFindings(g, limit, resolves, Walked(g, order));
    forall s, chain | LongChain002(s, chain) in out
      ensures WalkFrom(g, s, [s] + chain) && s in g && |chain| > limit {
      ReportedChainIsLong(g, order, limit, resolves, s, chain);
    }
    forall t | Dangling004(t) in out ensures !resolves(t) && exists s :: s in g && EndsChain(g, s, t) {
      ScanReportsEndOfChain(g, order, limit, resolves, t);
    }
  }

  ghost predicate ReportsLoop(out: seq<Finding>, x: Str) {
    exists p :: Loop001(x, p) in out
  }

  /** The loop findings of some roots, each once. */
  ghost function LoopBag(roots: map<Str, seq<Str>>, xs: set<Str>): multiset<Finding>
    requires xs <= roots.Keys
  {
    multiset(set x | x in xs :: Loop001(x, roots[x]))
  }

  /** All findings with their multiplicities, for given iteration orders. */
  ghost function CheckBag(g: Graph, order: seq<Str>, loopOrder: seq<Str>, limit: int, resolves: Str -> bool)
    : multiset<Finding> {
    var roots := LoopRoots(g, loopOrder);
    multiset(ScanFindings(g, limit, resolves, Walked(g, order))) + LoopBag(roots, roots.Keys)
  }

  /** The long-chain findings of an order: of each walked start with a long walk. */
  ghost predicate LongChainsOf(g: Graph, order: seq<Str>, limit: int, out: seq<Finding>) {
    forall s, chain :: LongChain002(s, chain) in out
                       <==> s in Walked(g, order) && chain == Walk(g, s) && |chain| > limit
  }

  lemma ScanLongChains(g: Graph, order: seq<Str>, limit: int, resolves: Str -> bool)
    ensures LongChainsOf(g, order, limit, ScanFindings(g, limit, resolves, Walked(g, order)))
  {
    forall s, chain ensures LongChain002(s, chain) in ScanFindings(g, limit, resolves, Walked(g, order))
                            <==> s in Walked(g, order) && chain == Walk(g, s) && |chain| > limit {
      ScanMembers(g, limit, resolves, Walked(g, order), LongChain002(s, chain));
      if s in Walked(g, order) && chain == Walk(g, s) && |chain| > limit {
        assert LongChain002(s, chain) in StartFindings(g, limit, resolves, s);
      }
    }
  }

  /** Everything the two loops of `Check` together guarantee. */
  ghost predicate CheckIsExact(g: Graph, order: seq<Str>, limit: int, resolves: Str -> bool, out: seq<Finding>) {
    && ScanIsTrue(g, limit, resolves, out)
    && (ReportsLongChain(out) <==> limit <= 100 && HasLongWalk(g, limit))
    && LongChainsOf(g, order, limit, out)
    && (forall x :: ReportsLoop(out, x) <==> OnShortCycle(g, x))
    && (forall x, p :: Loop001(x, p) in out ==> IsLoopPath(g, x, p))
    && DanglingExact(g, order, resolves, out)
  }

  /** The dangling findings: for this order exactly the unresolved last names of
      the walked chains; hence ends, or names where a walk stops early; every
      unresolved end near a head among them; and, without cycles and long
      chains, exactly the unresolved ends. */
  ghost predicate DanglingExact(g: Graph, order: seq<Str>, resolves: Str -> bool, out: seq<Finding>) {
    && (forall t :: Dangling004(t) in out <==> !resolves(t) && exists w :: w in Walked(g, order) && EndsChain(g, w, t))
    && (forall t :: t !in g && Dangling004(t) in out ==> UnresolvedEnd(g, resolves, t))
    && (forall t :: t in g && Dangling004(t) in out ==> StopsInside(g, t))
    && (forall t :: ReachedFromHead(g, t) && !resolves(t) ==> Dangling004(t) in out)
    && (Acyclic(g) && ShortChains(g) ==> forall t :: Dangling004(t) in out <==> UnresolvedEnd(g, resolves, t))
  }

  lemma DanglingIsExact(g: Graph, order: seq<Str>, limit: int, resolves: Str -> bool)
    requires IsOrder(g, order)
    ensures DanglingExact(g, order, resolves, ScanFindings(g, limit, resolves, Walked(g, order)))
  {
    var scan := ScanFindings(g, limit, resolves, Walked(g, order));
    forall t
      ensures Dangling004(t) in scan
              <==> !resolves(t) && exists w :: w in Walked(g, order) && EndsChain(g, w, t) {
      DanglingOfOrder(g, order, limit, resolves, t);
    }
    forall t | Dangling004(t) in scan
      ensures if t in g then StopsInside(g, t) else UnresolvedEnd(g, resolves, t) {
      if t in g {
        StopsInsideIsWalk(g, t);
        var w :| w in Walked(g, order) && EndsChain(g, w, t);
        WalkedIsStart(g, order, w);
      } else {
        ScanReportsEnds(g, order, limit, resolves, t);
      }
    }
    forall t | ReachedFromHead(g, t) && !resolves(t) ensures Dangling004(t) in scan {
      HeadReports(g, order, limit, resolves, t);
    }
    if Acyclic(g) && ShortChains(g) {
      DanglingSubjectsAreUnresolvedEnds(g, order, limit, resolves);
    }
  }

  ghost predicate LoopsExact(g: Graph, loops: seq<Finding>) {
    && (forall f :: f in loops ==> f.Loop001?)
    && (forall x :: ReportsLoop(loops, x) <==> OnShortCycle(g, x))
    && (forall x, p :: Loop001(x, p) in loops ==> IsLoopPath(g, x, p))
  }

  ghost predicate ScanExact(g: Graph, order: seq<Str>, limit: int, resolves: Str -> bool, scan: seq<Finding>) {
    && (forall x, p :: Loop001(x, p) !in scan)
    && ScanIsTrue(g, limit, resolves, scan)
    && (ReportsLongChain(scan) <==> limit <= 100 && HasLongWalk(g, limit))
    && LongChainsOf(g, order, limit, scan)
    && DanglingExact(g, order, resolves, scan)
  }

  lemma ScanIsExact(g: Graph, order: seq<Str>, maxChain: int, resolves: Str -> bool)
    requires IsOrder(g, order)
    ensures var limit := if maxChain <= 0 then 8 else maxChain;
            ScanExact(g, order, limit, resolves, ScanFindings(g, limit, resolves, Walked(g, order)))
  {
    var limit := if maxChain <= 0 then 8 else maxChain;
    var scan := ScanFindings(g, limit, resolves, Walked(g, order));
    LongChainIffLongWalk(g, order, maxChain, resolves);
    ScanReportsTruth(g, order, limit, resolves);
    forall x, p ensures Loop001(x, p) !in scan { ScanHasNoLoops(g, limit, resolves, Walked(g, order), x, p); }
    ScanLongChains(g, order, limit, resolves);
    DanglingIsExact(g, order, limit, resolves);
  }

  lemma LoopsAreExact(g: Graph, order: seq<Str>, loops: seq<Finding>)
    requires IsOrder(g, order)
    requires forall f :: f in loops ==> f.Loop001?
    requires forall x, p :: Loop001(x, p) in loops <==> x in LoopRoots(g, order) && LoopRoots(g, order)[x] == p
    ensures LoopsExact(g, loops)
  {
    forall x ensures ReportsLoop(loops, x) <==> OnShortCycle(g, x) {
      LoopRootsAreShortCycles(g, order, x);
      if x in LoopRoots(g, order) {
        assert Loop001(x, LoopRoots(g, order)[x]) in loops;
      }
    }
    forall x, p | Loop001(x, p) in loops ensures IsLoopPath(g, x, p) {
      LoopRootsAreShortCycles(g, order, x);
    }
  }

  lemma ScanAndLoops(g: Graph, order: seq<Str>, limit: int, resolves: Str -> bool, scan: seq<Finding>,
                     loops: seq<Finding>)
    requires ScanExact(g, order, limit, resolves, scan) && LoopsExact(g, loops)
    ensures CheckIsExact(g, order, limit, resolves, scan + loops)
  {
    var out := scan + loops;
    ReportsOfConcat(scan, loops);
    forall x ensures ReportsLoop(out, x) <==> ReportsLoop(loops, x) {
      if p :| Loop001(x, p) in loops {
        assert Loop001(x, p) in out;
      }
    }
    forall t ensures Dangling004(t) in out <==> Dangling004(t) in scan {}
    forall s, chain ensures LongChain002(s, chain) in out <==> LongChain002(s, chain) in scan {}
  }

  /** `Check`: the scan, then one finding for each loop root, in any order. */
  method Check(g: Graph, order: seq<Str>, loopOrder: seq<Str>, maxChain: int, resolves: Str -> bool)
    returns (out: seq<Finding>)
    requires IsOrder(g, order) && IsOrder(g, loopOrder)
    ensures var limit := if maxChain <= 0 then 8 else maxChain;
            CheckIsExact(g, order, limit, resolves, out)
            && multiset(out) == CheckBag(g, order, loopOrder, limit, resolves)
  {
    var scan := Scan(g, order, maxChain, resolves);
    var roots := FindLoopRoots(g, loopOrder);
    var loops := ReportLoops(roots);
    ScanIsExact(g, order, maxChain, resolves);
    LoopsAreExact(g, loopOrder, loops);
    ScanAndLoops(g, order, if maxChain <= 0 then 8 else maxChain, resolves, scan, loops);
    out := scan + loops;
  }

  method ReportLoops(roots: map<Str, seq<Str>>) returns (out: seq<Finding>)
    ensures forall f :: f in out ==> f.Loop001?
    ensures forall x, p :: Loop001(x, p) in out <==> x in roots && roots[x] == p
    ensures multiset(out) == LoopBag(roots, roots.Keys)
  {
    out := [];
    var todo := roots.Keys;
    while todo != {}
      invariant todo <= roots.Keys
      invariant forall f :: f in out ==> f.Loop001?
      invariant forall x, p :: Loop001(x, p) in out <==> x in roots && x !in todo && roots[x] == p
      invariant multiset(out) == LoopBag(roots, roots.Keys - todo)
      decreases todo
    {
      var x :| x in todo;
      LoopBagNext(roots, todo, x);
      todo := todo - {x};
      out := out + [Loop001(x, roots[x])];
    }
    assert roots.Keys - todo == roots.Keys;
  }

  lemma LoopBagNext(roots: map<Str, seq<Str>>, todo: set<Str>, x: Str)
    requires todo <= roots.Keys && x in todo
    ensures LoopBag(roots, roots.Keys - (todo - {x}))
            == LoopBag(roots, roots.Keys - todo) + multiset{Loop001(x, roots[x])}
  {
    var a := set y | y in roots.Keys - todo :: Loop001(y, roots[y]);
    var b := set y | y in roots.Keys - (todo - {x}) :: Loop001(y, roots[y]);
    assert Loop001(x, roots[x]) !in a;
    assert b == a + {Loop001(x, roots[x])};
  }

  lemma ScanHasNoLoops(g: Graph, limit: int, resolves: Str -> bool, starts: seq<Str>, x: Str, p: seq<Str>)
    ensures Loop001(x, p) !in ScanFindings(g, limit, resolves, starts)
  {
    ScanMembers(g, limit, resolves, starts, Loop001(x, p));
  }

  lemma ReportsOfConcat(scan: seq<Finding>, loops: seq<Finding>)
    requires forall f :: f in loops ==> f.Loop001?
    ensures ReportsLongChain(scan + loops) <==> ReportsLongChain(scan)
  {
    if s, c :| LongChain002(s, c) in scan {
      assert LongChain002(s, c) in scan + loops;
    }
  }
}
