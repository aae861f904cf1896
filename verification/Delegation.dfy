/** Parent and child name-server sets of a delegation, compared by sorting. */
module Delegation {
  import opened Ordering
  import opened Bytes
  import opened Names
  import opened RData

  /** The glue maps record how many addresses each name server has. */
  datatype ParentView = ParentView(ns: seq<Str>, glue: map<Str, nat>, glueAAAA: map<Str, nat>)
  datatype ChildView = ChildView(ns: seq<Str>, authoritative: bool)

  datatype Finding =
    | Inconsistent006(parent: seq<Str>, child: seq<Str>)
    | Lame002
    | NonAuthoritative007(host: Str)
    | MissingGlue004(host: Str)

  // ----- names of NS records -----

  /** The lower-cased NS targets of a list of records, in order. */
  function Targets(records: seq<RR>): seq<Str> {
    if records == [] then []
    else
      var rr := records[|records| - 1];
      Targets(records[..|records| - 1]) + if rr.data.NS? then [Lower(rr.data.host)] else []
  }

  ghost predicate IsTarget(rr: RR, n: Str) {
    rr.data.NS? && n == Lower(rr.data.host)
  }

  lemma {:induction false} TargetsMembers(records: seq<RR>, n: Str)
    ensures n in Targets(records) <==> exists rr :: rr in records && IsTarget(rr, n)
  {
    if records != [] {
      var p, l := records[..|records| - 1], records[|records| - 1];
      TargetsMembers(p, n);
      assert records == p + [l];
      assert n in Targets(records) <==> n in Targets(p) || IsTarget(l, n);
      assert forall rr :: rr in records <==> rr in p || rr == l;
    }
  }

  /** `NSNames`: each name once. */
  method NSNames(records: seq<RR>) returns (out: seq<Str>)
    ensures Distinct(out) && forall n :: n in out <==> exists rr :: rr in records && IsTarget(rr, n)
  {
    out := [];
    var seen: set<Str> := {};
    for i := 0 to |records|
      invariant Distinct(out) && SameElements(out, Targets(records[..i]))
      invariant forall n :: n in seen <==> n in out
    {
      assert records[..i + 1][..i] == records[..i];
      if records[i].data.NS? {
        var n := Lower(records[i].data.host);
        if n !in seen {
          seen := seen + {n};
          out := out + [n];
        }
      }
    }
    assert records[..|records|] == records;
    forall n ensures n in out <==> exists rr :: rr in records && IsTarget(rr, n) {
      TargetsMembers(records, n);
    }
  }

  // ----- helpers of the comparison -----

  method SortedNames(names: seq<Str>) returns (out: seq<Str>)
    ensures Sorted(Compare, out) && multiset(out) == multiset(names)
  {
    var a := new Str[|names|](i requires 0 <= i < |names| => names[i]);
    assert a[..] == names;
    CompareIsTotalOrder();
    SortInPlace(Compare, a);
    out := a[..];
  }

  method EqualSets(a: seq<Str>, b: seq<Str>) returns (equal: bool)
    ensures equal <==> a == b
  {
    if |a| != |b| {
      return false;
    }
    for i := 0 to |a|
      invariant forall j :: 0 <= j < i ==> a[j] == b[j]
    {
      if a[i] != b[i] {
        return false;
      }
    }
    return true;
  }

  method Contains(list: seq<Str>, s: Str) returns (found: bool)
    ensures found <==> s in list
  {
    for i := 0 to |list|
      invariant s !in list[..i]
    {
      if list[i] == s {
        return true;
      }
    }
    assert list[..|list|] == list;
    return false;
  }

  predicate IsSubDomain(name: Str, zone: Str) {
    InZoneTest(Canon(name), Canon(zone))
  }

  predicate HasGlue(p: ParentView, host: Str) {
    (host in p.glue && p.glue[host] > 0) || (host in p.glueAAAA && p.glueAAAA[host] > 0)
  }

  /** Comparing sorted lists compares multisets. */
  lemma SortedListsAgree(a: seq<Str>, b: seq<Str>)
    requires Sorted(Compare, a) && Sorted(Compare, b)
    ensures a == b <==> multiset(a) == multiset(b)
  {
    CompareIsTotalOrder();
    if multiset(a) == multiset(b) {
      forall x, y | x in a && y in a && Tied(Compare, x, y) ensures x == y {
        assert Compare(x, y) == 0;
      }
      assert Reflexive(Compare);
      SortedUnique(Compare, a, b);
    }
  }

  // ----- the comparison -----

  /** The sorted parent names that the child does not list. */
  function Extra(parentNS: seq<Str>, childNS: seq<Str>): seq<Str> {
    if parentNS == [] then []
    else
      var h := parentNS[|parentNS| - 1];
      Extra(parentNS[..|parentNS| - 1], childNS) + if h in childNS then [] else [h]
  }

  /** In-zone parent names without glue. */
  function Glueless(p: ParentView, parentNS: seq<Str>, zone: Str): seq<Str> {
    if parentNS == [] then []
    else
      var h := parentNS[|parentNS| - 1];
      Glueless(p, parentNS[..|parentNS| - 1], zone) + if IsSubDomain(h, zone) && !HasGlue(p, h) then [h] else []
  }

  function NonAuthFindings(hosts: seq<Str>): seq<Finding> {
    seq(|hosts|, i requires 0 <= i < |hosts| => NonAuthoritative007(hosts[i]))
  }

  function GlueFindings(hosts: seq<Str>): seq<Finding> {
    seq(|hosts|, i requires 0 <= i < |hosts| => MissingGlue004(hosts[i]))
  }

  method ReportExtra(parentNS: seq<Str>, childNS: seq<Str>) returns (out: seq<Finding>)
    ensures out == NonAuthFindings(Extra(parentNS, childNS))
  {
    out := [];
    for i := 0 to |parentNS|
      invariant out == NonAuthFindings(Extra(parentNS[..i], childNS))
    {
      assert parentNS[..i + 1][..i] == parentNS[..i];
      var found := Contains(childNS, parentNS[i]);
      if !found {
        out := out + [NonAuthoritative007(parentNS[i])];
      }
    }
    assert parentNS[..|parentNS|] == parentNS;
  }

  method ReportGlueless(p: ParentView, parentNS: seq<Str>, zone: Str) returns (out: seq<Finding>)
    ensures out == GlueFindings(Glueless(p, parentNS, zone))
  {
    out := [];
    ghost var hosts: seq<Str> := [];
    for i := 0 to |parentNS|
      invariant hosts == Glueless(p, parentNS[..i], zone) && out == GlueFindings(hosts)
    {
      GluelessNext(p, parentNS, zone, i);
      if IsSubDomain(parentNS[i], zone) && !HasGlue(p, parentNS[i]) {
        hosts := hosts + [parentNS[i]];
        out := out + [MissingGlue004(parentNS[i])];
      }
    }
    assert parentNS[..|parentNS|] == parentNS;
  }

  lemma GluelessNext(p: ParentView, parentNS: seq<Str>, zone: Str, i: nat)
    requires i < |parentNS|
    ensures Glueless(p, parentNS[..i + 1], zone)
            == Glueless(p, parentNS[..i], zone)
               + if IsSubDomain(parentNS[i], zone) && !HasGlue(p, parentNS[i]) then [parentNS[i]] else []
  {
    assert parentNS[..i + 1][..i] == parentNS[..i];
  }

  lemma {:induction false} ExtraMembers(parentNS: seq<Str>, childNS: seq<Str>, h: Str)
    ensures h in Extra(parentNS, childNS) <==> h in parentNS && h !in childNS
  {
    if parentNS != [] {
      ExtraMembers(parentNS[..|parentNS| - 1], childNS, h);
      assert parentNS == parentNS[..|parentNS| - 1] + [parentNS[|parentNS| - 1]];
    }
  }

  lemma SortedSnoc(s: seq<Str>, h: Str)
    requires Sorted(Compare, s) && forall x :: x in s ==> Compare(x, h) <= 0
    ensures Sorted(Compare, s + [h])
  {
  }

  lemma {:induction false} ExtraSorted(parentNS: seq<Str>, childNS: seq<Str>)
    requires Sorted(Compare, parentNS)
    ensures Sorted(Compare, Extra(parentNS, childNS))
  {
    if parentNS != [] {
      var p, h := parentNS[..|parentNS| - 1], parentNS[|parentNS| - 1];
      ExtraSorted(p, childNS);
      forall x | x in Extra(p, childNS) ensures Compare(x, h) <= 0 {
        ExtraMembers(p, childNS, x);
        var i :| 0 <= i < |p| && p[i] == x;
        assert parentNS[i] == x;
      }
      if h !in childNS {
        SortedSnoc(Extra(p, childNS), h);
      }
    }
  }

  lemma {:induction false} ExtraDistinct(parentNS: seq<Str>, childNS: seq<Str>)
    requires Distinct(parentNS)
    ensures Distinct(Extra(parentNS, childNS))
  {
    if parentNS != [] {
      var p, h := parentNS[..|parentNS| - 1], parentNS[|parentNS| - 1];
      ExtraDistinct(p, childNS);
      forall i | 0 <= i < |p| ensures p[i] != h { assert parentNS[i] == p[i]; }
      ExtraMembers(p, childNS, h);
    }
  }

  lemma {:induction false} GluelessSpec(p: ParentView, parentNS: seq<Str>, zone: Str)
    ensures forall h :: h in Glueless(p, parentNS, zone)
                        <==> h in parentNS && IsSubDomain(h, zone) && !HasGlue(p, h)
  {
    if parentNS != [] {
      GluelessSpec(p, parentNS[..|parentNS| - 1], zone);
      assert parentNS == parentNS[..|parentNS| - 1] + [parentNS[|parentNS| - 1]];
    }
  }

  /** One finding for each of `extra`, in order, and no others of the kind. */
  ghost predicate ReportsExtra(out: seq<Finding>, extra: seq<Str>) {
    exists pre: seq<Finding>, mid, post ::
      out == pre + mid + post && IsReportOf(mid, extra) && (forall f :: f in pre + post ==> !f.NonAuthoritative007?)
  }

  ghost predicate IsReportOf(mid: seq<Finding>, extra: seq<Str>) {
    |mid| == |extra| && forall i :: 0 <= i < |extra| ==> mid[i] == NonAuthoritative007(extra[i])
  }

  ghost predicate IsInconsistent(out: seq<Finding>) {
    exists p, c :: Inconsistent006(p, c) in out
  }

  /** The first two checks. */
  function HeadFindings(parentNS: seq<Str>, childNS: seq<Str>, child: ChildView): seq<Finding> {
    (if parentNS == childNS then [] else [Inconsistent006(parentNS, childNS)])
    + (if !child.authoritative && |child.ns| > 0 then [Lame002] else [])
  }

  function AllFindings(zone: Str, parent: ParentView, child: ChildView, parentNS: seq<Str>, childNS: seq<Str>)
    : seq<Finding> {
    HeadFindings(parentNS, childNS, child) + NonAuthFindings(Extra(parentNS, childNS))
    + GlueFindings(Glueless(parent, parentNS, zone))
  }

  lemma PermutationMembers(a: seq<Str>, b: seq<Str>)
    requires multiset(a) == multiset(b)
    ensures SameElements(a, b)
  {
    forall x ensures x in a <==> x in b {
      assert x in a <==> x in multiset(a);
      assert x in b <==> x in multiset(b);
    }
  }

  lemma MembersByKind(head: seq<Finding>, mid: seq<Finding>, glue: seq<Finding>, f: Finding)
    requires forall x :: x in head ==> x.Inconsistent006? || x.Lame002?
    requires forall x :: x in mid ==> x.NonAuthoritative007?
    requires forall x :: x in glue ==> x.MissingGlue004?
    ensures f.Inconsistent006? || f.Lame002? ==> (f in head + mid + glue <==> f in head)
    ensures f.MissingGlue004? ==> (f in head + mid + glue <==> f in glue)
  {
  }

  lemma MembersOfFindings(zone: Str, parent: ParentView, child: ChildView, parentNS: seq<Str>, childNS: seq<Str>)
    ensures var out := AllFindings(zone, parent, child, parentNS, childNS);
            && (IsInconsistent(out) <==> parentNS != childNS)
            && (forall p, q :: Inconsistent006(p, q) in out ==> p == parentNS && q == childNS)
            && (Lame002 in out <==> !child.authoritative && child.ns != [])
            && ReportsExtra(out, Extra(parentNS, childNS))
            && (forall h :: MissingGlue004(h) in out <==> h in Glueless(parent, parentNS, zone))
  {
    var head, glue := HeadFindings(parentNS, childNS, child), GlueFindings(Glueless(parent, parentNS, zone));
    var mid := NonAuthFindings(Extra(parentNS, childNS));
    forall f: Finding ensures f.Inconsistent006? || f.Lame002? ==> (f in head + mid + glue <==> f in head)
      ensures f.MissingGlue004? ==> (f in head + mid + glue <==> f in glue) {
      MembersByKind(head, mid, glue, f);
    }
    if parentNS != childNS {
      assert Inconsistent006(parentNS, childNS) in head;
    }
    assert IsReportOf(mid, Extra(parentNS, childNS));
    forall h ensures MissingGlue004(h) in glue <==> h in Glueless(parent, parentNS, zone) {
      GlueMembers(Glueless(parent, parentNS, zone), h);
    }
  }

  ghost predicate SortedCopy(s: seq<Str>, names: seq<Str>) {
    InOctetOrder(s) && multiset(s) == multiset(names)
  }

  /** Neither glue map has an address of the host. */
  ghost predicate HasNoAddress(p: ParentView, host: Str) {
    (host in p.glue ==> p.glue[host] == 0) && (host in p.glueAAAA ==> p.glueAAAA[host] == 0)
  }

  /** What `Compare` reports: the sets are inconsistent exactly when the
      multisets of names differ; the non-authoritative findings are, in sorted
      order, the parent's names outside the child's list, each as often as the
      parent lists it; glue is asked of in-zone servers only. */
  ghost predicate ViewsCompared(zone: Str, parent: ParentView, child: ChildView, out: seq<Finding>, extra: seq<Str>) {
    && (IsInconsistent(out) <==> multiset(parent.ns) != multiset(child.ns))
    && (forall p, q :: Inconsistent006(p, q) in out ==> SortedCopy(p, parent.ns) && SortedCopy(q, child.ns))
    && (Lame002 in out <==> !child.authoritative && child.ns != [])
    && ReportsExtra(out, extra) && InOctetOrder(extra)
    && (forall h :: h in extra <==> h in parent.ns && h !in child.ns)
    && (Distinct(parent.ns) ==> Distinct(extra))
    && (forall h :: MissingGlue004(h) in out
                    <==> h in parent.ns && InZoneTest(Canon(h), Canon(zone)) && HasNoAddress(parent, h))
  }

  lemma CopiesAgree(names: seq<Str>, names': seq<Str>, s: seq<Str>, s': seq<Str>)
    requires Sorted(Compare, s) && multiset(s) == multiset(names)
    requires Sorted(Compare, s') && multiset(s') == multiset(names')
    ensures SortedCopy(s, names) && SortedCopy(s', names')
    ensures s == s' <==> multiset(names) == multiset(names')
  {
    SortedListsAgree(s, s');
    SortedIsInOctetOrder(s);
    SortedIsInOctetOrder(s');
  }

  lemma ExtraSpec(names: seq<Str>, names': seq<Str>, s: seq<Str>, s': seq<Str>)
    requires Sorted(Compare, s) && multiset(s) == multiset(names) && multiset(s') == multiset(names')
    ensures InOctetOrder(Extra(s, s')) && forall h :: h in Extra(s, s') <==> h in names && h !in names'
    ensures Distinct(names) ==> Distinct(Extra(s, s'))
  {
    ExtraSorted(s, s');
    SortedIsInOctetOrder(Extra(s, s'));
    PermutationMembers(s, names);
    PermutationMembers(s', names');
    forall h ensures h in Extra(s, s') <==> h in s && h !in s' {
      ExtraMembers(s, s', h);
    }
    if Distinct(names) {
      PermutationOfDistinct(names, s);
      ExtraDistinct(s, s');
    }
  }

  lemma GluelessMembers(p: ParentView, names: seq<Str>, s: seq<Str>, zone: Str)
    requires multiset(s) == multiset(names)
    ensures forall h :: h in Glueless(p, s, zone)
                        <==> h in names && InZoneTest(Canon(h), Canon(zone)) && HasNoAddress(p, h)
  {
    GluelessSpec(p, s, zone);
    PermutationMembers(s, names);
  }

  lemma FindingsAreExact(zone: Str, parent: ParentView, child: ChildView, parentNS: seq<Str>, childNS: seq<Str>)
    requires Sorted(Compare, parentNS) && multiset(parentNS) == multiset(parent.ns)
    requires Sorted(Compare, childNS) && multiset(childNS) == multiset(child.ns)
    ensures ViewsCompared(zone, parent, child, AllFindings(zone, parent, child, parentNS, childNS),
                          Extra(parentNS, childNS))
  {
    MembersOfFindings(zone, parent, child, parentNS, childNS);
    CopiesAgree(parent.ns, child.ns, parentNS, childNS);
    ExtraSpec(parent.ns, child.ns, parentNS, childNS);
    GluelessMembers(parent, parent.ns, parentNS, zone);
  }

  /** `Compare`. */
  method CompareViews(zone: Str, parent: ParentView, child: ChildView) returns (out: seq<Finding>)
    ensures exists extra :: ViewsCompared(zone, parent, child, out, extra)
  {
    var parentNS := SortedNames(parent.ns);
    var childNS := SortedNames(child.ns);
    out := [];
    var equal := EqualSets(parentNS, childNS);
    if !equal {
      out := out + [Inconsistent006(parentNS, childNS)];
    }
    if !child.authoritative && |child.ns| > 0 {
      out := out + [Lame002];
    }
    assert out == HeadFindings(parentNS, childNS, child);
    var nonAuth := ReportExtra(parentNS, childNS);
    var glue := ReportGlueless(parent, parentNS, zone);
    out := out + nonAuth + glue;
    FindingsAreExact(zone, parent, child, parentNS, childNS);
  }

  lemma GlueMembers(hosts: seq<Str>, h: Str)
    ensures MissingGlue004(h) in GlueFindings(hosts) <==> h in hosts
  {
    if h in hosts {
      var i :| 0 <= i < |hosts| && hosts[i] == h;
      assert GlueFindings(hosts)[i] == MissingGlue004(h);
    }
  }

  /** With lists made by `NSNames` the comparison is set comparison, and a name
      that only the parent lists always comes with the inconsistency finding. */
  lemma ComparisonIsSetComparison(parentNS: seq<Str>, childNS: seq<Str>)
    requires Distinct(parentNS) && Distinct(childNS)
    ensures multiset(parentNS) != multiset(childNS) <==> !SameElements(parentNS, childNS)
    ensures (exists h :: h in parentNS && h !in childNS) ==> multiset(parentNS) != multiset(childNS)
  {
    DistinctMultisets(parentNS, childNS);
  }

  /** A repeated name alone makes equal sets compare as different: the lists
      have to come from `NSNames`. */
  lemma RepetitionBreaksComparison(n: Str)
    ensures SameElements([n, n], [n]) && multiset([n, n]) != multiset([n])
  {
    assert |multiset([n, n])| == 2 && |multiset([n])| == 1;
  }
}
