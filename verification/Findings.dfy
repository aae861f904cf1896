/** The finding model: rules, findings built from them, the five-key order of
    reports and the fact that a report does not depend on the order in which
    its findings were produced. */
module Findings {
  import opened Ordering
  import opened Bytes

  datatype Rule = Rule(id: Str, component: Str, category: Str, severity: int, title: Str, recommendation: Str,
                       references: seq<Str>)

  datatype Finding = Finding(id: Str, severity: int, category: Str, component: Str, title: Str, subject: Str,
                             description: Str, evidence: seq<Str>, recommendation: Str, references: seq<Str>,
                             zone: Str)

  /** `Rule.New`. */
  function New(r: Rule, subject: Str, description: Str, evidence: seq<Str>): Finding {
    Finding(r.id, r.severity, r.category, r.component, r.title, subject, description, evidence, r.recommendation,
            r.references, [])
  }

  function WithSeverity(f: Finding, s: int): Finding {
    f.(severity := s)
  }

  function WithEvidence(f: Finding, evidence: seq<Str>): Finding {
    f.(evidence := f.evidence + evidence)
  }

  function WithZone(f: Finding, zone: Str): Finding {
    f.(zone := zone)
  }

  // ----- the catalog -----

  type Catalog = map<Str, Rule>

  /** `register` panics on a duplicate identifier; `None` is the panic. */
  function Register(c: Catalog, r: Rule): Option<Catalog> {
    if r.id in c then None else Some(c[r.id := r])
  }

  /** Every rule is filed under its own identifier. */
  ghost predicate ValidCatalog(c: Catalog) {
    forall id :: id in c ==> c[id].id == id
  }

  lemma RegisterKeepsCatalogValid(c: Catalog, r: Rule)
    requires ValidCatalog(c) && Register(c, r).Some?
    ensures ValidCatalog(Register(c, r).value)
    ensures forall id :: id in c ==> id in Register(c, r).value && Register(c, r).value[id] == c[id]
  {
  }

  /** `f` was made from the catalog rule that its identifier names, with any
      subject, description, evidence and severity, in the given zone. */
  ghost predicate FromCatalog(c: Catalog, zone: Str, f: Finding) {
    && f.id in c && f.zone == zone
    && f.category == c[f.id].category && f.component == c[f.id].component && f.title == c[f.id].title
    && f.recommendation == c[f.id].recommendation && f.references == c[f.id].references
  }

  /** The five keys of a finding are those given. */
  predicate HasKeys(f: Finding, id: Str, severity: int, subject: Str, description: Str, evidence: seq<Str>) {
    && f.id == id && f.severity == severity && f.subject == subject && f.description == description
    && f.evidence == evidence
  }

  /** Every way the checks build findings ends in a catalog finding once
      `AddFinding` has set the zone. */
  lemma BuiltFromCatalog(c: Catalog, id: Str, subject: Str, description: Str, evidence: seq<Str>, more: seq<Str>,
                         s: int, zone: Str)
    requires ValidCatalog(c) && id in c
    ensures var f := WithZone(New(c[id], subject, description, evidence), zone);
            FromCatalog(c, zone, f) && HasKeys(f, id, c[id].severity, subject, description, evidence)
    ensures var f := WithZone(WithSeverity(New(c[id], subject, description, evidence), s), zone);
            FromCatalog(c, zone, f) && HasKeys(f, id, s, subject, description, evidence)
    ensures var f := WithZone(WithEvidence(New(c[id], subject, description, evidence), more), zone);
            FromCatalog(c, zone, f) && HasKeys(f, id, c[id].severity, subject, description, evidence + more)
  {
  }

  // ----- the order -----

  function BySeverity(a: Finding, b: Finding): int {
    CompareInt(b.severity, a.severity)
  }

  function ById(a: Finding, b: Finding): int {
    Compare(a.id, b.id)
  }

  function BySubject(a: Finding, b: Finding): int {
    Compare(a.subject, b.subject)
  }

  function ByDescription(a: Finding, b: Finding): int {
    Compare(a.description, b.description)
  }

  /** `slices.Compare` on evidence lines. */
  function ByEvidence(a: Finding, b: Finding): int {
    Lex(Compare, a.evidence, b.evidence)
  }

  /** `cmp.Or`: the first comparison that decides. */
  function Or(x: int, y: int): int {
    if x != 0 then x else y
  }

  /** `Compare`. */
  function CompareFindings(a: Finding, b: Finding): int {
    Or(BySeverity(a, b), Or(ById(a, b), Or(BySubject(a, b), Or(ByDescription(a, b), ByEvidence(a, b)))))
  }

  function ByLast2(a: Finding, b: Finding): int {
    Or(ByDescription(a, b), ByEvidence(a, b))
  }

  function ByLast3(a: Finding, b: Finding): int {
    Or(BySubject(a, b), ByLast2(a, b))
  }

  function ByLast4(a: Finding, b: Finding): int {
    Or(ById(a, b), ByLast3(a, b))
  }

  /** Breaking the ties of one preorder by another gives a preorder. */
  lemma TieBreak<T(!new)>(first: (T, T) -> int, second: (T, T) -> int, both: (T, T) -> int)
    requires Preorder(first) && Preorder(second)
    requires forall x, y :: both(x, y) == Or(first(x, y), second(x, y))
    ensures Preorder(both)
  {
    forall x, y, z | Chain(both, x, y, z) ensures both(x, z) <= 0 {
      assert Chain(first, x, y, z);
      assert first(x, z) <= 0;
      if first(x, z) == 0 {
        assert Chain(first, z, x, y) && Chain(first, y, z, x);
        assert first(x, y) == 0 && first(y, z) == 0;
        assert Chain(second, x, y, z);
      }
    }
  }

  lemma KeysArePreorders()
    ensures Preorder(BySeverity) && Preorder(ById) && Preorder(BySubject) && Preorder(ByDescription)
  {
    CompareIsTotalOrder();
    forall x, y, z | Chain(ById, x, y, z) ensures ById(x, z) <= 0 {
      assert Chain(Compare, x.id, y.id, z.id);
    }
    forall x, y, z | Chain(BySubject, x, y, z) ensures BySubject(x, z) <= 0 {
      assert Chain(Compare, x.subject, y.subject, z.subject);
    }
    forall x, y, z | Chain(ByDescription, x, y, z) ensures ByDescription(x, z) <= 0 {
      assert Chain(Compare, x.description, y.description, z.description);
    }
  }

  lemma EvidenceIsPreorder()
    ensures Preorder(ByEvidence)
  {
    CompareIsTotalOrder();
    forall x: Finding, y: Finding ensures ByEvidence(x, y) < 0 <==> ByEvidence(y, x) > 0 {
      LexMirror(Compare, x.evidence, y.evidence);
    }
    forall x, y, z | Chain(ByEvidence, x, y, z) ensures ByEvidence(x, z) <= 0 {
      LexTransitive(Compare, x.evidence, y.evidence, z.evidence);
    }
  }

  /** `Compare` is a total preorder. */
  lemma CompareIsPreorder()
    ensures Preorder(CompareFindings)
  {
    KeysArePreorders();
    EvidenceIsPreorder();
    TieBreak(ByDescription, ByEvidence, ByLast2);
    TieBreak(BySubject, ByLast2, ByLast3);
    TieBreak(ById, ByLast3, ByLast4);
    TieBreak(BySeverity, ByLast4, CompareFindings);
  }

  /** `Compare` ties exactly the findings that agree in all five keys. */
  lemma CompareZero(a: Finding, b: Finding)
    ensures CompareFindings(a, b) == 0
            <==> a.severity == b.severity && a.id == b.id && a.subject == b.subject
                 && a.description == b.description && a.evidence == b.evidence
  {
    CompareIsTotalOrder();
    LexZero(Compare, a.evidence, b.evidence);
  }

  /** Findings of one zone built from the catalog that tie are the same. */
  lemma CatalogFindingsHaveNoTies(c: Catalog, zone: Str, fs: seq<Finding>)
    requires forall f :: f in fs ==> FromCatalog(c, zone, f)
    ensures NoTies(CompareFindings, fs)
  {
    CompareIsPreorder();
    forall x, y | x in fs && y in fs && Tied(CompareFindings, x, y) ensures x == y {
      assert CompareFindings(x, y) == 0;
      CompareZero(x, y);
      assert FromCatalog(c, zone, x) && FromCatalog(c, zone, y);
    }
  }

  // ----- reports -----

  /** `Sort`. */
  method Sort(fs: array<Finding>)
    modifies fs
    ensures Sorted(CompareFindings, fs[..])
    ensures multiset(fs[..]) == multiset(old(fs[..]))
  {
    CompareIsPreorder();
    SortInPlace(CompareFindings, fs);
  }

  /** The end of `Run`: copy the findings, sort the copy, return it. */
  method SortedReport(found: seq<Finding>) returns (report: seq<Finding>)
    ensures Sorted(CompareFindings, report) && multiset(report) == multiset(found)
  {
    var sorted := new Finding[|found|](i requires 0 <= i < |found| => found[i]);
    assert sorted[..] == found;
    Sort(sorted);
    report := sorted[..];
  }

  /** Reports are deterministic: whatever order the checks ran in, sorting the
      same findings of a zone gives the same sequence. */
  lemma ReportIsDeterministic(c: Catalog, zone: Str, a: seq<Finding>, b: seq<Finding>)
    requires forall f :: f in a ==> FromCatalog(c, zone, f)
    requires Sorted(CompareFindings, a) && Sorted(CompareFindings, b)
    requires multiset(a) == multiset(b)
    ensures a == b
  {
    CompareIsPreorder();
    assert Reflexive(CompareFindings);
    CatalogFindingsHaveNoTies(c, zone, a);
    SortedUnique(CompareFindings, a, b);
  }

  /** Without the catalog the order does not decide: findings that differ only
      in their title tie. */
  lemma TitlesAreNotCompared(f: Finding, title: Str)
    requires title != f.title
    ensures CompareFindings(f, f.(title := title)) == 0 && f != f.(title := title)
  {
    CompareZero(f, f.(title := title));
  }

  /** Evidence in the order of its lines: the first line that differs decides. */
  ghost predicate LinesPrecedeAt(a: seq<Str>, b: seq<Str>, p: nat) {
    p <= |a| && p < |b| && a[..p] == b[..p] && (p < |a| ==> Precedes(a[p], b[p]))
  }

  ghost predicate LinesPrecede(a: seq<Str>, b: seq<Str>) {
    exists p: nat :: LinesPrecedeAt(a, b, p)
  }

  lemma EvidenceOrder(a: seq<Str>, b: seq<Str>)
    ensures Lex(Compare, a, b) < 0 <==> LinesPrecede(a, b)
  {
    CompareIsTotalOrder();
    LexFirstDifference(Compare, a, b);
    forall p: nat ensures SmallerAt(Compare, a, b, p) <==> LinesPrecedeAt(a, b, p) {
      if p < |a| && p < |b| {
        CompareIsOctetOrder(a[p], b[p]);
      }
    }
  }

  /** The first key in which two findings differ decides: the higher severity,
      then identifier, subject, description and evidence in octet order. */
  ghost predicate GoesFirst(a: Finding, b: Finding) {
    if a.severity != b.severity then a.severity > b.severity
    else if a.id != b.id then Precedes(a.id, b.id)
    else if a.subject != b.subject then Precedes(a.subject, b.subject)
    else if a.description != b.description then Precedes(a.description, b.description)
    else LinesPrecede(a.evidence, b.evidence)
  }

  lemma FirstKeyDecides(a: Finding, b: Finding)
    ensures CompareFindings(a, b) < 0 <==> GoesFirst(a, b)
  {
    CompareIsOctetOrder(a.id, b.id);
    CompareIsOctetOrder(a.subject, b.subject);
    CompareIsOctetOrder(a.description, b.description);
    EvidenceOrder(a.evidence, b.evidence);
  }

  /** In a report the more severe finding comes first, and among findings of one
      severity the one whose first differing key is smaller; findings that agree
      in all keys are the only ones in no particular order. */
  lemma MoreSevereFirst(report: seq<Finding>, i: nat, j: nat)
    requires Sorted(CompareFindings, report) && i < j < |report|
    ensures var a, b := report[i], report[j];
            || GoesFirst(a, b)
            || (a.severity == b.severity && a.id == b.id && a.subject == b.subject && a.description == b.description
                && a.evidence == b.evidence)
  {
    assert CompareFindings(report[i], report[j]) <= 0;
    FirstKeyDecides(report[i], report[j]);
    CompareZero(report[i], report[j]);
  }
}
