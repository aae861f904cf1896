/** The keys under which the audit deduplicates records and tallies signature
    checks: strings glued from a name, a type and RDATA. */
module RecordKey {
  import opened Ordering
  import opened Bytes
  import opened Names
  import opened RData

  const BAR: byte := 124
  const SLASH: byte := 47

  /** `rrKey`: canonical RDATA, or the presentation form where there is none. */
  function RrKey(rr: RR): Str {
    match RRData(rr.data)
    case Some(rd) => rd
    case None => rr.text
  }

  function MakeKey(name: Str, rtype: u16, rdata: Str): Str {
    name + [BAR] + Itoa(rtype) + [BAR] + rdata
  }

  /** The key of `collectDNSSEC`: owner, type and RDATA, joined by bars. */
  function KeyOf(rr: RR): Str {
    MakeKey(Canon(rr.name), TypeOf(rr.data), RrKey(rr))
  }

  /** A name that itself reads as an owner, a bar, a type, a bar and more. */
  ghost predicate Ambiguous(name: Str) {
    exists n, t, r :: IsFqdn(n) && name == MakeKey(n, t, r)
  }

  lemma DigitsEndAt(a: Str, b: Str, x: Str, y: Str, sep: byte)
    requires forall i :: 0 <= i < |a| ==> IsDigit(a[i])
    requires forall i :: 0 <= i < |b| ==> IsDigit(b[i])
    requires !IsDigit(sep) && a + [sep] + x == b + [sep] + y
    ensures a == b && x == y
  {
    var s := a + [sep] + x;
    assert s[|a|] == sep && s[|b|] == (b + [sep] + y)[|b|] == sep;
    assert forall i :: 0 <= i < |a| ==> s[i] == a[i];
    assert forall i :: 0 <= i < |b| ==> s[i] == b[i];
    assert a == s[..|a|] && b == s[..|b|];
    assert x == s[|a| + 1..] && y == s[|b| + 1..];
  }

  lemma SameOwnerSameKey(n: Str, t: u16, r: Str, t': u16, r': Str)
    requires MakeKey(n, t, r) == MakeKey(n, t', r')
    ensures t == t' && r == r'
  {
    ItoaValue(t);
    ItoaValue(t');
    var x, x' := Itoa(t) + [BAR] + r, Itoa(t') + [BAR] + r';
    assert MakeKey(n, t, r)[|n| + 1..] == x && MakeKey(n, t', r')[|n| + 1..] == x';
    DigitsEndAt(Itoa(t), Itoa(t'), r, r', BAR);
  }

  /** A longer owner whose key starts like a shorter owner's is ambiguous. */
  lemma LongerOwnerIsAmbiguous(n: Str, t: u16, r: Str, n': Str, t': u16, r': Str)
    requires IsFqdn(n) && IsFqdn(n') && |n| < |n'|
    requires MakeKey(n, t, r) == MakeKey(n', t', r')
    ensures Ambiguous(n')
  {
    ItoaValue(t);
    var key, d := MakeKey(n, t, r), Itoa(t);
    assert n' == key[..|n'|];
    var last := |n'| - 1;
    assert key[last] == DOT;
    assert key[|n|] == BAR && key[|n| + 1 + |d|] == BAR;
    assert forall i :: 0 <= i < |d| ==> key[|n| + 1 + i] == d[i];
    assert forall i :: |n| < i <= |n| + |d| ==> IsDigit(key[i]);
    assert last > |n| + 1 + |d|;
    assert n' == MakeKey(n, t, n'[|n| + |d| + 2..]);
  }

  /** Without ambiguous owners the key determines owner, type and RDATA. */
  lemma KeyIsInjective(n: Str, t: u16, r: Str, n': Str, t': u16, r': Str)
    requires IsFqdn(n) && IsFqdn(n') && !Ambiguous(n) && !Ambiguous(n')
    requires MakeKey(n, t, r) == MakeKey(n', t', r')
    ensures n == n' && t == t' && r == r'
  {
    if |n| < |n'| {
      LongerOwnerIsAmbiguous(n, t, r, n', t', r');
    } else if |n'| < |n| {
      LongerOwnerIsAmbiguous(n', t', r', n, t, r);
    } else {
      assert n == MakeKey(n, t, r)[..|n|] && n' == MakeKey(n', t', r')[..|n'|];
      SameOwnerSameKey(n, t, r, t', r');
    }
  }

  /** With an ambiguous owner every key has a second reading: the precondition
      of the lemma above cannot be dropped. */
  lemma AmbiguousOwnerCollides(n: Str, t: u16, r: Str)
    requires Ambiguous(n)
    ensures exists n', t', r' :: IsFqdn(n') && n' != n && MakeKey(n', t', r') == MakeKey(n, t, r)
  {
    var n', t', q :| IsFqdn(n') && n == MakeKey(n', t', q);
    var r' := q + [BAR] + Itoa(t) + [BAR] + r;
    assert MakeKey(n', t', r') == MakeKey(n, t, r);
    assert |n'| < |n|;
  }

  /** `48`, the type of DNSKEY, in decimal. */
  lemma LiteralType()
    ensures Itoa(48) == [52, 56]
  {
    assert Itoa(4) == [52];
    assert Itoa(48) == Itoa(4) + [56];
  }

  /** The names `x.` and `x.|48|abcd.`. */
  const SHORT_NAME: Str := [120, DOT]
  const ODD_NAME: Str := [120, DOT, BAR, 52, 56, BAR, 97, 98, 99, 100, DOT]

  const X_LABEL: Str := [120]
  const ODD_LABEL: Str := [BAR, 52, 56, BAR, 97, 98, 99, 100]

  lemma LabelsOfShort()
    ensures Canon(SHORT_NAME) == SHORT_NAME && LabelsOf(SHORT_NAME) == [X_LABEL]
  {
    assert Lower(SHORT_NAME) == SHORT_NAME;
    assert Join([X_LABEL]) == X_LABEL;
    assert Dotted([X_LABEL]) == SHORT_NAME;
    LabelsOfDotted([X_LABEL]);
  }

  lemma LabelsOfOdd()
    ensures Canon(ODD_NAME) == ODD_NAME && LabelsOf(ODD_NAME) == [X_LABEL, ODD_LABEL]
  {
    assert Lower(ODD_NAME) == ODD_NAME;
    assert [X_LABEL, ODD_LABEL][1..] == [ODD_LABEL];
    assert Join([ODD_LABEL]) == ODD_LABEL;
    assert Join([X_LABEL, ODD_LABEL]) == X_LABEL + [DOT] + ODD_LABEL;
    assert Dotted([X_LABEL, ODD_LABEL]) == ODD_NAME;
    LabelsOfDotted([X_LABEL, ODD_LABEL]);
  }

  /** Both are proper names: canonical, with non-empty labels, and they pack. */
  lemma ProperNames()
    ensures Canon(SHORT_NAME) == SHORT_NAME && Canon(ODD_NAME) == ODD_NAME
    ensures WellFormed(LabelsOf(ODD_NAME)) && Packable(SHORT_NAME) && Packable(ODD_NAME)
  {
    LabelsOfShort();
    LabelsOfOdd();
    assert [X_LABEL, ODD_LABEL][1..] == [ODD_LABEL] && [ODD_LABEL][1..] == [] && [X_LABEL][1..] == [];
    assert WireLength([]) == 1;
    assert WireLength([ODD_LABEL]) == 10 && WireLength([X_LABEL]) == 3;
  }

  /** A DNSKEY of `x.` with flags, protocol and algorithm `abcd`. */
  function KeyAtShort(key: Str, text: Str): RR {
    RR(SHORT_NAME, DNSKEY(24930, 99, 100, key), text)
  }

  function DsAtOdd(keyTag: u16, algorithm: byte, digestType: byte, digest: Str, text: Str): RR {
    RR(ODD_NAME, DS(keyTag, algorithm, digestType, Some(digest)), text)
  }

  lemma KeyOfKey(key: Str, text: Str)
    ensures KeyOf(KeyAtShort(key, text)) == [120, 46, 124, 52, 56, 124, 97, 98, 99, 100] + key
  {
    LiteralType();
    ProperNames();
    var rd := PutU16(24930) + [99, 100] + key;
    assert PutU16(24930) == [97, 98];
    assert SHORT_NAME + [BAR] + [52, 56] + [BAR] + rd == [120, DOT, BAR, 52, 56, BAR, 97, 98, 99, 100] + key;
  }

  /** A DNSKEY of `x.` whose public key spells the rest of the key of a record. */
  function ShadowOf(rr: RR, text: Str): RR {
    KeyAtShort([DOT, BAR] + Itoa(TypeOf(rr.data)) + [BAR] + RrKey(rr), text)
  }

  lemma TwoReadings(t: Str, rd: Str)
    ensures [120, DOT, BAR, 52, 56, BAR, 97, 98, 99, 100] + ([DOT, BAR] + t + [BAR] + rd)
            == ODD_NAME + [BAR] + t + [BAR] + rd
  {
  }

  /** A collision of proper records: every record of `x.|48|abcd.` shares its
      deduplication key with a DNSKEY of `x.`. */
  lemma KeyShadowsRecord(rr: RR, text: Str)
    requires Canon(rr.name) == ODD_NAME
    ensures KeyOf(ShadowOf(rr, text)) == KeyOf(rr)
  {
    KeyOfKey([DOT, BAR] + Itoa(TypeOf(rr.data)) + [BAR] + RrKey(rr), text);
    TwoReadings(Itoa(TypeOf(rr.data)), RrKey(rr));
  }

  ghost predicate UnambiguousOwners(rrs: seq<RR>) {
    forall rr :: rr in rrs ==> !Ambiguous(Canon(rr.name))
  }

  /** Deduplication merges only records of the same owner, type and RDATA key,
      and for encodable data only records that agree in every canonical field. */
  lemma DedupMergesEqualRecords(a: RR, b: RR)
    requires !Ambiguous(Canon(a.name)) && !Ambiguous(Canon(b.name))
    requires KeyOf(a) == KeyOf(b)
    ensures Canon(a.name) == Canon(b.name) && TypeOf(a.data) == TypeOf(b.data) && RrKey(a) == RrKey(b)
    ensures Encodable(a.data) && Encodable(b.data) ==> Canonical(a.data) == Canonical(b.data)
  {
    CanonIsStable(a.name);
    CanonIsStable(b.name);
    KeyIsInjective(Canon(a.name), TypeOf(a.data), RrKey(a), Canon(b.name), TypeOf(b.data), RrKey(b));
    if Encodable(a.data) && Encodable(b.data) {
      RDataRoundTrip(a.data);
      RDataRoundTrip(b.data);
      RDataIdentifiesRecord(a.data, b.data);
    }
  }

  /** The key of a signature tally: the type comes last, so no name is ambiguous. */
  function StatsKey(name: Str, rtype: u16): Str {
    name + [SLASH] + Itoa(rtype)
  }

  lemma DigitsAfterSlash(n: Str, a: Str, n': Str, b: Str)
    requires forall i :: 0 <= i < |a| ==> IsDigit(a[i])
    requires forall i :: 0 <= i < |b| ==> IsDigit(b[i])
    requires n + [SLASH] + a == n' + [SLASH] + b
    ensures n == n' && a == b
  {
    var s, s' := n + [SLASH] + a, n' + [SLASH] + b;
    assert s[|n|] == SLASH && s'[|n'|] == SLASH;
    assert forall i :: |n| < i < |s| ==> s[i] == a[i - |n| - 1] && IsDigit(s[i]);
    assert forall i :: |n'| < i < |s'| ==> s'[i] == b[i - |n'| - 1] && IsDigit(s'[i]);
    assert n == s[..|n|] && n' == s'[..|n'|] && a == s[|n| + 1..] && b == s'[|n'| + 1..];
  }

  lemma StatsKeyIsInjective(n: Str, t: u16, n': Str, t': u16)
    requires StatsKey(n, t) == StatsKey(n', t')
    ensures n == n' && t == t'
  {
    ItoaValue(t);
    ItoaValue(t');
    DigitsAfterSlash(n, Itoa(t), n', Itoa(t'));
  }
}
