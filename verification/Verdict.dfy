/** The DNSSEC branch of an audit run, from raw responses to findings: what
    each finding says about the responses, and when "validated" is reported. */
module Verdict {
  import opened Ordering
  import opened Bytes
  import opened Names
  import opened RData
  import opened SignedData
  import opened Chain
  import opened RecordKey
  import opened Merging
  import opened Gather
  import opened SignatureTally

  /** The responses an audit collects; `None` is a failed query. */
  datatype Responses = Responses(initial: Msg, apexRecords: seq<RR>, apexUnits: seq<Msg>, keyResp: Option<Msg>,
                                 dsResp: Option<Msg>, probe: Option<Msg>)
  {
    function All(): seq<RR> {
      AllRecords(initial, apexRecords, keyResp, dsResp, probe)
    }

    /** The deduplicated records. */
    ghost function Union(): seq<RR> {
      Merged(KeyOf, All())
    }

    function Units(): seq<Msg> {
      [initial] + apexUnits + UnitOf(keyResp) + UnitOf(dsResp) + UnitOf(probe)
    }

    function Keys(): seq<RR> {
      AnswerOf(keyResp)
    }

    function Anchor(): seq<RR> {
      RecordsOf(dsResp)
    }
  }

  // ----- what the findings are about -----

  /** A DS of the anchor is the digest of a DNSKEY collected at the same name. */
  ghost predicate DsMatchesKeyAt(c: Crypto, r: Responses, name: Str) {
    exists ds, k :: ds in DSsAt(r.Anchor(), name) && k in KeysAt(c, r.Union(), name) && IsDigestOf(c, ds, name, k)
  }

  ghost predicate HasKeys(c: Crypto, rrs: seq<RR>) {
    exists n, k :: k in KeysAt(c, rrs, n)
  }

  /** A collected signature whose signer is the zone. */
  ghost predicate ZoneSig(zone: Str, rrs: seq<RR>, s: RRSIGInfo) {
    Lower(s.signerName) == Lower(Canon(zone)) && exists n :: s in SigsAt(rrs, n)
  }

  ghost predicate HasZoneSig(zone: Str, rrs: seq<RR>) {
    exists s :: ZoneSig(zone, rrs, s)
  }

  /** DNSSEC is expected of the zone. */
  ghost predicate LooksSigned(c: Crypto, zone: Str, r: Responses) {
    HasKeys(c, r.Union()) || HasZoneSig(zone, r.Union()) || HasDs(r.Anchor())
  }

  predicate Timely(s: RRSIGInfo, now: int) {
    s.inception <= now <= s.expiration
  }

  /** One response has, at a name in the zone, a signature that some collected
      key verifies over the covered records of that response. */
  ghost predicate VerifiedIn(c: Crypto, zone: Str, rrs: seq<RR>) {
    exists n, sig, m, k :: InZoneTest(n, Canon(zone)) && VerifiedAt(c, rrs, n, sig, m, k)
  }

  ghost predicate VerifiedAt(c: Crypto, rrs: seq<RR>, n: Str, sig: RRSIGInfo, m: Str, k: KeyInfo) {
    && sig in SigsAt(rrs, n) && RRsAt(rrs, n, sig.typeCovered) != []
    && k in KeysAt(c, rrs, m) && k.keyTag == sig.keyTag
    && c.verifies(sig, k, SignedOctets(sig, n, RRsAt(rrs, n, sig.typeCovered)))
  }

  /** The records of one unit together with the zone keys. */
  function UnitRecords(r: Responses, u: Msg): seq<RR> {
    u.answer + r.Keys() + u.ns
  }

  // ----- where the chain is checked -----

  ghost predicate OwnsDs(r: Responses, n: Str) {
    DSsAt(r.Union(), n) != []
  }

  ghost predicate OwnsKey(c: Crypto, r: Responses, n: Str) {
    KeysAt(c, r.Union(), n) != []
  }

  /** The names at which the code may look for a match, depending on the order
      of its maps: a DS owner with keys if there is one, else any DS owner. */
  ghost predicate PossibleApex(c: Crypto, r: Responses, n: Str) {
    OwnsDs(r, n) && (OwnsKey(c, r, n) || forall m :: OwnsDs(r, m) ==> !OwnsKey(c, r, m))
  }

  ghost predicate SomeApexMatches(c: Crypto, r: Responses) {
    exists n :: PossibleApex(c, r, n) && DsMatchesKeyAt(c, r, n)
  }

  ghost predicate SomeApexMismatches(c: Crypto, r: Responses) {
    exists n :: PossibleApex(c, r, n) && !DsMatchesKeyAt(c, r, n)
  }

  /** Some response has, beside records of type `t` at `n`, a signature over them
      and the key it names. */
  ghost predicate PairTracked(c: Crypto, zone: Str, r: Responses, n: Str, t: u16) {
    TrackedInSome(c, Canon(zone), r.Units(), r.Keys(), n, t)
  }

  /** In one of those responses every such signature verifies, */
  ghost predicate PairAccepted(c: Crypto, zone: Str, r: Responses, n: Str, t: u16) {
    AcceptedInSome(c, Canon(zone), r.Units(), r.Keys(), n, t)
  }

  /** or there are such responses and in each of them some signature does not. */
  ghost predicate PairFailed(c: Crypto, zone: Str, r: Responses, n: Str, t: u16) {
    PairTracked(c, zone, r, n, t) && RejectedInAll(c, Canon(zone), r.Units(), r.Keys(), n, t)
  }

  /** How many pairs the responses track. */
  ghost function PairCount(c: Crypto, zone: Str, r: Responses): nat {
    |TrackedPairs(UnitSet(c, r.Units(), r.Keys()), Canon(zone))|
  }

  /** The pairs that are counted are the tracked ones. */
  lemma CountedIsTracked(c: Crypto, zone: Str, r: Responses, n: Str, t: u16)
    ensures (n, t) in TrackedPairs(UnitSet(c, r.Units(), r.Keys()), Canon(zone)) <==> PairTracked(c, zone, r, n, t)
  {
    PairIsTracked(UnitSet(c, r.Units(), r.Keys()), Canon(zone), n, t);
    PairsInResponses(c, Canon(zone), r.Units(), r.Keys(), n, t);
  }

  /** The pairs of the responses are those of their collections. */
  lemma PairsCollected(c: Crypto, zone: Str, r: Responses, n: Str, t: u16)
    ensures var us := UnitSet(c, r.Units(), r.Keys());
            && (PairTracked(c, zone, r, n, t) <==> TrackedSomewhere(us, Canon(zone), n, t))
            && (PairAccepted(c, zone, r, n, t) <==> AcceptedSomewhere(c, us, Canon(zone), n, t))
            && (PairFailed(c, zone, r, n, t) <==> Failed(c, us, Canon(zone), n, t))
  {
    PairsInResponses(c, Canon(zone), r.Units(), r.Keys(), n, t);
  }

  /** What "validated" promises: there is a DS; a DS of the anchor matches a key
      at a possible apex, unless deduplication left no DS to compare; the
      signatures of the zone are in their lifetime; every checked pair was
      accepted in some response; and some signature of the zone verified over
      the records it came with. */
  ghost predicate Trustworthy(c: Crypto, zone: Str, now: int, r: Responses) {
    && HasDs(r.Anchor())
    && (HasDs(r.Union()) ==> SomeApexMatches(c, r))
    && !Untimely(zone, now, r)
    && (forall n, t: u16 :: PairTracked(c, zone, r, n, t) ==> PairAccepted(c, zone, r, n, t))
    && (exists n, t: u16 :: PairTracked(c, zone, r, n, t))
    && (exists u :: u in r.Units() && VerifiedIn(c, zone, UnitRecords(r, u)))
  }

  ghost predicate Untimely(zone: Str, now: int, r: Responses) {
    exists s :: ZoneSig(zone, r.Union(), s) && !Timely(s, now)
  }

  /** What each finding says about the responses. */
  ghost predicate Means(c: Crypto, zone: Str, now: int, r: Responses, i: Issue) {
    match i
    case NoDNSKEY001 => HasZoneSig(zone, r.Union()) && !HasKeys(c, r.Union())
    case NoRRSIG002 => HasKeys(c, r.Union()) && !HasZoneSig(zone, r.Union())
    case Expired003(s) => ZoneSig(zone, r.Union(), s) && now > s.expiration
    case NotYetValid004(s) => ZoneSig(zone, r.Union(), s) && now < s.inception
    case DeprecatedAlgorithm005(s) => ZoneSig(zone, r.Union(), s) && s.algorithm in {5, 7}
    case BrokenChain006(mismatch) =>
      HasDs(r.Anchor())
      && if mismatch then SomeApexMismatches(c, r)
         else Untimely(zone, now, r) && (HasDs(r.Union()) ==> SomeApexMatches(c, r))
    case NoDS007 => LooksSigned(c, zone, r) && !HasDs(r.Anchor())
    case InvalidSignature010(n, t, tag) =>
      LooksSigned(c, zone, r) && PairFailed(c, zone, r, n, t)
      && FirstTag(c, Canon(zone), r.Units(), r.Keys(), n, t) == Some(tag)
    case Validated011(verified) => 0 < verified == PairCount(c, zone, r) && Trustworthy(c, zone, now, r)
  }

  /** The findings that contradict "validated". */
  predicate Contradicts(i: Issue) {
    i.Expired003? || i.NotYetValid004? || i.BrokenChain006? || i.NoDS007? || i.InvalidSignature010?
  }

  /** A zone for which nothing is wrong, whatever the order of the maps: there is
      a DS, every possible apex matches, the zone's signatures are in their
      lifetime, and no checked pair failed. */
  ghost predicate Healthy(c: Crypto, zone: Str, now: int, r: Responses) {
    && HasDs(r.Anchor()) && !SomeApexMismatches(c, r) && !Untimely(zone, now, r)
    && (exists n, t: u16 :: PairTracked(c, zone, r, n, t))
    && (forall n, t: u16 :: !PairFailed(c, zone, r, n, t))
  }

  /** A chain that is broken, whatever the order of the maps. */
  ghost predicate Broken(c: Crypto, zone: Str, now: int, r: Responses) {
    HasDs(r.Anchor()) && (Untimely(zone, now, r) || (HasDs(r.Union()) && !SomeApexMatches(c, r)))
  }

  ghost predicate ReportsValidated(issues: seq<Issue>) {
    exists v :: Validated011(v) in issues
  }

  ghost predicate ReportsBroken(issues: seq<Issue>) {
    exists m :: BrokenChain006(m) in issues
  }

  /** The main result, for given findings: every finding is true; the findings
      about presence, lifetime, algorithm and missing DS are complete; a healthy
      zone is reported as validated, a broken chain as broken and a pair that no
      response accepts as invalid; and nothing contradicts "validated". */
  ghost predicate VerdictHolds(c: Crypto, zone: Str, now: int, r: Responses, issues: seq<Issue>) {
    && (forall i :: i in issues ==> Means(c, zone, now, r, i))
    && (forall i: Issue :: !IsVerdict(i) || i.NoDS007? ==> (i in issues <==> Means(c, zone, now, r, i)))
    && (Healthy(c, zone, now, r) ==> ReportsValidated(issues))
    && (Broken(c, zone, now, r) ==> ReportsBroken(issues))
    && (forall n, t: u16 :: LooksSigned(c, zone, r) && PairTracked(c, zone, r, n, t) && !PairAccepted(c, zone, r, n, t)
                            ==> Reported(issues, n, t))
    && (forall v, i :: Validated011(v) in issues && i in issues ==> !Contradicts(i))
  }

  // ----- records behind collected values -----

  ghost predicate IsKeyRecord(c: Crypto, rr: RR, n: Str, k: KeyInfo) {
    Canon(rr.name) == n && rr.data.DNSKEY? && ParseDNSKEY(c, rr.data) == Some(k)
  }

  ghost predicate IsSigRecord(rr: RR, n: Str, s: RRSIGInfo) {
    Canon(rr.name) == n && rr.data.RRSIG? && IsInfoOf(rr.data.sig, s)
  }

  /** Field by field; the signer is fully qualified. */
  ghost predicate IsInfoOf(sig: Rrsig, s: RRSIGInfo) {
    && s.typeCovered == sig.typeCovered && s.algorithm == sig.algorithm && s.labels == sig.labels
    && s.originalTTL == sig.origTtl && s.expiration == sig.expiration && s.inception == sig.inception
    && s.keyTag == sig.keyTag && s.signerName == Fqdn(sig.signerName) && s.rawSignature == sig.signature
    && s.rawRdata == SigRDataNoSig(sig)
  }

  /** A digest that is not hex reads as empty. */
  ghost predicate IsDsRecord(rr: RR, n: Str, ds: DSInfo) {
    && Canon(rr.name) == n && rr.data.DS? && ds.keyTag == rr.data.keyTag && ds.algorithm == rr.data.dsAlgorithm
    && ds.digestType == rr.data.digestType && ds.digest == match rr.data.digest case Some(d) => d case None => []
  }

  lemma LastOrBefore<T>(s: seq<T>, x: T)
    requires s != []
    ensures x in s <==> x in s[..|s| - 1] || x == s[|s| - 1]
  {
    assert s == s[..|s| - 1] + [s[|s| - 1]];
  }

  lemma {:induction false} KeyHasRecord(c: Crypto, rrs: seq<RR>, n: Str, k: KeyInfo)
    ensures k in KeysAt(c, rrs, n) <==> exists rr :: rr in rrs && IsKeyRecord(c, rr, n, k)
  {
    if rrs != [] {
      KeyHasRecord(c, rrs[..|rrs| - 1], n, k);
      forall rr ensures rr in rrs <==> rr in rrs[..|rrs| - 1] || rr == rrs[|rrs| - 1] { LastOrBefore(rrs, rr); }
      assert k in KeysAt(c, rrs, n) <==> k in KeysAt(c, rrs[..|rrs| - 1], n) || IsKeyRecord(c, rrs[|rrs| - 1], n, k);
    }
  }

  lemma {:induction false} SigHasRecord(rrs: seq<RR>, n: Str, s: RRSIGInfo)
    ensures s in SigsAt(rrs, n) <==> exists rr :: rr in rrs && IsSigRecord(rr, n, s)
  {
    if rrs != [] {
      SigHasRecord(rrs[..|rrs| - 1], n, s);
      forall rr ensures rr in rrs <==> rr in rrs[..|rrs| - 1] || rr == rrs[|rrs| - 1] { LastOrBefore(rrs, rr); }
      assert s in SigsAt(rrs, n) <==> s in SigsAt(rrs[..|rrs| - 1], n) || IsSigRecord(rrs[|rrs| - 1], n, s);
    }
  }

  lemma {:induction false} DsHasRecord(rrs: seq<RR>, n: Str, ds: DSInfo)
    ensures ds in DSsAt(rrs, n) <==> exists rr :: rr in rrs && IsDsRecord(rr, n, ds)
  {
    if rrs != [] {
      DsHasRecord(rrs[..|rrs| - 1], n, ds);
      forall rr ensures rr in rrs <==> rr in rrs[..|rrs| - 1] || rr == rrs[|rrs| - 1] { LastOrBefore(rrs, rr); }
      assert ds in DSsAt(rrs, n) <==> ds in DSsAt(rrs[..|rrs| - 1], n) || IsDsRecord(rrs[|rrs| - 1], n, ds);
    }
  }

  lemma {:induction false} SignedByMember(ss: seq<RRSIGInfo>, apex: Str, s: RRSIGInfo)
    ensures s in SignedBy(ss, apex) <==> s in ss && Lower(s.signerName) == Lower(apex)
  {
    if ss != [] {
      SignedByMember(ss[..|ss| - 1], apex, s);
      assert ss == ss[..|ss| - 1] + [ss[|ss| - 1]];
    }
  }

  /** A DS record at `name` or its absence. */
  lemma DsAtName(rrs: seq<RR>, name: Str)
    ensures DSsAt(rrs, name) != [] <==> exists rr :: rr in rrs && rr.data.DS? && Canon(rr.name) == name
  {
    if DSsAt(rrs, name) != [] {
      DsHasRecord(rrs, name, DSsAt(rrs, name)[0]);
    }
    if rr :| rr in rrs && rr.data.DS? && Canon(rr.name) == name {
      assert IsDsRecord(rr, name, ParseDS(rr.data));
      DsHasRecord(rrs, name, ParseDS(rr.data));
    }
  }

  // ----- from the collections to the responses -----

  /** What the union and the two collections have to do with the responses. */
  ghost predicate Stage(c: Crypto, zone: Str, r: Responses, union: seq<RR>, zk: ZoneKeys, anchor: ZoneKeys) {
    && SameElements(union, r.Union())
    && KeysFiled(c, union, zk.dnskeys)
    && DSsFiled(union, zk.dss)
    && (forall n :: Lookup(zk.rrsigs, n) == SignedBy(SigsAt(union, n), Canon(zone)))
    && (forall n :: n in zk.rrsigs ==> zk.rrsigs[n] != [])
    && DSsFiled(r.Anchor(), anchor.dss)
  }

  lemma FiledKey(c: Crypto, zone: Str, r: Responses, union: seq<RR>, zk: ZoneKeys, anchor: ZoneKeys, n: Str, k: KeyInfo)
    requires Stage(c, zone, r, union, zk, anchor)
    ensures k in Lookup(zk.dnskeys, n) <==> k in KeysAt(c, r.Union(), n)
  {
    KeyHasRecord(c, union, n, k);
    KeyHasRecord(c, r.Union(), n, k);
    assert Lookup(zk.dnskeys, n) == KeysAt(c, union, n);
  }

  lemma FiledKeys(c: Crypto, zone: Str, r: Responses, union: seq<RR>, zk: ZoneKeys, anchor: ZoneKeys)
    requires Stage(c, zone, r, union, zk, anchor)
    ensures zk.dnskeys.Keys != {} <==> HasKeys(c, r.Union())
  {
    if zk.dnskeys.Keys != {} {
      var n :| n in zk.dnskeys;
      FiledKey(c, zone, r, union, zk, anchor, n, zk.dnskeys[n][0]);
    }
    if HasKeys(c, r.Union()) {
      var n, k :| k in KeysAt(c, r.Union(), n);
      FiledKey(c, zone, r, union, zk, anchor, n, k);
      assert n in zk.dnskeys;
    }
  }

  lemma SigAt(c: Crypto, zone: Str, r: Responses, union: seq<RR>, zk: ZoneKeys, anchor: ZoneKeys, n: Str, s: RRSIGInfo)
    requires Stage(c, zone, r, union, zk, anchor)
    ensures s in Lookup(zk.rrsigs, n) <==> s in SigsAt(r.Union(), n) && Lower(s.signerName) == Lower(Canon(zone))
  {
    SigHasRecord(union, n, s);
    SigHasRecord(r.Union(), n, s);
    SignedByMember(SigsAt(union, n), Canon(zone), s);
    assert Lookup(zk.rrsigs, n) == SignedBy(SigsAt(union, n), Canon(zone));
  }

  lemma FiledSig(c: Crypto, zone: Str, r: Responses, union: seq<RR>, zk: ZoneKeys, anchor: ZoneKeys, s: RRSIGInfo)
    requires Stage(c, zone, r, union, zk, anchor)
    ensures HasSig(zk, s) <==> ZoneSig(zone, r.Union(), s)
  {
    if HasSig(zk, s) {
      var n :| n in zk.rrsigs && s in zk.rrsigs[n];
      SigAt(c, zone, r, union, zk, anchor, n, s);
    }
    if ZoneSig(zone, r.Union(), s) {
      var n :| s in SigsAt(r.Union(), n);
      SigAt(c, zone, r, union, zk, anchor, n, s);
      assert n in zk.rrsigs;
    }
  }

  lemma FiledSigs(c: Crypto, zone: Str, r: Responses, union: seq<RR>, zk: ZoneKeys, anchor: ZoneKeys)
    requires Stage(c, zone, r, union, zk, anchor)
    ensures zk.rrsigs.Keys != {} <==> HasZoneSig(zone, r.Union())
  {
    if zk.rrsigs.Keys != {} {
      var n :| n in zk.rrsigs;
      assert HasSig(zk, zk.rrsigs[n][0]);
      FiledSig(c, zone, r, union, zk, anchor, zk.rrsigs[n][0]);
    }
    if HasZoneSig(zone, r.Union()) {
      var s :| ZoneSig(zone, r.Union(), s);
      FiledSig(c, zone, r, union, zk, anchor, s);
    }
  }

  lemma FiledDs(rrs: seq<RR>, m: map<Str, seq<DSInfo>>)
    requires DSsFiled(rrs, m)
    ensures m.Keys != {} <==> HasDs(rrs)
  {
    if m.Keys != {} {
      var n :| n in m;
      assert Lookup(m, n) == DSsAt(rrs, n);
      DsAtName(rrs, n);
    }
    if HasDs(rrs) {
      var rr :| rr in rrs && rr.data.DS?;
      DsAtName(rrs, Canon(rr.name));
      assert Lookup(m, Canon(rr.name)) == DSsAt(rrs, Canon(rr.name));
      assert Canon(rr.name) in m;
    }
  }

  lemma DsOwners(c: Crypto, zone: Str, r: Responses, union: seq<RR>, zk: ZoneKeys, anchor: ZoneKeys, n: Str)
    requires Stage(c, zone, r, union, zk, anchor)
    ensures n in zk.dss <==> DSsAt(r.Union(), n) != []
    ensures zk.dss.Keys != {} <==> HasDs(r.Union())
  {
    DsAtName(union, n);
    DsAtName(r.Union(), n);
    assert Lookup(zk.dss, n) == DSsAt(union, n);
    FiledDs(union, zk.dss);
  }

  lemma MatchIsReal(c: Crypto, zone: Str, r: Responses, union: seq<RR>, zk: ZoneKeys, anchor: ZoneKeys, name: Str)
    requires Stage(c, zone, r, union, zk, anchor)
    ensures Anchored(c, anchor, zk, name) <==> DsMatchesKeyAt(c, r, name)
  {
    assert Lookup(anchor.dss, name) == DSsAt(r.Anchor(), name);
    forall k ensures k in Lookup(zk.dnskeys, name) <==> k in KeysAt(c, r.Union(), name) {
      FiledKey(c, zone, r, union, zk, anchor, name, k);
    }
  }

  lemma ApexIsPossible(c: Crypto, zone: Str, r: Responses, union: seq<RR>, zk: ZoneKeys, anchor: ZoneKeys, name: Str)
    requires Stage(c, zone, r, union, zk, anchor) && zk.dss.Keys != {}
    ensures IsApex(zk, name) <==> PossibleApex(c, r, name)
  {
    forall n ensures n in zk.dss <==> OwnsDs(r, n) {
      DsOwners(c, zone, r, union, zk, anchor, n);
    }
    forall n ensures n in zk.dnskeys <==> OwnsKey(c, r, n) {
      KeyOwners(c, zone, r, union, zk, anchor, n);
    }
  }

  lemma KeyOwners(c: Crypto, zone: Str, r: Responses, union: seq<RR>, zk: ZoneKeys, anchor: ZoneKeys, n: Str)
    requires Stage(c, zone, r, union, zk, anchor)
    ensures n in zk.dnskeys <==> OwnsKey(c, r, n)
  {
    if n in zk.dnskeys {
      FiledKey(c, zone, r, union, zk, anchor, n, zk.dnskeys[n][0]);
    }
    if OwnsKey(c, r, n) {
      FiledKey(c, zone, r, union, zk, anchor, n, KeysAt(c, r.Union(), n)[0]);
    }
  }

  // ----- signatures behind a pass -----

  /** An accepted pair is a signature that verified over real records. */
  lemma AcceptedIsVerified(c: Crypto, zone: Str, rrs: seq<RR>, n: Str, t: u16)
    requires Tracked(Collected(c, rrs), Canon(zone), n, t) && AllAccepted(c, Collected(c, rrs), n, t)
    ensures VerifiedIn(c, zone, rrs)
  {
    var zk := Collected(c, rrs);
    CollectedFiles(c, rrs);
    var sig :| Covers(zk, n, t, sig);
    assert Accepted(c, zk, n, t, sig);
    var k :| KeyWithTag(zk, sig.keyTag, k) && Verifies(c, zk, n, t, sig, k);
    var m :| m in zk.dnskeys && k in zk.dnskeys[m];
    assert Lookup(zk.rrsigs, n) == SigsAt(rrs, n) && Lookup(zk.dnskeys, m) == KeysAt(c, rrs, m);
    assert ByType(zk.byType, n, t) == RRsAt(rrs, n, t);
    assert VerifiedAt(c, rrs, n, sig, m, k);
  }

  lemma PassIsVerified(c: Crypto, zone: Str, r: Responses, n: Str, t: u16)
    requires AcceptedSomewhere(c, UnitSet(c, r.Units(), r.Keys()), Canon(zone), n, t)
    ensures exists u :: u in r.Units() && VerifiedIn(c, zone, UnitRecords(r, u))
  {
    var us := UnitSet(c, r.Units(), r.Keys());
    var zk :| zk in us && Tracked(zk, Canon(zone), n, t) && AllAccepted(c, zk, n, t);
    var u :| u in r.Units() && zk == UnitKeys(c, u, r.Keys());
    AcceptedIsVerified(c, zone, UnitRecords(r, u), n, t);
  }

  // ----- the branch -----

  /** The collections that the branch works on. */
  method Prepare(c: Crypto, zone: Str, ghost r: Responses, d: DnssecData) returns (zk: ZoneKeys, anchor: ZoneKeys)
    requires IsUnion(KeyOf, r.All(), d.combined.answer, d.combined.ns) && d.ds.answer + d.ds.ns == r.Anchor()
    ensures Stage(c, zone, r, d.combined.answer + d.combined.ns, zk, anchor)
  {
    var all := Collect(c, d.combined);
    zk := InZone(all, zone);
    anchor := Collect(c, d.ds);
  }

  ghost predicate InLifetime(zk: ZoneKeys, now: int) {
    forall s :: HasSig(zk, s) ==> Timely(s, now)
  }

  /** The decision for the apex that `apexName` happened to pick. */
  ghost function ChainFindings(c: Crypto, now: int, anchor: ZoneKeys, zk: ZoneKeys, apex: Str, allVerify: bool,
                               verified: nat): seq<Issue> {
    var mismatch := zk.dss.Keys != {} && !Anchored(c, anchor, zk, apex);
    if anchor.dss.Keys == {} then [NoDS007]
    else if mismatch || !InLifetime(zk, now) then [BrokenChain006(mismatch)]
    else if verified > 0 && allVerify then [Validated011(verified)]
    else []
  }

  ghost predicate ChainDecided(c: Crypto, now: int, anchor: ZoneKeys, zk: ZoneKeys, allVerify: bool, verified: nat,
                               out: seq<Issue>) {
    exists apex :: IsApex(zk, apex) && out == ChainFindings(c, now, anchor, zk, apex, allVerify, verified)
  }

  /** The chain-of-trust decision: one of three findings, or none. */
  method Decide(c: Crypto, now: int, anchor: ZoneKeys, zk: ZoneKeys, failures: seq<Issue>, verified: nat)
    returns (out: seq<Issue>)
    ensures ChainDecided(c, now, anchor, zk, failures == [], verified, out)
  {
    ghost var apex := SomeApex(zk);
    if anchor.dss.Keys == {} {
      assert [NoDS007] == ChainFindings(c, now, anchor, zk, apex, failures == [], verified);
      return [NoDS007];
    }
    var cr := ValidateChain(c, anchor, zk, now);
    apex :| IsApex(zk, apex) && (cr.dsMatches <==> Anchored(c, anchor, zk, apex));
    if !cr.valid {
      out := [BrokenChain006(cr.mismatch)];
    } else if verified > 0 && failures == [] {
      out := [Validated011(verified)];
    } else {
      out := [];
    }
    assert out == ChainFindings(c, now, anchor, zk, apex, failures == [], verified);
  }

  lemma SomeApex(zk: ZoneKeys) returns (apex: Str)
    ensures IsApex(zk, apex)
  {
    if n :| n in zk.dss && n in zk.dnskeys {
      apex := n;
    } else if zk.dss.Keys != {} {
      apex :| apex in zk.dss;
    } else {
      apex := [];
    }
  }

  // ----- what the parts of the report mean -----

  /** Presence, lifetime and algorithm findings are exact. */
  lemma ChecksMean(c: Crypto, zone: Str, now: int, r: Responses, union: seq<RR>, zk: ZoneKeys, anchor: ZoneKeys,
                   checks: seq<Issue>, i: Issue)
    requires Stage(c, zone, r, union, zk, anchor) && ZoneIssues(zk, now, checks)
    ensures !IsVerdict(i) ==> (i in checks <==> Means(c, zone, now, r, i))
  {
    FiledKeys(c, zone, r, union, zk, anchor);
    FiledSigs(c, zone, r, union, zk, anchor);
    match i
    case Expired003(s) => FiledSig(c, zone, r, union, zk, anchor, s);
    case NotYetValid004(s) => FiledSig(c, zone, r, union, zk, anchor, s);
    case DeprecatedAlgorithm005(s) => FiledSig(c, zone, r, union, zk, anchor, s);
    case _ =>
  }

  lemma LifetimeMeans(c: Crypto, zone: Str, now: int, r: Responses, union: seq<RR>, zk: ZoneKeys, anchor: ZoneKeys)
    requires Stage(c, zone, r, union, zk, anchor)
    ensures InLifetime(zk, now) <==> !Untimely(zone, now, r)
  {
    forall s ensures HasSig(zk, s) <==> ZoneSig(zone, r.Union(), s) {
      FiledSig(c, zone, r, union, zk, anchor, s);
    }
  }

  /** A decided mismatch is one at a possible apex; otherwise a possible apex
      matches, or no DS was left to compare. */
  lemma MismatchMeans(c: Crypto, zone: Str, r: Responses, union: seq<RR>, zk: ZoneKeys, anchor: ZoneKeys, apex: Str)
    requires Stage(c, zone, r, union, zk, anchor) && IsApex(zk, apex)
    ensures zk.dss.Keys != {} && !Anchored(c, anchor, zk, apex) ==> SomeApexMismatches(c, r)
    ensures zk.dss.Keys != {} && Anchored(c, anchor, zk, apex) ==> SomeApexMatches(c, r)
    ensures zk.dss.Keys == {} <==> !HasDs(r.Union())
  {
    DsOwners(c, zone, r, union, zk, anchor, apex);
    MatchIsReal(c, zone, r, union, zk, anchor, apex);
    if zk.dss.Keys != {} {
      ApexIsPossible(c, zone, r, union, zk, anchor, apex);
    }
  }

  /** What no finding of `verifySignatures` and a positive count mean. */
  ghost predicate PairsPass(c: Crypto, zone: Str, r: Responses, verified: nat) {
    && verified == PairCount(c, zone, r)
    && (forall n, t: u16 :: PairTracked(c, zone, r, n, t) ==> PairAccepted(c, zone, r, n, t))
    && (exists n, t: u16 :: PairTracked(c, zone, r, n, t))
    && (exists u :: u in r.Units() && VerifiedIn(c, zone, UnitRecords(r, u)))
  }

  lemma CountMeans(c: Crypto, zone: Str, r: Responses, verified: nat)
    requires TallyOutcome(c, Canon(zone), UnitSet(c, r.Units(), r.Keys()), [], verified) && verified > 0
    ensures PairsPass(c, zone, r, verified)
  {
    var n: Str, t: u16 :| AcceptedSomewhere(c, UnitSet(c, r.Units(), r.Keys()), Canon(zone), n, t);
    PassIsTracked(c, zone, r, n, t);
    PassIsVerified(c, zone, r, n, t);
    forall n, t: u16 | PairTracked(c, zone, r, n, t) ensures PairAccepted(c, zone, r, n, t) {
      NoFindingPasses(c, zone, r, verified, n, t);
    }
  }

  lemma PassIsTracked(c: Crypto, zone: Str, r: Responses, n: Str, t: u16)
    requires AcceptedSomewhere(c, UnitSet(c, r.Units(), r.Keys()), Canon(zone), n, t)
    ensures PairTracked(c, zone, r, n, t)
  {
    PairsCollected(c, zone, r, n, t);
  }

  lemma NoFindingPasses(c: Crypto, zone: Str, r: Responses, verified: nat, n: Str, t: u16)
    requires TallyOutcome(c, Canon(zone), UnitSet(c, r.Units(), r.Keys()), [], verified)
    requires PairTracked(c, zone, r, n, t)
    ensures PairAccepted(c, zone, r, n, t)
  {
    PairsCollected(c, zone, r, n, t);
    assert Passed(UnitSet(c, r.Units(), r.Keys()), Canon(zone), [], n, t);
  }

  lemma ValidatedMeans(c: Crypto, zone: Str, now: int, r: Responses, verified: nat)
    requires HasDs(r.Anchor()) && (HasDs(r.Union()) ==> SomeApexMatches(c, r)) && !Untimely(zone, now, r)
    requires verified > 0 && PairsPass(c, zone, r, verified)
    ensures Means(c, zone, now, r, Validated011(verified))
  {
  }

  lemma BrokenMeans(c: Crypto, zone: Str, now: int, r: Responses, mismatch: bool)
    requires HasDs(r.Anchor()) && (if mismatch then SomeApexMismatches(c, r) else Untimely(zone, now, r))
    requires !mismatch && HasDs(r.Union()) ==> SomeApexMatches(c, r)
    ensures Means(c, zone, now, r, BrokenChain006(mismatch))
  {
  }

  /** The code's mismatch flag, for the apex it picked. */
  ghost predicate Mismatched(c: Crypto, anchor: ZoneKeys, zk: ZoneKeys, apex: Str) {
    zk.dss.Keys != {} && !Anchored(c, anchor, zk, apex)
  }

  lemma AnchoredFindings(c: Crypto, now: int, anchor: ZoneKeys, zk: ZoneKeys, apex: Str, allVerify: bool,
                         verified: nat, i: Issue)
    requires anchor.dss.Keys != {}
    ensures var chain := ChainFindings(c, now, anchor, zk, apex, allVerify, verified);
            var m := Mismatched(c, anchor, zk, apex);
            && NoDS007 !in chain
            && (i in chain
                ==> || (i == BrokenChain006(m) && (m || !InLifetime(zk, now)))
                    || (i == Validated011(verified) && !m && InLifetime(zk, now) && verified > 0 && allVerify))
  {
  }

  /** What is decided for a zone with a DS is true of the responses. */
  lemma AnchoredDecisionMeans(c: Crypto, zone: Str, now: int, r: Responses, union: seq<RR>, zk: ZoneKeys,
                              anchor: ZoneKeys, apex: Str, allVerify: bool, verified: nat, i: Issue)
    requires Stage(c, zone, r, union, zk, anchor) && IsApex(zk, apex) && HasDs(r.Anchor())
    requires verified > 0 && allVerify ==> PairsPass(c, zone, r, verified)
    ensures var chain := ChainFindings(c, now, anchor, zk, apex, allVerify, verified);
            (i in chain ==> Means(c, zone, now, r, i)) && NoDS007 !in chain
  {
    FiledDs(r.Anchor(), anchor.dss);
    LifetimeMeans(c, zone, now, r, union, zk, anchor);
    MismatchMeans(c, zone, r, union, zk, anchor, apex);
    AnchoredFindings(c, now, anchor, zk, apex, allVerify, verified, i);
    if i in ChainFindings(c, now, anchor, zk, apex, allVerify, verified) {
      if i.BrokenChain006? {
        BrokenMeans(c, zone, now, r, i.mismatch);
      } else {
        ValidatedMeans(c, zone, now, r, verified);
      }
    }
  }

  /** The chain decision is true of the responses. */
  lemma ChainMeans(c: Crypto, zone: Str, now: int, r: Responses, union: seq<RR>, zk: ZoneKeys, anchor: ZoneKeys,
                   failures: seq<Issue>, verified: nat, chain: seq<Issue>, i: Issue)
    requires Stage(c, zone, r, union, zk, anchor) && LooksSigned(c, zone, r)
    requires TallyOutcome(c, Canon(zone), UnitSet(c, r.Units(), r.Keys()), failures, verified)
    requires ChainDecided(c, now, anchor, zk, failures == [], verified, chain)
    ensures i in chain ==> Means(c, zone, now, r, i)
    ensures NoDS007 in chain <==> !HasDs(r.Anchor())
  {
    var apex :| IsApex(zk, apex) && chain == ChainFindings(c, now, anchor, zk, apex, failures == [], verified);
    if HasDs(r.Anchor()) {
      if verified > 0 && failures == [] {
        CountMeans(c, zone, r, verified);
      }
      AnchoredDecisionMeans(c, zone, now, r, union, zk, anchor, apex, failures == [], verified, i);
    } else {
      FiledDs(r.Anchor(), anchor.dss);
      assert chain == [NoDS007];
    }
  }

  /** A chain that is broken under every order is reported as broken. */
  lemma BrokenIsReported(c: Crypto, zone: Str, now: int, r: Responses, union: seq<RR>, zk: ZoneKeys, anchor: ZoneKeys,
                         allVerify: bool, verified: nat, chain: seq<Issue>)
    requires Stage(c, zone, r, union, zk, anchor) && Broken(c, zone, now, r)
    requires ChainDecided(c, now, anchor, zk, allVerify, verified, chain)
    ensures ReportsBroken(chain)
  {
    var apex :| IsApex(zk, apex) && chain == ChainFindings(c, now, anchor, zk, apex, allVerify, verified);
    FiledDs(r.Anchor(), anchor.dss);
    LifetimeMeans(c, zone, now, r, union, zk, anchor);
    MismatchMeans(c, zone, r, union, zk, anchor, apex);
    assert chain[0] in chain;
  }

  /** "Validated" comes alone: nothing that contradicts it is reported. */
  lemma NothingContradicts(c: Crypto, now: int, zk: ZoneKeys, anchor: ZoneKeys, checks: seq<Issue>,
                           failures: seq<Issue>, verified: nat, chain: seq<Issue>, v: nat, i: Issue)
    requires ZoneIssues(zk, now, checks) && (forall f :: f in failures ==> f.InvalidSignature010?)
    requires ChainDecided(c, now, anchor, zk, failures == [], verified, chain)
    requires Validated011(v) in checks + failures + chain && i in checks + failures + chain
    ensures !Contradicts(i)
  {
    assert Validated011(v) in checks ==> !IsVerdict(Validated011(v));
    assert Validated011(v) in chain;
    assert chain == [Validated011(v)] && failures == [] && InLifetime(zk, now);
    if i in checks {
      assert !IsVerdict(i);
      match i
      case Expired003(s) =>
      case NotYetValid004(s) =>
      case _ =>
    }
  }

  /** Nothing stops the verdict for a healthy zone. */
  lemma HealthyPasses(c: Crypto, zone: Str, now: int, r: Responses, union: seq<RR>, zk: ZoneKeys, anchor: ZoneKeys,
                      failures: seq<Issue>, verified: nat, chain: seq<Issue>)
    requires Stage(c, zone, r, union, zk, anchor) && Healthy(c, zone, now, r)
    requires TallyOutcome(c, Canon(zone), UnitSet(c, r.Units(), r.Keys()), failures, verified)
    requires ChainDecided(c, now, anchor, zk, failures == [], verified, chain)
    ensures chain == [Validated011(verified)]
  {
    AllPairsPass(c, zone, r, failures, verified);
    FiledDs(r.Anchor(), anchor.dss);
    LifetimeMeans(c, zone, now, r, union, zk, anchor);
    var apex :| IsApex(zk, apex) && chain == ChainFindings(c, now, anchor, zk, apex, failures == [], verified);
    MismatchMeans(c, zone, r, union, zk, anchor, apex);
  }

  lemma AllPairsPass(c: Crypto, zone: Str, r: Responses, failures: seq<Issue>, verified: nat)
    requires TallyOutcome(c, Canon(zone), UnitSet(c, r.Units(), r.Keys()), failures, verified)
    requires exists n, t: u16 :: PairTracked(c, zone, r, n, t)
    requires forall n, t: u16 :: !PairFailed(c, zone, r, n, t)
    ensures verified > 0 && failures == []
  {
    var us := UnitSet(c, r.Units(), r.Keys());
    var n: Str, t: u16 :| PairTracked(c, zone, r, n, t);
    CountedIsTracked(c, zone, r, n, t);
    if failures != [] {
      var n', t': u16 :| Reported(failures, n', t');
      assert Failed(c, us, Canon(zone), n', t');
      PairsCollected(c, zone, r, n', t');
      assert false;
    }
  }

  // ----- the whole report -----

  lemma ReportMeans(c: Crypto, zone: Str, now: int, r: Responses, union: seq<RR>, zk: ZoneKeys, anchor: ZoneKeys,
                    checks: seq<Issue>, failures: seq<Issue>, verified: nat, chain: seq<Issue>, i: Issue)
    requires Stage(c, zone, r, union, zk, anchor) && LooksSigned(c, zone, r) && ZoneIssues(zk, now, checks)
    requires TallyOutcome(c, Canon(zone), UnitSet(c, r.Units(), r.Keys()), failures, verified)
    requires ChainDecided(c, now, anchor, zk, failures == [], verified, chain)
    requires NamesFirstTags(c, Canon(zone), r.Units(), r.Keys(), failures)
    ensures i in checks + failures + chain ==> Means(c, zone, now, r, i)
    ensures !IsVerdict(i) || i.NoDS007? ==> (i in checks + failures + chain <==> Means(c, zone, now, r, i))
  {
    ChecksMean(c, zone, now, r, union, zk, anchor, checks, i);
    ChainMeans(c, zone, now, r, union, zk, anchor, failures, verified, chain, i);
    if i in failures {
      assert Reported(failures, i.name, i.rtype);
      PairsCollected(c, zone, r, i.name, i.rtype);
    }
  }

  /** The part of the branch that runs when the zone looks signed. */
  method AuditSigned(c: Crypto, zone: Str, now: int, ghost r: Responses, units: seq<Msg>, keys: seq<RR>, zk: ZoneKeys,
                     anchor: ZoneKeys, ghost union: seq<RR>)
    returns (issues: seq<Issue>)
    requires Stage(c, zone, r, union, zk, anchor) && units == r.Units() && keys == r.Keys()
    requires LooksSigned(c, zone, r)
    ensures VerdictHolds(c, zone, now, r, issues)
  {
    var checks := CheckZone(zk, now);
    var failures, verified := VerifySignatures(c, zone, units, keys);
    var chain := Decide(c, now, anchor, zk, failures, verified);
    issues := checks + failures + chain;
    forall i: Issue ensures i in issues ==> Means(c, zone, now, r, i)
      ensures !IsVerdict(i) || i.NoDS007? ==> (i in issues <==> Means(c, zone, now, r, i)) {
      ReportMeans(c, zone, now, r, union, zk, anchor, checks, failures, verified, chain, i);
    }
    forall v, i | Validated011(v) in issues && i in issues ensures !Contradicts(i) {
      NothingContradicts(c, now, zk, anchor, checks, failures, verified, chain, v, i);
    }
    CompletenessHolds(c, zone, now, r, union, zk, anchor, checks, failures, verified, chain);
  }

  lemma CompletenessHolds(c: Crypto, zone: Str, now: int, r: Responses, union: seq<RR>, zk: ZoneKeys, anchor: ZoneKeys,
                          checks: seq<Issue>, failures: seq<Issue>, verified: nat, chain: seq<Issue>)
    requires Stage(c, zone, r, union, zk, anchor)
    requires TallyOutcome(c, Canon(zone), UnitSet(c, r.Units(), r.Keys()), failures, verified)
    requires ChainDecided(c, now, anchor, zk, failures == [], verified, chain)
    ensures var issues := checks + failures + chain;
            && (Healthy(c, zone, now, r) ==> ReportsValidated(issues))
            && (Broken(c, zone, now, r) ==> ReportsBroken(issues))
            && (forall n, t: u16 :: PairTracked(c, zone, r, n, t) && !PairAccepted(c, zone, r, n, t)
                                    ==> Reported(issues, n, t))
  {
    var issues := checks + failures + chain;
    if Healthy(c, zone, now, r) {
      HealthyPasses(c, zone, now, r, union, zk, anchor, failures, verified, chain);
      assert Validated011(verified) in issues;
    }
    if Broken(c, zone, now, r) {
      BrokenIsReported(c, zone, now, r, union, zk, anchor, failures == [], verified, chain);
      var m :| BrokenChain006(m) in chain;
      assert BrokenChain006(m) in issues;
    }
    forall n, t: u16 | PairTracked(c, zone, r, n, t) && !PairAccepted(c, zone, r, n, t) ensures Reported(issues, n, t) {
      PairsCollected(c, zone, r, n, t);
      assert !Passed(UnitSet(c, r.Units(), r.Keys()), Canon(zone), failures, n, t);
      var tag :| InvalidSignature010(n, t, tag) in failures;
      assert InvalidSignature010(n, t, tag) in issues;
    }
  }

  /** Nothing is due for a zone that does not look signed. */
  lemma UnsignedIsSilent(c: Crypto, zone: Str, now: int, r: Responses)
    requires !LooksSigned(c, zone, r)
    ensures VerdictHolds(c, zone, now, r, [])
  {
    forall i: Issue | !IsVerdict(i) || i.NoDS007? ensures !Means(c, zone, now, r, i) {
      match i
      case Expired003(s) =>
      case NotYetValid004(s) =>
      case DeprecatedAlgorithm005(s) =>
      case _ =>
    }
  }

  /** The DNSSEC branch of `Run` for one fixed clock. Every finding is true of
      the responses; in particular, whenever "validated" is reported, a DS of
      the anchor is the digest of a key collected at the same name (if a DS was
      left after deduplication), some in-zone signature verified over the
      records of its own response, and no contradicting finding is reported.
      Conversely a healthy zone is always reported as validated. */
  method AuditDNSSEC(c: Crypto, zone: Str, now: int, r: Responses) returns (issues: seq<Issue>)
    ensures VerdictHolds(c, zone, now, r, issues)
  {
    var d := CollectDNSSEC(r.initial, r.apexRecords, r.apexUnits, r.keyResp, r.dsResp, r.probe);
    var zk, anchor := Prepare(c, zone, r, d);
    ghost var union := d.combined.answer + d.combined.ns;
    FiledKeys(c, zone, r, union, zk, anchor);
    FiledSigs(c, zone, r, union, zk, anchor);
    FiledDs(r.Anchor(), anchor.dss);
    if zk.dnskeys.Keys != {} || zk.rrsigs.Keys != {} || anchor.dss.Keys != {} {
      issues := AuditSigned(c, zone, now, r, d.units, d.keys, zk, anchor, union);
    } else {
      UnsignedIsSilent(c, zone, now, r);
      issues := [];
    }
  }

  /** A reported pair is refuted, by signature, key and octets, in every response
      that tracks it. */
  lemma InvalidIsRefuted(c: Crypto, zone: Str, now: int, r: Responses, issues: seq<Issue>, n: Str, t: u16, tag: u16,
                         u: Msg)
    requires VerdictHolds(c, zone, now, r, issues) && InvalidSignature010(n, t, tag) in issues
    requires u in r.Units() && TrackedIn(c, Canon(zone), UnitRecords(r, u), n, t)
    ensures var rrs := UnitRecords(r, u);
            exists sig, k, m :: && sig in SigsAt(rrs, n) && sig.typeCovered == t
                                && k in KeysAt(c, rrs, m) && k.keyTag == sig.keyTag
                                && !c.verifies(sig, k, SignedOctets(sig, n, RRsAt(rrs, n, t)))
  {
    assert Means(c, zone, now, r, InvalidSignature010(n, t, tag));
    assert WithKeys(u, r.Keys()) == UnitRecords(r, u);
    var sig, k :| Refutes(c, WithKeys(u, r.Keys()), n, t, sig, k);
  }

  lemma FailedIsRefuted(c: Crypto, zone: Str, r: Responses, n: Str, t: u16)
    returns (u: Msg, sig: RRSIGInfo, k: KeyInfo)
    requires PairFailed(c, zone, r, n, t)
    ensures u in r.Units() && TrackedIn(c, Canon(zone), UnitRecords(r, u), n, t)
    ensures Refutes(c, UnitRecords(r, u), n, t, sig, k)
  {
    u :| u in r.Units() && TrackedIn(c, Canon(zone), WithKeys(u, r.Keys()), n, t);
    assert WithKeys(u, r.Keys()) == UnitRecords(r, u);
    sig, k :| Refutes(c, WithKeys(u, r.Keys()), n, t, sig, k);
  }

  /** Where the library confirms every signature whose key a response carries, no
      signature is reported as invalid, whatever kind of key it is. */
  lemma SoundSignaturesAreSilent(c: Crypto, zone: Str, now: int, r: Responses, issues: seq<Issue>)
    requires VerdictHolds(c, zone, now, r, issues)
    requires forall u, n, t: u16, sig, k :: u in r.Units() && Candidate(c, UnitRecords(r, u), n, t, sig, k)
                                            ==> Answer(c, UnitRecords(r, u), n, t, sig, k)
    ensures forall i :: i in issues ==> !i.InvalidSignature010?
  {
    forall i | i in issues ensures !i.InvalidSignature010? {
      if i.InvalidSignature010? {
        assert Means(c, zone, now, r, i);
        var u, sig, k := FailedIsRefuted(c, zone, r, i.name, i.rtype);
        assert false;
      }
    }
  }

  // ----- when the verdict is determined -----

  /** The map orders leave no choice: one possible apex, and no two keys of a
      response share a tag. */
  ghost predicate Determined(c: Crypto, r: Responses) {
    && (forall a, b :: PossibleApex(c, r, a) && PossibleApex(c, r, b) ==> a == b)
    && (forall zk :: zk in UnitSet(c, r.Units(), r.Keys()) ==> UniqueTags(zk))
  }

  lemma TrackedIsAcceptedOrFailed(c: Crypto, zone: Str, r: Responses, n: Str, t: u16)
    requires Determined(c, r) && PairTracked(c, zone, r, n, t)
    ensures PairAccepted(c, zone, r, n, t) <==> !PairFailed(c, zone, r, n, t)
  {
    var us := UnitSet(c, r.Units(), r.Keys());
    PairsCollected(c, zone, r, n, t);
    forall zk | zk in us && Tracked(zk, Canon(zone), n, t)
      ensures AllAccepted(c, zk, n, t) <==> !SomeRejected(c, zk, n, t) {
      OutcomeIsDetermined(c, zk, n, t);
    }
  }

  lemma SomeDsOwner(c: Crypto, r: Responses)
    requires HasDs(r.Union())
    ensures exists n :: PossibleApex(c, r, n)
  {
    var rr :| rr in r.Union() && rr.data.DS?;
    DsAtName(r.Union(), Canon(rr.name));
    assert OwnsDs(r, Canon(rr.name));
    if n :| OwnsDs(r, n) && OwnsKey(c, r, n) {
      assert PossibleApex(c, r, n);
    } else {
      assert PossibleApex(c, r, Canon(rr.name));
    }
  }

  lemma PossibleApexHasDs(c: Crypto, r: Responses, n: Str)
    requires PossibleApex(c, r, n)
    ensures HasDs(r.Union())
  {
    DsAtName(r.Union(), n);
  }

  lemma ValidatedIsHealthy(c: Crypto, zone: Str, now: int, r: Responses)
    requires Trustworthy(c, zone, now, r) && Determined(c, r)
    ensures Healthy(c, zone, now, r)
  {
    ApexIsDecided(c, r);
    forall n, t: u16 ensures !PairFailed(c, zone, r, n, t) {
      if PairTracked(c, zone, r, n, t) {
        TrackedIsAcceptedOrFailed(c, zone, r, n, t);
      }
    }
  }

  lemma ReportedBrokenIsBroken(c: Crypto, zone: Str, now: int, r: Responses, mismatch: bool)
    requires Means(c, zone, now, r, BrokenChain006(mismatch)) && Determined(c, r)
    ensures Broken(c, zone, now, r)
  {
    ApexIsDecided(c, r);
  }

  lemma InvalidIsExact(c: Crypto, zone: Str, now: int, r: Responses, issues: seq<Issue>, n: Str, t: u16)
    requires VerdictHolds(c, zone, now, r, issues) && Determined(c, r)
    ensures Reported(issues, n, t) <==> LooksSigned(c, zone, r) && PairFailed(c, zone, r, n, t)
    ensures forall tag :: InvalidSignature010(n, t, tag) in issues
                          <==> Means(c, zone, now, r, InvalidSignature010(n, t, tag))
  {
    if Reported(issues, n, t) {
      var tag :| InvalidSignature010(n, t, tag) in issues;
      assert Means(c, zone, now, r, InvalidSignature010(n, t, tag));
    }
    if PairFailed(c, zone, r, n, t) {
      assert PairTracked(c, zone, r, n, t);
      TrackedIsAcceptedOrFailed(c, zone, r, n, t);
    }
  }

  /** Then the whole report is determined: each verdict is reported if and only
      if its condition on the responses holds. */
  lemma ReportIsExact(c: Crypto, zone: Str, now: int, r: Responses, issues: seq<Issue>)
    requires VerdictHolds(c, zone, now, r, issues) && Determined(c, r)
    ensures ReportsValidated(issues) <==> Healthy(c, zone, now, r)
    ensures ReportsBroken(issues) <==> Broken(c, zone, now, r)
    ensures forall n, t: u16, tag :: InvalidSignature010(n, t, tag) in issues
                                     <==> Means(c, zone, now, r, InvalidSignature010(n, t, tag))
  {
    if ReportsValidated(issues) {
      var v :| Validated011(v) in issues;
      assert Means(c, zone, now, r, Validated011(v));
      ValidatedIsHealthy(c, zone, now, r);
    }
    if ReportsBroken(issues) {
      var m :| BrokenChain006(m) in issues;
      ReportedBrokenIsBroken(c, zone, now, r, m);
    }
    forall n, t: u16, tag ensures InvalidSignature010(n, t, tag) in issues
                                  <==> Means(c, zone, now, r, InvalidSignature010(n, t, tag)) {
      InvalidIsExact(c, zone, now, r, issues, n, t);
    }
  }

  lemma ApexIsDecided(c: Crypto, r: Responses)
    requires Determined(c, r)
    ensures HasDs(r.Union()) ==> (SomeApexMatches(c, r) <==> !SomeApexMismatches(c, r))
    ensures SomeApexMismatches(c, r) ==> HasDs(r.Union())
  {
    if HasDs(r.Union()) {
      SomeDsOwner(c, r);
    }
    if n :| PossibleApex(c, r, n) && !DsMatchesKeyAt(c, r, n) {
      PossibleApexHasDs(c, r, n);
    }
  }

  // ----- when a DS is compared, and where it matches -----

  /** Without ambiguous owner names a DS of the anchor always reaches the
      comparison, so "validated" then means a match without any reservation. */
  lemma UnambiguousVerdictIsSound(c: Crypto, zone: Str, now: int, r: Responses)
    requires Trustworthy(c, zone, now, r) && UnambiguousOwners(r.All())
    ensures SomeApexMatches(c, r)
  {
    AnchorIsCollected(r);
    var rr :| rr in r.Anchor() && rr.data.DS?;
    assert rr in r.All();
    DsSurvives(r.All());
  }

  /** In general: a validated chain has a match at a name the code may pick if and
      only if deduplication left a DS. */
  lemma ValidatedMatchesIffDsIsLeft(c: Crypto, zone: Str, now: int, r: Responses)
    requires Trustworthy(c, zone, now, r)
    ensures SomeApexMatches(c, r) <==> HasDs(r.Union())
  {
    if n :| PossibleApex(c, r, n) && DsMatchesKeyAt(c, r, n) {
      PossibleApexHasDs(c, r, n);
    }
  }

  lemma AnchorIsCollected(r: Responses)
    ensures forall rr :: rr in r.Anchor() ==> rr in r.All()
  {
  }

  /** Nor does deduplication then lose a DS owner. */
  lemma DsOwnerSurvives(r: Responses, rr: RR)
    requires UnambiguousOwners(r.All()) && rr in r.All() && rr.data.DS?
    ensures OwnsDs(r, Canon(rr.name))
  {
    var rep := Representative(r.All(), rr);
    TypeIsDs(rr.data);
    TypeIsDs(rep.data);
    DsAtName(r.Union(), Canon(rr.name));
  }

  lemma KeysAreCanonical(d: Data)
    ensures TypeOf(d) == TYPE_DNSKEY <==> d.DNSKEY?
    ensures d.DNSKEY? ==> Encodable(d) && Canonical(d) == d
  {
  }

  /** Nor a key. */
  lemma UnionKeepsKey(c: Crypto, src: seq<RR>, n: Str, k: KeyInfo)
    requires UnambiguousOwners(src)
    ensures k in KeysAt(c, Merged(KeyOf, src), n) <==> k in KeysAt(c, src, n)
  {
    KeyHasRecord(c, src, n, k);
    KeyHasRecord(c, Merged(KeyOf, src), n, k);
    MergedKeys(KeyOf, src, []);
    if rr :| rr in src && IsKeyRecord(c, rr, n, k) {
      var rep := Representative(src, rr);
      KeysAreCanonical(rr.data);
      KeysAreCanonical(rep.data);
      assert IsKeyRecord(c, rep, n, k);
    }
  }

  /** The presentation form of an RRSIG, under which the code files it, says all
      about the record. */
  ghost predicate TextsDetermine(rrs: seq<RR>) {
    forall a, b :: a in rrs && b in rrs && a.data.RRSIG? && b.data.RRSIG? && a.text == b.text
                   ==> a.data.sig == b.data.sig
  }

  lemma TypeIsSig(d: Data)
    ensures TypeOf(d) == TYPE_RRSIG <==> d.RRSIG?
  {
  }

  /** The signature that stands for `rr` after merging is the same one. */
  lemma SigRepresentative(src: seq<RR>, rr: RR) returns (rep: RR)
    requires UnambiguousOwners(src) && TextsDetermine(src) && rr in src && rr.data.RRSIG?
    ensures rep in Merged(KeyOf, src) && Canon(rep.name) == Canon(rr.name) && rep.data == rr.data
  {
    rep := Representative(src, rr);
    TypeIsSig(rr.data);
    TypeIsSig(rep.data);
    TextOfSig(rr);
    TextOfSig(rep);
  }

  lemma TextOfSig(rr: RR)
    requires rr.data.RRSIG?
    ensures RrKey(rr) == rr.text
  {
  }

  lemma UnionKeepsSigAt(src: seq<RR>, n: Str, s: RRSIGInfo)
    requires UnambiguousOwners(src) && TextsDetermine(src)
    ensures s in SigsAt(Merged(KeyOf, src), n) <==> s in SigsAt(src, n)
  {
    MergedKeys(KeyOf, src, []);
    SigHasRecord(src, n, s);
    SigHasRecord(Merged(KeyOf, src), n, s);
    if rr :| rr in src && IsSigRecord(rr, n, s) {
      var rep := SigRepresentative(src, rr);
      assert IsSigRecord(rep, n, s);
    }
  }

  /** Nor a signature, so that lifetimes are then checked of all of them. */
  lemma UnionKeepsSig(zone: Str, src: seq<RR>, s: RRSIGInfo)
    requires UnambiguousOwners(src) && TextsDetermine(src)
    ensures ZoneSig(zone, Merged(KeyOf, src), s) <==> ZoneSig(zone, src, s)
  {
    forall n ensures s in SigsAt(Merged(KeyOf, src), n) <==> s in SigsAt(src, n) {
      UnionKeepsSigAt(src, n, s);
    }
  }

  /** The zone is the only DS owner with keys; or no DS owner has keys, and the
      zone is the only DS owner. */
  ghost predicate SoleOwner(c: Crypto, r: Responses, zone: Str) {
    || (OwnsDs(r, zone) && OwnsKey(c, r, zone) && forall m :: OwnsDs(r, m) && OwnsKey(c, r, m) ==> m == zone)
    || (OwnsDs(r, zone) && (forall m :: OwnsDs(r, m) ==> !OwnsKey(c, r, m) && m == zone))
  }

  /** The chain is checked at the audited zone, under every order of the maps,
      if and only if the zone is the sole owner in that sense. */
  lemma ChainIsCheckedAtZoneIff(c: Crypto, zone: Str, r: Responses)
    requires HasDs(r.Union())
    ensures (forall n :: PossibleApex(c, r, n) ==> n == Canon(zone)) <==> SoleOwner(c, r, Canon(zone))
  {
    SomeDsOwner(c, r);
    if forall n :: PossibleApex(c, r, n) ==> n == Canon(zone) {
      assert PossibleApex(c, r, Canon(zone));
      forall m | OwnsDs(r, m) && OwnsKey(c, r, m) ensures m == Canon(zone) { assert PossibleApex(c, r, m); }
      if !OwnsKey(c, r, Canon(zone)) {
        forall m | OwnsDs(r, m) ensures m == Canon(zone) { assert PossibleApex(c, r, m); }
      }
    }
  }

  /** So for a sole owner "validated" means a match at the zone itself. */
  lemma MatchIsAtZone(c: Crypto, zone: Str, now: int, r: Responses)
    requires Trustworthy(c, zone, now, r) && HasDs(r.Union()) && SoleOwner(c, r, Canon(zone))
    ensures DsMatchesKeyAt(c, r, Canon(zone))
  {
    ChainIsCheckedAtZoneIff(c, zone, r);
  }

  // ----- without a DS in the union no digest is looked at -----

  /** The same library with other hash functions. */
  function WithHash(c: Crypto, h: (byte, Str) -> Str): Crypto {
    c.(hash := h)
  }

  lemma {:induction false} KeysIgnoreHash(c: Crypto, h: (byte, Str) -> Str, rrs: seq<RR>, n: Str)
    ensures KeysAt(WithHash(c, h), rrs, n) == KeysAt(c, rrs, n)
  {
    if rrs != [] {
      KeysIgnoreHash(c, h, rrs[..|rrs| - 1], n);
    }
  }

  lemma {:induction false} CollectedIgnoresHash(c: Crypto, h: (byte, Str) -> Str, rrs: seq<RR>)
    ensures Collected(WithHash(c, h), rrs) == Collected(c, rrs)
  {
    if rrs != [] {
      CollectedIgnoresHash(c, h, rrs[..|rrs| - 1]);
    }
  }

  lemma UnitsIgnoreHash(c: Crypto, h: (byte, Str) -> Str, units: seq<Msg>, keys: seq<RR>)
    ensures UnitSet(WithHash(c, h), units, keys) == UnitSet(c, units, keys)
  {
    forall u ensures UnitKeys(WithHash(c, h), u, keys) == UnitKeys(c, u, keys) {
      CollectedIgnoresHash(c, h, u.answer + keys + u.ns);
    }
  }

  lemma PairsIgnoreHash(c: Crypto, h: (byte, Str) -> Str, zone: Str, r: Responses, n: Str, t: u16)
    ensures PairTracked(WithHash(c, h), zone, r, n, t) <==> PairTracked(c, zone, r, n, t)
    ensures PairFailed(WithHash(c, h), zone, r, n, t) <==> PairFailed(c, zone, r, n, t)
  {
    UnitsIgnoreHash(c, h, r.Units(), r.Keys());
    PairsCollected(c, zone, r, n, t);
    PairsCollected(WithHash(c, h), zone, r, n, t);
    forall zk ensures SomeRejected(WithHash(c, h), zk, n, t) <==> SomeRejected(c, zk, n, t) {
      RejectionIgnoresHash(c, h, zk, n, t);
    }
  }

  lemma RejectionIgnoresHash(c: Crypto, h: (byte, Str) -> Str, zk: ZoneKeys, n: Str, t: u16)
    ensures SomeRejected(WithHash(c, h), zk, n, t) <==> SomeRejected(c, zk, n, t)
  {
    forall sig, k ensures Verifies(WithHash(c, h), zk, n, t, sig, k) <==> Verifies(c, zk, n, t, sig, k) {}
    forall sig ensures Rejected(WithHash(c, h), zk, n, t, sig) <==> Rejected(c, zk, n, t, sig) {}
  }

  lemma {:induction false} LongDigest(dss: seq<RR>) returns (d: Str)
    ensures forall n, ds :: ds in DSsAt(dss, n) ==> |ds.digest| < |d|
  {
    d := [0];
    if dss != [] {
      var p, rr := dss[..|dss| - 1], dss[|dss| - 1];
      d := LongDigest(p);
      if rr.data.DS? && rr.data.digest.Some? {
        d := d + rr.data.digest.value + [0];
      } else {
        d := d + [0];
      }
    }
  }

  lemma NoDsNoMismatch(c: Crypto, r: Responses)
    requires !HasDs(r.Union())
    ensures !SomeApexMismatches(c, r)
  {
    forall n ensures !PossibleApex(c, r, n) {
      if PossibleApex(c, r, n) {
        PossibleApexHasDs(c, r, n);
      }
    }
  }

  lemma HealthIgnoresHash(c: Crypto, h: (byte, Str) -> Str, zone: Str, now: int, r: Responses)
    requires Healthy(c, zone, now, r) && !HasDs(r.Union())
    ensures Healthy(WithHash(c, h), zone, now, r)
  {
    var n: Str, t: u16 :| PairTracked(c, zone, r, n, t);
    PairsIgnoreHash(c, h, zone, r, n, t);
    forall n, t: u16 ensures !PairFailed(WithHash(c, h), zone, r, n, t) {
      PairsIgnoreHash(c, h, zone, r, n, t);
    }
    NoDsNoMismatch(WithHash(c, h), r);
  }

  /** Whenever a zone is healthy and no DS is left in the union, "validated" does
      not depend on any digest: with some other hash functions the zone is as
      healthy, and no DS of the anchor matches any key. So a DS in the union is
      exactly what a match behind "validated" needs. */
  lemma DigestsAreIgnored(c: Crypto, zone: Str, now: int, r: Responses) returns (h: (byte, Str) -> Str)
    requires Healthy(c, zone, now, r) && !HasDs(r.Union())
    ensures Healthy(WithHash(c, h), zone, now, r)
    ensures forall n, ds, k :: ds in DSsAt(r.Anchor(), n) ==> !IsDigestOf(WithHash(c, h), ds, n, k)
  {
    var d := LongDigest(r.Anchor());
    h := (t, o) => d;
    HealthIgnoresHash(c, h, zone, now, r);
  }
}
