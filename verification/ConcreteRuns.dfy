/** Two concrete audits, for any cryptography, in which "validated" is reported
    although the audited zone's own DS matches no key: in one the DS is lost in
    deduplication, in the other the chain is checked at another owner. */
module ConcreteRuns {
  import opened Ordering
  import opened Bytes
  import opened Names
  import opened RData
  import opened SignedData
  import opened Chain
  import opened RecordKey
  import opened Merging
  import opened Gather
  import opened SignatureTally
  import opened Verdict
  import KeyTag

  const ECDSA_P256: byte := 13
  const SHA256: byte := 2

  // ----- runs with one key and one signature -----

  function SignerKey(key: Str): Data {
    DNSKEY(257, 3, ECDSA_P256, key)
  }

  function SignerInfo(key: Str): KeyInfo {
    KeyInfo(257, 3, ECDSA_P256, key, KeyTag.Tag(KeyTag.KeyRData(257, 3, ECDSA_P256, key)))
  }

  /** A signature that is valid at all times, with the tag of the key. */
  function SigOver(rtype: u16, signer: Str, labels: byte, key: Str, signature: Str): Rrsig {
    Rrsig(rtype, ECDSA_P256, labels, 3600, 0xffff_ffff, 0, SignerInfo(key).keyTag, signer, signature)
  }

  /** The library accepts the key, and the signature over the records given. */
  ghost predicate Accepts(c: Crypto, n: Str, sig: Rrsig, key: Str, covered: seq<RR>) {
    && key != [] && c.wellFormed(ECDSA_P256, key)
    && c.verifies(ParseRRSIG(sig), SignerInfo(key), SignedOctets(ParseRRSIG(sig), n, covered))
  }

  lemma {:induction false} RRsAtMembers(rrs: seq<RR>, n: Str, t: u16, rr: RR)
    ensures rr in RRsAt(rrs, n, t) <==> rr in rrs && Canon(rr.name) == n && TypeOf(rr.data) == t
  {
    if rrs != [] {
      RRsAtMembers(rrs[..|rrs| - 1], n, t, rr);
      LastOrBefore(rrs, rr);
    }
  }

  /** The record is no other signature than `sig` at `n`, no other usable key
      than `key`, and covered by `sig` only if it is in `covered`. */
  ghost predicate Fits(c: Crypto, rr: RR, n: Str, sig: Rrsig, key: Str, covered: seq<RR>) {
    && (rr.data.RRSIG? ==> Canon(rr.name) == n && rr.data.sig == sig)
    && (rr.data.DNSKEY? ==> ParseDNSKEY(c, rr.data) in {None, Some(SignerInfo(key))})
    && (IsCovered(rr, n, sig) ==> rr in covered)
  }

  ghost predicate IsCovered(rr: RR, n: Str, sig: Rrsig) {
    Canon(rr.name) == n && TypeOf(rr.data) == sig.typeCovered
  }

  /** In this list of records the only signature is `sig` at `n`, the only usable
      key is `key`, and if any record is covered then all of `covered` are. */
  ghost predicate OneSigner(c: Crypto, rrs: seq<RR>, n: Str, sig: Rrsig, key: Str, covered: seq<RR>) {
    && (forall rr :: rr in rrs ==> Fits(c, rr, n, sig, key, covered))
    && (forall rr :: rr in covered ==> IsCovered(rr, n, sig))
    && ((exists rr :: rr in rrs && IsCovered(rr, n, sig)) ==> forall rr :: rr in covered ==> rr in rrs)
  }

  lemma CoveredOctets(c: Crypto, rrs: seq<RR>, n: Str, sig: Rrsig, key: Str, covered: seq<RR>)
    requires OneSigner(c, rrs, n, sig, key, covered) && RRsAt(rrs, n, sig.typeCovered) != []
    ensures SignedOctets(ParseRRSIG(sig), n, RRsAt(rrs, n, sig.typeCovered))
            == SignedOctets(ParseRRSIG(sig), n, covered)
  {
    var at := RRsAt(rrs, n, sig.typeCovered);
    RRsAtMembers(rrs, n, sig.typeCovered, at[0]);
    assert IsCovered(at[0], n, sig);
    forall rr ensures rr in at <==> rr in covered {
      RRsAtMembers(rrs, n, sig.typeCovered, rr);
      assert rr in rrs ==> Fits(c, rr, n, sig, key, covered);
    }
    SignedOctetsOfSameRecords(ParseRRSIG(sig), n, at, covered);
  }

  lemma OnlySig(c: Crypto, rrs: seq<RR>, n: Str, sig: Rrsig, key: Str, covered: seq<RR>, m: Str, s: RRSIGInfo)
    requires OneSigner(c, rrs, n, sig, key, covered) && s in SigsAt(rrs, m)
    ensures m == n && s == ParseRRSIG(sig)
  {
    SigHasRecord(rrs, m, s);
    var rr :| rr in rrs && IsSigRecord(rr, m, s);
    assert Fits(c, rr, n, sig, key, covered);
  }

  lemma OnlyKey(c: Crypto, rrs: seq<RR>, n: Str, sig: Rrsig, key: Str, covered: seq<RR>, o: Str, k: KeyInfo)
    requires OneSigner(c, rrs, n, sig, key, covered) && k in KeysAt(c, rrs, o)
    ensures k == SignerInfo(key)
  {
    KeyHasRecord(c, rrs, o, k);
    var rr :| rr in rrs && IsKeyRecord(c, rr, o, k);
    assert Fits(c, rr, n, sig, key, covered);
  }

  /** With one signer nothing is refuted. */
  lemma OneSignerAccepts(c: Crypto, rrs: seq<RR>, n: Str, sig: Rrsig, key: Str, covered: seq<RR>, m: Str, t: u16,
                         s: RRSIGInfo, k: KeyInfo)
    requires OneSigner(c, rrs, n, sig, key, covered) && Accepts(c, n, sig, key, covered)
    requires Candidate(c, rrs, m, t, s, k) && RRsAt(rrs, m, t) != []
    ensures Answer(c, rrs, m, t, s, k)
  {
    OnlySig(c, rrs, n, sig, key, covered, m, s);
    var o :| k in KeysAt(c, rrs, o);
    OnlyKey(c, rrs, n, sig, key, covered, o, k);
    CoveredOctets(c, rrs, n, sig, key, covered);
  }

  lemma NoPairFails(c: Crypto, zone: Str, r: Responses, n: Str, sig: Rrsig, key: Str, covered: seq<RR>)
    requires forall u :: u in r.Units() ==> OneSigner(c, UnitRecords(r, u), n, sig, key, covered)
    requires Accepts(c, n, sig, key, covered)
    ensures forall m, t: u16 :: !PairFailed(c, zone, r, m, t)
  {
    forall m, t: u16 ensures !PairFailed(c, zone, r, m, t) {
      if PairFailed(c, zone, r, m, t) {
        var u, s, k := FailedIsRefuted(c, zone, r, m, t);
        OneSignerAccepts(c, UnitRecords(r, u), n, sig, key, covered, m, t, s, k);
        assert false;
      }
    }
  }

  lemma SigIsThere(rrs: seq<RR>, rr: RR)
    requires rr in rrs && rr.data.RRSIG?
    ensures ParseRRSIG(rr.data.sig) in SigsAt(rrs, Canon(rr.name))
  {
    assert IsSigRecord(rr, Canon(rr.name), ParseRRSIG(rr.data.sig));
    SigHasRecord(rrs, Canon(rr.name), ParseRRSIG(rr.data.sig));
  }

  lemma SignerIsThere(c: Crypto, rrs: seq<RR>, rr: RR, key: Str)
    requires rr in rrs && rr.data == SignerKey(key) && key != [] && c.wellFormed(ECDSA_P256, key)
    ensures SignerInfo(key) in KeysAt(c, rrs, Canon(rr.name))
  {
    assert IsKeyRecord(c, rr, Canon(rr.name), SignerInfo(key));
    KeyHasRecord(c, rrs, Canon(rr.name), SignerInfo(key));
  }

  /** A response with the key, the signature and a covered record is checked. */
  lemma PairIsChecked(c: Crypto, zone: Str, r: Responses, u: Msg, n: Str, sigRR: RR, keyRR: RR, rr: RR, key: Str)
    requires u in r.Units() && InZoneTest(n, Canon(zone))
    requires sigRR in UnitRecords(r, u) && sigRR.data.RRSIG? && Canon(sigRR.name) == n
    requires keyRR in UnitRecords(r, u) && keyRR.data == SignerKey(key)
    requires rr in UnitRecords(r, u) && Canon(rr.name) == n && TypeOf(rr.data) == sigRR.data.sig.typeCovered
    requires key != [] && c.wellFormed(ECDSA_P256, key) && sigRR.data.sig.keyTag == SignerInfo(key).keyTag
    requires TypeOf(rr.data) != TYPE_DS
    ensures PairTracked(c, zone, r, n, TypeOf(rr.data))
  {
    var rrs, t := WithKeys(u, r.Keys()), TypeOf(rr.data);
    assert rrs == UnitRecords(r, u);
    RRsAtMembers(rrs, n, t, rr);
    SigIsThere(rrs, sigRR);
    SignerIsThere(c, rrs, keyRR, key);
    assert Candidate(c, rrs, n, t, ParseRRSIG(sigRR.data.sig), SignerInfo(key));
    assert TrackedIn(c, Canon(zone), rrs, n, t);
  }

  predicate Everlasting(rr: RR) {
    rr.data.RRSIG? ==> rr.data.sig.expiration == 0xffff_ffff && rr.data.sig.inception == 0
  }

  /** With signatures that are valid at all times nothing is untimely. */
  lemma NothingUntimely(zone: Str, now: u32, r: Responses)
    requires forall rr :: rr in r.All() ==> Everlasting(rr)
    ensures !Untimely(zone, now, r)
  {
    MergedKeys(KeyOf, r.All(), []);
    forall s | ZoneSig(zone, r.Union(), s) ensures Timely(s, now) {
      var n :| s in SigsAt(r.Union(), n);
      SigHasRecord(r.Union(), n, s);
      var rr :| rr in r.Union() && IsSigRecord(rr, n, s);
      assert Everlasting(rr);
    }
  }

  lemma ThenHealthy(c: Crypto, zone: Str, now: u32, r: Responses, n: Str, t: u16)
    requires HasDs(r.Anchor()) && !SomeApexMismatches(c, r) && forall rr :: rr in r.All() ==> Everlasting(rr)
    requires PairTracked(c, zone, r, n, t) && forall m, u: u16 :: !PairFailed(c, zone, r, m, u)
    ensures Healthy(c, zone, now, r)
  {
    NothingUntimely(zone, now, r);
  }

  // ----- the DS of the zone is lost in deduplication -----

  function OddKeyRR(key: Str): RR {
    RR(ODD_NAME, SignerKey(key), [])
  }

  function OddSig(key: Str, signature: Str): Rrsig {
    SigOver(TYPE_DNSKEY, ODD_NAME, 2, key, signature)
  }

  function OddSigRR(key: Str, signature: Str): RR {
    RR(ODD_NAME, RRSIG(OddSig(key, signature)), [])
  }

  function OddDs(key: Str, digest: Str): RR {
    DsAtOdd(SignerInfo(key).keyTag, ECDSA_P256, SHA256, digest, [])
  }

  function Shadow(key: Str, digest: Str): RR {
    ShadowOf(OddDs(key, digest), [])
  }

  /** An audit of `x.|48|abcd.`: the first response carries a DNSKEY of `x.` with
      an unknown algorithm, the zone publishes a key that signs itself, and the
      parent a DS with the given digest. */
  function ShadowRun(key: Str, signature: Str, digest: Str): Responses {
    Responses(Msg([Shadow(key, digest)], []), [], [],
              Some(Msg([OddKeyRR(key), OddSigRR(key, signature)], [])), Some(Msg([OddDs(key, digest)], [])), None)
  }

  lemma ShadowRecords(key: Str, signature: Str, digest: Str)
    ensures var r := ShadowRun(key, signature, digest);
            && r.All() == [Shadow(key, digest), OddKeyRR(key), OddSigRR(key, signature)] + [OddDs(key, digest)]
            && r.Keys() == [OddKeyRR(key), OddSigRR(key, signature)] && r.Anchor() == [OddDs(key, digest)]
            && r.Units() == [r.initial, r.keyResp.value, r.dsResp.value]
  {
  }

  lemma MergedWithout(first: seq<RR>, ds: RR)
    requires HasKey(KeyOf, first, KeyOf(ds)) && !HasDs(first)
    ensures !HasDs(Merged(KeyOf, first + [ds]))
  {
    MergedNext(KeyOf, first, ds);
    MergedKeys(KeyOf, first, []);
    assert Merged(KeyOf, first + [ds]) == Merged(KeyOf, first);
  }

  /** The union of this run holds no DS. */
  lemma ShadowedDsIsGone(key: Str, signature: Str, digest: Str)
    ensures HasDs(ShadowRun(key, signature, digest).Anchor()) && !HasDs(ShadowRun(key, signature, digest).Union())
  {
    var first := [Shadow(key, digest), OddKeyRR(key), OddSigRR(key, signature)];
    var ds := OddDs(key, digest);
    ShadowRecords(key, signature, digest);
    assert HasKey(KeyOf, first, KeyOf(ds)) by {
      ProperNames();
      KeyShadowsRecord(ds, []);
      assert first[0] in first;
    }
    assert !HasDs(first);
    MergedWithout(first, ds);
    assert ds in ShadowRun(key, signature, digest).Anchor();
  }

  lemma ShadowRecordsFit(c: Crypto, key: Str, signature: Str, digest: Str)
    requires key != [] && c.wellFormed(ECDSA_P256, key)
    ensures var sig, k := OddSig(key, signature), OddKeyRR(key);
            && Fits(c, Shadow(key, digest), ODD_NAME, sig, key, [k]) && Fits(c, k, ODD_NAME, sig, key, [k])
            && Fits(c, OddSigRR(key, signature), ODD_NAME, sig, key, [k]) && IsCovered(k, ODD_NAME, sig)
            && Fits(c, OddDs(key, digest), ODD_NAME, sig, key, [k])
  {
    ProperNames();
    assert |SHORT_NAME| == 2 && |ODD_NAME| == 11;
  }

  lemma ShadowUnits(c: Crypto, key: Str, signature: Str, digest: Str, u: Msg)
    requires key != [] && c.wellFormed(ECDSA_P256, key) && u in ShadowRun(key, signature, digest).Units()
    ensures OneSigner(c, UnitRecords(ShadowRun(key, signature, digest), u), ODD_NAME, OddSig(key, signature), key,
                      [OddKeyRR(key)])
  {
    var r, sig, k := ShadowRun(key, signature, digest), OddSig(key, signature), OddKeyRR(key);
    ShadowRecords(key, signature, digest);
    ShadowRecordsFit(c, key, signature, digest);
    var rrs := UnitRecords(r, u);
    forall rr | rr in rrs ensures Fits(c, rr, ODD_NAME, sig, key, [k]) {
      assert rr in u.answer || rr in r.Keys() || rr in u.ns;
      assert rr == Shadow(key, digest) || rr == k || rr == OddSigRR(key, signature) || rr == OddDs(key, digest);
    }
    assert k in r.Keys();
    assert k in rrs;
  }

  /** Whatever the cryptography: with a key that signs itself, "validated" is
      reported for a DS whose digest is that of no key. */
  lemma ShadowedDsIsNotCompared(c: Crypto, now: u32, key: Str, signature: Str, digest: Str)
    requires Accepts(c, ODD_NAME, OddSig(key, signature), key, [OddKeyRR(key)])
    requires !IsDigestOf(c, DSInfo(SignerInfo(key).keyTag, ECDSA_P256, SHA256, digest), ODD_NAME, SignerInfo(key))
    ensures var r := ShadowRun(key, signature, digest);
            && (forall issues :: VerdictHolds(c, ODD_NAME, now, r, issues) ==> ReportsValidated(issues))
            && (forall n, ds, k :: ds in DSsAt(r.Anchor(), n) && k in KeysAt(c, r.All(), n)
                                   ==> !IsDigestOf(c, ds, n, k))
  {
    var r := ShadowRun(key, signature, digest);
    ShadowRecords(key, signature, digest);
    ShadowRunIsHealthy(c, now, key, signature, digest);
    forall n, ds, k | ds in DSsAt(r.Anchor(), n) && k in KeysAt(c, r.All(), n) ensures !IsDigestOf(c, ds, n, k) {
      ShadowValues(c, key, signature, digest, n, ds, k);
    }
  }

  lemma ShadowValues(c: Crypto, key: Str, signature: Str, digest: Str, n: Str, ds: DSInfo, k: KeyInfo)
    requires key != [] && c.wellFormed(ECDSA_P256, key)
    requires ds in DSsAt(ShadowRun(key, signature, digest).Anchor(), n)
    requires k in KeysAt(c, ShadowRun(key, signature, digest).All(), n)
    ensures n == ODD_NAME && k == SignerInfo(key)
    ensures ds == DSInfo(SignerInfo(key).keyTag, ECDSA_P256, SHA256, digest)
  {
    var r := ShadowRun(key, signature, digest);
    ShadowRecords(key, signature, digest);
    ProperNames();
    DsHasRecord(r.Anchor(), n, ds);
    KeyHasRecord(c, r.All(), n, k);
  }

  lemma ShadowPairs(c: Crypto, key: Str, signature: Str, digest: Str)
    requires Accepts(c, ODD_NAME, OddSig(key, signature), key, [OddKeyRR(key)])
    ensures var r := ShadowRun(key, signature, digest);
            PairTracked(c, ODD_NAME, r, ODD_NAME, TYPE_DNSKEY) && forall m, t: u16 :: !PairFailed(c, ODD_NAME, r, m, t)
  {
    var r, u := ShadowRun(key, signature, digest), ShadowRun(key, signature, digest).keyResp.value;
    ShadowRecords(key, signature, digest);
    forall u | u in r.Units()
      ensures OneSigner(c, UnitRecords(r, u), ODD_NAME, OddSig(key, signature), key, [OddKeyRR(key)]) {
      ShadowUnits(c, key, signature, digest, u);
    }
    NoPairFails(c, ODD_NAME, r, ODD_NAME, OddSig(key, signature), key, [OddKeyRR(key)]);
    ProperNames();
    assert OddKeyRR(key) in u.answer && OddSigRR(key, signature) in u.answer;
    PairIsChecked(c, ODD_NAME, r, u, ODD_NAME, OddSigRR(key, signature), OddKeyRR(key), OddKeyRR(key), key);
  }

  lemma ShadowIsEverlasting(key: Str, signature: Str, digest: Str)
    ensures forall rr :: rr in ShadowRun(key, signature, digest).All() ==> Everlasting(rr)
  {
    ShadowRecords(key, signature, digest);
  }

  lemma ShadowRunIsHealthy(c: Crypto, now: u32, key: Str, signature: Str, digest: Str)
    requires Accepts(c, ODD_NAME, OddSig(key, signature), key, [OddKeyRR(key)])
    ensures Healthy(c, ODD_NAME, now, ShadowRun(key, signature, digest))
  {
    var r := ShadowRun(key, signature, digest);
    ShadowedDsIsGone(key, signature, digest);
    NoDsNoMismatch(c, r);
    ShadowIsEverlasting(key, signature, digest);
    ShadowPairs(c, key, signature, digest);
    ThenHealthy(c, ODD_NAME, now, r, ODD_NAME, TYPE_DNSKEY);
  }

  // ----- the chain is checked at another owner -----

  const OTHER_NAME: Str := [121, DOT]

  function AddressRR(): RR {
    RR(SHORT_NAME, A(Some([192, 0, 2, 1])), [])
  }

  function AddressSig(key: Str, signature: Str): Rrsig {
    SigOver(TYPE_A, SHORT_NAME, 1, key, signature)
  }

  function AddressSigRR(key: Str, signature: Str): RR {
    RR(SHORT_NAME, RRSIG(AddressSig(key, signature)), [])
  }

  function OtherKeyRR(key: Str): RR {
    RR(OTHER_NAME, SignerKey(key), [])
  }

  function DsRR(name: Str, key: Str, digest: Str): RR {
    RR(name, DS(SignerInfo(key).keyTag, ECDSA_P256, SHA256, Some(digest)), [])
  }

  function DsOf(key: Str, digest: Str): DSInfo {
    DSInfo(SignerInfo(key).keyTag, ECDSA_P256, SHA256, digest)
  }

  /** An audit of `x.`: a signed address, a DNSKEY of `y.` in the DNSKEY response,
      and a DS response with a DS of each name. */
  function ForeignRun(key: Str, signature: Str, own: Str, other: Str): Responses {
    Responses(Msg([AddressRR(), AddressSigRR(key, signature)], []), [], [], Some(Msg([OtherKeyRR(key)], [])),
              Some(Msg([DsRR(SHORT_NAME, key, own), DsRR(OTHER_NAME, key, other)], [])), None)
  }

  lemma ForeignRecords(key: Str, signature: Str, own: Str, other: Str)
    ensures var r := ForeignRun(key, signature, own, other);
            && r.All() == [AddressRR(), AddressSigRR(key, signature), OtherKeyRR(key), DsRR(SHORT_NAME, key, own),
                           DsRR(OTHER_NAME, key, other)]
            && r.Keys() == [OtherKeyRR(key)]
            && r.Anchor() == [DsRR(SHORT_NAME, key, own), DsRR(OTHER_NAME, key, other)]
            && r.Units() == [r.initial, r.keyResp.value, r.dsResp.value]
  {
  }

  lemma PlainNames()
    ensures Canon(SHORT_NAME) == SHORT_NAME && Canon(OTHER_NAME) == OTHER_NAME && SHORT_NAME != OTHER_NAME
    ensures !Ambiguous(SHORT_NAME) && !Ambiguous(OTHER_NAME)
  {
    LabelsOfShort();
    assert Lower(OTHER_NAME) == OTHER_NAME;
    NoBarNotAmbiguous(SHORT_NAME);
    NoBarNotAmbiguous(OTHER_NAME);
    assert SHORT_NAME[0] != OTHER_NAME[0];
  }

  lemma MakeKeyHasBar(o: Str, t: u16, q: Str)
    ensures BAR in MakeKey(o, t, q)
  {
    assert MakeKey(o, t, q)[|o|] == BAR;
  }

  lemma NoBarNotAmbiguous(n: Str)
    requires BAR !in n
    ensures !Ambiguous(n)
  {
    forall o, t: u16, q | IsFqdn(o) ensures n != MakeKey(o, t, q) {
      MakeKeyHasBar(o, t, q);
    }
  }

  lemma ForeignIsUnambiguous(key: Str, signature: Str, own: Str, other: Str)
    ensures UnambiguousOwners(ForeignRun(key, signature, own, other).All())
  {
    ForeignRecords(key, signature, own, other);
    PlainNames();
  }

  lemma ForeignRecordsFit(c: Crypto, key: Str, signature: Str, own: Str, other: Str)
    requires key != [] && c.wellFormed(ECDSA_P256, key)
    ensures var sig, a := AddressSig(key, signature), AddressRR();
            && Fits(c, a, SHORT_NAME, sig, key, [a]) && Fits(c, AddressSigRR(key, signature), SHORT_NAME, sig, key, [a])
            && Fits(c, OtherKeyRR(key), SHORT_NAME, sig, key, [a]) && IsCovered(a, SHORT_NAME, sig)
            && Fits(c, DsRR(SHORT_NAME, key, own), SHORT_NAME, sig, key, [a])
            && !IsCovered(DsRR(SHORT_NAME, key, own), SHORT_NAME, sig)
            && Fits(c, DsRR(OTHER_NAME, key, other), SHORT_NAME, sig, key, [a])
  {
    PlainNames();
  }

  lemma ForeignUnits(c: Crypto, key: Str, signature: Str, own: Str, other: Str, u: Msg)
    requires key != [] && c.wellFormed(ECDSA_P256, key) && u in ForeignRun(key, signature, own, other).Units()
    ensures OneSigner(c, UnitRecords(ForeignRun(key, signature, own, other), u), SHORT_NAME,
                      AddressSig(key, signature), key, [AddressRR()])
  {
    var r, sig, a := ForeignRun(key, signature, own, other), AddressSig(key, signature), AddressRR();
    ForeignRecords(key, signature, own, other);
    ForeignRecordsFit(c, key, signature, own, other);
    forall rr | rr in UnitRecords(r, u) ensures Fits(c, rr, SHORT_NAME, sig, key, [a]) {
      assert rr in u.answer || rr in r.Keys() || rr in u.ns;
      assert rr == a || rr == AddressSigRR(key, signature) || rr == OtherKeyRR(key) || rr == DsRR(SHORT_NAME, key, own)
             || rr == DsRR(OTHER_NAME, key, other);
    }
  }

  lemma ForeignKeyRecords(c: Crypto, key: Str, signature: Str, own: Str, other: Str, rr: RR, n: Str, k: KeyInfo)
    requires key != [] && c.wellFormed(ECDSA_P256, key) && rr in ForeignRun(key, signature, own, other).All()
    ensures IsKeyRecord(c, rr, n, k) <==> rr == OtherKeyRR(key) && n == OTHER_NAME && k == SignerInfo(key)
  {
    ForeignRecords(key, signature, own, other);
    PlainNames();
  }

  lemma ForeignKeys(c: Crypto, key: Str, signature: Str, own: Str, other: Str, n: Str, k: KeyInfo)
    requires key != [] && c.wellFormed(ECDSA_P256, key)
    ensures k in KeysAt(c, ForeignRun(key, signature, own, other).Union(), n)
            <==> n == OTHER_NAME && k == SignerInfo(key)
  {
    var r := ForeignRun(key, signature, own, other);
    ForeignIsUnambiguous(key, signature, own, other);
    UnionKeepsKey(c, r.All(), n, k);
    KeyHasRecord(c, r.All(), n, k);
    forall rr | rr in r.All()
      ensures IsKeyRecord(c, rr, n, k) <==> rr == OtherKeyRR(key) && n == OTHER_NAME && k == SignerInfo(key) {
      ForeignKeyRecords(c, key, signature, own, other, rr, n, k);
    }
    assert OtherKeyRR(key) in r.All() by { ForeignRecords(key, signature, own, other); }
  }

  lemma ForeignDs(key: Str, signature: Str, own: Str, other: Str)
    ensures OwnsDs(ForeignRun(key, signature, own, other), OTHER_NAME)
  {
    var r, ds := ForeignRun(key, signature, own, other), DsRR(OTHER_NAME, key, other);
    ForeignIsUnambiguous(key, signature, own, other);
    assert ds in r.All() by { ForeignRecords(key, signature, own, other); }
    DsOwnerSurvives(r, ds);
    PlainNames();
  }

  /** Keys are at the other name only, and that name owns a DS. */
  lemma ForeignOwners(c: Crypto, key: Str, signature: Str, own: Str, other: Str, n: Str)
    requires key != [] && c.wellFormed(ECDSA_P256, key)
    ensures var r := ForeignRun(key, signature, own, other);
            (OwnsKey(c, r, n) <==> n == OTHER_NAME) && OwnsDs(r, OTHER_NAME)
  {
    var r := ForeignRun(key, signature, own, other);
    ForeignDs(key, signature, own, other);
    ForeignKeys(c, key, signature, own, other, n, SignerInfo(key));
    if OwnsKey(c, r, n) {
      ForeignKeys(c, key, signature, own, other, n, KeysAt(c, r.Union(), n)[0]);
    }
  }

  /** Whatever the cryptography: "validated" is reported although the zone's own
      DS matches no key, because another owner's DS matches another owner's key. */
  lemma ForeignMatchIsReported(c: Crypto, now: u32, key: Str, signature: Str, own: Str, other: Str)
    requires Accepts(c, SHORT_NAME, AddressSig(key, signature), key, [AddressRR()])
    requires IsDigestOf(c, DsOf(key, other), OTHER_NAME, SignerInfo(key))
    ensures var r := ForeignRun(key, signature, own, other);
            && (forall issues :: VerdictHolds(c, SHORT_NAME, now, r, issues) ==> ReportsValidated(issues))
            && DSsAt(r.Anchor(), SHORT_NAME) != [] && !DsMatchesKeyAt(c, r, SHORT_NAME)
            && !SoleOwner(c, r, SHORT_NAME)
  {
    var r := ForeignRun(key, signature, own, other);
    ForeignRecords(key, signature, own, other);
    PlainNames();
    ForeignOwners(c, key, signature, own, other, SHORT_NAME);
    ForeignOwners(c, key, signature, own, other, OTHER_NAME);
    ForeignRunIsHealthy(c, now, key, signature, own, other);
    assert DsRR(SHORT_NAME, key, own) in r.Anchor();
    DsAtName(r.Anchor(), SHORT_NAME);
    assert !OwnsKey(c, r, SHORT_NAME);
  }

  lemma ForeignApexMatches(c: Crypto, key: Str, signature: Str, own: Str, other: Str)
    requires key != [] && c.wellFormed(ECDSA_P256, key)
    requires IsDigestOf(c, DsOf(key, other), OTHER_NAME, SignerInfo(key))
    ensures !SomeApexMismatches(c, ForeignRun(key, signature, own, other))
  {
    var r := ForeignRun(key, signature, own, other);
    ForeignRecords(key, signature, own, other);
    PlainNames();
    ForeignOwners(c, key, signature, own, other, OTHER_NAME);
    var ds := DsRR(OTHER_NAME, key, other);
    assert ds in r.Anchor() && IsDsRecord(ds, OTHER_NAME, DsOf(key, other));
    DsHasRecord(r.Anchor(), OTHER_NAME, DsOf(key, other));
    ForeignKeys(c, key, signature, own, other, OTHER_NAME, SignerInfo(key));
    assert DsMatchesKeyAt(c, r, OTHER_NAME);
    forall n | PossibleApex(c, r, n) ensures n == OTHER_NAME {
      ForeignOwners(c, key, signature, own, other, n);
    }
  }

  lemma ForeignPairs(c: Crypto, key: Str, signature: Str, own: Str, other: Str)
    requires Accepts(c, SHORT_NAME, AddressSig(key, signature), key, [AddressRR()])
    ensures var r := ForeignRun(key, signature, own, other);
            PairTracked(c, SHORT_NAME, r, SHORT_NAME, TYPE_A) && forall m, t: u16 :: !PairFailed(c, SHORT_NAME, r, m, t)
  {
    var r, u := ForeignRun(key, signature, own, other), ForeignRun(key, signature, own, other).initial;
    ForeignRecords(key, signature, own, other);
    forall u | u in r.Units()
      ensures OneSigner(c, UnitRecords(r, u), SHORT_NAME, AddressSig(key, signature), key, [AddressRR()]) {
      ForeignUnits(c, key, signature, own, other, u);
    }
    NoPairFails(c, SHORT_NAME, r, SHORT_NAME, AddressSig(key, signature), key, [AddressRR()]);
    PlainNames();
    assert AddressRR() in u.answer && AddressSigRR(key, signature) in u.answer && OtherKeyRR(key) in r.Keys();
    PairIsChecked(c, SHORT_NAME, r, u, SHORT_NAME, AddressSigRR(key, signature), OtherKeyRR(key), AddressRR(), key);
  }

  lemma ForeignIsEverlasting(key: Str, signature: Str, own: Str, other: Str)
    ensures forall rr :: rr in ForeignRun(key, signature, own, other).All() ==> Everlasting(rr)
    ensures HasDs(ForeignRun(key, signature, own, other).Anchor())
  {
    ForeignRecords(key, signature, own, other);
    assert DsRR(SHORT_NAME, key, own) in ForeignRun(key, signature, own, other).Anchor();
  }

  lemma ForeignRunIsHealthy(c: Crypto, now: u32, key: Str, signature: Str, own: Str, other: Str)
    requires Accepts(c, SHORT_NAME, AddressSig(key, signature), key, [AddressRR()])
    requires IsDigestOf(c, DsOf(key, other), OTHER_NAME, SignerInfo(key))
    ensures Healthy(c, SHORT_NAME, now, ForeignRun(key, signature, own, other))
  {
    ForeignIsEverlasting(key, signature, own, other);
    ForeignApexMatches(c, key, signature, own, other);
    ForeignPairs(c, key, signature, own, other);
    ThenHealthy(c, SHORT_NAME, now, ForeignRun(key, signature, own, other), SHORT_NAME, TYPE_A);
  }
}
